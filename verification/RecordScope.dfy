/**
 Permission rules and their translation to a database filter. The per-record check takes the
 first matching rule, highest priority first; the filter keeps only what translates to SQL.
 */
module RecordScoping {
  import opened Wrappers

  datatype Action = Manage | Act(name: string)

  datatype Subject = All | Type(name: string)

  datatype ScopeValue = Null | Bool(flag: bool) | Number(number: real) | Str(text: string)

  /** A record's columns. */
  type Record = map<string, ScopeValue>

  /** A condition on one key: a plain value, or any other Mongo query. */
  datatype Condition = Plain(value: ScopeValue) | Query(holds: Record -> bool)

  datatype Pair = Pair(key: string, condition: Condition)

  /** The entries of a conditions object. */
  type Conditions = seq<Pair>

  datatype Rule = Rule(action: Action, subject: Subject, conditions: Option<Conditions>, inverted: bool)

  /** One condition set of a filter: column = value pairs. */
  type ValueSet = seq<(string, ScopeValue)>

  datatype Scope = Everything | AnyOf(sets: seq<ValueSet>)

  // ---- The per-record check ------------------------------------------------------------------

  predicate Relevant(rule: Rule, action: Action, subject: Subject) {
    rule.action in {action, Manage} && rule.subject in {subject, All}
  }

  /** The relevant rules, later ones first: they have the higher priority. */
  function RulesFor(rules: seq<Rule>, action: Action, subject: Subject): seq<Rule> {
    if |rules| == 0 then []
    else
      var last := |rules| - 1;
      (if Relevant(rules[last], action, subject) then [rules[last]] else []) + RulesFor(rules[..last], action, subject)
  }

  lemma {:induction false} RulesForAre(rules: seq<Rule>, action: Action, subject: Subject, rule: Rule)
    ensures rule in RulesFor(rules, action, subject) <==> rule in rules && Relevant(rule, action, subject)
    decreases |rules|
  {
    if rules != [] {
      var last := |rules| - 1;
      RulesForAre(rules[..last], action, subject, rule);
      assert rules == rules[..last] + [rules[last]];
    }
  }

  predicate PairHolds(pair: Pair, record: Record) {
    match pair.condition
    case Plain(value) => pair.key in record && record[pair.key] == value
    case Query(holds) => holds(record)
  }

  /** Conditions hold when each of their pairs does; a rule without conditions always matches. */
  ghost predicate Matches(rule: Rule, record: Record) {
    rule.conditions.Some? ==> forall pair <- rule.conditions.value :: PairHolds(pair, record)
  }

  /** The first matching rule decides; without one, nothing is allowed. */
  ghost predicate Allowed(ranked: seq<Rule>, record: Record) {
    ranked != [] && if Matches(ranked[0], record) then !ranked[0].inverted else Allowed(ranked[1..], record)
  }

  // ---- The filter ------------------------------------------------------------------------------

  ghost predicate SetHolds(values: ValueSet, record: Record) {
    forall pair <- values :: pair.0 in record && record[pair.0] == pair.1
  }

  /** What the query built from the scope selects (null compares with IS NULL). */
  ghost predicate Selects(scope: Scope, record: Record) {
    match scope
    case Everything => true
    case AnyOf(sets) => exists values :: values in sets && SetHolds(values, record)
  }

  predicate ExactPair(pair: Pair, columns: seq<string>) { pair.key in columns && pair.condition.Plain? }

  /** Only plain pairs on the given columns, and at least one of them. */
  predicate Translates(conditions: Conditions, columns: seq<string>) {
    |conditions| > 0 && forall i :: 0 <= i < |conditions| ==> ExactPair(conditions[i], columns)
  }

  function Values(conditions: Conditions, columns: seq<string>): (values: ValueSet)
    requires Translates(conditions, columns)
  {
    seq(|conditions|, i requires 0 <= i < |conditions| => (conditions[i].key, conditions[i].condition.value))
  }

  /** The sets of the rules before the first inverted one, everything when one has no conditions. */
  ghost function ScopeOf(ranked: seq<Rule>, columns: seq<string>): Scope {
    if ranked == [] || ranked[0].inverted then AnyOf([])
    else if ranked[0].conditions.None? then Everything
    else
      match ScopeOf(ranked[1..], columns)
      case Everything => Everything
      case AnyOf(sets) =>
        var conditions := ranked[0].conditions.value;
        AnyOf((if Translates(conditions, columns) then [Values(conditions, columns)] else []) + sets)
  }

  /** The sets found so far, in front of what the rest of the rules give. */
  ghost function After(found: seq<ValueSet>, rest: Scope): Scope {
    match rest
    case Everything => Everything
    case AnyOf(sets) => AnyOf(found + sets)
  }

  lemma AfterMore(found: seq<ValueSet>, more: seq<ValueSet>, rest: Scope)
    ensures After(found, After(more, rest)) == After(found + more, rest)
  {
    if rest.AnyOf? { assert found + (more + rest.sets) == (found + more) + rest.sets; }
  }

  lemma AfterRule(found: seq<ValueSet>, ranked: seq<Rule>, columns: seq<string>)
    requires ranked != [] && !ranked[0].inverted && ranked[0].conditions.Some?
    ensures var conditions := ranked[0].conditions.value;
            After(found, ScopeOf(ranked, columns))
            == After(if Translates(conditions, columns) then found + [Values(conditions, columns)] else found,
                     ScopeOf(ranked[1..], columns))
  {
    var conditions := ranked[0].conditions.value;
    var more := if Translates(conditions, columns) then [Values(conditions, columns)] else [];
    AfterMore(found, more, ScopeOf(ranked[1..], columns));
    assert found + more == if more == [] then found else found + [more[0]];
  }

  method RecordScope(rules: seq<Rule>, action: Action, subject: Subject, columns: seq<string>) returns (scope: Scope)
    ensures scope == ScopeOf(RulesFor(rules, action, subject), columns)
  {
    var ranked := RulesFor(rules, action, subject);
    var anyOf: seq<ValueSet> := [];
    var i := 0;
    while i < |ranked|
      invariant 0 <= i <= |ranked|
      invariant After(anyOf, ScopeOf(ranked[i..], columns)) == ScopeOf(ranked, columns)
    {
      var rule := ranked[i];
      assert ranked[i..][0] == rule && ranked[i..][1..] == ranked[i + 1..];
      if rule.inverted { break; }
      if rule.conditions.None? { return Everything; }
      AfterRule(anyOf, ranked[i..], columns);
      var conditions := rule.conditions.value;
      if Translates(conditions, columns) {
        anyOf := anyOf + [Values(conditions, columns)];
      }
      i := i + 1;
    }
    assert i < |ranked| ==> ranked[i..][0] == ranked[i];
    scope := AnyOf(anyOf);
  }

  // ---- The filter refines the check ------------------------------------------------------------

  /** The rule reaches the filter: it has no conditions, or they translate. */
  ghost predicate Exact(rule: Rule, columns: seq<string>) {
    rule.conditions.Some? ==> Translates(rule.conditions.value, columns)
  }

  /** How many rules come before the first inverted one. */
  function Leading(ranked: seq<Rule>): (n: nat)
    ensures n <= |ranked|
    ensures forall i :: 0 <= i < n ==> !ranked[i].inverted
    ensures n < |ranked| ==> ranked[n].inverted
  {
    if |ranked| == 0 || ranked[0].inverted then 0 else 1 + Leading(ranked[1..])
  }

  ghost predicate LeadingMatch(ranked: seq<Rule>, columns: seq<string>, record: Record, exact: bool) {
    exists i :: 0 <= i < Leading(ranked) && Matches(ranked[i], record) && Exact(ranked[i], columns) == exact
  }

  lemma ValuesHoldAlike(conditions: Conditions, columns: seq<string>, record: Record)
    requires Translates(conditions, columns)
    ensures SetHolds(Values(conditions, columns), record) <==> forall pair <- conditions :: PairHolds(pair, record)
  {
    var values := Values(conditions, columns);
    if SetHolds(values, record) {
      forall i | 0 <= i < |conditions| ensures PairHolds(conditions[i], record) {
        assert values[i] in values && ExactPair(conditions[i], columns);
      }
    }
    if forall pair <- conditions :: PairHolds(pair, record) {
      forall i | 0 <= i < |values| ensures values[i].0 in record && record[values[i].0] == values[i].1 {
        assert ExactPair(conditions[i], columns) && PairHolds(conditions[i], record);
      }
    }
  }

  /** A match among the rules before the first inverted one: the head's, or one in the tail. */
  lemma LeadingMatchStep(ranked: seq<Rule>, columns: seq<string>, record: Record, exact: bool)
    requires ranked != [] && !ranked[0].inverted
    ensures LeadingMatch(ranked, columns, record, exact)
            <==> (Matches(ranked[0], record) && Exact(ranked[0], columns) == exact)
                 || LeadingMatch(ranked[1..], columns, record, exact)
  {
    if LeadingMatch(ranked[1..], columns, record, exact) {
      var i :|
        0 <= i < Leading(ranked[1..]) && Matches(ranked[1..][i], record) && Exact(ranked[1..][i], columns) == exact;
      assert ranked[i + 1] == ranked[1..][i];
    }
    if LeadingMatch(ranked, columns, record, exact) {
      var i :| 0 <= i < Leading(ranked) && Matches(ranked[i], record) && Exact(ranked[i], columns) == exact;
      assert i > 0 ==> ranked[1..][i - 1] == ranked[i];
    }
  }

  lemma SelectsStep(values: ValueSet, sets: seq<ValueSet>, record: Record)
    ensures Selects(AnyOf([values] + sets), record) <==> SetHolds(values, record) || Selects(AnyOf(sets), record)
  {
    if SetHolds(values, record) { assert values in [values] + sets; }
    if Selects(AnyOf(sets), record) {
      var v :| v in sets && SetHolds(v, record);
      assert v in [values] + sets;
    }
  }

  /** The filter selects a record exactly when a translatable rule before the first "cannot" matches it. */
  lemma {:induction false} SelectsExactly(ranked: seq<Rule>, columns: seq<string>, record: Record)
    ensures Selects(ScopeOf(ranked, columns), record) <==> LeadingMatch(ranked, columns, record, true)
    decreases |ranked|
  {
    if ranked != [] && !ranked[0].inverted {
      LeadingMatchStep(ranked, columns, record, true);
      SelectsExactly(ranked[1..], columns, record);
      if ranked[0].conditions.Some? && Translates(ranked[0].conditions.value, columns) {
        ValuesHoldAlike(ranked[0].conditions.value, columns, record);
        match ScopeOf(ranked[1..], columns)
        case Everything =>
        case AnyOf(sets) => SelectsStep(Values(ranked[0].conditions.value, columns), sets, record);
      }
    }
  }

  /** Any match before the first "cannot" allows the record; otherwise the rules from it on decide. */
  lemma {:induction false} AllowedExactly(ranked: seq<Rule>, columns: seq<string>, record: Record)
    ensures Allowed(ranked, record)
            <==> LeadingMatch(ranked, columns, record, true) || LeadingMatch(ranked, columns, record, false)
                 || Allowed(ranked[Leading(ranked)..], record)
    decreases |ranked|
  {
    if ranked != [] && !ranked[0].inverted {
      LeadingMatchStep(ranked, columns, record, true);
      LeadingMatchStep(ranked, columns, record, false);
      AllowedExactly(ranked[1..], columns, record);
      assert ranked[Leading(ranked)..] == ranked[1..][Leading(ranked[1..])..];
    } else {
      assert ranked[Leading(ranked)..] == ranked;
    }
  }

  /** A record the filter selects passes the per-record check, whatever the rules. */
  lemma SelectedIsAllowed(rules: seq<Rule>, action: Action, subject: Subject, columns: seq<string>, record: Record)
    ensures var ranked := RulesFor(rules, action, subject);
            Selects(ScopeOf(ranked, columns), record) ==> Allowed(ranked, record)
  {
    var ranked := RulesFor(rules, action, subject);
    SelectsExactly(ranked, columns, record);
    AllowedExactly(ranked, columns, record);
  }

  /**
   The filter misses an allowed record exactly when no translatable rule before the first
   "cannot" matches it, while one that does not translate, or a rule below the "cannot", allows it.
   */
  lemma MissedExactly(ranked: seq<Rule>, columns: seq<string>, record: Record)
    ensures Allowed(ranked, record) && !Selects(ScopeOf(ranked, columns), record)
            <==> !LeadingMatch(ranked, columns, record, true)
                 && (LeadingMatch(ranked, columns, record, false) || Allowed(ranked[Leading(ranked)..], record))
  {
    SelectsExactly(ranked, columns, record);
    AllowedExactly(ranked, columns, record);
  }

  /** Without a "cannot", and with conditions that all translate, filter and check agree on every record. */
  lemma PlainRulesAgree(ranked: seq<Rule>, columns: seq<string>, record: Record)
    requires forall rule <- ranked :: !rule.inverted && Exact(rule, columns)
    ensures Selects(ScopeOf(ranked, columns), record) <==> Allowed(ranked, record)
  {
    SelectsExactly(ranked, columns, record);
    AllowedExactly(ranked, columns, record);
  }

  // ---- Told from the rule list as it was written -------------------------------------------------

  /** The rule is for this action or for all, on this subject or on all. */
  predicate Concerns(rule: Rule, action: Action, subject: Subject) {
    && (rule.action == Manage || rule.action == action)
    && (rule.subject == All || rule.subject == subject)
  }

  /** Rule i is the last one written that concerns the action and matches the record. */
  ghost predicate Decides(rules: seq<Rule>, action: Action, subject: Subject, record: Record, i: nat) {
    && i < |rules| && Concerns(rules[i], action, subject) && Matches(rules[i], record)
    && forall j :: i < j < |rules| && Concerns(rules[j], action, subject) ==> !Matches(rules[j], record)
  }

  /**
   Rule i is a "can" that concerns the action, without conditions or with nothing but plain ones on the
   given columns, at least one, which the record meets; and no "cannot" for the action was written later.
   */
  ghost predicate Shows(
      rules: seq<Rule>, action: Action, subject: Subject, columns: seq<string>, record: Record, i: nat)
  {
    && i < |rules| && Concerns(rules[i], action, subject) && !rules[i].inverted
    && (rules[i].conditions.Some? ==>
          var conditions := rules[i].conditions.value;
          && conditions != []
          && forall k :: 0 <= k < |conditions| ==>
               && conditions[k].key in columns && conditions[k].condition.Plain?
               && conditions[k].key in record && record[conditions[k].key] == conditions[k].condition.value)
    && forall j :: i < j < |rules| && Concerns(rules[j], action, subject) ==> !rules[j].inverted
  }

  lemma RulesForLast(rules: seq<Rule>, action: Action, subject: Subject)
    requires rules != []
    ensures var last, front := rules[|rules| - 1], RulesFor(rules[..|rules| - 1], action, subject);
            RulesFor(rules, action, subject) == if Concerns(last, action, subject) then [last] + front else front
  {
  }

  lemma DecidesStep(rules: seq<Rule>, action: Action, subject: Subject, record: Record, i: nat)
    requires rules != []
    ensures var last := rules[|rules| - 1];
            Decides(rules, action, subject, record, i)
            <==> if i == |rules| - 1 then Concerns(last, action, subject) && Matches(last, record)
                 else
                   && Decides(rules[..|rules| - 1], action, subject, record, i)
                   && !(Concerns(last, action, subject) && Matches(last, record))
  {
    var front := rules[..|rules| - 1];
    assert forall j :: 0 <= j < |front| ==> front[j] == rules[j];
  }

  lemma AllowedLast(rules: seq<Rule>, action: Action, subject: Subject, record: Record)
    requires rules != []
    ensures var last, front := rules[|rules| - 1], RulesFor(rules[..|rules| - 1], action, subject);
            Allowed(RulesFor(rules, action, subject), record)
            <==> if Concerns(last, action, subject) && Matches(last, record) then !last.inverted
                 else Allowed(front, record)
  {
    var last, front := rules[|rules| - 1], RulesFor(rules[..|rules| - 1], action, subject);
    RulesForLast(rules, action, subject);
    assert ([last] + front)[1..] == front;
  }

  ghost predicate Permits(rules: seq<Rule>, action: Action, subject: Subject, record: Record, i: nat) {
    Decides(rules, action, subject, record, i) && !rules[i].inverted
  }

  /** The per-record check: the last rule written that concerns the action and matches must be a "can". */
  lemma {:induction false} AllowedByRules(rules: seq<Rule>, action: Action, subject: Subject, record: Record)
    ensures Allowed(RulesFor(rules, action, subject), record)
            <==> exists i :: Permits(rules, action, subject, record, i)
    decreases |rules|
  {
    if rules != [] {
      var last, front := |rules| - 1, rules[..|rules| - 1];
      AllowedByRules(front, action, subject, record);
      AllowedLast(rules, action, subject, record);
      if i: nat :| Permits(rules, action, subject, record, i) {
        DecidesStep(rules, action, subject, record, i);
        assert i < last ==> Permits(front, action, subject, record, i);
      }
      if Allowed(RulesFor(rules, action, subject), record) {
        DecidesStep(rules, action, subject, record, last);
        if Concerns(rules[last], action, subject) && Matches(rules[last], record) {
          assert Permits(rules, action, subject, record, last);
        } else {
          var i: nat :| Permits(front, action, subject, record, i);
          DecidesStep(rules, action, subject, record, i);
          assert Permits(rules, action, subject, record, i);
        }
      }
    }
  }

  lemma ShowsStep(rules: seq<Rule>, action: Action, subject: Subject, columns: seq<string>, record: Record, i: nat)
    requires rules != []
    ensures var last := rules[|rules| - 1];
            Shows(rules, action, subject, columns, record, i)
            <==> if i == |rules| - 1 then
                   && Concerns(last, action, subject) && !last.inverted
                   && Matches(last, record) && Exact(last, columns)
                 else
                   && Shows(rules[..|rules| - 1], action, subject, columns, record, i)
                   && !(Concerns(last, action, subject) && last.inverted)
  {
    var front := rules[..|rules| - 1];
    assert forall j :: 0 <= j < |front| ==> front[j] == rules[j];
    if i == |rules| - 1 && rules[i].conditions.Some? {
      var conditions := rules[i].conditions.value;
      if Exact(rules[i], columns) && Matches(rules[i], record) {
        forall k | 0 <= k < |conditions|
          ensures conditions[k].key in columns && conditions[k].condition.Plain?
          ensures conditions[k].key in record && record[conditions[k].key] == conditions[k].condition.value
        {
          assert ExactPair(conditions[k], columns) && PairHolds(conditions[k], record);
        }
      }
    }
  }

  lemma SelectsLast(rules: seq<Rule>, action: Action, subject: Subject, columns: seq<string>, record: Record)
    requires rules != []
    ensures var last, front := rules[|rules| - 1], RulesFor(rules[..|rules| - 1], action, subject);
            Selects(ScopeOf(RulesFor(rules, action, subject), columns), record)
            <==> if Concerns(last, action, subject) then
                   !last.inverted
                   && ((Matches(last, record) && Exact(last, columns)) || Selects(ScopeOf(front, columns), record))
                 else Selects(ScopeOf(front, columns), record)
  {
    var last, front := rules[|rules| - 1], RulesFor(rules[..|rules| - 1], action, subject);
    RulesForLast(rules, action, subject);
    if Concerns(last, action, subject) {
      var ranked := [last] + front;
      assert ranked[1..] == front;
      SelectsExactly(ranked, columns, record);
      SelectsExactly(front, columns, record);
      if !last.inverted { LeadingMatchStep(ranked, columns, record, true); }
    }
  }

  /** The filter, told from the rules as they were written. */
  lemma {:induction false} SelectsByRules(rules: seq<Rule>, action: Action, subject: Subject, columns: seq<string>,
                                          record: Record)
    ensures Selects(ScopeOf(RulesFor(rules, action, subject), columns), record)
            <==> exists i :: Shows(rules, action, subject, columns, record, i)
    decreases |rules|
  {
    if rules != [] {
      var last, front := |rules| - 1, rules[..|rules| - 1];
      SelectsByRules(front, action, subject, columns, record);
      SelectsLast(rules, action, subject, columns, record);
      if i: nat :| Shows(rules, action, subject, columns, record, i) {
        ShowsStep(rules, action, subject, columns, record, i);
      }
      if Selects(ScopeOf(RulesFor(rules, action, subject), columns), record) {
        ShowsStep(rules, action, subject, columns, record, last);
        if i: nat :| Shows(front, action, subject, columns, record, i) {
          ShowsStep(rules, action, subject, columns, record, i);
        }
      }
    }
  }

  /**
   Neither a "cannot" nor an untranslatable rule alone decides it: a "cannot" below everything
   does no harm, while empty conditions, or a "cannot" that matches nothing, hide every record.
   */
  lemma FilterMayMissAllowedRecords(columns: seq<string>, record: Record)
    ensures var all := [Rule(Manage, All, None, false), Rule(Manage, All, None, true)];
            Selects(ScopeOf(all, columns), record) && Allowed(all, record)
    ensures var open := [Rule(Manage, All, Some([]), false)];
            !Selects(ScopeOf(open, columns), record) && Allowed(open, record)
    ensures var hidden := Rule(Manage, All, Some([Pair("id", Query(r => false))]), true);
            var below := [hidden, Rule(Manage, All, None, false)];
            !Selects(ScopeOf(below, columns), record) && Allowed(below, record)
  {
    var below := [Rule(Manage, All, Some([Pair("id", Query(r => false))]), true), Rule(Manage, All, None, false)];
    assert !PairHolds(below[0].conditions.value[0], record);
    assert Allowed(below[1..], record);
  }
}
