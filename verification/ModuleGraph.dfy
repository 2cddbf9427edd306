/**
 The module-cycle check: a depth-first search with three states that reports the path of
 every back edge. Reported lists are real cycles, and every cycle of the graph has an edge
 that closes a reported one, so nothing is reported exactly when the graph is acyclic.
 */
module ModuleGraph {
  type Graph = map<string, seq<string>>

  /** Dependencies of a module (none when it is not in the graph). */
  function Dependencies(g: Graph, name: string): seq<string> { if name in g then g[name] else [] }

  ghost function Nodes(g: Graph): set<string> {
    g.Keys + set n, d | n in g && d in g[n] :: d
  }

  /** The dependencies of a module are the keys of its map of imports: each there once. */
  ghost predicate EachOnce(g: Graph) { forall n :: Distinct(Dependencies(g, n)) }

  predicate Edge(g: Graph, from: string, to: string) { to in Dependencies(g, from) }

  predicate IsPath(g: Graph, p: seq<string>) {
    forall i :: 0 <= i < |p| - 1 ==> Edge(g, p[i], p[i + 1])
  }

  predicate IsCycle(g: Graph, p: seq<string>) {
    |p| >= 2 && p[0] == p[|p| - 1] && IsPath(g, p)
  }

  ghost predicate Acyclic(g: Graph) { forall p :: !IsCycle(g, p) }

  predicate Distinct(s: seq<string>) { forall i, j :: 0 <= i < j < |s| ==> s[i] != s[j] }

  /** The edge closes a reported cycle. */
  ghost predicate Closes(cycles: seq<seq<string>>, from: string, to: string) {
    exists i :: 0 <= i < |cycles| && ClosedBy(cycles[i], from, to)
  }

  predicate ClosedBy(c: seq<string>, from: string, to: string) {
    |c| >= 2 && c[|c| - 2] == from && c[|c| - 1] == to
  }

  function From(c: seq<string>): string
    requires |c| >= 2
  {
    c[|c| - 2]
  }

  /** A list that repeats no module besides its ends. */
  predicate Simple(c: seq<string>) { |c| >= 2 && Distinct(c[..|c| - 1]) }

  /** Each list is simple, and no edge closes two of them. */
  ghost predicate Tidy(cycles: seq<seq<string>>)
    decreases |cycles|
  {
    cycles == []
    || var last, front := cycles[|cycles| - 1], cycles[..|cycles| - 1];
       Simple(last) && Tidy(front) && !Closes(front, From(last), last[|last| - 1])
  }

  lemma {:induction false} TidyExactly(cycles: seq<seq<string>>, i: nat)
    requires Tidy(cycles) && i < |cycles|
    ensures Simple(cycles[i])
    ensures forall j, from, to :: i < j < |cycles| && ClosedBy(cycles[i], from, to) ==> !ClosedBy(cycles[j], from, to)
    decreases |cycles|
  {
    var front := cycles[..|cycles| - 1];
    if i < |front| {
      TidyExactly(front, i);
      assert front[i] == cycles[i];
      assert forall j :: i < j < |front| ==> front[j] == cycles[j];
    }
  }

  lemma TidyMore(cycles: seq<seq<string>>, c: seq<string>, from: string, to: string)
    requires Tidy(cycles) && Simple(c) && ClosedBy(c, from, to) && !Closes(cycles, from, to)
    ensures Tidy(cycles + [c])
  {
    assert (cycles + [c])[..|cycles|] == cycles;
  }

  /** The cycles from the n-th on are closed by modules not known before, or by the module's edges to these. */
  ghost predicate ClosedByOwn(cycles: seq<seq<string>>, n: nat, known: set<string>, name: string, to: set<string>) {
    forall i :: n <= i < |cycles| ==>
      |cycles[i]| >= 2 && (From(cycles[i]) !in known || (From(cycles[i]) == name && cycles[i][|cycles[i]| - 1] in to))
  }

  /** What one more dependency's search adds. */
  lemma OwnCyclesGrow(before: seq<seq<string>>, cycles: seq<seq<string>>, n: nat, known: set<string>,
                      later: set<string>, name: string, to: set<string>, d: string)
    requires n <= |before| && before <= cycles && known <= later && ClosedByOwn(before, n, known, name, to)
    requires ClosedByOwn(cycles, |before|, later, name, {d})
    ensures ClosedByOwn(cycles, n, known, name, to + {d})
  {
    forall i | n <= i < |cycles|
      ensures |cycles[i]| >= 2
      ensures From(cycles[i]) !in known || (From(cycles[i]) == name && cycles[i][|cycles[i]| - 1] in to + {d})
    {
      if i < |before| { assert cycles[i] == before[i]; }
    }
  }

  function Named(names: seq<string>): set<string> { set n | n in names }

  ghost predicate ClosedByNone(cycles: seq<seq<string>>, name: string) {
    forall i :: 0 <= i < |cycles| ==> |cycles[i]| >= 2 && From(cycles[i]) != name
  }

  /** A dependency not looked at yet closes no reported cycle. */
  lemma NotClosedYet(before: seq<seq<string>>, cycles: seq<seq<string>>, known: set<string>, name: string,
                     to: set<string>, d: string)
    requires before <= cycles && ClosedByNone(before, name) && name in known
    requires ClosedByOwn(cycles, |before|, known, name, to) && d !in to
    ensures !Closes(cycles, name, d)
  {
    forall i | 0 <= i < |cycles| ensures !ClosedBy(cycles[i], name, d) {
      if i < |before| { assert cycles[i] == before[i]; }
    }
  }

  /** What holds of the dependencies looked at so far still holds after the search of one more. */
  lemma FollowedOn(name: string, dependencies: seq<string>, i: nat, order: seq<string>, order': seq<string>,
                   cycles: seq<seq<string>>, cycles': seq<seq<string>>)
    requires i < |dependencies| && order <= order' && cycles <= cycles'
    requires forall j :: 0 <= j < i ==> dependencies[j] in order || Closes(cycles, name, dependencies[j])
    requires dependencies[i] in order' || Closes(cycles', name, dependencies[i])
    ensures forall j :: 0 <= j <= i ==> dependencies[j] in order' || Closes(cycles', name, dependencies[j])
  {
    forall j | 0 <= j < i && Closes(cycles, name, dependencies[j]) ensures Closes(cycles', name, dependencies[j]) {
      ClosesStays(cycles, cycles', name, dependencies[j]);
    }
  }

  lemma NamedMore(names: seq<string>, i: nat)
    requires i < |names|
    ensures Named(names[..i + 1]) == Named(names[..i]) + {names[i]}
    ensures Distinct(names) ==> names[i] !in Named(names[..i])
  {
    assert names[..i + 1] == names[..i] + [names[i]];
  }

  ghost predicate Before(order: seq<string>, d: string, i: int) {
    exists j :: 0 <= j < i && j < |order| && order[j] == d
  }

  /** Modules in the order their visit ended: each one's dependencies ended earlier, or the edge was reported. */
  ghost predicate Finished(g: Graph, order: seq<string>, cycles: seq<seq<string>>) {
    forall i, d :: 0 <= i < |order| && Edge(g, order[i], d) ==> Before(order, d, i) || Closes(cycles, order[i], d)
  }

  lemma FinishedExtends(g: Graph, order: seq<string>, order': seq<string>,
                        cycles: seq<seq<string>>, cycles': seq<seq<string>>)
    requires Finished(g, order, cycles) && order <= order' && cycles <= cycles'
    ensures forall i, d :: 0 <= i < |order| && Edge(g, order'[i], d) ==>
              Before(order', d, i) || Closes(cycles', order'[i], d)
  {
    forall i, d | 0 <= i < |order| && Edge(g, order'[i], d)
      ensures Before(order', d, i) || Closes(cycles', order'[i], d)
    {
      assert order'[i] == order[i];
      if Before(order, d, i) {
        var j :| 0 <= j < i && j < |order| && order[j] == d;
        assert order'[j] == d;
      } else {
        var k :| 0 <= k < |cycles| && ClosedBy(cycles[k], order[i], d);
        assert cycles'[k] == cycles[k];
      }
    }
  }

  lemma FinishedNext(g: Graph, order: seq<string>, name: string, cycles: seq<seq<string>>)
    requires Finished(g, order, cycles)
    requires forall d :: Edge(g, name, d) ==> d in order || Closes(cycles, name, d)
    ensures Finished(g, order + [name], cycles)
  {
    var order' := order + [name];
    FinishedExtends(g, order, order', cycles, cycles);
    forall d | Edge(g, name, d) ensures Before(order', d, |order|) || Closes(cycles, name, d) {
      if d in order {
        var k :| 0 <= k < |order| && order[k] == d;
        assert order'[k] == d;
      }
    }
  }

  lemma ClosesStays(cycles: seq<seq<string>>, cycles': seq<seq<string>>, from: string, to: string)
    requires cycles <= cycles' && Closes(cycles, from, to)
    ensures Closes(cycles', from, to)
  {
    var k :| 0 <= k < |cycles| && ClosedBy(cycles[k], from, to);
    assert cycles'[k] == cycles[k];
  }

  method IndexOf(s: seq<string>, x: string) returns (index: nat)
    requires x in s
    ensures index < |s| && s[index] == x
  {
    index := 0;
    while s[index] != x
      invariant index < |s| && x in s[index..]
      decreases |s| - index
    {
      index := index + 1;
    }
  }

  /** 1 marks the modules on the stack, 2 those whose visit ended. */
  ghost predicate Marks(state: map<string, int>, stack: seq<string>, order: seq<string>) {
    && (forall n :: n in state ==> state[n] == 1 || state[n] == 2)
    && (forall n :: n in state && state[n] == 1 <==> n in stack)
    && (forall n :: n in state && state[n] == 2 <==> n in order)
  }

  /** Without its last module the stack is still a path of distinct modules. */
  lemma Popped(g: Graph, stack: seq<string>, n: string)
    requires stack != [] && Distinct(stack) && IsPath(g, stack)
    ensures var rest := stack[..|stack| - 1];
            Distinct(rest) && IsPath(g, rest) && (n in rest <==> n in stack && n != stack[|stack| - 1])
  {
    assert stack == stack[..|stack| - 1] + [stack[|stack| - 1]];
  }

  lemma AppendedDistinct(order: seq<string>, name: string, n: string)
    requires Distinct(order) && name !in order
    ensures Distinct(order + [name]) && (n in order + [name] <==> n in order || n == name)
  {
  }

  lemma LeaveMarks(g: Graph, state: map<string, int>, stack: seq<string>, order: seq<string>, name: string)
    requires stack != [] && stack[|stack| - 1] == name && Marks(state, stack, order)
    requires Distinct(order) && Distinct(stack) && IsPath(g, stack)
    ensures var rest := stack[..|stack| - 1];
            && Marks(state[name := 2], rest, order + [name]) && Distinct(order + [name])
            && Distinct(rest) && IsPath(g, rest)
    ensures name in state
  {
    var rest, order' := stack[..|stack| - 1], order + [name];
    assert name in stack;
    Popped(g, stack, name);
    AppendedDistinct(order, name, name);
    forall n ensures (n in rest <==> n in stack && n != name) && (n in order' <==> n in order || n == name) {
      Popped(g, stack, n);
      AppendedDistinct(order, name, n);
    }
  }

  /** The stack from a dependency of its last module on, and the dependency again, is a simple cycle. */
  lemma StackCycle(g: Graph, stack: seq<string>, start: nat, name: string, dependency: string)
    requires stack != [] && stack[|stack| - 1] == name && Distinct(stack) && IsPath(g, stack)
    requires start < |stack| && stack[start] == dependency && Edge(g, name, dependency)
    ensures var cycle := stack[start..] + [dependency];
            IsCycle(g, cycle) && Simple(cycle) && ClosedBy(cycle, name, dependency) && name in stack
  {
    var cycle := stack[start..] + [dependency];
    assert cycle[..|cycle| - 1] == stack[start..];
  }

  lemma ClosedByLast(cycles: seq<seq<string>>, c: seq<string>, known: set<string>, name: string, to: string)
    requires ClosedBy(c, name, to)
    ensures Closes(cycles + [c], name, to) && ClosedByOwn(cycles + [c], |cycles|, known, name, {to})
  {
    assert (cycles + [c])[|cycles|] == c;
  }

  /** What holds all through a search. */
  ghost predicate SearchOk(
      g: Graph, state: map<string, int>, cycles: seq<seq<string>>, order: seq<string>, stack: seq<string>)
  {
    && state.Keys <= Nodes(g) && Marks(state, stack, order)
    && Distinct(order) && Distinct(stack) && IsPath(g, stack)
    && CyclesOk(g, cycles, state.Keys)
    && Finished(g, order, cycles)
  }

  /** Reported are cycles, each closed by an edge of a module known by now. */
  ghost predicate CyclesOk(g: Graph, cycles: seq<seq<string>>, known: set<string>) {
    (forall i :: 0 <= i < |cycles| ==> IsCycle(g, cycles[i]) && From(cycles[i]) in known) && Tidy(cycles)
  }

  lemma ReportKeepsCycles(g: Graph, cycles: seq<seq<string>>, known: set<string>, c: seq<string>,
                          from: string, to: string)
    requires CyclesOk(g, cycles, known) && IsCycle(g, c) && Simple(c) && ClosedBy(c, from, to) && from in known
    requires !Closes(cycles, from, to)
    ensures CyclesOk(g, cycles + [c], known)
  {
    TidyMore(cycles, c, from, to);
  }

  lemma ReportKeepsFinished(g: Graph, order: seq<string>, cycles: seq<seq<string>>, c: seq<string>)
    requires Finished(g, order, cycles)
    ensures Finished(g, order, cycles + [c])
  {
    FinishedExtends(g, order, order, cycles, cycles + [c]);
  }

  class ModuleSearch {
    const graph: Graph
    /** absent = new, 1 = on the stack, 2 = done */
    var state: map<string, int>
    var cycles: seq<seq<string>>
    ghost var order: seq<string>

    constructor (graph: Graph)
      ensures this.graph == graph && state == map[] && cycles == [] && order == []
    {
      this.graph, state, cycles, order := graph, map[], [], [];
    }

    ghost predicate Valid(stack: seq<string>)
      reads this
    {
      SearchOk(graph, state, cycles, order, stack)
    }

    /** Marking `name` before its dependencies are searched. */
    method Enter(name: string, stack: seq<string>)
      requires stack != [] && stack[|stack| - 1] == name && name !in state && name in Nodes(graph)
      requires Valid(stack[..|stack| - 1]) && IsPath(graph, stack)
      modifies this`state
      ensures Valid(stack) && state.Keys == old(state).Keys + {name}
    {
      assert stack == stack[..|stack| - 1] + [name];
      assert forall n :: n in stack <==> n in stack[..|stack| - 1] || n == name;
      state := state[name := 1];
    }

    /** Marking `name` done: its dependencies ended earlier or close a reported cycle. */
    method Leave(name: string, stack: seq<string>)
      requires stack != [] && stack[|stack| - 1] == name && Valid(stack)
      requires forall d :: Edge(graph, name, d) ==> d in order || Closes(cycles, name, d)
      modifies this`state, this`order
      ensures Valid(stack[..|stack| - 1]) && order == old(order) + [name] && state.Keys == old(state).Keys
    {
      LeaveMarks(graph, state, stack, order, name);
      FinishedNext(graph, order, name, cycles);
      state := state[name := 2];
      order := order + [name];
    }

    /** A dependency on the stack closes a cycle. */
    method Report(name: string, dependency: string, stack: seq<string>)
      requires stack != [] && stack[|stack| - 1] == name && Valid(stack)
      requires Edge(graph, name, dependency) && dependency in stack && !Closes(cycles, name, dependency)
      modifies this`cycles
      ensures Valid(stack) && old(cycles) <= cycles && Closes(cycles, name, dependency)
      ensures ClosedByOwn(cycles, |old(cycles)|, state.Keys, name, {dependency})
    {
      var start := IndexOf(stack, dependency);
      var cycle := stack[start..] + [dependency];
      StackCycle(graph, stack, start, name, dependency);
      ReportKeepsCycles(graph, cycles, state.Keys, cycle, name, dependency);
      ReportKeepsFinished(graph, order, cycles, cycle);
      ClosedByLast(cycles, cycle, state.Keys, name, dependency);
      cycles := cycles + [cycle];
    }

    /** The body of visit()'s loop. */
    method Follow(name: string, dependency: string, stack: seq<string>)
      requires stack != [] && stack[|stack| - 1] == name && Valid(stack) && Edge(graph, name, dependency)
      requires EachOnce(graph) && !Closes(cycles, name, dependency)
      modifies this
      ensures Valid(stack) && (dependency in order || Closes(cycles, name, dependency))
      ensures old(order) <= order && old(cycles) <= cycles && old(state).Keys <= state.Keys
      ensures ClosedByOwn(cycles, |old(cycles)|, old(state).Keys, name, {dependency})
      decreases Nodes(graph) - state.Keys, 1
    {
      if dependency in state && state[dependency] == 1 {
        Report(name, dependency, stack);
      } else if dependency !in state {
        var longer := stack + [dependency];
        assert longer[..|longer| - 1] == stack;
        assert dependency in Nodes(graph);
        Visit(dependency, longer);
      }
    }

    /** One round of visit()'s loop; `first` and `known` are the cycles and modules from before the loop. */
    method FollowAt(name: string, dependencies: seq<string>, i: nat, stack: seq<string>,
                    ghost first: seq<seq<string>>, ghost known: set<string>)
      requires stack != [] && stack[|stack| - 1] == name && Valid(stack)
      requires EachOnce(graph) && dependencies == Dependencies(graph, name) && i < |dependencies|
      requires first <= cycles && ClosedByNone(first, name) && known <= state.Keys && name in known
      requires forall j :: 0 <= j < i ==> dependencies[j] in order || Closes(cycles, name, dependencies[j])
      requires ClosedByOwn(cycles, |first|, known, name, Named(dependencies[..i]))
      modifies this
      ensures Valid(stack)
      ensures old(order) <= order && old(cycles) <= cycles && old(state).Keys <= state.Keys
      ensures forall j :: 0 <= j <= i ==> dependencies[j] in order || Closes(cycles, name, dependencies[j])
      ensures ClosedByOwn(cycles, |first|, known, name, Named(dependencies[..i + 1]))
      decreases Nodes(graph) - state.Keys, 2
    {
      assert Edge(graph, name, dependencies[i]);
      NamedMore(dependencies, i);
      NotClosedYet(first, cycles, known, name, Named(dependencies[..i]), dependencies[i]);
      ghost var before, later, ended := cycles, state.Keys, order;
      Follow(name, dependencies[i], stack);
      OwnCyclesGrow(before, cycles, |first|, known, later, name, Named(dependencies[..i]), dependencies[i]);
      FollowedOn(name, dependencies, i, ended, order, before, cycles);
    }

    /** visit()'s loop. */
    method FollowAll(name: string, stack: seq<string>)
      requires stack != [] && stack[|stack| - 1] == name && Valid(stack)
      requires EachOnce(graph) && ClosedByNone(cycles, name)
      modifies this
      ensures Valid(stack)
      ensures forall d :: Edge(graph, name, d) ==> d in order || Closes(cycles, name, d)
      ensures old(order) <= order && old(cycles) <= cycles && old(state).Keys <= state.Keys
      ensures ClosedByOwn(cycles, |old(cycles)|, old(state).Keys, name, Named(Dependencies(graph, name)))
      decreases Nodes(graph) - state.Keys, 3
    {
      var dependencies := Dependencies(graph, name);
      assert name in stack;
      for i := 0 to |dependencies|
        invariant Valid(stack)
        invariant old(order) <= order && old(cycles) <= cycles && old(state).Keys <= state.Keys
        invariant forall j :: 0 <= j < i ==> dependencies[j] in order || Closes(cycles, name, dependencies[j])
        invariant ClosedByOwn(cycles, |old(cycles)|, old(state).Keys, name, Named(dependencies[..i]))
      {
        FollowAt(name, dependencies, i, stack, old(cycles), old(state).Keys);
      }
      assert dependencies[..|dependencies|] == dependencies;
    }

    /** visit(): `stack` ends with `name`; when it returns, `name` is done. */
    method Visit(name: string, stack: seq<string>)
      requires stack != [] && stack[|stack| - 1] == name && name !in state && name in Nodes(graph)
      requires Valid(stack[..|stack| - 1]) && IsPath(graph, stack) && EachOnce(graph)
      modifies this
      ensures Valid(stack[..|stack| - 1]) && name in order
      ensures old(order) <= order && old(cycles) <= cycles && old(state).Keys <= state.Keys
      ensures ClosedByOwn(cycles, |old(cycles)|, old(state).Keys, name, {})
      decreases Nodes(graph) - state.Keys, 0
    {
      Enter(name, stack);
      FollowAll(name, stack);
      Leave(name, stack);
    }

    /** A search from a module not seen yet. */
    method VisitRoot(name: string)
      requires Valid([]) && EachOnce(graph) && name !in state && name in Nodes(graph)
      modifies this
      ensures Valid([]) && name in order && old(order) <= order
    {
      assert [name][..0] == [];
      Visit(name, [name]);
    }

    /** The driver's loop: every module is searched once. */
    method VisitAll(modules: seq<string>)
      requires Valid([]) && EachOnce(graph) && forall n :: n in modules ==> n in graph
      modifies this
      ensures Valid([]) && forall n :: n in modules ==> n in order
    {
      for i := 0 to |modules|
        invariant Valid([])
        invariant forall j :: 0 <= j < i ==> modules[j] in order
      {
        if modules[i] !in state {
          assert modules[i] in graph;
          VisitRoot(modules[i]);
        } else {
          assert state[modules[i]] == 2;
        }
      }
    }

    /** The whole check. */
    method Search(modules: seq<string>)
      requires state == map[] && cycles == [] && order == []
      requires EachOnce(graph) && forall n :: n in modules <==> n in graph
      modifies this
      ensures forall i :: 0 <= i < |cycles| ==> IsCycle(graph, cycles[i]) && Simple(cycles[i])
      ensures forall i, j, from, to :: 0 <= i < j < |cycles| && ClosedBy(cycles[i], from, to) ==>
                !ClosedBy(cycles[j], from, to)
      ensures forall p :: IsCycle(graph, p) ==> exists i :: 0 <= i < |p| - 1 && Closes(cycles, p[i], p[i + 1])
      ensures cycles == [] <==> Acyclic(graph)
      ensures Distinct(order) && (forall n :: n in graph ==> n in order)
      ensures cycles == [] ==> forall i, d :: 0 <= i < |order| && Edge(graph, order[i], d) ==> Before(order, d, i)
    {
      VisitAll(modules);
      FoundAll(graph, order, cycles);
    }
  }

  /** What a search that is over has found. */
  lemma FoundAll(g: Graph, order: seq<string>, cycles: seq<seq<string>>)
    requires Distinct(order) && Finished(g, order, cycles) && Tidy(cycles) && forall n :: n in g ==> n in order
    requires forall i :: 0 <= i < |cycles| ==> IsCycle(g, cycles[i])
    ensures forall i :: 0 <= i < |cycles| ==> Simple(cycles[i])
    ensures forall i, j, from, to :: 0 <= i < j < |cycles| && ClosedBy(cycles[i], from, to) ==>
              !ClosedBy(cycles[j], from, to)
    ensures forall p :: IsCycle(g, p) ==> exists i :: 0 <= i < |p| - 1 && Closes(cycles, p[i], p[i + 1])
    ensures cycles == [] <==> Acyclic(g)
    ensures cycles == [] ==> forall i, d :: 0 <= i < |order| && Edge(g, order[i], d) ==> Before(order, d, i)
  {
    forall i | 0 <= i < |cycles|
      ensures Simple(cycles[i])
      ensures forall j, from, to :: i < j < |cycles| && ClosedBy(cycles[i], from, to) ==> !ClosedBy(cycles[j], from, to)
    {
      TidyExactly(cycles, i);
    }
    forall p | IsCycle(g, p) ensures exists i :: 0 <= i < |p| - 1 && Closes(cycles, p[i], p[i + 1]) {
      EveryCycleIsReported(g, order, cycles, p);
    }
    if cycles != [] { assert IsCycle(g, cycles[0]); }
  }

  /** A cycle none of whose edges was reported would go back in the finish order forever. */
  lemma EveryCycleIsReported(g: Graph, order: seq<string>, cycles: seq<seq<string>>, p: seq<string>)
    requires Distinct(order) && Finished(g, order, cycles) && IsCycle(g, p)
    requires forall n :: n in g ==> n in order
    ensures exists i :: 0 <= i < |p| - 1 && Closes(cycles, p[i], p[i + 1])
  {
    assert Edge(g, p[0], p[1]);
    var start :| 0 <= start < |order| && order[start] == p[0];
    if forall i :: 0 <= i < |p| - 1 ==> !Closes(cycles, p[i], p[i + 1]) {
      var end := PathGoesBack(g, order, cycles, p, start, |p| - 1);
      assert false;
    }
  }

  lemma {:induction false} PathGoesBack(g: Graph, order: seq<string>, cycles: seq<seq<string>>,
                                        p: seq<string>, start: nat, k: nat)
    returns (at: nat)
    requires Finished(g, order, cycles) && IsPath(g, p) && k < |p|
    requires start < |order| && order[start] == p[0]
    requires forall i :: 0 <= i < |p| - 1 ==> !Closes(cycles, p[i], p[i + 1])
    ensures at + k <= start && order[at] == p[k]
  {
    if k == 0 { return start; }
    var previous := PathGoesBack(g, order, cycles, p, start, k - 1);
    assert Edge(g, p[k - 1], p[k]) && !Closes(cycles, p[k - 1], p[k - 1 + 1]);
    at :| 0 <= at < previous && order[at] == p[k];
  }
}
