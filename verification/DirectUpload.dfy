/**
 Direct uploads: completions of one upload in any number of processes, the hourly clean-up,
 and a client that may replace the object at the upload key between any two steps. Storage
 calls and database statements are atomic; any of them may fail, a process may die, and a
 copy or delete the service gave up on may still happen later.
 */
module DirectUploads {
  import opened Wrappers

  /** An ETag identifies the bytes of a version. */
  type Etag = nat

  /** What the checks find in those bytes: their number, and whether the head passes validation. */
  datatype Content = Content(size: nat, valid: bool, image: bool)
  type Contents = Etag -> Content

  datatype Status = PendingUpload | Verifying | Processing | Completed | Rejected

  /** Where a complete() call is. */
  datatype Completion =
    | Arrived
    | Claimed
    | NotUploaded                       // about to put the row back to pending, unconditionally
    | Measured(etag: Etag)
    | Sized(etag: Etag)
    | Verified(etag: Etag)
    | Copied(etag: Etag)
    | Ready(etag: Etag)                 // upload key deleted (or not: that may fail)
    | Rejecting(deleted: nat)
    | Reverting(saved: bool)            // caught an error; `saved`: after its commit took effect
    | Over

  datatype Cleanup = Listed | Removing(deleted: nat) | CleanupOver

  /**
   `row` is None once deleted; `own` is the object at the attachment's key. `lateDeletes`: deletes
   given up on, of the attachment's key (true) or the upload key; `lost`: one of the former took a
   version that was kept or about to be.
   */
  datatype System = System(
    row: Option<Status>, upload: Option<Etag>, own: Option<Etag>, messages: nat,
    completions: map<nat, Completion>, cleanups: map<nat, Cleanup>, lateCopies: set<Etag>,
    lateDeletes: set<bool>, lost: bool)

  datatype Action =
    | ClientPuts(etag: Etag)
    | Arrive(p: nat)
    | Claim(p: nat)
    | Measure(p: nat, answers: bool)
    | PutBack(p: nat)
    | CheckSize(p: nat)
    | ReadHead(p: nat)
    | Copy(p: nat, answers: bool)
    | CopyLands(etag: Etag)
    | DeleteLands(own: bool)
    | DeleteUploadKey(p: nat, works: bool)
    | Save(p: nat, answers: bool)
    | Fail(p: nat)
    | Revert(p: nat, works: bool)
    | RejectDelete(p: nat, works: bool)
    | RejectSave(p: nat)
    | Die(p: nat)
    | ListAbandoned(c: nat)
    | DeleteRow(c: nat)
    | DeleteObject(c: nat, works: bool)

  /** What complete() must find before it keeps a version. */
  predicate Good(size: nat, contents: Contents, e: Etag) {
    contents(e).size == size && contents(e).valid
  }

  predicate At(s: System, p: nat, test: Completion -> bool) {
    p in s.completions && test(s.completions[p])
  }

  predicate Enabled(s: System, a: Action) {
    match a
    case ClientPuts(_) => true
    case Arrive(p) => p !in s.completions && s.row.Some?
    case Claim(p) => At(s, p, (x: Completion) => x.Arrived?)
    case Measure(p, _) => At(s, p, (x: Completion) => x.Claimed?)
    case PutBack(p) => At(s, p, (x: Completion) => x.NotUploaded?)
    case CheckSize(p) => At(s, p, (x: Completion) => x.Measured?)
    case ReadHead(p) => At(s, p, (x: Completion) => x.Sized?)
    case Copy(p, _) => At(s, p, (x: Completion) => x.Verified?)
    case CopyLands(e) => e in s.lateCopies
    case DeleteLands(own) => own in s.lateDeletes
    case DeleteUploadKey(p, _) => At(s, p, (x: Completion) => x.Copied?)
    case Save(p, _) => At(s, p, (x: Completion) => x.Ready?)
    case Fail(p) => At(s, p, (x: Completion) =>
        x.Measured? || x.Sized? || x.Verified? || x.Copied? || x.Ready? || x.Rejecting?)
    case Revert(p, _) => At(s, p, (x: Completion) => x.Reverting?)
    case RejectDelete(p, _) => At(s, p, (x: Completion) => x.Rejecting? && x.deleted < 2)
    case RejectSave(p) => At(s, p, (x: Completion) => x.Rejecting? && x.deleted == 2)
    case Die(p) => p in s.completions
    case ListAbandoned(c) => c !in s.cleanups && s.row == Some(PendingUpload)
    case DeleteRow(c) => c in s.cleanups && s.cleanups[c].Listed?
    case DeleteObject(c, _) => c in s.cleanups && s.cleanups[c].Removing?
  }

  /** transitionSecurityStatus and deleteIfStatus: only from the expected status. */
  function IfStatus(row: Option<Status>, from: Status, to: Option<Status>): Option<Status> {
    if row == Some(from) then to else row
  }

  /** update and manager.update: whatever the status, unless the row is gone. */
  function Update(row: Option<Status>, to: Status): Option<Status> {
    if row.Some? then Some(to) else None
  }

  /** The n-th of both objects deleted: the upload key's, then the attachment's own. */
  function Deleted(s: System, n: nat, works: bool): System {
    if !works then s.(lateDeletes := s.lateDeletes + {n != 0})
    else if n == 0 then s.(upload := None)
    else s.(own := None)
  }

  predicate Kept(s: System) { s.row == Some(Processing) || s.row == Some(Completed) }

  /** The version at the attachment's key is kept, or copied by a completion that goes on to keep it. */
  predicate Needed(s: System) {
    Kept(s) || exists p :: p in s.completions && (s.completions[p].Copied? || s.completions[p].Ready?)
  }

  function Goes(s: System, p: nat, x: Completion): System { s.(completions := s.completions[p := x]) }

  function Step(size: nat, contents: Contents, s: System, a: Action): System
    requires Enabled(s, a)
  {
    match a
    case ClientPuts(e) => s.(upload := Some(e))
    case Arrive(p) => Goes(s, p, Arrived)
    case Claim(p) =>
      if s.row == Some(PendingUpload) then Goes(s.(row := Some(Verifying)), p, Claimed) else Goes(s, p, Over)
    case Measure(p, answers) =>
      Goes(s, p, if answers && s.upload.Some? then Measured(s.upload.value) else NotUploaded)
    case PutBack(p) => Goes(s.(row := Update(s.row, PendingUpload)), p, Over)
    case CheckSize(p) =>
      var e := s.completions[p].etag;
      Goes(s, p, if contents(e).size == size then Sized(e) else Rejecting(0))
    case ReadHead(p) =>
      var e := s.completions[p].etag;
      Goes(s, p, if s.upload != Some(e) then Reverting(false)
                 else if contents(e).valid then Verified(e) else Rejecting(0))
    case Copy(p, answers) =>
      var e := s.completions[p].etag;
      if !answers then Goes(s.(lateCopies := s.lateCopies + {e}), p, Reverting(false))
      else if s.upload == Some(e) then Goes(s.(own := Some(e), lost := false), p, Copied(e))
      else Goes(s, p, Reverting(false))
    case CopyLands(e) =>
      if s.upload == Some(e) then s.(own := Some(e), lost := false, lateCopies := s.lateCopies - {e})
      else s.(lateCopies := s.lateCopies - {e})
    case DeleteLands(own) =>
      if own then s.(own := None, lost := s.lost || Needed(s)) else s.(upload := None)
    case DeleteUploadKey(p, works) =>
      Goes(if works then s.(upload := None) else s.(lateDeletes := s.lateDeletes + {false}),
           p, Ready(s.completions[p].etag))
    case Save(p, answers) =>
      var image := contents(s.completions[p].etag).image;
      Goes(s.(row := Update(s.row, if image then Processing else Completed),
              messages := if image then s.messages + 1 else s.messages),
           p, if answers then Over else Reverting(true))
    case Fail(p) => Goes(s, p, Reverting(false))
    case Revert(p, works) =>
      Goes(s.(row := if works then IfStatus(s.row, Verifying, Some(PendingUpload)) else s.row), p, Over)
    case RejectDelete(p, works) =>
      var n := s.completions[p].deleted;
      Goes(Deleted(s, n, works), p, Rejecting(n + 1))
    case RejectSave(p) => Goes(s.(row := Update(s.row, Rejected)), p, Over)
    case Die(p) => s.(completions := s.completions - {p})
    case ListAbandoned(c) => s.(cleanups := s.cleanups[c := Listed])
    case DeleteRow(c) =>
      s.(row := IfStatus(s.row, PendingUpload, None),
         cleanups := s.cleanups[c := if s.row == Some(PendingUpload) then Removing(0) else CleanupOver])
    case DeleteObject(c, works) =>
      var n := s.cleanups[c].deleted;
      Deleted(s, n, works).(cleanups := s.cleanups[c := if n == 0 then Removing(1) else CleanupOver])
  }

  predicate Runs(size: nat, contents: Contents, s: System, actions: seq<Action>)
    decreases |actions|
  {
    actions == [] || (Enabled(s, actions[0]) && Runs(size, contents, Step(size, contents, s, actions[0]), actions[1..]))
  }

  function Final(size: nat, contents: Contents, s: System, actions: seq<Action>): System
    requires Runs(size, contents, s, actions)
    decreases |actions|
  {
    if actions == [] then s else Final(size, contents, Step(size, contents, s, actions[0]), actions[1..])
  }

  /** initiate(): the row is pending and nothing is at the attachment's key. */
  predicate Initial(s: System) {
    && s.row == Some(PendingUpload) && s.own.None? && s.messages == 0
    && s.completions == map[] && s.cleanups == map[] && s.lateCopies == {} && s.lateDeletes == {} && !s.lost
  }

  // ---- The invariant -------------------------------------------------------------------

  /** Between winning the claim and letting it go. */
  predicate Holding(x: Completion) { !x.Arrived? && !x.Over? }

  predicate Holds(s: System, p: nat) { p in s.completions && Holding(s.completions[p]) }

  ghost predicate OneHolder(s: System) {
    forall p, q :: Holds(s, p) && Holds(s, q) ==> p == q
  }

  predicate CompletionOk(size: nat, contents: Contents, s: System, x: Completion) {
    && (Holding(x) ==> s.row == Some(Verifying) || (x == Reverting(true) && Kept(s)))
    && (x.Sized? ==> contents(x.etag).size == size)
    && (x.Verified? || x.Copied? || x.Ready? ==> Good(size, contents, x.etag))
    && (x.Copied? || x.Ready? ==> s.own.Some? || s.lost)
  }

  ghost predicate ObjectsOk(size: nat, contents: Contents, s: System) {
    && (s.own.Some? ==> Good(size, contents, s.own.value))
    && (forall e :: e in s.lateCopies ==> Good(size, contents, e))
    && (Kept(s) ==> s.own.Some? || s.lost) && (s.lost ==> s.own.None?)
  }

  ghost predicate MessagesOk(s: System) {
    && s.messages <= 1 && (s.messages == 1 ==> s.row == Some(Processing))
    && (forall c :: c in s.cleanups && s.cleanups[c].Removing? ==> s.row.None?)
  }

  ghost predicate Inv(size: nat, contents: Contents, s: System) {
    && OneHolder(s)
    && (forall p :: p in s.completions ==> CompletionOk(size, contents, s, s.completions[p]))
    && ObjectsOk(size, contents, s) && MessagesOk(s)
  }

  /** The completion that takes the step, if any. */
  function Actor(a: Action): Option<nat> {
    if a.ClientPuts? || a.CopyLands? || a.DeleteLands? || a.ListAbandoned? || a.DeleteRow? || a.DeleteObject?
    then None
    else Some(a.p)
  }

  /** While one completion holds the upload, a step of another one changes nothing but itself. */
  lemma HolderExcludesOthers(size: nat, contents: Contents, s: System, a: Action, p: nat)
    requires Inv(size, contents, s) && Enabled(s, a) && Holds(s, p) && Actor(a).Some? && Actor(a).value != p
    ensures var s' := Step(size, contents, s, a);
            && !Holds(s', Actor(a).value)
            && s'.row == s.row && s'.own == s.own && s'.upload == s.upload && s'.messages == s.messages
  {
    assert CompletionOk(size, contents, s, s.completions[p]);
    assert !Holds(s, Actor(a).value);
  }

  lemma ActorStaysOk(size: nat, contents: Contents, s: System, a: Action, p: nat)
    requires Inv(size, contents, s) && Enabled(s, a) && Actor(a) == Some(p)
    requires p in Step(size, contents, s, a).completions
    ensures CompletionOk(size, contents, Step(size, contents, s, a), Step(size, contents, s, a).completions[p])
  {
    if p in s.completions { assert CompletionOk(size, contents, s, s.completions[p]); }
  }

  /** Steps of the client, of storage and of the clean-up. */
  lemma OutsiderKeepsHolder(size: nat, contents: Contents, s: System, a: Action, p: nat)
    requires Inv(size, contents, s) && Enabled(s, a) && Actor(a).None? && Holds(s, p)
    ensures CompletionOk(size, contents, Step(size, contents, s, a), s.completions[p])
  {
    assert CompletionOk(size, contents, s, s.completions[p]);
    assert s.completions[p].Copied? || s.completions[p].Ready? ==> Needed(s);
  }

  lemma StepKeepsCompletion(size: nat, contents: Contents, s: System, a: Action, p: nat)
    requires Inv(size, contents, s) && Enabled(s, a) && p in Step(size, contents, s, a).completions
    ensures CompletionOk(size, contents, Step(size, contents, s, a), Step(size, contents, s, a).completions[p])
  {
    if Actor(a) == Some(p) {
      ActorStaysOk(size, contents, s, a, p);
    } else if Holds(s, p) {
      if Actor(a).Some? {
        assert CompletionOk(size, contents, s, s.completions[p]);
        HolderExcludesOthers(size, contents, s, a, p);
      } else {
        OutsiderKeepsHolder(size, contents, s, a, p);
      }
    }
  }

  lemma StepKeepsOneHolder(size: nat, contents: Contents, s: System, a: Action)
    requires Inv(size, contents, s) && Enabled(s, a)
    ensures OneHolder(Step(size, contents, s, a))
  {
    var s' := Step(size, contents, s, a);
    forall p: nat, q: nat | Holds(s', p) && Holds(s', q) ensures p == q {
      if p != q {
        if Actor(a) != Some(p) { assert Holds(s, p); }
        if Actor(a) != Some(q) { assert Holds(s, q); }
        if Actor(a) == Some(p) { HolderExcludesOthers(size, contents, s, a, q); }
        if Actor(a) == Some(q) { HolderExcludesOthers(size, contents, s, a, p); }
      }
    }
  }

  lemma OutsiderKeepsObjects(size: nat, contents: Contents, s: System, a: Action)
    requires ObjectsOk(size, contents, s) && MessagesOk(s) && Enabled(s, a) && Actor(a).None?
    ensures ObjectsOk(size, contents, Step(size, contents, s, a))
  {
    assert Kept(s) ==> Needed(s);
  }

  lemma StepKeepsObjects(size: nat, contents: Contents, s: System, a: Action)
    requires Inv(size, contents, s) && Enabled(s, a)
    ensures ObjectsOk(size, contents, Step(size, contents, s, a))
  {
    if Actor(a).None? {
      OutsiderKeepsObjects(size, contents, s, a);
    } else if Actor(a).value in s.completions {
      assert CompletionOk(size, contents, s, s.completions[Actor(a).value]);
    }
  }

  lemma OutsiderKeepsMessages(size: nat, contents: Contents, s: System, a: Action)
    requires MessagesOk(s) && Enabled(s, a) && Actor(a).None?
    ensures MessagesOk(Step(size, contents, s, a))
  {
  }

  lemma StepKeepsMessages(size: nat, contents: Contents, s: System, a: Action)
    requires Inv(size, contents, s) && Enabled(s, a)
    ensures MessagesOk(Step(size, contents, s, a))
  {
    if Actor(a).None? {
      OutsiderKeepsMessages(size, contents, s, a);
    } else if Actor(a).value in s.completions {
      assert CompletionOk(size, contents, s, s.completions[Actor(a).value]);
    }
  }

  lemma StepKeepsInv(size: nat, contents: Contents, s: System, a: Action)
    requires Inv(size, contents, s) && Enabled(s, a)
    ensures Inv(size, contents, Step(size, contents, s, a))
  {
    var s' := Step(size, contents, s, a);
    StepKeepsOneHolder(size, contents, s, a);
    StepKeepsObjects(size, contents, s, a);
    StepKeepsMessages(size, contents, s, a);
    forall p | p in s'.completions ensures CompletionOk(size, contents, s', s'.completions[p]) {
      StepKeepsCompletion(size, contents, s, a, p);
    }
  }

  lemma {:induction false} RunKeepsInv(size: nat, contents: Contents, s: System, actions: seq<Action>)
    requires Inv(size, contents, s) && Runs(size, contents, s, actions)
    ensures Inv(size, contents, Final(size, contents, s, actions))
    decreases |actions|
  {
    if actions != [] {
      StepKeepsInv(size, contents, s, actions[0]);
      RunKeepsInv(size, contents, Step(size, contents, s, actions[0]), actions[1..]);
    }
  }

  // ---- Main results ------------------------------------------------------------------

  lemma {:induction false} LostOnlyByLateDelete(size: nat, contents: Contents, s: System, actions: seq<Action>)
    requires Runs(size, contents, s, actions) && !s.lost && DeleteLands(true) !in actions
    ensures !Final(size, contents, s, actions).lost
    decreases |actions|
  {
    if actions != [] { LostOnlyByLateDelete(size, contents, Step(size, contents, s, actions[0]), actions[1..]); }
  }

  /**
   Whatever the client puts at the upload key and whenever, an upload that complete() moved
   to processing or completed has, at the attachment's own key, a version of the declared
   size whose head passed validation, or none at all after a late delete took it.
   */
  lemma OnlyVerifiedBytesAreKept(size: nat, contents: Contents, s: System, actions: seq<Action>)
    requires Initial(s) && Runs(size, contents, s, actions)
    ensures var s1 := Final(size, contents, s, actions);
            && (Kept(s1) && DeleteLands(true) !in actions ==> s1.own.Some?)
            && (Kept(s1) ==> (s1.own.Some? <==> !s1.lost))
            && (s1.own.Some? ==> Good(size, contents, s1.own.value))
  {
    RunKeepsInv(size, contents, s, actions);
    if DeleteLands(true) !in actions { LostOnlyByLateDelete(size, contents, s, actions); }
  }

  /** Without another late delete, the run ends with the upload kept and nothing at its key. */
  ghost predicate EndsWithout(size: nat, contents: Contents, s: System, actions: seq<Action>) {
    && Runs(size, contents, s, actions) && DeleteLands(true) !in actions
    && Kept(Final(size, contents, s, actions)) && Final(size, contents, s, actions).own.None?
  }

  /** The completion that copied the deleted version goes on to keep the upload. */
  lemma KeepsNothing(size: nat, contents: Contents, s: System, p: nat) returns (actions: seq<Action>)
    requires s.row == Some(Verifying) && s.own.None?
    requires p in s.completions && (s.completions[p].Copied? || s.completions[p].Ready?)
    ensures EndsWithout(size, contents, s, actions)
  {
    var ready := if s.completions[p].Ready? then s else Step(size, contents, s, DeleteUploadKey(p, true));
    var kept := Step(size, contents, ready, Save(p, true));
    assert EndsWithout(size, contents, kept, []);
    assert [Save(p, true)][1..] == [];
    assert EndsWithout(size, contents, ready, [Save(p, true)]);
    if s.completions[p].Ready? {
      actions := [Save(p, true)];
    } else {
      actions := [DeleteUploadKey(p, true), Save(p, true)];
      assert actions[1..] == [Save(p, true)];
    }
  }

  /**
   A late delete of the attachment's key can leave a kept upload without its object exactly when a
   version was needed there: kept already, or copied by a completion about to keep it.
   */
  lemma LateDeleteLosesExactly(size: nat, contents: Contents, s: System)
    requires Inv(size, contents, s) && Enabled(s, DeleteLands(true)) && !s.lost
    ensures (exists actions :: EndsWithout(size, contents, Step(size, contents, s, DeleteLands(true)), actions))
            <==> Needed(s)
  {
    var s' := Step(size, contents, s, DeleteLands(true));
    StepKeepsInv(size, contents, s, DeleteLands(true));
    if Kept(s) {
      assert EndsWithout(size, contents, s', []);
    } else if p: nat :| p in s.completions && (s.completions[p].Copied? || s.completions[p].Ready?) {
      assert CompletionOk(size, contents, s, s.completions[p]);
      var actions := KeepsNothing(size, contents, s', p);
    } else if actions :| EndsWithout(size, contents, s', actions) {
      LostOnlyByLateDelete(size, contents, s', actions);
      RunKeepsInv(size, contents, s', actions);
    }
  }

  /** At most one completion holds the upload, and nobody holds one that may still be claimed or is gone. */
  lemma ClaimsAreExclusive(size: nat, contents: Contents, s: System, actions: seq<Action>, p: nat, q: nat)
    requires Initial(s) && Runs(size, contents, s, actions)
    requires Holds(Final(size, contents, s, actions), p)
    ensures Holds(Final(size, contents, s, actions), q) ==> p == q
    ensures Final(size, contents, s, actions).row.Some? && !Final(size, contents, s, actions).row.value.PendingUpload?
  {
    RunKeepsInv(size, contents, s, actions);
    var s1 := Final(size, contents, s, actions);
    assert CompletionOk(size, contents, s1, s1.completions[p]);
  }

  /** At most one PROCESS_IMAGE message is ever enqueued, and only with the row in processing. */
  lemma OneProcessingMessage(size: nat, contents: Contents, s: System, actions: seq<Action>)
    requires Initial(s) && Runs(size, contents, s, actions)
    ensures var s1 := Final(size, contents, s, actions);
            s1.messages == 0 || (s1.messages == 1 && s1.row == Some(Processing))
  {
    RunKeepsInv(size, contents, s, actions);
  }

  /** Done: kept, rejected, or deleted. */
  predicate Decided(s: System) { s.row.None? || s.row == Some(Rejected) || Kept(s) }

  lemma StepKeepsDecision(size: nat, contents: Contents, s: System, a: Action)
    requires Inv(size, contents, s) && Enabled(s, a) && Decided(s)
    ensures Step(size, contents, s, a).row == s.row && Step(size, contents, s, a).messages == s.messages
  {
    if Actor(a).Some? && Actor(a).value in s.completions {
      assert CompletionOk(size, contents, s, s.completions[Actor(a).value]);
    }
  }

  /** A rejected upload is never claimed or kept, a kept one never rejected or processed again, a deleted one gone. */
  lemma {:induction false} DecisionIsFinal(size: nat, contents: Contents, s: System, actions: seq<Action>)
    requires Inv(size, contents, s) && Runs(size, contents, s, actions) && Decided(s)
    ensures Final(size, contents, s, actions).row == s.row && Final(size, contents, s, actions).messages == s.messages
    decreases |actions|
  {
    if actions != [] {
      StepKeepsInv(size, contents, s, actions[0]);
      StepKeepsDecision(size, contents, s, actions[0]);
      DecisionIsFinal(size, contents, Step(size, contents, s, actions[0]), actions[1..]);
    }
  }

  /** The clean-up deletes objects only of a row it deleted: never of one claimed or completed. */
  lemma CleanupSparesClaimedUploads(size: nat, contents: Contents, s: System, actions: seq<Action>, c: nat, works: bool)
    requires Initial(s) && Runs(size, contents, s, actions)
    requires Enabled(Final(size, contents, s, actions), DeleteObject(c, works))
    ensures var s1 := Final(size, contents, s, actions);
            s1.row.None? && forall p :: !Holds(s1, p)
  {
    RunKeepsInv(size, contents, s, actions);
    var s1 := Final(size, contents, s, actions);
    assert forall p :: p in s1.completions ==> CompletionOk(size, contents, s1, s1.completions[p]);
  }

  // ---- A delete that lands late ------------------------------------------------------------

  /** Version n has n bytes, of which one is declared. */
  function Sizes(): Contents { (e: Etag) => Content(e, true, false) }

  const FRESH_UPLOAD := System(Some(PendingUpload), None, None, 0, map[], map[], {}, {}, false)

  ghost predicate Reached(s: System) {
    exists actions :: Runs(1, Sizes(), FRESH_UPLOAD, actions) && Final(1, Sizes(), FRESH_UPLOAD, actions) == s
  }

  lemma {:induction false} RunsOn(s: System, actions: seq<Action>, a: Action)
    requires Runs(1, Sizes(), s, actions) && Enabled(Final(1, Sizes(), s, actions), a)
    ensures Runs(1, Sizes(), s, actions + [a])
    ensures Final(1, Sizes(), s, actions + [a]) == Step(1, Sizes(), Final(1, Sizes(), s, actions), a)
    decreases |actions|
  {
    if actions == [] {
      assert Runs(1, Sizes(), Step(1, Sizes(), s, a), []) && ([] + [a])[1..] == [];
    } else {
      RunsOn(Step(1, Sizes(), s, actions[0]), actions[1..], a);
      assert (actions + [a])[1..] == actions[1..] + [a];
    }
  }

  lemma Go(s: System, a: Action) returns (s': System)
    requires Reached(s) && Enabled(s, a)
    ensures Reached(s') && s' == Step(1, Sizes(), s, a)
  {
    var actions :| Runs(1, Sizes(), FRESH_UPLOAD, actions) && Final(1, Sizes(), FRESH_UPLOAD, actions) == s;
    RunsOn(FRESH_UPLOAD, actions, a);
    s' := Step(1, Sizes(), s, a);
  }

  /** The p-th completion claims the version at the upload key and measures it. */
  lemma Measures(s: System, p: nat, e: Etag) returns (s': System)
    requires Reached(s) && s.row == Some(PendingUpload) && p !in s.completions
    ensures Reached(s') && s'.row == Some(Verifying) && s'.upload == Some(e)
    ensures s'.own == s.own && s'.lateDeletes == s.lateDeletes
    ensures s'.completions.Keys == s.completions.Keys + {p}
    ensures s'.completions[p] == if e == 1 then Sized(e) else Rejecting(0)
  {
    s' := Go(s, ClientPuts(e));
    s' := Go(s', Arrive(p));
    s' := Go(s', Claim(p));
    s' := Go(s', Measure(p, true));
    s' := Go(s', CheckSize(p));
  }

  /** Storage does not answer the delete of the attachment's key; the rejection fails, and the row is pending again. */
  lemma RollsBack(s: System, p: nat) returns (s': System)
    requires Reached(s) && s.row == Some(Verifying) && p in s.completions && s.completions[p] == Rejecting(0)
    ensures Reached(s') && s'.row == Some(PendingUpload) && true in s'.lateDeletes
    ensures s'.completions.Keys == s.completions.Keys
  {
    s' := Go(s, RejectDelete(p, true));
    s' := Go(s', RejectDelete(p, false));
    s' := Go(s', Fail(p));
    s' := Go(s', Revert(p, true));
  }

  /** A version of the right size is verified, copied and kept. */
  lemma Keeps(s: System, p: nat) returns (s': System)
    requires Reached(s) && s.row == Some(Verifying) && s.upload == Some(1)
    requires p in s.completions && s.completions[p] == Sized(1) && true in s.lateDeletes
    ensures Reached(s') && Kept(s') && s'.own == Some(1) && true in s'.lateDeletes
  {
    s' := Go(s, ReadHead(p));
    s' := Go(s', Copy(p, true));
    s' := Go(s', DeleteUploadKey(p, true));
    s' := Go(s', Save(p, true));
  }

  /** A completed upload can lose its object to the delete of an earlier rejection that was rolled back. */
  lemma KeptVersionMayBeLost()
    ensures Initial(FRESH_UPLOAD) && exists s :: Reached(s) && Kept(s) && s.own.None?
  {
    var s := FRESH_UPLOAD;
    assert Runs(1, Sizes(), s, []) && Final(1, Sizes(), s, []) == s;
    s := Measures(s, 0, 0);
    s := RollsBack(s, 0);
    s := Measures(s, 1, 1);
    s := Keeps(s, 1);
    s := Go(s, DeleteLands(true));
  }

  // ---- complete(), statement by statement, against a client that writes between its steps ----

  datatype Reply = Done | Conflict | RejectedReply | NotFound | Failed

  /**
   Which calls fail: storage calls, the saving transactions, the deletes that are only warned about,
   and the revert.
   */
  datatype Faults = Faults(measure: bool, head: bool, copy: bool, save: bool, rejectSave: bool,
                           keepsUpload: bool, keepsOwn: bool, revert: bool)

  predicate Faultless(f: Faults) { !f.measure && !f.head && !f.copy && !f.save && !f.rejectSave && !f.revert }

  class Upload {
    const size: nat
    const contents: Contents
    var row: Option<Status>
    var upload: Option<Etag>
    var own: Option<Etag>
    var messages: nat

    constructor (size: nat, contents: Contents)
      ensures this.size == size && this.contents == contents
      ensures row == Some(PendingUpload) && upload.None? && own.None? && messages == 0
    {
      this.size, this.contents := size, contents;
      row, upload, own, messages := Some(PendingUpload), None, None, 0;
    }

    /** The client may put another version at the upload key here. */
    method ClientMayPut(put: Option<Etag>)
      modifies this`upload
      ensures upload == if put.Some? then put else old(upload)
    {
      if put.Some? { upload := put; }
    }

    /** Back to pending for another attempt; the answer to give. */
    method Revert(fails: bool, reply: Reply) returns (answer: Reply)
      requires row == Some(Verifying)
      modifies this`row
      ensures row == Some(if fails then Verifying else PendingUpload) && answer == if fails then Failed else reply
    {
      if fails { return Failed; }
      row := Some(PendingUpload);
      return reply;
    }

    /** reject(): deletes both objects, as far as storage lets it, then says why. */
    method Reject(faults: Faults) returns (answer: Reply)
      requires row == Some(Verifying)
      modifies this`row, this`upload, this`own
      ensures answer.RejectedReply? || answer.Failed?
      ensures answer.RejectedReply? <==> !faults.rejectSave
      ensures
        row == Some(if answer.RejectedReply? then Rejected else if faults.revert then Verifying else PendingUpload)
      ensures upload == (if faults.keepsUpload then old(upload) else None)
      ensures own == if faults.keepsOwn then old(own) else None
    {
      if !faults.keepsUpload { upload := None; }
      if !faults.keepsOwn { own := None; }
      if faults.rejectSave {
        answer := Revert(faults.revert, Failed);
        return;
      }
      row := Some(Rejected);
      return RejectedReply;
    }

    /** The `try` block, for the version that was measured: which answer it gives, and what it leaves. */
    method Keep(etag: Etag, puts: (Option<Etag>, Option<Etag>), faults: Faults) returns (reply: Reply)
      requires row == Some(Verifying) && upload == Some(etag)
      modifies this
      ensures
        var sized := contents(etag).size == size;
        var read := sized && !faults.head && (puts.0.None? || puts.0 == Some(etag));
        var verified := read && contents(etag).valid;
        var copied := verified && !faults.copy && (puts.1.None? || puts.1 == Some(etag));
        && (reply.Done? <==> copied && !faults.save)
        && (reply.RejectedReply? <==> (!sized || (read && !verified)) && !faults.rejectSave)
        && (reply.Conflict? <==>
              && !faults.revert
              && ((sized && !faults.head && !read) || (verified && !faults.copy && !copied)))
        && (reply.Failed? ==> own.None? || own == old(own) || (copied && own == Some(etag)))
        && !reply.NotFound?
      ensures reply.Done? ==>
        && own == Some(etag) && upload == (if faults.keepsUpload then Some(etag) else None)
        && row == Some(if contents(etag).image then Processing else Completed)
        && messages == old(messages) + if contents(etag).image then 1 else 0
      ensures !reply.Done? ==> messages == old(messages)
      ensures reply.RejectedReply? ==>
        && row == Some(Rejected) && own == (if faults.keepsOwn then old(own) else None)
        && upload == (if faults.keepsUpload then Some(etag) else None)
      ensures reply.Conflict? ==> row == Some(PendingUpload) && own == old(own)
      ensures reply.Failed? ==> !Faultless(faults) && row == Some(if faults.revert then Verifying else PendingUpload)
    {
      if contents(etag).size != size {
        reply := Reject(faults);
        return;
      }
      ClientMayPut(puts.0);
      if faults.head || upload != Some(etag) {
        reply := Revert(faults.revert, if faults.head then Failed else Conflict);
        return;
      }
      if !contents(etag).valid {
        reply := Reject(faults);
        return;
      }
      ClientMayPut(puts.1);
      if faults.copy || upload != Some(etag) {
        reply := Revert(faults.revert, if faults.copy then Failed else Conflict);
        return;
      }
      own := Some(etag);
      if !faults.keepsUpload { upload := None; }
      if faults.save {
        reply := Revert(faults.revert, Failed);
        return;
      }
      row := Some(if contents(etag).image then Processing else Completed);
      if contents(etag).image { messages := messages + 1; }
      return Done;
    }

    /**
     Of one call, exactly which answer it gives, with any calls failing: Done when a good version was
     measured, nothing replaced it up to the copy, and no call failed; Rejected for a bad one; Conflict
     when there was nothing to measure or the version was swapped. Done keeps the version that was
     checked; after Conflict, and after Failed unless the revert failed too, the upload can be completed
     again.
     */
    method Complete(puts: (Option<Etag>, Option<Etag>, Option<Etag>), faults: Faults) returns (reply: Reply)
      modifies this
      ensures reply.NotFound? <==> old(row).None?
      ensures old(row) != Some(PendingUpload) ==>
        && (reply.NotFound? || reply.Conflict?)
        && row == old(row) && own == old(own) && messages == old(messages) && upload == old(upload)
      ensures old(row) == Some(PendingUpload) ==>
        var measured := if puts.0.Some? then puts.0 else old(upload);
        var found := measured.Some? && !faults.measure;
        var sized := found && contents(measured.value).size == size;
        var read := sized && !faults.head && (puts.1.None? || puts.1 == measured);
        var verified := read && contents(measured.value).valid;
        var copied := verified && !faults.copy && (puts.2.None? || puts.2 == measured);
        && (reply.Done? <==> copied && !faults.save)
        && (reply.RejectedReply? <==> ((found && !sized) || (read && !verified)) && !faults.rejectSave)
        && (reply.Conflict? <==>
              && !faults.revert
              && (!found || (sized && !faults.head && !read) || (verified && !faults.copy && !copied)))
        && (reply.Failed? ==> own.None? || own == old(own) || (copied && own == measured))
        && (reply.Done? ==>
              && own == measured && upload == (if faults.keepsUpload then measured else None)
              && row == Some(if contents(measured.value).image then Processing else Completed)
              && messages == old(messages) + if contents(measured.value).image then 1 else 0)
      ensures !reply.Done? ==> messages == old(messages)
      ensures reply.RejectedReply? ==> row == Some(Rejected) && own == if faults.keepsOwn then old(own) else None
      ensures reply.Conflict? && old(row) == Some(PendingUpload) ==> row == Some(PendingUpload) && own == old(own)
      ensures reply.Failed? ==> !Faultless(faults) && row == Some(if faults.revert then Verifying else PendingUpload)
    {
      if row.None? { return NotFound; }
      if row != Some(PendingUpload) { return Conflict; }
      row := Some(Verifying);
      ClientMayPut(puts.0);
      if upload.None? || faults.measure {
        reply := Revert(faults.revert, Conflict);
        return;
      }
      reply := Keep(upload.value, (puts.1, puts.2), faults);
    }
  }

  // ---- removeAbandonedUploads() ------------------------------------------------------------

  /** Rows by id with their status; which uploads still have objects in storage. */
  class UploadCleaner {
    var rows: map<nat, Status>
    var stored: set<nat>

    constructor (rows: map<nat, Status>, stored: set<nat>)
      ensures this.rows == rows && this.stored == stored
    {
      this.rows, this.stored := rows, stored;
    }

    /** deleteIfStatus */
    method DeleteIfPending(id: nat) returns (deleted: bool)
      modifies this`rows
      ensures deleted == (id in old(rows) && old(rows)[id].PendingUpload?)
      ensures rows == if deleted then old(rows) - {id} else old(rows)
    {
      deleted := id in rows && rows[id].PendingUpload?;
      if deleted { rows := rows - {id}; }
    }

    /**
     `abandoned` was listed earlier, so its uploads may have been claimed since. Exactly the
     listed rows that are still pending lose their row and their objects, but for those whose
     delete storage refuses (`stuck`): these are counted all the same.
     */
    method RemoveAbandoned(abandoned: seq<nat>, stuck: set<nat>) returns (removed: nat)
      modifies this
      ensures rows == old(rows) - Abandoned(old(rows), abandoned)
      ensures stored == old(stored) - (Abandoned(old(rows), abandoned) - stuck)
      ensures removed == |Abandoned(old(rows), abandoned)|
      ensures forall id ::
        var gone := id in abandoned && id in old(rows) && old(rows)[id] == PendingUpload;
        && (id in rows <==> id in old(rows) && !gone) && (id in rows ==> rows[id] == old(rows)[id])
        && (id in stored <==> id in old(stored) && !(gone && id !in stuck))
      ensures removed == |old(rows)| - |rows|
    {
      removed := 0;
      ghost var gone: set<nat> := {};
      for i := 0 to |abandoned|
        invariant gone == Abandoned(old(rows), abandoned[..i])
        invariant rows == old(rows) - gone && stored == old(stored) - (gone - stuck) && removed == |gone|
      {
        assert abandoned[..i + 1] == abandoned[..i] + [abandoned[i]];
        var deleted := DeleteIfPending(abandoned[i]);
        if deleted {
          removed := removed + 1;
          if abandoned[i] !in stuck { stored := stored - {abandoned[i]}; }
          gone := gone + {abandoned[i]};
        }
      }
      assert abandoned[..|abandoned|] == abandoned;
    }
  }

  function Abandoned(rows: map<nat, Status>, listed: seq<nat>): set<nat> {
    set id | id in listed && id in rows && rows[id].PendingUpload?
  }
}
