/**
 Visibility of an attachment: the row's flags and the ACL of every stored object, changed by
 owners (on the locked row) while a worker replaces the raw image by the processed one and
 stores its derivatives. S3 calls succeed; they and the statements interleave in any order.
 */
module Visibility {
  import opened Wrappers

  type Key = string

  datatype Status = Processing | Failed | Completed

  /** Of the metadata only what names stored objects. */
  datatype Metadata = Metadata(thumbnails: Option<seq<Key>>, placeholder: Option<Key>)

  datatype Row = Row(
    path: Key, thumbnailPath: Option<Key>, metadata: Metadata,
    isPublic: bool, deleted: bool, status: Status)

  /** `raw`: still the upload, with its location and camera data. */
  datatype Object = Object(isPublic: bool, raw: bool)

  /** UNPROCESSED, of the states an uploaded image goes through. */
  predicate Unprocessed(status: Status) { !status.Completed? }

  function KeyOf(key: Option<Key>): seq<Key> { if key.Some? then [key.value] else [] }

  /** The names a row refers to, before duplicates and empty ones are dropped. */
  function Names(row: Row): seq<Key> {
    [row.path] + KeyOf(row.thumbnailPath)
    + (if row.metadata.thumbnails.Some? then row.metadata.thumbnails.value else [])
    + KeyOf(row.metadata.placeholder)
  }

  /** storageKeys, as a set. */
  function StorageKeys(row: Row): set<Key> { set k | k in Names(row) && k != "" }

  /** A stored object's name: the image, the thumbnail, one of the other thumbnails, or the placeholder. */
  lemma StorageKeysAre(row: Row, k: Key)
    ensures k in StorageKeys(row) <==>
              && k != ""
              && (|| k == row.path || row.thumbnailPath == Some(k) || row.metadata.placeholder == Some(k)
                  || (row.metadata.thumbnails.Some? && k in row.metadata.thumbnails.value))
  {
  }

  /** What the objects of the row should be. */
  predicate ShouldBePublic(row: Row) { row.isPublic && !row.deleted && !Unprocessed(row.status) }

  // ---- Owners' operations ----------------------------------------------------------------

  datatype Operation = SetVisibility(isPublic: bool) | SoftDelete | Restore

  /** The row the operation commits. */
  function RowAfter(op: Operation, row: Row): Row {
    match op
    case SetVisibility(v) => row.(isPublic := v)
    case SoftDelete => row.(deleted := true)
    case Restore => row.(deleted := false)
  }

  /** The ACL it gives every stored object, if it changes any. */
  function AclOf(op: Operation, row: Row): Option<bool> {
    match op
    case SetVisibility(v) =>
      if row.isPublic == v || (v && Unprocessed(row.status)) then None else Some(v && !row.deleted)
    case SoftDelete => Some(false)
    case Restore => Some(row.isPublic && !Unprocessed(row.status))
  }

  /** applyStoredVisibility */
  function StoredAcl(row: Row): bool { row.isPublic && !row.deleted }

  // ---- The system ----------------------------------------------------------------------

  /** Who holds the row lock: the row to commit, the ACL being applied (if any), and to which keys still. */
  datatype Lock = Lock(after: Row, acl: Option<bool>, left: set<Key>, byWorker: bool)

  datatype Worker =
    | Idle
    | Fetched                                   // read the row and the original
    | Replaced(uploaded: set<Key>)              // the processed image is at the row's path
    | Stored(thumbnailPath: Option<Key>, metadata: Metadata)
    | Updated(existing: Metadata)               // the row says completed; the ACLs are still private

  datatype System = System(row: Row, objects: map<Key, Object>, lock: Option<Lock>, worker: Worker)

  datatype Action =
    | Begin(op: Operation)
    | SetAcl(key: Key)
    | CommitLock
    | StartRun
    | Replace
    | UploadDerivative(key: Key)
    | DerivativesStored(thumbnailPath: Option<Key>, metadata: Metadata)
    | UpdateRow
    | FailRun
    | BeginApply
    | FailApply                                 // the database fails before the ACLs are applied or when they are

  /** `{ ...existing, ...metadata }`, and the thumbnail path kept when there is no new one. */
  function Merge(row: Row, thumbnailPath: Option<Key>, metadata: Metadata): Row {
    row.(thumbnailPath := if thumbnailPath.Some? then thumbnailPath else row.thumbnailPath,
         metadata := Metadata(
           if metadata.thumbnails.Some? then metadata.thumbnails else row.metadata.thumbnails,
           if metadata.placeholder.Some? then metadata.placeholder else row.metadata.placeholder),
         status := Completed)
  }

  /** Of each kind of name a run found replaces what was there before, what it did not find stays; so do the flags. */
  lemma MergedExactly(row: Row, thumbnailPath: Option<Key>, metadata: Metadata, k: Key)
    ensures var merged := Merge(row, thumbnailPath, metadata);
            var thumbnails := if metadata.thumbnails.Some? then metadata.thumbnails else row.metadata.thumbnails;
            var placeholder := if metadata.placeholder.Some? then metadata.placeholder else row.metadata.placeholder;
            && merged.isPublic == row.isPublic && merged.deleted == row.deleted && merged.status == Completed
            && (k in StorageKeys(merged) <==>
                  && k != ""
                  && (|| k == row.path || thumbnailPath == Some(k) || placeholder == Some(k)
                      || (thumbnailPath.None? && row.thumbnailPath == Some(k))
                      || (thumbnails.Some? && k in thumbnails.value)))
  {
    StorageKeysAre(Merge(row, thumbnailPath, metadata), k);
  }

  predicate Enabled(s: System, a: Action) {
    match a
    case Begin(_) => s.lock.None?
    case SetAcl(key) => s.lock.Some? && s.lock.value.acl.Some? && key in s.lock.value.left && key in s.objects
    case CommitLock => s.lock.Some? && s.lock.value.left == {}
    case StartRun => s.worker.Idle? && Unprocessed(s.row.status)
    case Replace => s.worker.Fetched?
    case UploadDerivative(key) => s.worker.Replaced? && key != s.row.path
    case DerivativesStored(thumbnailPath, metadata) =>
      && s.worker.Replaced?
      && forall k ::
           k in StorageKeys(Row("", thumbnailPath, metadata, false, false, Completed)) ==> k in s.worker.uploaded
    case UpdateRow => s.worker.Stored? && s.lock.None?
    case FailRun => (s.worker.Fetched? || s.worker.Replaced? || s.worker.Stored?) && s.lock.None?
    case BeginApply => s.worker.Updated? && s.lock.None?
    case FailApply => s.worker.Updated? && (s.lock.Some? ==> s.lock.value.byWorker && s.lock.value.left == {})
  }

  function Step(s: System, a: Action): System
    requires Enabled(s, a)
  {
    match a
    case Begin(op) =>
      var acl := AclOf(op, s.row);
      s.(lock := Some(Lock(RowAfter(op, s.row), acl, if acl.Some? then StorageKeys(s.row) else {}, false)))
    case SetAcl(key) =>
      var l := s.lock.value;
      s.(objects := s.objects[key := s.objects[key].(isPublic := l.acl.value)],
         lock := Some(l.(left := l.left - {key})))
    case CommitLock =>
      s.(row := s.lock.value.after, lock := None, worker := if s.lock.value.byWorker then Idle else s.worker)
    case StartRun => s.(worker := if s.row.deleted then Idle else Fetched)
    case Replace => s.(objects := s.objects[s.row.path := Object(false, false)], worker := Replaced({}))
    case UploadDerivative(key) =>
      s.(objects := s.objects[key := Object(false, false)], worker := Replaced(s.worker.uploaded + {key}))
    case DerivativesStored(thumbnailPath, metadata) => s.(worker := Stored(thumbnailPath, metadata))
    case UpdateRow =>
      s.(row := Merge(s.row, s.worker.thumbnailPath, s.worker.metadata), worker := Updated(s.row.metadata))
    case FailRun => s.(row := s.row.(status := Failed), worker := Idle)
    case FailApply =>
      s.(row := s.row.(status := Failed, metadata := s.worker.existing), lock := None, worker := Idle)
    case BeginApply => s.(lock := Some(Lock(s.row, Some(StoredAcl(s.row)), StorageKeys(s.row), true)))
  }

  predicate Runs(s: System, actions: seq<Action>)
    decreases |actions|
  {
    actions == [] || (Enabled(s, actions[0]) && Runs(Step(s, actions[0]), actions[1..]))
  }

  function Final(s: System, actions: seq<Action>): System
    requires Runs(s, actions)
    decreases |actions|
  {
    if actions == [] then s else Final(Step(s, actions[0]), actions[1..])
  }

  /** The upload call returned: the raw image is stored private, and its job is queued. */
  predicate Initial(s: System) {
    && s.row.path != "" && s.row.status.Processing? && s.lock.None? && s.worker.Idle?
    && StorageKeys(s.row) == {s.row.path} && s.objects == map[s.row.path := Object(false, true)]
  }

  // ---- The invariant -------------------------------------------------------------------

  predicate PublicAt(s: System, k: Key) { k in s.objects && s.objects[k].isPublic }

  /** The image at the row's path has been replaced by the processed copy. */
  predicate Clean(s: System) {
    s.row.path in s.objects && !s.objects[s.row.path].raw
  }

  ghost predicate RawIsPrivate(s: System) {
    && (forall k :: k in s.objects && s.objects[k].raw ==> k == s.row.path && !s.objects[k].isPublic)
    && (s.worker.Replaced? || s.worker.Stored? || !Unprocessed(s.row.status) ==> Clean(s))
  }

  ghost predicate KeysStored(s: System) {
    && s.row.path != ""
    && (forall k :: k in StorageKeys(s.row) ==> k in s.objects)
    && (s.worker.Replaced? ==> forall k :: k in s.worker.uploaded ==> k in s.objects)
    && (s.worker.Stored? ==>
          StorageKeys(Merge(s.row, s.worker.thumbnailPath, s.worker.metadata)) <= s.objects.Keys)
    && (s.worker.Fetched? || s.worker.Replaced? || s.worker.Stored? ==> Unprocessed(s.row.status))
    && (s.worker.Updated? ==>
          !Unprocessed(s.row.status) && StorageKeys(s.row.(metadata := s.worker.existing)) <= s.objects.Keys)
  }

  ghost predicate LockOk(s: System) {
    s.lock.Some? ==>
      var l := s.lock.value;
      && l.after == s.row.(isPublic := l.after.isPublic, deleted := l.after.deleted)
      && l.left <= StorageKeys(s.row)
      && (if l.acl.Some? then l.acl.value == ShouldBePublic(l.after)
          else l.left == {} && ShouldBePublic(l.after) == ShouldBePublic(s.row))
      && (l.byWorker ==> s.worker.Updated? && l.acl.Some?)
  }

  /** The holder of the lock has already set this object's ACL. */
  predicate Applied(s: System, k: Key) {
    s.lock.Some? && s.lock.value.acl.Some? && k !in s.lock.value.left
  }

  /** What the ACL of an object may be at this moment. */
  ghost predicate AclOk(s: System, k: Key)
    requires k in s.objects
  {
    if Unprocessed(s.row.status) || k !in StorageKeys(s.row) then !s.objects[k].isPublic
    else if Applied(s, k) then s.objects[k].isPublic == s.lock.value.acl.value
    else if s.worker.Updated? then s.objects[k].isPublic ==> ShouldBePublic(s.row)
    else s.objects[k].isPublic == ShouldBePublic(s.row)
  }

  ghost predicate Inv(s: System) {
    RawIsPrivate(s) && KeysStored(s) && LockOk(s) && forall k :: k in s.objects ==> AclOk(s, k)
  }

  // ---- Each step keeps it ----------------------------------------------------------------

  lemma MergedKeys(row: Row, thumbnailPath: Option<Key>, metadata: Metadata, k: Key)
    requires k in StorageKeys(Merge(row, thumbnailPath, metadata))
    ensures k in StorageKeys(row) || k in StorageKeys(Row("", thumbnailPath, metadata, false, false, Completed))
  {
  }

  lemma SameKeys(row: Row, after: Row)
    requires after == row.(isPublic := after.isPublic, deleted := after.deleted, status := after.status)
    ensures StorageKeys(after) == StorageKeys(row)
  {
    assert Names(after) == Names(row);
  }

  lemma BeginKeepsInv(s: System, op: Operation)
    requires Inv(s) && s.lock.None?
    ensures Inv(Step(s, Begin(op)))
  {
    var s' := Step(s, Begin(op));
    forall k | k in s'.objects ensures AclOk(s', k) { assert AclOk(s, k); }
  }

  lemma BeginApplyKeepsInv(s: System)
    requires Inv(s) && Enabled(s, BeginApply)
    ensures Inv(Step(s, BeginApply))
  {
    var s' := Step(s, BeginApply);
    forall k | k in s'.objects ensures AclOk(s', k) { assert AclOk(s, k); }
  }

  lemma SetAclKeepsInv(s: System, key: Key)
    requires Inv(s) && Enabled(s, SetAcl(key))
    ensures Inv(Step(s, SetAcl(key)))
  {
    var s' := Step(s, SetAcl(key));
    assert AclOk(s, key);
    assert ShouldBePublic(s.lock.value.after) ==> !Unprocessed(s.row.status);
    forall k | k in s'.objects ensures AclOk(s', k) { assert AclOk(s, k); }
  }

  lemma CommitKeepsKeys(s: System)
    requires Inv(s) && Enabled(s, CommitLock)
    ensures KeysStored(Step(s, CommitLock)) && StorageKeys(Step(s, CommitLock).row) == StorageKeys(s.row)
  {
    SameKeys(s.row, s.lock.value.after);
    if s.worker.Stored? {
      SameKeys(Merge(s.row, s.worker.thumbnailPath, s.worker.metadata),
               Merge(s.lock.value.after, s.worker.thumbnailPath, s.worker.metadata));
    }
  }

  lemma CommitKeepsInv(s: System)
    requires Inv(s) && Enabled(s, CommitLock)
    ensures Inv(Step(s, CommitLock))
  {
    var s' := Step(s, CommitLock);
    CommitKeepsKeys(s);
    forall k | k in s'.objects ensures AclOk(s', k) { assert AclOk(s, k); }
  }

  lemma WorkerStepKeepsInv(s: System, a: Action)
    requires Inv(s) && Enabled(s, a)
    requires a.StartRun? || a.Replace? || a.UploadDerivative? || a.FailRun?
    ensures Inv(Step(s, a))
  {
    var s' := Step(s, a);
    SameKeys(s.row, s'.row);
    forall k | k in s'.objects ensures AclOk(s', k) {
      if k in s.objects { assert AclOk(s, k); }
    }
  }

  lemma ResultStepKeepsInv(s: System, a: Action)
    requires Inv(s) && Enabled(s, a) && (a.DerivativesStored? || a.UpdateRow?)
    ensures Inv(Step(s, a))
  {
    var s' := Step(s, a);
    if a.DerivativesStored? {
      forall k | k in StorageKeys(Merge(s.row, a.thumbnailPath, a.metadata)) ensures k in s'.objects {
        MergedKeys(s.row, a.thumbnailPath, a.metadata, k);
      }
    }
    forall k | k in s'.objects ensures AclOk(s', k) {
      assert AclOk(s, k);
    }
  }

  predicate NothingPublic(s: System) { forall k :: k in s.objects ==> !s.objects[k].isPublic }

  /**
   A run that fails after its row said completed marks the row failed again: right exactly when the
   file was not published in between, by an owner or by the run itself.
   */
  lemma FailApplyExactly(s: System)
    requires Inv(s) && Enabled(s, FailApply)
    ensures Inv(Step(s, FailApply)) <==> NothingPublic(s)
    ensures var s' := Step(s, FailApply);
            (forall k :: k in s'.objects ==>
               (s'.objects[k].isPublic <==> k in StorageKeys(s'.row) && ShouldBePublic(s'.row)))
            <==> NothingPublic(s)
  {
    var s' := Step(s, FailApply);
    assert Names(s'.row) == Names(s.row.(metadata := s.worker.existing));
    forall k | k in s.objects ensures AclOk(s', k) <==> !s.objects[k].isPublic { assert AclOk(s, k); }
  }

  /** Every such failure comes before the file was published. */
  predicate NoneFailsPublished(s: System, actions: seq<Action>)
    requires Runs(s, actions)
    decreases |actions|
  {
    actions == []
    || ((actions[0].FailApply? ==> NothingPublic(s)) && NoneFailsPublished(Step(s, actions[0]), actions[1..]))
  }

  lemma StepKeepsInv(s: System, a: Action)
    requires Inv(s) && Enabled(s, a) && (a.FailApply? ==> NothingPublic(s))
    ensures Inv(Step(s, a))
  {
    match a
    case Begin(op) => BeginKeepsInv(s, op);
    case SetAcl(key) => SetAclKeepsInv(s, key);
    case CommitLock => CommitKeepsInv(s);
    case BeginApply => BeginApplyKeepsInv(s);
    case DerivativesStored(_, _) => ResultStepKeepsInv(s, a);
    case UpdateRow => ResultStepKeepsInv(s, a);
    case FailApply => FailApplyExactly(s);
    case _ => WorkerStepKeepsInv(s, a);
  }

  lemma {:induction false} RunKeepsInv(s: System, actions: seq<Action>)
    requires Inv(s) && Runs(s, actions) && NoneFailsPublished(s, actions)
    ensures Inv(Final(s, actions))
    decreases |actions|
  {
    if actions != [] {
      StepKeepsInv(s, actions[0]);
      RunKeepsInv(Step(s, actions[0]), actions[1..]);
    }
  }

  // ---- Raw images, whatever fails ----------------------------------------------------------

  /** What keeps the raw image private by itself: nothing is published while it is there. */
  ghost predicate RawInv(s: System) {
    && RawIsPrivate(s)
    && (s.worker.Updated? ==> !Unprocessed(s.row.status))
    && (s.lock.Some? ==>
          && s.lock.value.after
             == s.row.(isPublic := s.lock.value.after.isPublic, deleted := s.lock.value.after.deleted)
          && (s.lock.value.acl == Some(true) ==> !Unprocessed(s.row.status))
          && (s.lock.value.byWorker ==> s.worker.Updated?))
  }

  lemma StepKeepsRawInv(s: System, a: Action)
    requires RawInv(s) && Enabled(s, a)
    ensures RawInv(Step(s, a))
  {
  }

  lemma {:induction false} RunKeepsRawInv(s: System, actions: seq<Action>)
    requires RawInv(s) && Runs(s, actions)
    ensures RawInv(Final(s, actions))
    decreases |actions|
  {
    if actions != [] {
      StepKeepsRawInv(s, actions[0]);
      RunKeepsRawInv(Step(s, actions[0]), actions[1..]);
    }
  }

  // ---- Main results ------------------------------------------------------------------

  /** In no interleaving is an unprocessed image ever public. */
  lemma RawImageIsNeverPublic(s: System, actions: seq<Action>, k: Key)
    requires Initial(s) && Runs(s, actions)
    requires k in Final(s, actions).objects && Final(s, actions).objects[k].raw
    ensures !Final(s, actions).objects[k].isPublic
  {
    RunKeepsRawInv(s, actions);
  }

  /**
   Whenever no operation is in flight, every stored object is public exactly when the row
   names it and is public, not deleted and processed.
   */
  lemma AclFollowsRow(s: System, actions: seq<Action>, k: Key)
    requires Initial(s) && Runs(s, actions) && NoneFailsPublished(s, actions)
    requires Final(s, actions).lock.None? && Final(s, actions).worker.Idle?
    requires k in Final(s, actions).objects
    ensures var s1 := Final(s, actions);
            s1.objects[k].isPublic
            <==> k in StorageKeys(s1.row) && s1.row.isPublic && !s1.row.deleted && s1.row.status == Completed
  {
    RunKeepsInv(s, actions);
    assert AclOk(Final(s, actions), k);
  }

  /** At any moment, an object the public can read is one whose row was, or is being made, public. */
  lemma PublicOnlyOnRequest(s: System, actions: seq<Action>, k: Key)
    requires Initial(s) && Runs(s, actions) && NoneFailsPublished(s, actions) && PublicAt(Final(s, actions), k)
    ensures var s1 := Final(s, actions);
            && k in StorageKeys(s1.row) && !Unprocessed(s1.row.status)
            && (ShouldBePublic(s1.row) || (s1.lock.Some? && ShouldBePublic(s1.lock.value.after)))
  {
    RunKeepsInv(s, actions);
    assert AclOk(Final(s, actions), k);
  }

  const UPLOADED := Row("k", None, Metadata(None, None), false, false, Processing)

  /** The owner publishes the file between the worker's update of the row and its failure. */
  function PublishedThenFailed(): seq<Action> {
    [StartRun, Replace, DerivativesStored(None, Metadata(None, None)), UpdateRow,
     Begin(SetVisibility(true)), SetAcl("k"), CommitLock, FailApply]
  }

  /** It leaves a failed file public, with nothing in flight: the processed copy, never the raw image. */
  lemma FailedFileMayStayPublic()
    ensures var s := System(UPLOADED, map["k" := Object(false, true)], None, Idle);
            Initial(s) && Runs(s, PublishedThenFailed())
            && Final(s, PublishedThenFailed())
               == System(UPLOADED.(isPublic := true, status := Failed), map["k" := Object(true, false)], None, Idle)
  {
    var s := System(UPLOADED, map["k" := Object(false, true)], None, Idle);
    assert Names(UPLOADED) == ["k"] && StorageKeys(UPLOADED) == {"k"};
    var stored := map["k" := Object(false, false)];
    var s4 := System(UPLOADED.(status := Completed), stored, None, Updated(Metadata(None, None)));
    assert Leads(s, [StartRun, Replace, DerivativesStored(None, Metadata(None, None)), UpdateRow], s4);
    PublishAndFail(s4);
    LeadsThrough(s, [StartRun, Replace, DerivativesStored(None, Metadata(None, None)), UpdateRow], s4,
                 [Begin(SetVisibility(true)), SetAcl("k"), CommitLock, FailApply], Final(s4,
                 [Begin(SetVisibility(true)), SetAcl("k"), CommitLock, FailApply]));
  }

  predicate Leads(s: System, actions: seq<Action>, s': System) { Runs(s, actions) && Final(s, actions) == s' }

  lemma {:induction false} LeadsThrough(s: System, first: seq<Action>, mid: System, second: seq<Action>, end: System)
    requires Leads(s, first, mid) && Leads(mid, second, end)
    ensures Leads(s, first + second, end)
    decreases |first|
  {
    if first == [] {
      assert first + second == second;
    } else {
      LeadsThrough(Step(s, first[0]), first[1..], mid, second, end);
      assert (first + second)[1..] == first[1..] + second;
    }
  }

  lemma PublishAndFail(s4: System)
    requires s4.row == UPLOADED.(status := Completed) && s4.objects == map["k" := Object(false, false)]
    requires s4.lock.None? && s4.worker == Updated(Metadata(None, None))
    ensures Leads(s4, [Begin(SetVisibility(true)), SetAcl("k"), CommitLock, FailApply],
                  System(UPLOADED.(isPublic := true, status := Failed), map["k" := Object(true, false)], None, Idle))
  {
    assert Names(s4.row) == ["k"] && StorageKeys(s4.row) == {"k"};
    var s5 := s4.(lock := Some(Lock(s4.row.(isPublic := true), Some(true), {"k"}, false)));
    assert Step(s4, Begin(SetVisibility(true))) == s5;
    var s6 := s5.(objects := map["k" := Object(true, false)], lock := Some(s5.lock.value.(left := {})));
    assert {"k"} - {"k"} == {} && Step(s5, SetAcl("k")) == s6;
    var s7 := System(s4.row.(isPublic := true), map["k" := Object(true, false)], None, Updated(Metadata(None, None)));
    assert Step(s6, CommitLock) == s7;
    var end := Step(s7, FailApply);
    assert Leads(end, [], end);
    assert [FailApply][1..] == [] && Leads(s7, [FailApply], end);
    assert [CommitLock, FailApply][1..] == [FailApply] && Leads(s6, [CommitLock, FailApply], end);
    assert [SetAcl("k"), CommitLock, FailApply][1..] == [CommitLock, FailApply];
    assert Leads(s5, [SetAcl("k"), CommitLock, FailApply], end);
    assert [Begin(SetVisibility(true)), SetAcl("k"), CommitLock, FailApply][1..]
           == [SetAcl("k"), CommitLock, FailApply];
  }

  // ---- The operations, statement by statement ----------------------------------------------

  function WithAcl(objects: map<Key, Object>, keys: set<Key>, isPublic: bool): map<Key, Object> {
    map k | k in objects :: if k in keys then objects[k].(isPublic := isPublic) else objects[k]
  }

  predicate Distinct(keys: seq<Key>) { forall i, j :: 0 <= i < j < |keys| ==> keys[i] != keys[j] }

  /** storageKeys: every stored object once, missing names dropped. */
  method StorageKeyList(row: Row) returns (keys: seq<Key>)
    ensures Distinct(keys) && forall k :: k in keys <==> k in StorageKeys(row)
    ensures forall k :: k in keys <==>
              && k != ""
              && (|| k == row.path || row.thumbnailPath == Some(k) || row.metadata.placeholder == Some(k)
                  || (row.metadata.thumbnails.Some? && k in row.metadata.thumbnails.value))
  {
    forall k { StorageKeysAre(row, k); }
    var names := Names(row);
    keys := [];
    for i := 0 to |names|
      invariant Distinct(keys) && forall k :: k in keys <==> k in names[..i] && k != ""
    {
      if names[i] != "" && names[i] !in keys { keys := keys + [names[i]]; }
    }
  }

  class AttachmentStore {
    const alwaysPublic: bool
    var row: Option<Row>
    var objects: map<Key, Object>

    constructor (alwaysPublic: bool, row: Option<Row>, objects: map<Key, Object>)
      ensures this.alwaysPublic == alwaysPublic && this.row == row && this.objects == objects
    {
      this.alwaysPublic, this.row, this.objects := alwaysPublic, row, objects;
    }

    /** Every object is public exactly as the row says, and a raw image is not. */
    ghost predicate Settled()
      reads this
    {
      row.Some? ==>
        && (forall k :: k in StorageKeys(row.value) ==> k in objects)
        && (forall k :: k in objects ==>
              (objects[k].isPublic <==> k in StorageKeys(row.value) && ShouldBePublic(row.value)))
        && (forall k :: k in objects && objects[k].raw ==> Unprocessed(row.value.status))
    }

    method ApplyAcl(r: Row, isPublic: bool)
      requires forall k :: k in StorageKeys(r) ==> k in objects
      modifies this`objects
      ensures objects == WithAcl(old(objects), StorageKeys(r), isPublic)
    {
      var keys := StorageKeyList(r);
      for i := 0 to |keys|
        invariant objects.Keys == old(objects).Keys
        invariant forall k :: k in objects ==>
          objects[k] == if k in keys[..i] then old(objects)[k].(isPublic := isPublic) else old(objects)[k]
      {
        objects := objects[keys[i] := objects[keys[i]].(isPublic := isPublic)];
      }
      assert keys[..|keys|] == keys;
    }

    /** setVisibility(): false for a category that is always public. */
    method SetVisibility(isPublic: bool) returns (ok: bool)
      requires Settled()
      modifies this
      ensures Settled() && ok == (isPublic || !alwaysPublic)
      ensures row == if ok && old(row).Some? then Some(old(row).value.(isPublic := isPublic)) else old(row)
    {
      if !isPublic && alwaysPublic { return false; }
      if row.None? || row.value.isPublic == isPublic { return true; }
      var current := row.value;
      SameKeys(current, current.(isPublic := isPublic));
      if !(isPublic && Unprocessed(current.status)) {
        ApplyAcl(current, isPublic && !current.deleted);
      }
      row := Some(current.(isPublic := isPublic));
      return true;
    }

    method SoftDelete() returns (found: bool)
      requires Settled()
      modifies this
      ensures Settled() && found == old(row).Some?
      ensures row == if found then Some(old(row).value.(deleted := true)) else None
      ensures found ==> forall k :: k in objects ==> !objects[k].isPublic
    {
      if row.None? { return false; }
      SameKeys(row.value, row.value.(deleted := true));
      ApplyAcl(row.value, false);
      row := Some(row.value.(deleted := true));
      return true;
    }

    method Restore() returns (found: bool)
      requires Settled()
      modifies this
      ensures Settled() && found == old(row).Some?
      ensures row == if found then Some(old(row).value.(deleted := false)) else None
    {
      if row.None? { return false; }
      var current := row.value;
      SameKeys(current, current.(deleted := false));
      row := Some(current.(deleted := false));
      ApplyAcl(current, current.isPublic && !Unprocessed(current.status));
      return true;
    }

    /** removeStored() */
    method RemoveStored(r: Row)
      modifies this`objects
      ensures objects == map k | k in old(objects) && k !in StorageKeys(r) :: old(objects)[k]
    {
      var keys := StorageKeyList(r);
      for i := 0 to |keys|
        invariant objects == map k | k in old(objects) && k !in keys[..i] :: old(objects)[k]
      {
        assert keys[..i + 1] == keys[..i] + [keys[i]];
        objects := objects - {keys[i]};
      }
      assert keys[..|keys|] == keys;
    }

    /** The uploads of a run: the processed image under its own key, then `derivatives`; all private. */
    method StoreProcessed(path: Key, derivatives: seq<Key>)
      requires forall k :: k in objects ==> !objects[k].isPublic
      requires forall k :: k in objects && objects[k].raw ==> k == path
      modifies this`objects
      ensures objects.Keys == old(objects).Keys + {path} + set k | k in derivatives
      ensures forall k :: k in objects ==> objects[k] == Object(false, false)
    {
      objects := objects[path := Object(false, false)];
      for i := 0 to |derivatives|
        invariant objects.Keys == old(objects).Keys + {path} + set k | k in derivatives[..i]
        invariant forall k :: k in objects ==> objects[k] == Object(false, false)
      {
        objects := objects[derivatives[i] := Object(false, false)];
      }
      assert derivatives[..|derivatives|] == derivatives;
    }

    /**
     handleProcessImage(): `derivatives` are the objects stored beside the image. A run that fails
     leaves everything private; one whose row was deleted for good leaves none of its objects.
     */
    method ProcessImage(derivatives: seq<Key>, thumbnailPath: Option<Key>, metadata: Metadata, course: Course)
      returns (outcome: RunOutcome)
      requires Settled()
      requires row.Some? ==> Unprocessed(row.value.status) && row.value.path != "" && row.value.path !in derivatives
      requires row.Some? ==> forall k :: k in objects && objects[k].raw ==> k == row.value.path
      requires forall k ::
        k in StorageKeys(Row("", thumbnailPath, metadata, false, false, Completed)) ==> k in derivatives
      modifies this
      ensures Settled()
      ensures outcome.Skipped? <==> old(row).None? || old(row).value.deleted
      ensures outcome.Skipped? ==> row == old(row) && objects == old(objects)
      ensures outcome.FailedRun? ==>
        && row == Some((if course.FailsApplying? then WithThumbnail(old(row).value, thumbnailPath) else old(row).value)
                       .(status := Failed))
        && forall k :: k in objects ==> !objects[k].isPublic
      ensures outcome.Processed? ==>
        && row == Some(Merge(old(row).value, thumbnailPath, metadata)) && row.value.status == Completed
        && (forall k :: k in objects ==>
              (objects[k].isPublic <==> k in StorageKeys(row.value) && row.value.isPublic && !row.value.deleted))
        && forall k :: k in objects ==> !objects[k].raw
      ensures outcome.Dropped? ==>
        && row.None?
        && (forall k :: k in objects ==> !objects[k].isPublic)
        && old(row).value.path !in objects
        && forall k :: k in StorageKeys(Row("", thumbnailPath, metadata, false, false, Completed)) ==> k !in objects
      ensures outcome.Skipped? || outcome == (match course
                                              case Works => Processed
                                              case FailsEarly => FailedRun
                                              case FailsAfter(_) => FailedRun
                                              case FailsApplying => FailedRun
                                              case GoneBeforeUpdate => Dropped
                                              case GoneBeforeApply => Dropped)
    {
      if row.None? || row.value.deleted { return Skipped; }
      var existing := row.value;
      SameKeys(existing, existing.(status := Failed));
      if course.FailsEarly? {
        row := Some(existing.(status := Failed));
        return FailedRun;
      }
      if course.FailsAfter? && course.stored < |derivatives| {
        StoreProcessed(existing.path, derivatives[..course.stored]);
        row := Some(existing.(status := Failed));
        return FailedRun;
      }
      StoreProcessed(existing.path, derivatives);
      if course.FailsAfter? {
        row := Some(existing.(status := Failed));
        return FailedRun;
      }
      if course.GoneBeforeUpdate? {
        row := None;
        RemoveStored(Row(existing.path, thumbnailPath, metadata, false, false, Completed));
        return Dropped;
      }
      var finished := Merge(existing, thumbnailPath, metadata);
      row := Some(finished);
      forall k | k in StorageKeys(finished) ensures k in objects {
        MergedKeys(existing, thumbnailPath, metadata, k);
      }
      if course.FailsApplying? {
        row := Some(finished.(status := Failed, metadata := existing.metadata));
        forall k | k in StorageKeys(row.value) ensures k in objects {
          assert k in StorageKeys(existing) || k in StorageKeys(finished);
        }
        return FailedRun;
      }
      if course.GoneBeforeApply? {
        row := None;
        MergedKeysKept(existing, thumbnailPath, metadata);
        RemoveStored(finished);
        return Dropped;
      }
      ApplyAcl(finished, StoredAcl(finished));
      return Processed;
    }
  }

  /** What a failure after the update leaves of it: the metadata is written back as it was read. */
  function WithThumbnail(row: Row, thumbnailPath: Option<Key>): Row {
    row.(thumbnailPath := if thumbnailPath.Some? then thumbnailPath else row.thumbnailPath)
  }

  /** How a run goes: it may fail before or after it stored some derivatives, or lose its row. */
  datatype Course = Works | FailsEarly | FailsAfter(stored: nat) | FailsApplying | GoneBeforeUpdate | GoneBeforeApply

  datatype RunOutcome = Processed | FailedRun | Skipped | Dropped

  /** The new names are among those of the merged row. */
  lemma MergedKeysKept(row: Row, thumbnailPath: Option<Key>, metadata: Metadata)
    ensures StorageKeys(Row("", thumbnailPath, metadata, false, false, Completed))
            <= StorageKeys(Merge(row, thumbnailPath, metadata))
    ensures row.path != "" ==> row.path in StorageKeys(Merge(row, thumbnailPath, metadata))
  {
    var added, merged := Row("", thumbnailPath, metadata, false, false, Completed), Merge(row, thumbnailPath, metadata);
    forall k | k in StorageKeys(added) ensures k in Names(merged) {
      assert k in KeyOf(thumbnailPath) || (metadata.thumbnails.Some? && k in metadata.thumbnails.value)
             || k in KeyOf(metadata.placeholder);
    }
    assert Names(merged)[0] == row.path;
  }
}
