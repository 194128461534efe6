/**
 Attachment upload and delete of app/services/attachment_service.py: two stores, the object storage
 and the database, changed one after the other, where each call can fail. Requests interleave.
 */
module Attachments {
  import opened Common

  const MEGABYTE := 1024 * 1024

  datatype Config = Config(maxAttachmentMb: nat, maxTotalMb: nat, maxPerMessage: nat)

  function MaxBytes(config: Config): nat {
    config.maxAttachmentMb * MEGABYTE
  }

  function MaxTotalBytes(config: Config): nat {
    config.maxTotalMb * MEGABYTE
  }

  /** A row of the attachments table; origin is the upload request that wrote it. */
  datatype Row = Row(message: nat, uploader: nat, path: string, size: nat, deleted: bool, origin: nat)

  /**
   How far an upload has come. A commit can take effect and still report an error; row is then the row it
   left, which the upload does not know of.
   */
  datatype Phase =
    | Checked
    | Stored
    | Compensating(row: Option<nat>)
    | Saved(saved: nat)
    | Aborted(row: Option<nat>)

  function RowOf(phase: Phase): Option<nat> {
    match phase
    case Saved(row) => Some(row)
    case Compensating(row) => row
    case Aborted(row) => row
    case _ => None
  }

  /** The progress of one request. */
  datatype Task =
    | Upload(message: nat, uploader: nat, path: string, size: nat, phase: Phase)
    | Removal(row: nat, marked: bool)
    | Done

  datatype Message = Message(sender: nat, deleted: bool)

  /** What the other tables say at the moment: the messages, and which user may access which. */
  datatype World = World(messages: map<nat, Message>, access: set<(nat, nat)>)

  /**
   The two stores, the requests, and which objects a failed storage call may have left behind:
   failedPuts by an upload that reported an error, failedRemovals by a removal that did.
   */
  datatype State = State(
    rows: seq<Row>, storage: set<string>, tasks: seq<Task>,
    failedPuts: set<string>, failedRemovals: set<string>)

  // --- Quota measures ---

  function ActiveIn(message: nat): Row -> nat {
    (r: Row) => if r.message == message && !r.deleted then 1 else 0
  }

  function ActiveSizeIn(message: nat): Row -> nat {
    (r: Row) => if r.message == message && !r.deleted then r.size else 0
  }

  function CountForMessage(rows: seq<Row>, message: nat): nat {
    Sum(rows, ActiveIn(message))
  }

  function TotalSizeForMessage(rows: seq<Row>, message: nat): nat {
    Sum(rows, ActiveSizeIn(message))
  }

  /** An upload that has passed the quota check and may still become a row. */
  predicate Pending(t: Task, message: nat) {
    t.Upload? && t.message == message && (t.phase.Checked? || t.phase.Stored?)
  }

  function PendingIn(message: nat): Task -> nat {
    (t: Task) => if Pending(t, message) then 1 else 0
  }

  function PendingSizeIn(message: nat): Task -> nat {
    (t: Task) => if Pending(t, message) then t.size else 0
  }

  // --- The checks before the first change ---

  datatype Error =
    | AccessDenied | MessageDeleted | InvalidAttachment | TooLarge | CountExceeded | TotalExceeded
    | UploadFailed | SaveFailed | NotFound | DeleteForbidden | CommitFailed | DeleteFailed

  function UploadError(
    config: Config, world: World, rows: seq<Row>, user: nat, message: nat, size: nat): Option<Error>
  {
    if message !in world.messages || (user, message) !in world.access then Some(AccessDenied)
    else if world.messages[message].deleted then Some(MessageDeleted)
    else if size == 0 then Some(InvalidAttachment)
    else if MaxBytes(config) < size then Some(TooLarge)
    else if config.maxPerMessage <= CountForMessage(rows, message) then Some(CountExceeded)
    else if MaxTotalBytes(config) < TotalSizeForMessage(rows, message) + size then Some(TotalExceeded)
    else None
  }

  function DeleteError(world: World, rows: seq<Row>, user: nat, row: nat): Option<Error> {
    if |rows| <= row || rows[row].deleted then Some(NotFound)
    else if rows[row].message !in world.messages || (user, rows[row].message) !in world.access then Some(NotFound)
    else if rows[row].uploader != user && world.messages[rows[row].message].sender != user then Some(DeleteForbidden)
    else None
  }

  function SizeIn(): Row -> nat {
    (r: Row) => r.size
  }

  function ShownOn(message: nat): Row -> bool {
    (r: Row) => r.message == message && !r.deleted
  }

  /** The size measure adds up the sizes of the rows a reader of the message is shown. */
  lemma {:induction false} TotalSizeExact(rows: seq<Row>, message: nat)
    ensures TotalSizeForMessage(rows, message) == Sum(Filter(rows, ShownOn(message)), SizeIn())
  {
    if rows != [] {
      var front, last := rows[..|rows| - 1], rows[|rows| - 1];
      TotalSizeExact(front, message);
      SumAppend(Filter(front, ShownOn(message)), last, SizeIn());
    }
  }

  lemma CountExact(rows: seq<Row>, message: nat)
    ensures CountForMessage(rows, message)
         == |set i | 0 <= i < |rows| && rows[i].message == message && !rows[i].deleted|
  {
    var shown := set i | 0 <= i < |rows| && rows[i].message == message && !rows[i].deleted;
    SumCounts(rows, ActiveIn(message), shown);
  }

  /**
   An upload passes exactly when the message is there, accessible and not deleted, the file is not empty and
   within the size limit, and the files shown on the message leave room for it under both limits.
   */
  lemma UploadAllowedIff(config: Config, world: World, rows: seq<Row>, user: nat, message: nat, size: nat)
    ensures var shown := Filter(rows, ShownOn(message));
            var open := message in world.messages && (user, message) in world.access;
            var fits := open && !world.messages[message].deleted && 0 < size <= config.maxAttachmentMb * 1_048_576;
            var count := |set i | 0 <= i < |rows| && rows[i].message == message && !rows[i].deleted|;
            var error := UploadError(config, world, rows, user, message, size);
            && (error == None
                <==> && fits && count < config.maxPerMessage
                     && Sum(shown, SizeIn()) + size <= config.maxTotalMb * 1_048_576)
            && (error == Some(CountExceeded) <==> fits && config.maxPerMessage <= count)
            && (error == Some(AccessDenied) <==> !open)
            && (error == Some(MessageDeleted) <==> open && world.messages[message].deleted)
            && (error == Some(InvalidAttachment) <==> open && !world.messages[message].deleted && size == 0)
            && (error == Some(TooLarge)
                <==> open && !world.messages[message].deleted && config.maxAttachmentMb * 1_048_576 < size)
  {
    CountExact(rows, message);
    TotalSizeExact(rows, message);
  }

  // --- The protocol, one store access at a time ---

  datatype Action =
    | BeginUpload(world: World, user: nat, message: nat, size: nat, path: string)
    | PutOk(task: nat)
    | PutFail(task: nat, kept: bool)
    | CommitOk(task: nat)
    | CommitFail(task: nat)
    | CommitLost(task: nat)
    | CompensateOk(task: nat)
    | CompensateFail(task: nat, gone: bool)
    | BeginDelete(world: World, user: nat, row: nat)
    | MarkOk(task: nat)
    | MarkFail(task: nat)
    | RemoveOk(task: nat)
    | RemoveFail(task: nat, gone: bool)

  predicate InPhase(s: State, task: nat, phase: Phase) {
    task < |s.tasks| && s.tasks[task].Upload? && s.tasks[task].phase == phase
  }

  predicate IsCompensating(s: State, task: nat) {
    task < |s.tasks| && s.tasks[task].Upload? && s.tasks[task].phase.Compensating?
  }

  predicate IsRemoval(s: State, task: nat, marked: bool) {
    task < |s.tasks| && s.tasks[task].Removal? && s.tasks[task].marked == marked && s.tasks[task].row < |s.rows|
  }

  /** A path made from a new random identifier: no request has used it and nothing is stored under it. */
  predicate FreshPath(s: State, path: string) {
    path !in s.storage && forall i :: 0 <= i < |s.tasks| && s.tasks[i].Upload? ==> s.tasks[i].path != path
  }

  predicate Enabled(config: Config, s: State, a: Action) {
    match a
    case BeginUpload(world, user, message, size, path) =>
      UploadError(config, world, s.rows, user, message, size) == None && FreshPath(s, path)
    case PutOk(t) => InPhase(s, t, Checked)
    case PutFail(t, kept) => InPhase(s, t, Checked)
    case CommitOk(t) => InPhase(s, t, Stored)
    case CommitFail(t) => InPhase(s, t, Stored)
    case CommitLost(t) => InPhase(s, t, Stored)
    case CompensateOk(t) => IsCompensating(s, t)
    case CompensateFail(t, gone) => IsCompensating(s, t)
    case BeginDelete(world, user, row) => DeleteError(world, s.rows, user, row) == None
    case MarkOk(t) => IsRemoval(s, t, false)
    case MarkFail(t) => IsRemoval(s, t, false)
    case RemoveOk(t) => IsRemoval(s, t, true)
    case RemoveFail(t, gone) => IsRemoval(s, t, true)
  }

  function ToPhase(s: State, task: nat, phase: Phase): seq<Task>
    requires task < |s.tasks| && s.tasks[task].Upload?
  {
    s.tasks[task := s.tasks[task].(phase := phase)]
  }

  function Apply(config: Config, s: State, a: Action): State
    requires Enabled(config, s, a)
  {
    match a
    case BeginUpload(world, user, message, size, path) =>
      s.(tasks := s.tasks + [Upload(message, user, path, size, Checked)])
    case PutOk(t) =>
      s.(storage := s.storage + {s.tasks[t].path}, tasks := ToPhase(s, t, Stored))
    case PutFail(t, kept) =>
      var left := if kept then {s.tasks[t].path} else {};
      s.(storage := s.storage + left, failedPuts := s.failedPuts + left, tasks := ToPhase(s, t, Aborted(None)))
    case CommitOk(t) =>
      var u := s.tasks[t];
      s.(rows := s.rows + [Row(u.message, u.uploader, u.path, u.size, false, t)],
         tasks := ToPhase(s, t, Saved(|s.rows|)))
    case CommitFail(t) =>
      s.(tasks := ToPhase(s, t, Compensating(None)))
    case CommitLost(t) =>
      var u := s.tasks[t];
      s.(rows := s.rows + [Row(u.message, u.uploader, u.path, u.size, false, t)],
         tasks := ToPhase(s, t, Compensating(Some(|s.rows|))))
    case CompensateOk(t) =>
      s.(storage := s.storage - {s.tasks[t].path}, tasks := ToPhase(s, t, Aborted(s.tasks[t].phase.row)))
    case CompensateFail(t, gone) =>
      var path := s.tasks[t].path;
      s.(storage := if gone then s.storage - {path} else s.storage,
         failedRemovals := s.failedRemovals + {path}, tasks := ToPhase(s, t, Aborted(s.tasks[t].phase.row)))
    case BeginDelete(world, user, row) =>
      s.(tasks := s.tasks + [Removal(row, false)])
    case MarkOk(t) =>
      var row := s.tasks[t].row;
      s.(rows := s.rows[row := s.rows[row].(deleted := true)], tasks := s.tasks[t := Removal(row, true)])
    case MarkFail(t) =>
      s.(tasks := s.tasks[t := Done])
    case RemoveOk(t) =>
      s.(storage := s.storage - {s.rows[s.tasks[t].row].path}, tasks := s.tasks[t := Done])
    case RemoveFail(t, gone) =>
      var path := s.rows[s.tasks[t].row].path;
      s.(storage := if gone then s.storage - {path} else s.storage,
         failedRemovals := s.failedRemovals + {path}, tasks := s.tasks[t := Done])
  }

  ghost predicate Reaches(config: Config, s: State, run: seq<Action>, s': State)
    decreases |run|
  {
    if run == [] then s == s'
    else Enabled(config, s, run[0]) && Reaches(config, Apply(config, s, run[0]), run[1..], s')
  }

  function Empty(): State {
    State([], {}, [], {}, {})
  }

  // --- The two stores agree ---

  /** A row and the request that wrote it point at each other; only an abandoned row can lack its object. */
  ghost predicate RowLinked(s: State, i: nat) {
    i < |s.rows| ==>
      var r := s.rows[i];
      && r.origin < |s.tasks| && s.tasks[r.origin].Upload?
      && RowOf(s.tasks[r.origin].phase) == Some(i) && s.tasks[r.origin].path == r.path
      && (!r.deleted && !s.tasks[r.origin].phase.Aborted? ==> r.path in s.storage)
  }

  /** An upload that knows of no row still has its object until it is cleaned up. */
  predicate Unsaved(phase: Phase) {
    phase.Stored? || phase == Compensating(None)
  }

  ghost predicate UploadLinked(s: State, t: nat) {
    t < |s.tasks| && s.tasks[t].Upload? ==>
      && (RowOf(s.tasks[t].phase).Some? ==>
            var i := RowOf(s.tasks[t].phase).value; i < |s.rows| && s.rows[i].origin == t)
      && (Unsaved(s.tasks[t].phase) ==> s.tasks[t].path in s.storage)
  }

  ghost predicate RemovalLinked(s: State, t: nat) {
    t < |s.tasks| && s.tasks[t].Removal? ==>
      s.tasks[t].row < |s.rows| && (s.tasks[t].marked ==> s.rows[s.tasks[t].row].deleted)
  }

  ghost predicate TaskLinked(s: State, t: nat) {
    UploadLinked(s, t) && RemovalLinked(s, t)
  }

  predicate ActiveRow(s: State, i: nat, path: string) {
    i < |s.rows| && s.rows[i].path == path && !s.rows[i].deleted
  }

  /** An upload between its storage call and the end of its commit or clean-up. */
  predicate Uploading(s: State, t: nat, path: string) {
    t < |s.tasks| && s.tasks[t].Upload? && s.tasks[t].path == path
    && (s.tasks[t].phase.Stored? || s.tasks[t].phase.Compensating?)
  }

  /** A deleted row whose object has not been removed yet. */
  predicate Removing(s: State, t: nat, path: string) {
    IsRemoval(s, t, true) && s.rows[s.tasks[t].row].path == path
  }

  /** Why an object may be in storage. */
  ghost predicate Accounted(s: State, path: string) {
    || path in s.failedPuts || path in s.failedRemovals
    || (exists i :: ActiveRow(s, i, path))
    || (exists t :: Uploading(s, t, path))
    || (exists t :: Removing(s, t, path))
  }

  predicate SamePath(s: State, t: nat, u: nat) {
    && t < |s.tasks| && u < |s.tasks| && s.tasks[t].Upload? && s.tasks[u].Upload?
    && s.tasks[t].path == s.tasks[u].path
  }

  ghost predicate PathsDistinct(s: State) {
    forall t, u :: SamePath(s, t, u) ==> t == u
  }

  ghost predicate Linked(s: State) {
    && PathsDistinct(s)
    && (forall i :: RowLinked(s, i))
    && (forall t :: TaskLinked(s, t))
  }

  ghost predicate Consistent(s: State) {
    Linked(s) && forall path :: path in s.storage ==> Accounted(s, path)
  }

  /** Two rows with one path are the same row. */
  lemma RowPathsDistinct(s: State, i: nat, j: nat)
    requires Linked(s) && i < |s.rows| && j < |s.rows| && s.rows[i].path == s.rows[j].path
    ensures i == j
  {
    assert RowLinked(s, i) && RowLinked(s, j);
    assert SamePath(s, s.rows[i].origin, s.rows[j].origin);
  }

  lemma StepPaths(config: Config, s: State, a: Action)
    requires PathsDistinct(s) && Enabled(config, s, a)
    ensures PathsDistinct(Apply(config, s, a))
  {
    var s' := Apply(config, s, a);
    assert a.BeginUpload? ==> forall v :: 0 <= v < |s.tasks| ==> s'.tasks[v] == s.tasks[v];
    forall t: nat, u: nat | SamePath(s', t, u) ensures t == u {
      if t < |s.tasks| && u < |s.tasks| {
        assert SamePath(s, t, u);
      }
    }
  }

  lemma StepRow(config: Config, s: State, a: Action, i: nat)
    requires Linked(s) && Enabled(config, s, a)
    ensures RowLinked(Apply(config, s, a), i)
  {
    assert RowLinked(s, i);
    if a.CommitOk? || a.CommitLost? {
      assert TaskLinked(s, a.task);
    }
    if i < |s.rows| {
      if a.CompensateOk? || a.CompensateFail? {
        assert SamePath(s, s.rows[i].origin, a.task) ==> s.rows[i].origin == a.task;
      }
      if a.RemoveOk? || a.RemoveFail? {
        assert TaskLinked(s, a.task);
        if s.rows[i].path == s.rows[s.tasks[a.task].row].path {
          RowPathsDistinct(s, i, s.tasks[a.task].row);
        }
      }
    }
  }

  lemma StepUpload(config: Config, s: State, a: Action, t: nat)
    requires Linked(s) && Enabled(config, s, a)
    ensures UploadLinked(Apply(config, s, a), t)
  {
    assert TaskLinked(s, t);
    if t < |s.tasks| && s.tasks[t].Upload? {
      if a.CompensateOk? || a.CompensateFail? {
        assert SamePath(s, t, a.task) ==> t == a.task;
      }
      if a.RemoveOk? || a.RemoveFail? {
        var row := s.tasks[a.task].row;
        assert RowLinked(s, row);
        assert SamePath(s, t, s.rows[row].origin) ==> t == s.rows[row].origin;
      }
    }
  }

  lemma StepRemoval(config: Config, s: State, a: Action, t: nat)
    requires Linked(s) && Enabled(config, s, a)
    ensures RemovalLinked(Apply(config, s, a), t)
  {
    assert TaskLinked(s, t);
  }

  lemma StepLinked(config: Config, s: State, a: Action)
    requires Linked(s) && Enabled(config, s, a)
    ensures Linked(Apply(config, s, a))
  {
    StepPaths(config, s, a);
    forall i ensures RowLinked(Apply(config, s, a), i) {
      StepRow(config, s, a, i);
    }
    forall t ensures TaskLinked(Apply(config, s, a), t) {
      StepUpload(config, s, a, t);
      StepRemoval(config, s, a, t);
    }
  }

  lemma StepAccounted(config: Config, s: State, a: Action, path: string)
    requires Consistent(s) && Enabled(config, s, a) && path in Apply(config, s, a).storage
    ensures Accounted(Apply(config, s, a), path)
  {
    var s' := Apply(config, s, a);
    if a.PutOk? && path == s.tasks[a.task].path {
      assert Uploading(s', a.task, path);
    } else if path in s.storage && path !in s'.failedPuts && path !in s'.failedRemovals {
      assert Accounted(s, path);
      if i :| ActiveRow(s, i, path) {
        if a.MarkOk? && s.tasks[a.task].row == i {
          assert Removing(s', a.task, path);
        } else {
          assert ActiveRow(s', i, path);
        }
      } else if t :| Uploading(s, t, path) {
        if a.CommitOk? && a.task == t {
          assert ActiveRow(s', |s.rows|, path);
        } else {
          assert Uploading(s', t, path);
        }
      } else {
        var t :| Removing(s, t, path);
        assert Removing(s', t, path);
      }
    }
  }

  lemma {:induction false} RunConsistent(config: Config, s: State, run: seq<Action>, s': State)
    requires Consistent(s) && Reaches(config, s, run, s')
    ensures Consistent(s')
    decreases |run|
  {
    if run != [] {
      StepLinked(config, s, run[0]);
      forall path | path in Apply(config, s, run[0]).storage ensures Accounted(Apply(config, s, run[0]), path) {
        StepAccounted(config, s, run[0], path);
      }
      RunConsistent(config, Apply(config, s, run[0]), run[1..], s');
    }
  }

  /** The row of an upload whose commit reported an error although it took effect, and that has cleaned up since. */
  predicate Abandoned(s: State, i: nat)
    requires i < |s.rows|
  {
    InPhase(s, s.rows[i].origin, Aborted(Some(i)))
  }

  /**
   In every state that interleaved requests and failures can reach: an attachment that is shown has its
   object unless it is abandoned, and an object without a shown attachment belongs to a request still under
   way or was left by a storage call that reported an error.
   */
  lemma {:induction false} StoresAgree(config: Config, run: seq<Action>, s: State)
    requires Reaches(config, Empty(), run, s)
    ensures forall i :: 0 <= i < |s.rows| && !s.rows[i].deleted && !Abandoned(s, i) ==> s.rows[i].path in s.storage
    ensures forall path :: path in s.storage ==> Accounted(s, path)
  {
    RunConsistent(config, Empty(), run, s);
    forall i | 0 <= i < |s.rows| && !s.rows[i].deleted && !Abandoned(s, i) ensures s.rows[i].path in s.storage {
      assert RowLinked(s, i);
    }
  }

  // --- Lost acknowledgements ---

  ghost predicate ShownStored(s: State) {
    forall i :: 0 <= i < |s.rows| && !s.rows[i].deleted ==> s.rows[i].path in s.storage
  }

  /** A clean-up that takes away the object of a row that is there after all, and shown. */
  predicate Abandons(s: State, a: Action) {
    && (a.CompensateOk? || (a.CompensateFail? && a.gone)) && IsCompensating(s, a.task)
    && var row := s.tasks[a.task].phase.row;
       row.Some? && row.value < |s.rows| && !s.rows[row.value].deleted
  }

  lemma ShownKept(config: Config, s: State, a: Action, i: nat)
    requires Linked(s) && Enabled(config, s, a) && ShownStored(s) && !Abandons(s, a)
    requires i < |Apply(config, s, a).rows| && !Apply(config, s, a).rows[i].deleted
    ensures Apply(config, s, a).rows[i].path in Apply(config, s, a).storage
  {
    if i < |s.rows| {
      assert RowLinked(s, i);
      if a.CompensateOk? || a.CompensateFail? {
        assert SamePath(s, s.rows[i].origin, a.task) ==> s.rows[i].origin == a.task;
      }
      if a.RemoveOk? || a.RemoveFail? {
        assert TaskLinked(s, a.task);
        if s.rows[i].path == s.rows[s.tasks[a.task].row].path {
          RowPathsDistinct(s, i, s.tasks[a.task].row);
        }
      }
    } else {
      assert TaskLinked(s, a.task);
    }
  }

  /** A step keeps the object of every shown attachment if and only if it abandons none. */
  lemma ShownKeptIff(config: Config, s: State, a: Action)
    requires Linked(s) && Enabled(config, s, a) && ShownStored(s)
    ensures ShownStored(Apply(config, s, a)) <==> !Abandons(s, a)
  {
    if Abandons(s, a) {
      var i := s.tasks[a.task].phase.row.value;
      assert TaskLinked(s, a.task) && RowLinked(s, i);
      assert Apply(config, s, a).rows[i] == s.rows[i];
    } else {
      forall i | 0 <= i < |Apply(config, s, a).rows| && !Apply(config, s, a).rows[i].deleted
        ensures Apply(config, s, a).rows[i].path in Apply(config, s, a).storage
      {
        ShownKept(config, s, a, i);
      }
    }
  }

  ghost predicate ShownThroughout(config: Config, s: State, run: seq<Action>)
    decreases |run|
  {
    ShownStored(s)
    && (run == [] || (Enabled(config, s, run[0]) && ShownThroughout(config, Apply(config, s, run[0]), run[1..])))
  }

  predicate NeverAbandons(config: Config, s: State, run: seq<Action>)
    decreases |run|
  {
    run == []
    || (Enabled(config, s, run[0]) && !Abandons(s, run[0]) && NeverAbandons(config, Apply(config, s, run[0]), run[1..]))
  }

  /**
   The exact condition on a run: every shown attachment has its object throughout if and only if no clean-up
   was for a commit that had taken effect and whose row was still shown.
   */
  lemma {:induction false} ShownThroughoutIff(config: Config, s: State, run: seq<Action>, s': State)
    requires Linked(s) && ShownStored(s) && Reaches(config, s, run, s')
    ensures ShownThroughout(config, s, run) <==> NeverAbandons(config, s, run)
    decreases |run|
  {
    if run != [] {
      StepLinked(config, s, run[0]);
      ShownKeptIff(config, s, run[0]);
      if !Abandons(s, run[0]) {
        ShownThroughoutIff(config, Apply(config, s, run[0]), run[1..], s');
      }
    }
  }

  ghost predicate AllAcknowledged(s: State) {
    forall t :: 0 <= t < |s.tasks| && s.tasks[t].Upload? && !s.tasks[t].phase.Saved? ==>
      RowOf(s.tasks[t].phase) == None
  }

  lemma {:induction false} AcknowledgedRun(config: Config, s: State, run: seq<Action>, s': State)
    requires AllAcknowledged(s) && Reaches(config, s, run, s')
    requires forall i :: 0 <= i < |run| ==> !run[i].CommitLost?
    ensures AllAcknowledged(s')
    decreases |run|
  {
    if run != [] {
      assert !run[0].CommitLost?;
      assert AllAcknowledged(Apply(config, s, run[0]));
      AcknowledgedRun(config, Apply(config, s, run[0]), run[1..], s');
    }
  }

  /** In particular when no commit that took effect reports an error. */
  lemma {:induction false} AcknowledgedAgree(config: Config, run: seq<Action>, s: State)
    requires Reaches(config, Empty(), run, s)
    requires forall i :: 0 <= i < |run| ==> !run[i].CommitLost?
    ensures ShownStored(s)
  {
    AcknowledgedRun(config, Empty(), run, s);
    StoresAgree(config, run, s);
  }

  lemma {:induction false} PutsLeaveNothing(config: Config, s: State, run: seq<Action>, s': State)
    requires Reaches(config, s, run, s')
    requires forall i :: 0 <= i < |run| && run[i].PutFail? ==> !run[i].kept
    ensures s'.failedPuts == s.failedPuts
    decreases |run|
  {
    if run != [] {
      assert run[0].PutFail? ==> !run[0].kept;
      PutsLeaveNothing(config, Apply(config, s, run[0]), run[1..], s');
    }
  }

  /**
   If a failed upload to the storage leaves nothing there, then an object that no attachment shows and no
   request is working on exists only after a failed removal.
   */
  lemma {:induction false} OrphansOnlyAfterFailedRemovals(config: Config, run: seq<Action>, s: State, path: string)
    requires Reaches(config, Empty(), run, s)
    requires forall i :: 0 <= i < |run| && run[i].PutFail? ==> !run[i].kept
    requires path in s.storage && !(exists i :: ActiveRow(s, i, path))
    requires !(exists t :: Uploading(s, t, path)) && !(exists t :: Removing(s, t, path))
    ensures path in s.failedRemovals
  {
    PutsLeaveNothing(config, Empty(), run, s);
    StoresAgree(config, run, s);
    assert Accounted(s, path);
  }

  // --- Quotas ---

  /** At most so many uploads to one message overlap: those that have passed the check and may still be saved. */
  ghost predicate Overlap(s: State, a: Action, overlap: nat) {
    a.BeginUpload? ==> Sum(s.tasks, PendingIn(a.message)) < overlap
  }

  ghost predicate ReachesWithin(config: Config, s: State, run: seq<Action>, s': State, overlap: nat)
    decreases |run|
  {
    if run == [] then s == s'
    else
      && Enabled(config, s, run[0]) && Overlap(s, run[0], overlap)
      && ReachesWithin(config, Apply(config, s, run[0]), run[1..], s', overlap)
  }

  /** With one of the limits at zero, or no upload allowed at a time, nothing can be uploaded. */
  predicate Closed(config: Config, overlap: nat) {
    config.maxPerMessage == 0 || MaxBytes(config) == 0 || MaxTotalBytes(config) == 0 || overlap == 0
  }

  /** The most attachments a message can reach: one less than fit, and then the overlapping uploads. */
  function MostFiles(config: Config, overlap: nat): int {
    if Closed(config, overlap) then 0
    else Min(config.maxPerMessage, MaxTotalBytes(config)) - 1 + overlap
  }

  /** The largest single file. */
  function LargestFile(config: Config): nat {
    Min(MaxBytes(config), MaxTotalBytes(config))
  }

  /** The most a message can hold and still be offered a largest file. */
  function FullBefore(config: Config): int {
    Min(Times(config.maxPerMessage - 1, MaxBytes(config)), MaxTotalBytes(config) - LargestFile(config))
  }

  /** The largest total size a message can reach. */
  function MostBytes(config: Config, overlap: nat): int {
    if Closed(config, overlap) then 0 else FullBefore(config) + Times(overlap, LargestFile(config))
  }

  /** The check passes: one more upload of the size may begin. */
  predicate Fits(config: Config, files: nat, bytes: nat, size: nat) {
    1 <= size <= MaxBytes(config) && files < config.maxPerMessage && bytes + size <= MaxTotalBytes(config)
  }

  ghost predicate WithinReach(config: Config, s: State, message: nat, overlap: nat) {
    var pending := Sum(s.tasks, PendingIn(message));
    && pending <= overlap
    && CountForMessage(s.rows, message) + pending <= MostFiles(config, overlap)
    && TotalSizeForMessage(s.rows, message) + Sum(s.tasks, PendingSizeIn(message)) <= MostBytes(config, overlap)
  }

  predicate SizesBounded(config: Config, s: State) {
    && (forall t :: 0 <= t < |s.tasks| && s.tasks[t].Upload? ==> 1 <= s.tasks[t].size <= LargestFile(config))
    && (forall i :: 0 <= i < |s.rows| ==> 1 <= s.rows[i].size <= LargestFile(config))
  }

  lemma {:induction false} PendingSizeBound(config: Config, tasks: seq<Task>, message: nat)
    requires forall t :: 0 <= t < |tasks| && tasks[t].Upload? ==> tasks[t].size <= LargestFile(config)
    ensures Sum(tasks, PendingSizeIn(message)) <= Times(Sum(tasks, PendingIn(message)), LargestFile(config))
  {
    if tasks != [] {
      PendingSizeBound(config, tasks[..|tasks| - 1], message);
    }
  }

  /** A message's attachments are at least a byte and at most a largest file each. */
  lemma {:induction false} ActiveSizeBounds(rows: seq<Row>, message: nat, largest: nat)
    requires forall i :: 0 <= i < |rows| ==> 1 <= rows[i].size <= largest
    ensures CountForMessage(rows, message) <= TotalSizeForMessage(rows, message)
    ensures TotalSizeForMessage(rows, message) <= Times(CountForMessage(rows, message), largest)
  {
    if rows != [] {
      ActiveSizeBounds(rows[..|rows| - 1], message, largest);
    }
  }

  lemma StepSizes(config: Config, s: State, a: Action)
    requires SizesBounded(config, s) && Enabled(config, s, a)
    ensures SizesBounded(config, Apply(config, s, a))
  {
  }

  /** Where one more upload passes the check, the bounds have room for it. */
  lemma OneMoreFits(config: Config, overlap: nat, files: nat, bytes: nat, pending: nat, pendingBytes: nat, size: nat)
    requires Fits(config, files, bytes, size) && files <= bytes <= Times(files, LargestFile(config))
    requires pending < overlap && pendingBytes <= Times(pending, LargestFile(config))
    ensures files + pending + 1 <= MostFiles(config, overlap)
    ensures bytes + pendingBytes + size <= MostBytes(config, overlap)
  {
    var largest := LargestFile(config);
    TimesMonotone(files, config.maxPerMessage - 1, largest);
    TimesGrows(config.maxPerMessage - 1, largest, MaxBytes(config));
    TimesMonotone(pending, overlap - 1, largest);
    assert bytes + size <= FullBefore(config) + largest;
    assert Times(overlap, largest) == Times(overlap - 1, largest) + largest;
  }

  lemma BeginUploadWithinReach(config: Config, s: State, a: Action, message: nat, overlap: nat)
    requires a.BeginUpload? && Enabled(config, s, a) && Overlap(s, a, overlap)
    requires WithinReach(config, s, message, overlap) && SizesBounded(config, s)
    ensures WithinReach(config, Apply(config, s, a), message, overlap)
  {
    var upload := Upload(a.message, a.user, a.path, a.size, Checked);
    SumAppend(s.tasks, upload, PendingIn(message));
    SumAppend(s.tasks, upload, PendingSizeIn(message));
    if message == a.message {
      ActiveSizeBounds(s.rows, message, LargestFile(config));
      PendingSizeBound(config, s.tasks, message);
      OneMoreFits(config, overlap, CountForMessage(s.rows, message), TotalSizeForMessage(s.rows, message),
                  Sum(s.tasks, PendingIn(message)), Sum(s.tasks, PendingSizeIn(message)), a.size);
    }
  }

  /** A step that lets nothing more pass: pending uploads become attachments, or are dropped. */
  ghost predicate NoMore(s: State, s': State, message: nat) {
    && Sum(s'.tasks, PendingIn(message)) <= Sum(s.tasks, PendingIn(message))
    && CountForMessage(s'.rows, message) + Sum(s'.tasks, PendingIn(message))
       <= CountForMessage(s.rows, message) + Sum(s.tasks, PendingIn(message))
    && TotalSizeForMessage(s'.rows, message) + Sum(s'.tasks, PendingSizeIn(message))
       <= TotalSizeForMessage(s.rows, message) + Sum(s.tasks, PendingSizeIn(message))
  }

  lemma TaskNoMore(s: State, s': State, t: nat, task: Task, message: nat)
    requires s'.rows == s.rows && t < |s.tasks| && s'.tasks == s.tasks[t := task]
    requires PendingIn(message)(task) <= PendingIn(message)(s.tasks[t])
    requires PendingSizeIn(message)(task) <= PendingSizeIn(message)(s.tasks[t])
    ensures NoMore(s, s', message)
  {
    SumUpdate(s.tasks, t, task, PendingIn(message));
    SumUpdate(s.tasks, t, task, PendingSizeIn(message));
  }

  /** Saving moves one upload from the pending ones to the rows. */
  lemma SavingMoves(s: State, s': State, t: nat, task: Task, row: Row, message: nat)
    requires t < |s.tasks| && s'.tasks == s.tasks[t := task] && s'.rows == s.rows + [row]
    requires Pending(s.tasks[t], row.message) && !Pending(task, message)
    requires row.size == s.tasks[t].size && !row.deleted && s.tasks[t].message == row.message
    ensures NoMore(s, s', message)
    ensures CountForMessage(s'.rows, message) == CountForMessage(s.rows, message) + ActiveIn(message)(row)
    ensures TotalSizeForMessage(s'.rows, message) == TotalSizeForMessage(s.rows, message) + ActiveSizeIn(message)(row)
    ensures Sum(s'.tasks, PendingIn(message)) + ActiveIn(message)(row) == Sum(s.tasks, PendingIn(message))
  {
    SumUpdate(s.tasks, t, task, PendingIn(message));
    SumUpdate(s.tasks, t, task, PendingSizeIn(message));
    SumAppend(s.rows, row, ActiveIn(message));
    SumAppend(s.rows, row, ActiveSizeIn(message));
  }

  lemma HidingNoMore(s: State, s': State, t: nat, i: nat, row: Row, message: nat)
    requires t < |s.tasks| && s.tasks[t].Removal? && s'.tasks == s.tasks[t := Removal(i, true)]
    requires i < |s.rows| && s'.rows == s.rows[i := row] && row.deleted
    ensures NoMore(s, s', message)
  {
    SumUpdate(s.tasks, t, Removal(i, true), PendingIn(message));
    SumUpdate(s.tasks, t, Removal(i, true), PendingSizeIn(message));
    SumUpdate(s.rows, i, row, ActiveIn(message));
    SumUpdate(s.rows, i, row, ActiveSizeIn(message));
  }

  lemma RemovalNoMore(s: State, s': State, task: Task, message: nat)
    requires task.Removal? && s'.rows == s.rows && s'.tasks == s.tasks + [task]
    ensures NoMore(s, s', message)
  {
    SumAppend(s.tasks, task, PendingIn(message));
    SumAppend(s.tasks, task, PendingSizeIn(message));
  }

  /** Every step but the beginning of an upload. */
  lemma StepNoMore(config: Config, s: State, a: Action, message: nat)
    requires !a.BeginUpload? && Enabled(config, s, a)
    ensures NoMore(s, Apply(config, s, a), message)
  {
    var s' := Apply(config, s, a);
    if a.CommitOk? || a.CommitLost? {
      SavingMoves(s, s', a.task, s'.tasks[a.task], s'.rows[|s.rows|], message);
    } else if a.MarkOk? {
      HidingNoMore(s, s', a.task, s.tasks[a.task].row, s'.rows[s.tasks[a.task].row], message);
    } else if a.BeginDelete? {
      RemovalNoMore(s, s', Removal(a.row, false), message);
    } else {
      TaskNoMore(s, s', a.task, s'.tasks[a.task], message);
    }
  }

  lemma {:induction false} RunWithinReach(
    config: Config, s: State, run: seq<Action>, s': State, message: nat, overlap: nat)
    requires ReachesWithin(config, s, run, s', overlap)
    requires WithinReach(config, s, message, overlap) && SizesBounded(config, s)
    ensures WithinReach(config, s', message, overlap)
    decreases |run|
  {
    if run != [] {
      StepSizes(config, s, run[0]);
      if run[0].BeginUpload? {
        BeginUploadWithinReach(config, s, run[0], message, overlap);
      } else {
        StepNoMore(config, s, run[0], message);
      }
      RunWithinReach(config, Apply(config, s, run[0]), run[1..], s', message, overlap);
    }
  }

  lemma NothingReached(config: Config, message: nat, overlap: nat)
    ensures WithinReach(config, Empty(), message, overlap)
  {
  }

  /**
   With at most overlap uploads to a message under way at a time, it never goes beyond what MostFiles and
   MostBytes say.
   */
  lemma {:induction false} ReachBounds(config: Config, run: seq<Action>, s: State, message: nat, overlap: nat)
    requires ReachesWithin(config, Empty(), run, s, overlap)
    ensures CountForMessage(s.rows, message) <= MostFiles(config, overlap)
    ensures TotalSizeForMessage(s.rows, message) <= MostBytes(config, overlap)
  {
    NothingReached(config, message, overlap);
    RunWithinReach(config, Empty(), run, s, message, overlap);
  }

  /**
   In the terms of the limits: never more than overlap - 1 attachments, nor more than overlap - 1 full
   files, beyond them.
   */
  lemma {:induction false} QuotasHold(config: Config, run: seq<Action>, s: State, message: nat, overlap: nat)
    requires 1 <= overlap && ReachesWithin(config, Empty(), run, s, overlap)
    ensures CountForMessage(s.rows, message) <= config.maxPerMessage + (overlap - 1)
    ensures TotalSizeForMessage(s.rows, message) <= MaxTotalBytes(config) + (overlap - 1) * MaxBytes(config)
  {
    ReachBounds(config, run, s, message, overlap);
    TimesGrows(overlap - 1, LargestFile(config), MaxBytes(config));
    TimesIsProduct(overlap - 1, MaxBytes(config));
  }

  /** Uploads to one message made one after the other respect both limits exactly. */
  lemma {:induction false} SerialQuotasHold(config: Config, run: seq<Action>, s: State, message: nat)
    requires ReachesWithin(config, Empty(), run, s, 1)
    ensures CountForMessage(s.rows, message) <= config.maxPerMessage
    ensures TotalSizeForMessage(s.rows, message) <= MaxTotalBytes(config)
  {
    QuotasHold(config, run, s, message, 1);
  }

  // --- The bounds are reached ---

  ghost predicate CanReach(config: Config, s: State, s': State, overlap: nat) {
    exists run :: ReachesWithin(config, s, run, s', overlap)
  }

  lemma {:induction false} RunsCompose(
    config: Config, s: State, first: seq<Action>, mid: State, second: seq<Action>, s': State, overlap: nat)
    requires ReachesWithin(config, s, first, mid, overlap) && ReachesWithin(config, mid, second, s', overlap)
    ensures ReachesWithin(config, s, first + second, s', overlap)
    decreases |first|
  {
    if first == [] {
      assert first + second == second;
    } else {
      RunsCompose(config, Apply(config, s, first[0]), first[1..], mid, second, s', overlap);
      assert (first + second)[1..] == first[1..] + second;
    }
  }

  lemma ReachThen(config: Config, s: State, mid: State, s': State, overlap: nat)
    requires CanReach(config, s, mid, overlap) && CanReach(config, mid, s', overlap)
    ensures CanReach(config, s, s', overlap)
  {
    var first :| ReachesWithin(config, s, first, mid, overlap);
    var second :| ReachesWithin(config, mid, second, s', overlap);
    RunsCompose(config, s, first, mid, second, s', overlap);
  }

  lemma ReachSelf(config: Config, s: State, overlap: nat)
    ensures CanReach(config, s, s, overlap)
  {
    assert ReachesWithin(config, s, [], s, overlap);
  }

  lemma ReachStep(config: Config, s: State, a: Action, overlap: nat)
    requires Enabled(config, s, a) && Overlap(s, a, overlap)
    ensures CanReach(config, s, Apply(config, s, a), overlap)
  {
    assert ReachesWithin(config, Apply(config, s, a), [], Apply(config, s, a), overlap);
    assert ReachesWithin(config, s, [a], Apply(config, s, a), overlap);
  }

  function PathOf(task: nat): string {
    seq(task, _ => 'x')
  }

  /** Only uploads so far, each under the path of its number. */
  ghost predicate Numbered(s: State) {
    && (forall t :: 0 <= t < |s.tasks| && s.tasks[t].Upload? ==> |s.tasks[t].path| == t)
    && (forall path :: path in s.storage ==> |path| < |s.tasks|)
  }

  /** What a message holds, and how many of its uploads are under way. */
  ghost predicate Holds(s: State, message: nat, files: nat, bytes: nat, pending: nat) {
    && Numbered(s)
    && CountForMessage(s.rows, message) == files
    && TotalSizeForMessage(s.rows, message) == bytes
    && Sum(s.tasks, PendingIn(message)) == pending
  }

  function Sender(message: nat): World {
    World(map[message := Message(0, false)], {(0, message)})
  }

  lemma CheckPasses(config: Config, rows: seq<Row>, message: nat, size: nat)
    requires Fits(config, CountForMessage(rows, message), TotalSizeForMessage(rows, message), size)
    ensures UploadError(config, Sender(message), rows, 0, message, size) == None
  {
  }

  lemma NumberedBegin(s: State, upload: Task)
    requires Numbered(s) && upload.Upload? && upload.path == PathOf(|s.tasks|)
    ensures FreshPath(s, upload.path) && Numbered(s.(tasks := s.tasks + [upload]))
  {
  }

  lemma BeginOne(config: Config, s: State, message: nat, size: nat, overlap: nat, files: nat, bytes: nat, pending: nat)
    returns (s': State)
    requires Holds(s, message, files, bytes, pending) && Fits(config, files, bytes, size) && pending < overlap
    ensures CanReach(config, s, s', overlap) && Holds(s', message, files, bytes, pending + 1)
    ensures s'.tasks == s.tasks + [Upload(message, 0, PathOf(|s.tasks|), size, Checked)]
  {
    var a := BeginUpload(Sender(message), 0, message, size, PathOf(|s.tasks|));
    var upload := Upload(message, 0, PathOf(|s.tasks|), size, Checked);
    CheckPasses(config, s.rows, message, size);
    NumberedBegin(s, upload);
    s' := s.(tasks := s.tasks + [upload]);
    ReachStep(config, s, a, overlap);
    SumAppend(s.tasks, upload, PendingIn(message));
  }

  ghost predicate IsChecked(s: State, t: nat, message: nat, size: nat) {
    InPhase(s, t, Checked) && s.tasks[t].message == message && s.tasks[t].size == size
  }

  ghost predicate AllChecked(s: State, base: nat, n: nat, message: nat, size: nat) {
    base + n <= |s.tasks| && forall t :: base <= t < base + n ==> IsChecked(s, t, message, size)
  }

  lemma PutOne(config: Config, s: State, t: nat, message: nat, overlap: nat) returns (s': State)
    requires Numbered(s) && InPhase(s, t, Checked)
    ensures CanReach(config, s, s', overlap) && Numbered(s') && InPhase(s', t, Stored)
    ensures s'.rows == s.rows && s'.tasks == s.tasks[t := s.tasks[t].(phase := Stored)]
    ensures Sum(s'.tasks, PendingIn(message)) == Sum(s.tasks, PendingIn(message))
  {
    s' := Apply(config, s, PutOk(t));
    ReachStep(config, s, PutOk(t), overlap);
    SumUpdate(s.tasks, t, s'.tasks[t], PendingIn(message));
  }

  lemma SaveOne(config: Config, s: State, t: nat, overlap: nat) returns (s': State)
    requires Numbered(s) && InPhase(s, t, Stored)
    ensures CanReach(config, s, s', overlap) && Numbered(s')
    ensures s'.tasks == s.tasks[t := s.tasks[t].(phase := Saved(|s.rows|))]
    ensures var u := s.tasks[t]; s'.rows == s.rows + [Row(u.message, u.uploader, u.path, u.size, false, t)]
  {
    s' := Apply(config, s, CommitOk(t));
    ReachStep(config, s, CommitOk(t), overlap);
  }

  /** The storage call and the commit of one upload, both successful. */
  lemma FinishOne(
    config: Config, s: State, t: nat, message: nat, size: nat, overlap: nat, files: nat, bytes: nat, pending: nat)
    returns (s': State)
    requires Holds(s, message, files, bytes, pending) && IsChecked(s, t, message, size) && 1 <= pending
    ensures CanReach(config, s, s', overlap) && Holds(s', message, files + 1, bytes + size, pending - 1)
    ensures |s'.tasks| == |s.tasks| && forall u :: 0 <= u < |s.tasks| && u != t ==> s'.tasks[u] == s.tasks[u]
  {
    var mid := PutOne(config, s, t, message, overlap);
    s' := SaveOne(config, mid, t, overlap);
    ReachThen(config, s, mid, s', overlap);
    SavingMoves(mid, s', t, s'.tasks[t], s'.rows[|s.rows|], message);
  }

  /** Uploads of one size, one after the other. */
  lemma {:induction false} FillSerially(
    config: Config, s: State, message: nat, size: nat, n: nat, overlap: nat, files: nat, bytes: nat)
    returns (s': State)
    requires Holds(s, message, files, bytes, 0) && 1 <= overlap && 1 <= size <= MaxBytes(config)
    requires files + n <= config.maxPerMessage && bytes + Times(n, size) <= MaxTotalBytes(config)
    ensures CanReach(config, s, s', overlap) && Holds(s', message, files + n, bytes + Times(n, size), 0)
    decreases n
  {
    if n == 0 {
      ReachSelf(config, s, overlap);
      return s;
    }
    var mid := FillSerially(config, s, message, size, n - 1, overlap, files, bytes);
    var filled := bytes + Times(n - 1, size);
    var begun := BeginOne(config, mid, message, size, overlap, files + n - 1, filled, 0);
    s' := FinishOne(config, begun, |mid.tasks|, message, size, overlap, files + n - 1, filled, 1);
    ReachThen(config, s, mid, begun, overlap);
    ReachThen(config, s, begun, s', overlap);
  }

  /** n uploads that all pass the check before any of them is saved. */
  lemma {:induction false} BeginAll(
    config: Config, s: State, message: nat, size: nat, n: nat, overlap: nat, files: nat, bytes: nat)
    returns (s': State)
    requires Holds(s, message, files, bytes, 0) && n <= overlap && Fits(config, files, bytes, size)
    ensures CanReach(config, s, s', overlap) && Holds(s', message, files, bytes, n)
    ensures |s'.tasks| == |s.tasks| + n && AllChecked(s', |s.tasks|, n, message, size)
    decreases n
  {
    if n == 0 {
      ReachSelf(config, s, overlap);
      return s;
    }
    var mid := BeginAll(config, s, message, size, n - 1, overlap, files, bytes);
    s' := BeginOne(config, mid, message, size, overlap, files, bytes, n - 1);
    ReachThen(config, s, mid, s', overlap);
    forall t | |s.tasks| <= t < |s'.tasks| ensures IsChecked(s', t, message, size) {
      assert t < |mid.tasks| ==> IsChecked(mid, t, message, size) && s'.tasks[t] == mid.tasks[t];
    }
  }

  /** So many files and bytes more are shown. */
  predicate Gains(s: State, s': State, message: nat, files: nat, bytes: nat) {
    && CountForMessage(s'.rows, message) == CountForMessage(s.rows, message) + files
    && TotalSizeForMessage(s'.rows, message) == TotalSizeForMessage(s.rows, message) + bytes
  }

  lemma GainsAdd(s: State, mid: State, s': State, message: nat, files: nat, bytes: nat, more: nat, moreBytes: nat)
    requires Gains(s, mid, message, files, bytes) && Gains(mid, s', message, more, moreBytes)
    ensures Gains(s, s', message, files + more, bytes + moreBytes)
  {
  }

  lemma FinishLast(config: Config, s: State, base: nat, message: nat, size: nat, n: nat, overlap: nat)
    returns (s': State)
    requires Numbered(s) && 1 <= n <= Sum(s.tasks, PendingIn(message)) && AllChecked(s, base, n, message, size)
    ensures CanReach(config, s, s', overlap) && Numbered(s') && AllChecked(s', base, n - 1, message, size)
    ensures Sum(s'.tasks, PendingIn(message)) == Sum(s.tasks, PendingIn(message)) - 1
    ensures Gains(s, s', message, 1, size)
  {
    var last := base + n - 1;
    assert IsChecked(s, last, message, size);
    s' := FinishOne(config, s, last, message, size, overlap, CountForMessage(s.rows, message),
                    TotalSizeForMessage(s.rows, message), Sum(s.tasks, PendingIn(message)));
    forall t | base <= t < last ensures IsChecked(s', t, message, size) {
      assert IsChecked(s, t, message, size);
    }
  }

  /** And then all of them are, from the last one back. */
  lemma {:induction false} FinishAll(
    config: Config, s: State, base: nat, message: nat, size: nat, n: nat, overlap: nat)
    returns (s': State)
    requires Numbered(s) && n <= Sum(s.tasks, PendingIn(message)) && AllChecked(s, base, n, message, size)
    ensures CanReach(config, s, s', overlap) && Gains(s, s', message, n, Times(n, size))
    decreases n
  {
    if n == 0 {
      ReachSelf(config, s, overlap);
      return s;
    }
    var mid := FinishLast(config, s, base, message, size, n, overlap);
    s' := FinishAll(config, mid, base, message, size, n - 1, overlap);
    ReachThen(config, s, mid, s', overlap);
    GainsAdd(s, mid, s', message, 1, size, n - 1, Times(n - 1, size));
  }

  /** As many overlapping uploads of one size as are allowed, after the message was filled up. */
  lemma Overfill(config: Config, s: State, message: nat, size: nat, overlap: nat, files: nat, bytes: nat)
    returns (s': State)
    requires CanReach(config, Empty(), s, overlap)
    requires Holds(s, message, files, bytes, 0) && Fits(config, files, bytes, size)
    ensures CanReach(config, Empty(), s', overlap)
    ensures CountForMessage(s'.rows, message) == files + overlap
    ensures TotalSizeForMessage(s'.rows, message) == bytes + Times(overlap, size)
  {
    var mid := BeginAll(config, s, message, size, overlap, overlap, files, bytes);
    s' := FinishAll(config, mid, |s.tasks|, message, size, overlap, overlap);
    ReachThen(config, Empty(), s, mid, overlap);
    ReachThen(config, Empty(), mid, s', overlap);
  }

  /** For every configuration and every overlap some run brings a message to MostFiles attachments. */
  lemma MostFilesReached(config: Config, message: nat, overlap: nat) returns (s: State)
    ensures CanReach(config, Empty(), s, overlap)
    ensures CountForMessage(s.rows, message) == MostFiles(config, overlap)
  {
    if Closed(config, overlap) {
      ReachSelf(config, Empty(), overlap);
      return Empty();
    }
    var n := Min(config.maxPerMessage, MaxTotalBytes(config)) - 1;
    TimesOne(n);
    var full := FillSerially(config, Empty(), message, 1, n, overlap, 0, 0);
    s := Overfill(config, full, message, 1, overlap, n, n);
  }

  /** Serial uploads that add up to a given size, with as few files as possible. */
  lemma FillBytes(config: Config, message: nat, bytes: nat, overlap: nat)
    returns (s: State, files: nat)
    requires !Closed(config, overlap)
    requires bytes <= Times(config.maxPerMessage - 1, MaxBytes(config)) && bytes <= MaxTotalBytes(config)
    ensures CanReach(config, Empty(), s, overlap)
    ensures files < config.maxPerMessage && Holds(s, message, files, bytes, 0)
  {
    var n, rest := TimesDivides(bytes, MaxBytes(config));
    TimesStrict(n, config.maxPerMessage - 1, MaxBytes(config), rest);
    var full := FillSerially(config, Empty(), message, MaxBytes(config), n, overlap, 0, 0);
    if rest == 0 {
      return full, n;
    }
    assert Times(1, rest) == Times(0, rest) + rest == rest;
    s := FillSerially(config, full, message, rest, 1, overlap, n, Times(n, MaxBytes(config)));
    files := n + 1;
    ReachThen(config, Empty(), full, s, overlap);
  }

  /** And some run brings it to MostBytes. */
  lemma MostBytesReached(config: Config, message: nat, overlap: nat) returns (s: State)
    ensures CanReach(config, Empty(), s, overlap)
    ensures TotalSizeForMessage(s.rows, message) == MostBytes(config, overlap)
  {
    if Closed(config, overlap) {
      ReachSelf(config, Empty(), overlap);
      return Empty();
    }
    var bytes := FullBefore(config);
    var full, files := FillBytes(config, message, bytes, overlap);
    s := Overfill(config, full, message, LargestFile(config), overlap, files, bytes);
  }

  ghost predicate CountPromise(config: Config, overlap: nat) {
    forall s, message :: CanReach(config, Empty(), s, overlap) ==>
      CountForMessage(s.rows, message) <= config.maxPerMessage
  }

  ghost predicate SizePromise(config: Config, overlap: nat) {
    forall s, message :: CanReach(config, Empty(), s, overlap) ==>
      TotalSizeForMessage(s.rows, message) <= MaxTotalBytes(config)
  }

  /** Every run keeps to the number of attachments exactly when MostFiles does: for usable limits, without overlap. */
  lemma CountPromiseIff(config: Config, overlap: nat)
    ensures CountPromise(config, overlap) <==> MostFiles(config, overlap) <= config.maxPerMessage
    ensures 1 <= config.maxPerMessage <= MaxTotalBytes(config) && 1 <= MaxBytes(config) ==>
              (CountPromise(config, overlap) <==> overlap <= 1)
  {
    forall s, message | CanReach(config, Empty(), s, overlap)
      ensures CountForMessage(s.rows, message) <= MostFiles(config, overlap)
    {
      var run :| ReachesWithin(config, Empty(), run, s, overlap);
      ReachBounds(config, run, s, message, overlap);
    }
    var s := MostFilesReached(config, 0, overlap);
    assert CountPromise(config, overlap) ==> CountForMessage(s.rows, 0) <= config.maxPerMessage;
  }

  /** Limits that fit together: a message can be filled up with the files it may have. */
  predicate Consonant(config: Config) {
    && 1 <= config.maxPerMessage && 1 <= MaxBytes(config) <= MaxTotalBytes(config)
    && MaxTotalBytes(config) <= config.maxPerMessage * MaxBytes(config)
  }

  lemma LimitsMetIff(config: Config, overlap: nat)
    ensures Consonant(config) ==> (MostBytes(config, overlap) <= MaxTotalBytes(config) <==> overlap <= 1)
  {
    if Consonant(config) && 1 <= overlap {
      var largest := MaxBytes(config);
      TimesIsProduct(config.maxPerMessage, largest);
      assert Times(config.maxPerMessage, largest) == Times(config.maxPerMessage - 1, largest) + largest;
      assert FullBefore(config) == MaxTotalBytes(config) - largest;
      TimesTwo(largest);
      if 2 <= overlap {
        TimesMonotone(2, overlap, largest);
      }
    }
  }

  /** And to the total size exactly when MostBytes does: again without overlap, if the files allowed can fill it. */
  lemma SizePromiseIff(config: Config, overlap: nat)
    ensures SizePromise(config, overlap) <==> MostBytes(config, overlap) <= MaxTotalBytes(config)
    ensures Consonant(config) ==> (SizePromise(config, overlap) <==> overlap <= 1)
  {
    forall s, message | CanReach(config, Empty(), s, overlap)
      ensures TotalSizeForMessage(s.rows, message) <= MostBytes(config, overlap)
    {
      var run :| ReachesWithin(config, Empty(), run, s, overlap);
      ReachBounds(config, run, s, message, overlap);
    }
    var s := MostBytesReached(config, 0, overlap);
    assert SizePromise(config, overlap) ==> TotalSizeForMessage(s.rows, 0) <= MaxTotalBytes(config);
    LimitsMetIff(config, overlap);
  }

  // --- The service methods, each a run of the protocol ---

  lemma FirstStep(config: Config, s: State, a: Action, rest: seq<Action>, s': State)
    requires Enabled(config, s, a) && Reaches(config, Apply(config, s, a), rest, s')
    ensures Reaches(config, s, [a] + rest, s')
  {
    assert ([a] + rest)[1..] == rest;
  }

  /** How the storage and the database answer the calls of an upload. */
  datatype UploadOutcome =
    | PutFails(kept: bool)
    | CommitFails(applied: bool, cleaned: bool, gone: bool)
    | Saves

  datatype DeleteOutcome = MarkFails | RemoveFails(gone: bool) | Removes

  /** What an upload that passed its checks leaves behind. */
  function AfterUpload(
    s: State, user: nat, message: nat, size: nat, path: string, outcome: UploadOutcome): State
  {
    var row := Row(message, user, path, size, false, |s.tasks|);
    match outcome
    case PutFails(kept) =>
      var left := if kept then {path} else {};
      s.(storage := s.storage + left, failedPuts := s.failedPuts + left,
         tasks := s.tasks + [Upload(message, user, path, size, Aborted(None))])
    case CommitFails(applied, cleaned, gone) =>
      s.(rows := if applied then s.rows + [row] else s.rows,
         storage := if cleaned || gone then s.storage else s.storage + {path},
         failedRemovals := if cleaned then s.failedRemovals else s.failedRemovals + {path},
         tasks := s.tasks + [
           Upload(message, user, path, size, Aborted(if applied then Some(|s.rows|) else None))])
    case Saves =>
      s.(rows := s.rows + [row], storage := s.storage + {path},
         tasks := s.tasks + [Upload(message, user, path, size, Saved(|s.rows|))])
  }

  function AfterDelete(s: State, row: nat, outcome: DeleteOutcome): State
    requires row < |s.rows|
  {
    var tasks := s.tasks + [Done];
    if outcome.MarkFails? then s.(tasks := tasks)
    else
      var path := s.rows[row].path;
      s.(rows := s.rows[row := s.rows[row].(deleted := true)],
         storage := if outcome.Removes? || outcome.gone then s.storage - {path} else s.storage,
         failedRemovals := if outcome.Removes? then s.failedRemovals else s.failedRemovals + {path},
         tasks := tasks)
  }

  lemma FailedCommitIsRun(config: Config, s: State, a: Action, applied: bool, cleaned: bool, gone: bool)
    returns (run: seq<Action>)
    requires a.BeginUpload? && Enabled(config, s, a)
    ensures Reaches(config, Apply(config, s, a), run,
                    AfterUpload(s, a.user, a.message, a.size, a.path, CommitFails(applied, cleaned, gone)))
  {
    var t, end := |s.tasks|, AfterUpload(s, a.user, a.message, a.size, a.path, CommitFails(applied, cleaned, gone));
    var s1 := Apply(config, s, a);
    var s2 := Apply(config, s1, PutOk(t));
    var commit := if applied then CommitLost(t) else CommitFail(t);
    var s3 := Apply(config, s2, commit);
    var last := if cleaned then CompensateOk(t) else CompensateFail(t, gone);
    assert Apply(config, s3, last) == end;
    FirstStep(config, s3, last, [], end);
    run := [last] + [];
    FirstStep(config, s2, commit, run, end);
    run := [commit] + run;
    FirstStep(config, s1, PutOk(t), run, end);
    run := [PutOk(t)] + run;
  }

  /** A failed or completed upload is a run of the protocol. */
  lemma UploadIsRun(config: Config, s: State, a: Action, outcome: UploadOutcome) returns (run: seq<Action>)
    requires a.BeginUpload? && Enabled(config, s, a)
    ensures run != [] && run[0] == a
    ensures Reaches(config, s, run, AfterUpload(s, a.user, a.message, a.size, a.path, outcome))
  {
    var t, end := |s.tasks|, AfterUpload(s, a.user, a.message, a.size, a.path, outcome);
    var s1 := Apply(config, s, a);
    match outcome {
    case PutFails(kept) =>
      assert Apply(config, s1, PutFail(t, kept)) == end;
      FirstStep(config, s1, PutFail(t, kept), [], end);
      run := [PutFail(t, kept)] + [];
    case CommitFails(applied, cleaned, gone) =>
      run := FailedCommitIsRun(config, s, a, applied, cleaned, gone);
    case Saves =>
      var s2 := Apply(config, s1, PutOk(t));
      assert Apply(config, s2, CommitOk(t)) == end;
      FirstStep(config, s2, CommitOk(t), [], end);
      run := [CommitOk(t)] + [];
      FirstStep(config, s1, PutOk(t), run, end);
      run := [PutOk(t)] + run;
    }
    FirstStep(config, s, a, run, end);
    run := [a] + run;
  }

  /** So is a deletion. */
  lemma DeleteIsRun(config: Config, s: State, a: Action, outcome: DeleteOutcome) returns (run: seq<Action>)
    requires a.BeginDelete? && Enabled(config, s, a)
    ensures run != [] && run[0] == a && Reaches(config, s, run, AfterDelete(s, a.row, outcome))
  {
    var t, end := |s.tasks|, AfterDelete(s, a.row, outcome);
    var s1 := Apply(config, s, a);
    if outcome.MarkFails? {
      assert Apply(config, s1, MarkFail(t)) == end;
      FirstStep(config, s1, MarkFail(t), [], end);
      run := [MarkFail(t)] + [];
    } else {
      var s2 := Apply(config, s1, MarkOk(t));
      var last := if outcome.Removes? then RemoveOk(t) else RemoveFail(t, outcome.gone);
      assert Apply(config, s2, last) == end;
      FirstStep(config, s2, last, [], end);
      run := [last] + [];
      FirstStep(config, s1, MarkOk(t), run, end);
      run := [MarkOk(t)] + run;
    }
    FirstStep(config, s, a, run, end);
    run := [a] + run;
  }

  /** A run that fails, for every configuration that admits a file: its commit is not acknowledged, and it cleans up. */
  lemma LostAcknowledgement(config: Config, world: World, user: nat, message: nat, size: nat, path: string)
    returns (run: seq<Action>, s: State)
    requires UploadError(config, world, [], user, message, size) == None
    ensures Reaches(config, Empty(), run, s) && run != [] && run[0] == BeginUpload(world, user, message, size, path)
    ensures |s.rows| == 1 && !s.rows[0].deleted && s.rows[0].path == path && path !in s.storage && Abandoned(s, 0)
  {
    var begin := BeginUpload(world, user, message, size, path);
    run := UploadIsRun(config, Empty(), begin, CommitFails(true, true, true));
    s := AfterUpload(Empty(), user, message, size, path, CommitFails(true, true, true));
  }

  class AttachmentService {
    const config: Config
    var rows: seq<Row>
    var storage: set<string>
    /** The requests made and the failed calls: a record that only the proofs read. */
    var tasks: seq<Task>
    ghost var failedPuts: set<string>
    ghost var failedRemovals: set<string>

    ghost function View(): State
      reads this
    {
      State(rows, storage, tasks, failedPuts, failedRemovals)
    }

    constructor (config: Config)
      ensures this.config == config && View() == Empty()
    {
      this.config, rows, storage := config, [], {};
      tasks, failedPuts, failedRemovals := [], {}, {};
    }

    /** The outcome says how the two stores answer; each answer is one of the protocol's steps. */
    method UploadAttachment(world: World, user: nat, message: nat, size: nat, path: string, outcome: UploadOutcome)
      returns (result: Result<nat, Error>)
      requires FreshPath(View(), path)
      modifies this
      ensures var refused := UploadError(config, world, old(rows), user, message, size);
              if refused.Some? then result == Err(refused.value) && View() == old(View())
              else
                && View() == AfterUpload(old(View()), user, message, size, path, outcome)
                && result == match outcome
                             case PutFails(_) => Err(UploadFailed)
                             case CommitFails(_, _, _) => Err(SaveFailed)
                             case Saves => Ok(|old(rows)|)
      ensures result.Ok? ==>
                && rows == old(rows) + [Row(message, user, path, size, false, |old(tasks)|)]
                && storage == old(storage) + {path}
      ensures result == Err(UploadFailed) ==>
                rows == old(rows) && storage == old(storage) + if outcome.kept then {path} else {}
      ensures result == Err(SaveFailed) ==>
                && rows == (if outcome.applied
                            then old(rows) + [Row(message, user, path, size, false, |old(tasks)|)] else old(rows))
                && storage == if outcome.cleaned || outcome.gone then old(storage) else old(storage) + {path}
    {
      if message !in world.messages || (user, message) !in world.access {
        return Err(AccessDenied);
      }
      if world.messages[message].deleted {
        return Err(MessageDeleted);
      }
      var maxBytes := config.maxAttachmentMb * MEGABYTE;
      if size == 0 {
        return Err(InvalidAttachment);
      }
      if maxBytes < size {
        return Err(TooLarge);
      }
      if config.maxPerMessage <= CountForMessage(rows, message) {
        return Err(CountExceeded);
      }
      var currentTotal := TotalSizeForMessage(rows, message);
      if config.maxTotalMb * MEGABYTE < currentTotal + size {
        return Err(TotalExceeded);
      }
      var origin := |tasks|;
      tasks := tasks + [Upload(message, user, path, size, Checked)];

      if outcome.PutFails? {
        if outcome.kept {
          storage := storage + {path};
          failedPuts := failedPuts + {path};
        }
        tasks := tasks[origin := tasks[origin].(phase := Aborted(None))];
        return Err(UploadFailed);
      }
      storage := storage + {path};

      if outcome.CommitFails? {
        tasks := tasks[origin := tasks[origin].(phase := Aborted(if outcome.applied then Some(|rows|) else None))];
        if outcome.applied {
          rows := rows + [Row(message, user, path, size, false, origin)];
        }
        if outcome.cleaned || outcome.gone {
          storage := storage - {path};
        }
        if !outcome.cleaned {
          failedRemovals := failedRemovals + {path};
        }
        return Err(SaveFailed);
      }
      tasks := tasks[origin := tasks[origin].(phase := Saved(|rows|))];
      rows := rows + [Row(message, user, path, size, false, origin)];
      return Ok(|rows| - 1);
    }

    method DeleteAttachment(world: World, user: nat, row: nat, outcome: DeleteOutcome)
      returns (result: Result<nat, Error>)
      modifies this
      ensures var refused := DeleteError(world, old(rows), user, row);
              if refused.Some? then result == Err(refused.value) && View() == old(View())
              else
                && View() == AfterDelete(old(View()), row, outcome)
                && result == match outcome
                             case MarkFails => Err(CommitFailed)
                             case RemoveFails(_) => Err(DeleteFailed)
                             case Removes => Ok(row)
      ensures result == Err(DeleteForbidden) ==>
                var m := old(rows)[row].message;
                m in world.messages && user != world.messages[m].sender && user != old(rows)[row].uploader
      ensures result == Ok(row) || result == Err(DeleteFailed) ==>
                var n := old(rows)[row];
                && !n.deleted && n.message in world.messages && (user, n.message) in world.access
                && (user == n.uploader || user == world.messages[n.message].sender)
                && rows == old(rows)[row := n.(deleted := true)]
                && storage == if result.Ok? || outcome.gone then old(storage) - {n.path} else old(storage)
      ensures result == Err(NotFound) <==>
                || |old(rows)| <= row || old(rows)[row].deleted
                || old(rows)[row].message !in world.messages || (user, old(rows)[row].message) !in world.access
    {
      if |rows| <= row || rows[row].deleted {
        return Err(NotFound);
      }
      var attachment := rows[row];
      if attachment.message !in world.messages || (user, attachment.message) !in world.access {
        return Err(NotFound);
      }
      if attachment.uploader != user && world.messages[attachment.message].sender != user {
        return Err(DeleteForbidden);
      }
      tasks := tasks + [Done];
      if outcome.MarkFails? {
        return Err(CommitFailed);
      }
      rows := rows[row := attachment.(deleted := true)];

      if outcome.Removes? || outcome.gone {
        storage := storage - {attachment.path};
      }
      if outcome.RemoveFails? {
        failedRemovals := failedRemovals + {attachment.path};
        return Err(DeleteFailed);
      }
      return Ok(row);
    }
  }
}
