/**
 Every run of the operations on notifications: the count last pushed to a user against the table, and
 the unique constraint against soft deletion.
 */
module NotificationRuns {
  import opened Common
  import opened Notifications

  datatype Action =
    | Create(items: seq<Item>, preferences: Preferences, now: int)
    | MarkRead(user: Uuid, id: nat)
    | MarkAll(user: Uuid)
    | Delete(user: Uuid, id: nat)
    | Cleanup(cutoff: int)

  function Next(s: State, action: Action): State {
    match action
    case Create(items, preferences, now) => Settled(s, AfterBatch(s, preferences, items, now))
    case MarkRead(user, id) => AfterMarkRead(s, user, id)
    case MarkAll(user) => AfterMarkAll(s, user)
    case Delete(user, id) => AfterDelete(s, user, id)
    case Cleanup(cutoff) => AfterCleanup(s, cutoff)
  }

  datatype Run = Initially | Then(before: Run, action: Action)

  function Final(run: Run): State {
    match run
    case Initially => State([], [])
    case Then(before, action) => Next(Final(before), action)
  }

  // --- The pushed count ---

  /** The latest count among the emissions for a user. */
  function Latest(emitted: seq<Emission>, user: Uuid): Option<nat> {
    if emitted == [] then None
    else
      var last := emitted[|emitted| - 1];
      if last.Count? && last.user == user then Some(last.unread) else Latest(emitted[..|emitted| - 1], user)
  }

  /** What the user's client shows: nothing pushed yet means 0. */
  function Shown(s: State, user: Uuid): nat {
    var latest := Latest(s.emitted, user);
    if latest.Some? then latest.value else 0
  }

  /** The user's unread rows that retention removed since the user's count was last pushed. */
  function Missed(run: Run, user: Uuid): nat {
    match run
    case Initially => 0
    case Then(before, action) =>
      var s := Final(before);
      if action.Cleanup? then Missed(before, user)
        + CountUnread(Filter(s.rows, CreatedBefore(action.cutoff, true)), user)
      else if Latest(Pushed(s, action), user).Some? then 0
      else Missed(before, user)
  }

  /** What one action emits. */
  function Pushed(s: State, action: Action): (r: seq<Emission>)
    ensures Next(s, action).emitted == s.emitted + r
  {
    var after := Next(s, action).emitted;
    assert after[..|s.emitted|] == s.emitted;
    after[|s.emitted|..]
  }

  predicate Addressed(rows: seq<Notification>, user: Uuid) {
    exists i :: 0 <= i < |rows| && rows[i].recipient == user
  }

  lemma {:induction false} LatestAppend(a: seq<Emission>, b: seq<Emission>, user: Uuid)
    ensures Latest(a + b, user) == if Latest(b, user).Some? then Latest(b, user) else Latest(a, user)
  {
    if b == [] {
      assert a + b == a;
    } else {
      LatestAppend(a, b[..|b| - 1], user);
      assert (a + b)[..|a + b| - 1] == a + b[..|b| - 1];
    }
  }

  lemma PairLatest(first: Emission, user: Uuid, unread: nat, other: Uuid)
    requires !first.Count?
    ensures Latest([first, Count(user, unread)], other) == if other == user then Some(unread) else None
  {
    assert [first, Count(user, unread)][..1] == [first] && [first][..0] == [];
    assert Latest([first], other) == Latest([], other) == None;
  }

  lemma {:induction false} DeliveriesLatest(rows: seq<Notification>, created: seq<Notification>, user: Uuid)
    ensures Latest(Deliveries(rows, created), user)
        == if Addressed(created, user) then Some(CountUnread(rows, user)) else None
  {
    if created != [] {
      var before, n := created[..|created| - 1], created[|created| - 1];
      DeliveriesLatest(rows, before, user);
      var pair := [Created(n.recipient, n), CountOf(rows, n.recipient)];
      LatestAppend(Deliveries(rows, before), pair, user);
      PairLatest(pair[0], n.recipient, CountUnread(rows, n.recipient), user);
      assert Addressed(created, user) <==> Addressed(before, user) || n.recipient == user by {
        assert created == before + [n];
      }
    }
  }

  lemma {:induction false} OthersUncounted(rows: seq<Notification>, created: seq<Notification>, user: Uuid)
    requires !Addressed(created, user)
    ensures CountUnread(rows + created, user) == CountUnread(rows, user)
  {
    if created == [] {
      assert rows + created == rows;
    } else {
      var before, n := created[..|created| - 1], created[|created| - 1];
      assert forall i :: 0 <= i < |before| ==> before[i] == created[i];
      OthersUncounted(rows, before, user);
      assert rows + created == (rows + before) + [n];
      SumAppend(rows + before, n, UnreadOf(user));
      assert created[|created| - 1].recipient != user;
    }
  }

  /** An action that pushes a user's count pushes the right one; an action that does not leaves it right. */
  predicate PushesRight(s: State, action: Action, user: Uuid) {
    var latest := Latest(Pushed(s, action), user);
    CountUnread(Next(s, action).rows, user) == if latest.Some? then latest.value else CountUnread(s.rows, user)
  }

  lemma CreatePushesRight(s: State, action: Action, user: Uuid)
    requires action.Create?
    ensures PushesRight(s, action, user)
  {
    var s' := Next(s, action);
    if s'.emitted == s.emitted {
      assert Pushed(s, action) == [];
    }
    if AfterBatch(s, action.preferences, action.items, action.now).Ok? {
      var created := Batch(s.rows, action.preferences, action.items, action.now);
      assert Pushed(s, action) == Deliveries(s'.rows, created);
      DeliveriesLatest(s'.rows, created, user);
      if !Addressed(created, user) {
        OthersUncounted(s.rows, created, user);
      }
    } else {
      assert s' == s;
    }
  }

  lemma ReadingPushesRight(s: State, action: Action, user: Uuid)
    requires action.MarkRead? || action.MarkAll? || action.Delete?
    ensures PushesRight(s, action, user)
  {
    var s' := Next(s, action);
    if s' != s {
      match action
      case MarkRead(u, id) =>
        SumUpdate(s.rows, id, s'.rows[id], UnreadOf(user));
        assert Pushed(s, action) == [ReadOne(u), CountOf(s'.rows, u)];
        PairLatest(ReadOne(u), u, CountUnread(s'.rows, u), user);
      case MarkAll(u) =>
        MarkAllCounts(s.rows, u, user);
        assert Pushed(s, action) == [ReadAll(u), CountOf(s'.rows, u)];
        PairLatest(ReadAll(u), u, CountUnread(s'.rows, u), user);
      case Delete(u, id) =>
        SumUpdate(s.rows, id, s'.rows[id], UnreadOf(user));
        assert Pushed(s, action) == [Deleted(u), CountOf(s'.rows, u)];
        PairLatest(Deleted(u), u, CountUnread(s'.rows, u), user);
    } else {
      assert Pushed(s, action) == [];
    }
  }

  lemma {:induction false} CleanupSplits(rows: seq<Notification>, cutoff: int, user: Uuid)
    ensures CountUnread(rows, user)
         == CountUnread(Filter(rows, CreatedBefore(cutoff, false)), user)
           + CountUnread(Filter(rows, CreatedBefore(cutoff, true)), user)
  {
    if rows != [] {
      var before, n := rows[..|rows| - 1], rows[|rows| - 1];
      CleanupSplits(before, cutoff, user);
      SumAppend(Filter(before, CreatedBefore(cutoff, false)), n, UnreadOf(user));
      SumAppend(Filter(before, CreatedBefore(cutoff, true)), n, UnreadOf(user));
    }
  }

  /** The pushed count is the table's count plus exactly what retention has silently removed since. */
  lemma {:induction false} ShownExact(run: Run, user: Uuid)
    ensures Shown(Final(run), user) == CountUnread(Final(run).rows, user) + Missed(run, user)
  {
    if run.Then? {
      var s, action := Final(run.before), run.action;
      ShownExact(run.before, user);
      if action.Cleanup? {
        CleanupSplits(s.rows, action.cutoff, user);
      } else {
        LatestAppend(s.emitted, Pushed(s, action), user);
        if action.Create? {
          CreatePushesRight(s, action, user);
        } else {
          ReadingPushesRight(s, action, user);
        }
      }
    }
  }

  predicate NoCleanup(run: Run) {
    run.Then? ==> !run.action.Cleanup? && NoCleanup(run.before)
  }

  lemma {:induction false} NothingMissed(run: Run, user: Uuid)
    requires NoCleanup(run)
    ensures Missed(run, user) == 0
  {
    if run.Then? {
      NothingMissed(run.before, user);
    }
  }

  /** Without retention every user's pushed count is the number of the user's unread notifications. */
  lemma ShownIsUnread(run: Run)
    requires NoCleanup(run)
    ensures forall user: Uuid :: Shown(Final(run), user) == CountUnread(Final(run).rows, user)
  {
    forall user: Uuid ensures Shown(Final(run), user) == CountUnread(Final(run).rows, user) {
      ShownExact(run, user);
      NothingMissed(run, user);
    }
  }

  predicate OldUnread(n: Notification, cutoff: int, user: Uuid) {
    n.recipient == user && !n.deleted && !n.isRead && n.createdAt < cutoff
  }

  lemma {:induction false} SomeUnread(rows: seq<Notification>, user: Uuid)
    ensures CountUnread(rows, user) == 0
       <==> forall i :: 0 <= i < |rows| ==> rows[i].recipient != user || rows[i].deleted || rows[i].isRead
  {
    if rows != [] {
      SomeUnread(rows[..|rows| - 1], user);
      assert rows == rows[..|rows| - 1] + [rows[|rows| - 1]];
    }
  }

  /** Retention keeps a correct count correct exactly when it removes no unread row of that user. */
  lemma CleanupKeepsShownIff(s: State, cutoff: int, user: Uuid)
    requires Shown(s, user) == CountUnread(s.rows, user)
    ensures Shown(AfterCleanup(s, cutoff), user) == CountUnread(AfterCleanup(s, cutoff).rows, user)
       <==> forall i :: 0 <= i < |s.rows| ==> !OldUnread(s.rows[i], cutoff, user)
  {
    CleanupSplits(s.rows, cutoff, user);
    var older := Filter(s.rows, CreatedBefore(cutoff, true));
    SomeUnread(older, user);
    forall i | 0 <= i < |s.rows| && OldUnread(s.rows[i], cutoff, user) ensures s.rows[i] in older {
      FilterMember(s.rows, CreatedBefore(cutoff, true), s.rows[i]);
    }
    forall i | 0 <= i < |older| ensures older[i] in s.rows && older[i].createdAt < cutoff {
      FilterMember(s.rows, CreatedBefore(cutoff, true), older[i]);
    }
  }

  // --- What is announced ---

  /** The notifications announced as created, in order. */
  function Announced(emitted: seq<Emission>): seq<Notification> {
    if emitted == [] then []
    else
      var before, last := Announced(emitted[..|emitted| - 1]), emitted[|emitted| - 1];
      if last.Created? then before + [last.notification] else before
  }

  predicate ToRecipients(emitted: seq<Emission>) {
    forall i :: 0 <= i < |emitted| && emitted[i].Created? ==> emitted[i].user == emitted[i].notification.recipient
  }

  /** The row as it was when it was created. */
  function AsCreated(n: Notification): Notification {
    n.(isRead := false, deleted := false)
  }

  function AllAsCreated(rows: seq<Notification>): (r: seq<Notification>)
    ensures |r| == |rows| && forall i :: 0 <= i < |r| ==> r[i] == AsCreated(rows[i])
  {
    seq(|rows|, i requires 0 <= i < |rows| => AsCreated(rows[i]))
  }

  lemma {:induction false} AnnouncedAppend(a: seq<Emission>, b: seq<Emission>)
    ensures Announced(a + b) == Announced(a) + Announced(b)
  {
    if b == [] {
      assert a + b == a;
    } else {
      AnnouncedAppend(a, b[..|b| - 1]);
      assert (a + b)[..|a + b| - 1] == a + b[..|b| - 1];
    }
  }

  lemma ToRecipientsAppend(a: seq<Emission>, b: seq<Emission>)
    requires ToRecipients(a) && ToRecipients(b)
    ensures ToRecipients(a + b)
  {
  }

  lemma AnnouncedPair(first: Emission, second: Emission)
    requires second.Count?
    ensures Announced([first, second]) == if first.Created? then [first.notification] else []
  {
    assert [first, second][..1] == [first] && [first][..0] == [];
    assert Announced([first]) == Announced([]) + if first.Created? then [first.notification] else [];
  }

  lemma {:induction false} DeliveriesAnnounced(rows: seq<Notification>, created: seq<Notification>)
    ensures Announced(Deliveries(rows, created)) == created
  {
    if created != [] {
      var before, n := created[..|created| - 1], created[|created| - 1];
      DeliveriesAnnounced(rows, before);
      AnnouncedAppend(Deliveries(rows, before), [Created(n.recipient, n), CountOf(rows, n.recipient)]);
      AnnouncedPair(Created(n.recipient, n), CountOf(rows, n.recipient));
      assert created == before + [n];
    }
  }

  lemma {:induction false} DeliveriesReachRecipients(rows: seq<Notification>, created: seq<Notification>)
    ensures ToRecipients(Deliveries(rows, created))
  {
    if created != [] {
      var before, n := created[..|created| - 1], created[|created| - 1];
      DeliveriesReachRecipients(rows, before);
      ToRecipientsAppend(Deliveries(rows, before), [Created(n.recipient, n), CountOf(rows, n.recipient)]);
    }
  }

  lemma {:induction false} BatchAsCreated(rows: seq<Notification>, preferences: Preferences, items: seq<Item>, now: int)
    ensures AllAsCreated(Batch(rows, preferences, items, now)) == Batch(rows, preferences, items, now)
  {
    if items != [] {
      var front := items[..|items| - 1];
      BatchAsCreated(rows, preferences, front, now);
      var before, after := Batch(rows, preferences, front, now), Batch(rows, preferences, items, now);
      assert forall i :: 0 <= i < |before| ==> AsCreated(before[i]) == before[i] by {
        assert forall i :: 0 <= i < |before| ==> AllAsCreated(before)[i] == before[i];
      }
      assert forall i :: 0 <= i < |after| ==> AsCreated(after[i]) == after[i];
    }
  }

  /** What one action announces is what it adds. */
  lemma AnnouncesAdded(s: State, action: Action)
    requires !action.Cleanup?
    ensures AllAsCreated(Next(s, action).rows) == AllAsCreated(s.rows) + Announced(Pushed(s, action))
    ensures ToRecipients(Pushed(s, action))
  {
    var s' := Next(s, action);
    var pushed := Pushed(s, action);
    if s' == s {
      assert pushed == [];
    } else {
      match action
      case Create(items, preferences, now) =>
        var created := Batch(s.rows, preferences, items, now);
        assert pushed == Deliveries(s'.rows, created);
        DeliveriesAnnounced(s'.rows, created);
        DeliveriesReachRecipients(s'.rows, created);
        BatchAsCreated(s.rows, preferences, items, now);
        assert AllAsCreated(s.rows + created) == AllAsCreated(s.rows) + AllAsCreated(created);
      case MarkRead(u, _) =>
        assert pushed == [ReadOne(u), CountOf(s'.rows, u)];
        AnnouncedPair(ReadOne(u), CountOf(s'.rows, u));
      case MarkAll(u) =>
        assert pushed == [ReadAll(u), CountOf(s'.rows, u)];
        AnnouncedPair(ReadAll(u), CountOf(s'.rows, u));
      case Delete(u, _) =>
        assert pushed == [Deleted(u), CountOf(s'.rows, u)];
        AnnouncedPair(Deleted(u), CountOf(s'.rows, u));
    }
  }

  /**
   Without retention, what was announced as created is exactly what is stored: every notification once, in
   the order of creation, to its recipient.
   */
  lemma {:induction false} EachAnnouncedOnce(run: Run)
    requires NoCleanup(run)
    ensures Announced(Final(run).emitted) == AllAsCreated(Final(run).rows) && ToRecipients(Final(run).emitted)
  {
    if run.Then? {
      var s := Final(run.before);
      EachAnnouncedOnce(run.before);
      AnnouncesAdded(s, run.action);
      AnnouncedAppend(s.emitted, Pushed(s, run.action));
    }
  }

  // --- The unique constraint ---

  lemma {:induction false} FilterKeepsKeys(rows: seq<Notification>, keep: Notification -> bool)
    requires UniqueKeys(rows)
    ensures UniqueKeys(Filter(rows, keep))
  {
    if rows != [] {
      var before, n := rows[..|rows| - 1], rows[|rows| - 1];
      FilterKeepsKeys(before, keep);
      var kept := Filter(before, keep);
      forall i | 0 <= i < |kept| ensures !Clash(kept[i], n) {
        FilterMember(before, keep, kept[i]);
        var j :| 0 <= j < |before| && before[j] == kept[i];
        assert rows[j] == kept[i];
      }
    }
  }

  /** No run breaks the constraint: reading and deleting leave recipients and keys alone. */
  lemma {:induction false} KeysStayUnique(run: Run)
    ensures UniqueKeys(Final(run).rows)
  {
    if run.Then? {
      var s := Final(run.before);
      KeysStayUnique(run.before);
      if run.action.Cleanup? {
        FilterKeepsKeys(s.rows, CreatedBefore(run.action.cutoff, false));
      } else if !run.action.Create? {
        var rows := Final(run).rows;
        assert |rows| == |s.rows|;
        forall i, j | 0 <= i < j < |rows| ensures !Clash(rows[i], rows[j]) {
          assert !Clash(s.rows[i], s.rows[j]);
        }
      }
    }
  }
}
