/**
 Notifications: creation with deduplication, batches, reading and deleting, and the unread counter
 pushed to each user, from app/services/notification_service.py, app/repositories/notification_repository.py
 and app/services/notification_preference_service.py.
 */
module Notifications {
  import opened Common

  /** A UUID as text. */
  type Uuid = s: string | |s| == 36 witness seq(36, _ => '0')

  datatype NotificationType = NewMessage | Mention | DirectMessage | Reaction | ChannelInvitation | System

  datatype User = User(id: Uuid, username: string, isActive: bool, statusActive: bool)

  datatype Notification = Notification(
    recipient: Uuid, kind: NotificationType, entity: Option<Uuid>, key: Option<string>,
    isRead: bool, deleted: bool, createdAt: int)

  datatype Emission =
    | Created(user: Uuid, notification: Notification)
    | Count(user: Uuid, unread: nat)
    | ReadOne(user: Uuid)
    | ReadAll(user: Uuid)
    | Deleted(user: Uuid)

  datatype Error = CreateFailed | NotFound | UnknownType

  datatype State = State(rows: seq<Notification>, emitted: seq<Emission>)

  /** One entry of a batch; the recipient is the user record the caller has read. */
  datatype Item = Item(recipient: User, kind: NotificationType, entity: Option<Uuid>, key: Option<string>)

  type Preferences = map<(Uuid, NotificationType), bool>

  // --- Queries ---

  /** Every type is enabled unless the user has said otherwise. */
  predicate IsEnabled(preferences: Preferences, user: Uuid, kind: NotificationType) {
    if (user, kind) in preferences then preferences[(user, kind)] else true
  }

  predicate Matches(n: Notification, recipient: Uuid, key: Option<string>) {
    n.recipient == recipient && n.key == key
  }

  /** A missing or empty key never has a duplicate; rows marked deleted are not looked at. */
  function FindDuplicate(rows: seq<Notification>, recipient: Uuid, key: Option<string>): Option<Notification> {
    if rows == [] || key == None || key == Some("") then None
    else
      var last := rows[|rows| - 1];
      if Matches(last, recipient, key) && !last.deleted then Some(last)
      else FindDuplicate(rows[..|rows| - 1], recipient, key)
  }

  function UnreadOf(user: Uuid): Notification -> nat {
    (n: Notification) => if n.recipient == user && !n.deleted && !n.isRead then 1 else 0
  }

  function CountUnread(rows: seq<Notification>, user: Uuid): nat {
    Sum(rows, UnreadOf(user))
  }

  /** The unique constraint on (recipient, key): it also covers rows marked deleted, but not missing keys. */
  predicate Clash(n: Notification, m: Notification) {
    n.recipient == m.recipient && n.key == m.key && n.key.Some?
  }

  predicate UniqueKeys(rows: seq<Notification>) {
    forall i, j :: 0 <= i < j < |rows| ==> !Clash(rows[i], rows[j])
  }

  /** The count is the number of the user's rows that are neither deleted nor read. */
  lemma CountUnreadExact(rows: seq<Notification>, user: Uuid)
    ensures CountUnread(rows, user)
         == |set i | 0 <= i < |rows| && rows[i].recipient == user && !rows[i].deleted && !rows[i].isRead|
  {
    var unread := set i | 0 <= i < |rows| && rows[i].recipient == user && !rows[i].deleted && !rows[i].isRead;
    SumCounts(rows, UnreadOf(user), unread);
  }

  /** Reading one row takes one from its recipient's count if it was unread and not deleted, and nothing else. */
  lemma ReadingCounts(rows: seq<Notification>, id: nat)
    requires id < |rows|
    ensures forall user :: CountUnread(rows[id := rows[id].(isRead := true)], user)
              == CountUnread(rows, user) - if rows[id].recipient == user && !rows[id].deleted
                && !rows[id].isRead then 1 else 0
  {
    forall user ensures CountUnread(rows[id := rows[id].(isRead := true)], user)
              == CountUnread(rows, user) - if rows[id].recipient == user && !rows[id].deleted
                && !rows[id].isRead then 1 else 0
    {
      SumUpdate(rows, id, rows[id].(isRead := true), UnreadOf(user));
    }
  }

  lemma DeletingCounts(rows: seq<Notification>, id: nat)
    requires id < |rows|
    ensures forall user :: CountUnread(rows[id := rows[id].(deleted := true)], user)
              == CountUnread(rows, user) - if rows[id].recipient == user && !rows[id].deleted
                && !rows[id].isRead then 1 else 0
  {
    forall user ensures CountUnread(rows[id := rows[id].(deleted := true)], user)
              == CountUnread(rows, user) - if rows[id].recipient == user && !rows[id].deleted
                && !rows[id].isRead then 1 else 0
    {
      SumUpdate(rows, id, rows[id].(deleted := true), UnreadOf(user));
    }
  }

  // --- Operations as functions of the state ---

  predicate IsActive(user: User) {
    user.isActive && user.statusActive
  }

  predicate Reachable(who: Option<User>) {
    who.Some? && IsActive(who.value)
  }

  predicate Wanted(preferences: Preferences, item: Item) {
    IsActive(item.recipient) && IsEnabled(preferences, item.recipient.id, item.kind)
  }

  function NewRow(item: Item, now: int): Notification {
    Notification(item.recipient.id, item.kind, item.entity, item.key, false, false, now)
  }

  /** The rows a batch adds: a query in the middle of the batch also sees the rows added so far. */
  function Batch(rows: seq<Notification>, preferences: Preferences, items: seq<Item>, now: int): seq<Notification> {
    if items == [] then []
    else
      var before, item := Batch(rows, preferences, items[..|items| - 1], now), items[|items| - 1];
      if Wanted(preferences, item) && FindDuplicate(rows + before, item.recipient.id, item.key) == None
      then before + [NewRow(item, now)]
      else before
  }

  function CountOf(rows: seq<Notification>, user: Uuid): Emission {
    Count(user, CountUnread(rows, user))
  }

  /** Each created row is announced to its recipient, followed by the recipient's count. */
  function Deliveries(rows: seq<Notification>, created: seq<Notification>): seq<Emission> {
    if created == [] then []
    else
      var n := created[|created| - 1];
      Deliveries(rows, created[..|created| - 1]) + [Created(n.recipient, n), CountOf(rows, n.recipient)]
  }

  /** The rows are added together or, when the constraint is violated, not at all. */
  function AfterBatch(s: State, preferences: Preferences, items: seq<Item>, now: int): Result<State, Error> {
    var created := Batch(s.rows, preferences, items, now);
    if UniqueKeys(s.rows + created)
    then Ok(State(s.rows + created, s.emitted + Deliveries(s.rows + created, created)))
    else Err(CreateFailed)
  }

  /** A single row, announced like those of a batch. */
  function AfterInsert(s: State, n: Notification): Result<State, Error> {
    var rows := s.rows + [n];
    if UniqueKeys(rows) then Ok(State(rows, s.emitted + [Created(n.recipient, n)] + [CountOf(rows, n.recipient)]))
    else Err(CreateFailed)
  }

  /** Creating one notification is a batch of one. */
  lemma SingleBatch(s: State, preferences: Preferences, item: Item, now: int)
    requires Wanted(preferences, item) && FindDuplicate(s.rows, item.recipient.id, item.key) == None
    ensures AfterBatch(s, preferences, [item], now) == AfterInsert(s, NewRow(item, now))
  {
    var n := NewRow(item, now);
    var rows := s.rows + [n];
    assert s.rows + [] == s.rows && [item][..0] == [] && [n][..0] == [];
    assert Batch(s.rows, preferences, [], now) == [] && Deliveries(rows, []) == [];
    assert Batch(s.rows, preferences, [item], now) == [n];
    assert Deliveries(rows, [n]) == [Created(n.recipient, n), CountOf(rows, n.recipient)];
    assert s.emitted + Deliveries(rows, [n]) == s.emitted + [Created(n.recipient, n)] + [CountOf(rows, n.recipient)];
  }

  /** Creating one that is not wanted or already there is a batch that adds nothing. */
  lemma SingleNoOp(s: State, preferences: Preferences, item: Item, now: int)
    requires UniqueKeys(s.rows)
    requires !Wanted(preferences, item) || FindDuplicate(s.rows, item.recipient.id, item.key).Some?
    ensures AfterBatch(s, preferences, [item], now) == Ok(s)
  {
    assert s.rows + [] == s.rows && s.emitted + [] == s.emitted && [item][..0] == [];
    assert Batch(s.rows, preferences, [], now) == [] && Batch(s.rows, preferences, [item], now) == [];
  }

  /** So every outcome of creating one notification is that of a batch of one. */
  lemma SingleIsBatch(s: State, preferences: Preferences, item: Item, now: int)
    requires UniqueKeys(s.rows)
    ensures AfterBatch(s, preferences, [item], now)
         == if Wanted(preferences, item) && FindDuplicate(s.rows, item.recipient.id, item.key).None?
            then AfterInsert(s, NewRow(item, now)) else Ok(s)
  {
    if Wanted(preferences, item) && FindDuplicate(s.rows, item.recipient.id, item.key).None? {
      SingleBatch(s, preferences, item, now);
    } else {
      SingleNoOp(s, preferences, item, now);
    }
  }

  /** What a batch leaves behind, refused or not. */
  function Settled(s: State, after: Result<State, Error>): State {
    if after.Ok? then after.value else s
  }

  /**
   The four outcomes of creating one notification: nothing for a type the user has disabled, the existing row for
   a key that is already there, an error when the constraint objects, and otherwise the new row, announced.
   */
  ghost predicate IsCreated(
    s: State, preferences: Preferences, user: Uuid, kind: NotificationType, entity: Option<Uuid>,
    key: Option<string>, now: int, after: State, result: Result<Option<Notification>, Error>) {
    var duplicate := FindDuplicate(s.rows, user, key);
    var n := Notification(user, kind, entity, key, false, false, now);
    if (user, kind) in preferences && !preferences[(user, kind)] then result == Ok(None) && after == s
    else if duplicate.Some? then result == Ok(duplicate) && after == s
    else if !UniqueKeys(s.rows + [n]) then result == Err(CreateFailed) && after == s
    else
      && result == Ok(Some(n)) && after.rows == s.rows + [n]
      && after.emitted == s.emitted + [Created(user, n)] + [Count(user, CountUnread(s.rows + [n], user))]
  }

  /** For an active user they are those of a batch of one. */
  lemma CreatedIsBatch(
    s: State, preferences: Preferences, item: Item, now: int, after: State,
    result: Result<Option<Notification>, Error>)
    requires UniqueKeys(s.rows) && IsActive(item.recipient)
    requires IsCreated(s, preferences, item.recipient.id, item.kind, item.entity, item.key, now, after, result)
    ensures after == Settled(s, AfterBatch(s, preferences, [item], now))
  {
    SingleIsBatch(s, preferences, item, now);
  }

  function MarkedRead(n: Notification, user: Uuid): Notification {
    if n.recipient == user && !n.deleted && !n.isRead then n.(isRead := true) else n
  }

  function AllMarked(rows: seq<Notification>, user: Uuid): (r: seq<Notification>)
    ensures |r| == |rows| && forall i :: 0 <= i < |r| ==> r[i] == MarkedRead(rows[i], user)
  {
    seq(|rows|, i requires 0 <= i < |rows| => MarkedRead(rows[i], user))
  }

  function AfterMarkRead(s: State, user: Uuid, i: nat): State {
    if |s.rows| <= i || s.rows[i].recipient != user || s.rows[i].isRead then s
    else
      var rows := s.rows[i := s.rows[i].(isRead := true)];
      State(rows, s.emitted + [ReadOne(user), CountOf(rows, user)])
  }

  function AfterMarkAll(s: State, user: Uuid): State {
    if CountUnread(s.rows, user) == 0 then s
    else
      var rows := AllMarked(s.rows, user);
      State(rows, s.emitted + [ReadAll(user), CountOf(rows, user)])
  }

  function AfterDelete(s: State, user: Uuid, i: nat): State {
    if |s.rows| <= i || s.rows[i].recipient != user || s.rows[i].deleted then s
    else
      var rows := s.rows[i := s.rows[i].(deleted := true)];
      State(rows, s.emitted + [Deleted(user), CountOf(rows, user)])
  }

  function CreatedBefore(cutoff: int, older: bool): Notification -> bool {
    (n: Notification) => (n.createdAt < cutoff) == older
  }

  /** Retention deletes rows outright, whatever their state, and announces nothing. */
  function AfterCleanup(s: State, cutoff: int): State {
    s.(rows := Filter(s.rows, CreatedBefore(cutoff, false)))
  }

  class NotificationService {
    var rows: seq<Notification>
    var preferences: Preferences
    ghost var emitted: seq<Emission>

    ghost function View(): State
      reads this
    {
      State(rows, emitted)
    }

    constructor ()
      ensures View() == State([], []) && preferences == map[]
    {
      rows, preferences, emitted := [], map[], [];
    }

    /** The types a user receives: the defaults, overlaid with the user's own settings in any order. */
    method GetPreferences(user: Uuid) returns (effective: map<NotificationType, bool>)
      ensures forall kind :: kind in effective && effective[kind] == IsEnabled(preferences, user, kind)
    {
      effective := map[NewMessage := true, Mention := true, DirectMessage := true,
                       Reaction := true, ChannelInvitation := true, System := true];
      forall kind ensures kind in effective && effective[kind] {
        match kind
        case NewMessage =>
        case Mention =>
        case DirectMessage =>
        case Reaction =>
        case ChannelInvitation =>
        case System =>
      }
      var pending := set p | p in preferences && p.0 == user :: p.1;
      ghost var own := pending;
      while pending != {}
        invariant pending <= own
        invariant forall kind :: kind in effective
        invariant forall kind :: kind in own ==> (user, kind) in preferences
        invariant forall kind :: effective[kind] == (kind in own - pending ==> preferences[(user, kind)])
        decreases pending
      {
        var kind :| kind in pending;
        effective := effective[kind := preferences[(user, kind)]];
        pending := pending - {kind};
      }
      forall kind ensures effective[kind] == IsEnabled(preferences, user, kind) {
        assert (user, kind) in preferences <==> kind in own;
      }
    }

    method SetPreferences(user: Uuid, wanted: map<NotificationType, bool>)
      modifies this`preferences
      ensures forall u, kind :: IsEnabled(preferences, u, kind)
                             == if u == user && kind in wanted then wanted[kind]
                               else IsEnabled(old(preferences), u, kind)
    {
      var pending := wanted.Keys;
      while pending != {}
        invariant pending <= wanted.Keys
        invariant forall u, kind ::
                    IsEnabled(preferences, u, kind)
                    == if u == user && kind in wanted.Keys - pending then wanted[kind]
                      else IsEnabled(old(preferences), u, kind)
        decreases pending
      {
        var kind :| kind in pending;
        ghost var before := preferences;
        preferences := preferences[(user, kind) := wanted[kind]];
        pending := pending - {kind};
        forall u, k | u != user || k != kind ensures IsEnabled(preferences, u, k) == IsEnabled(before, u, k) {
          assert (u, k) != (user, kind);
        }
      }
    }

    method CreateNotification(
      who: Option<User>, kind: Option<NotificationType>, entity: Option<Uuid>, key: Option<string>, now: int)
      returns (result: Result<Option<Notification>, Error>)
      requires UniqueKeys(rows)
      modifies this`rows, this`emitted
      ensures UniqueKeys(rows)
      ensures !Reachable(who) ==> result == Ok(None) && View() == old(View())
      ensures Reachable(who) && kind.None? ==> result == Err(UnknownType) && View() == old(View())
      ensures Reachable(who) && kind.Some? ==>
                IsCreated(old(View()), preferences, who.value.id, kind.value, entity, key, now, View(), result)
    {
      if who.None? || !who.value.isActive || !who.value.statusActive {
        return Ok(None);
      }
      if kind.None? {
        return Err(UnknownType);
      }
      if !IsEnabled(preferences, who.value.id, kind.value) {
        return Ok(None);
      }
      var existing := FindDuplicate(rows, who.value.id, key);
      if existing.Some? {
        return Ok(existing);
      }
      var notification := Notification(who.value.id, kind.value, entity, key, false, false, now);
      if !UniqueKeys(rows + [notification]) {
        // After the rollback the same query is made again, with the same answer.
        return Err(CreateFailed);
      }
      rows := rows + [notification];
      DeliverCreated(notification);
      return Ok(Some(notification));
    }

    method CreateManyNotifications(items: seq<Item>, now: int) returns (result: Result<seq<Notification>, Error>)
      requires UniqueKeys(rows)
      modifies this`rows, this`emitted
      ensures UniqueKeys(rows)
      ensures match AfterBatch(old(View()), preferences, items, now)
              case Ok(s) => View() == s && result == Ok(Batch(old(rows), preferences, items, now))
              case Err(e) => View() == old(View()) && result == Err(e)
    {
      var created := [];
      for i := 0 to |items|
        invariant rows == old(rows) && emitted == old(emitted)
        invariant created == Batch(rows, preferences, items[..i], now)
      {
        var item := items[i];
        assert items[..i + 1][..i] == items[..i];
        if !item.recipient.isActive || !item.recipient.statusActive
           || !IsEnabled(preferences, item.recipient.id, item.kind) {
          continue;
        }
        if FindDuplicate(rows + created, item.recipient.id, item.key).Some? {
          continue;
        }
        created := created + [NewRow(item, now)];
      }
      assert items[..|items|] == items;
      if !UniqueKeys(rows + created) {
        return Err(CreateFailed);
      }
      rows := rows + created;
      for i := 0 to |created|
        invariant rows == old(rows) + created
        invariant emitted == old(emitted) + Deliveries(rows, created[..i])
      {
        assert created[..i + 1][..i] == created[..i];
        DeliverCreated(created[i]);
      }
      assert created[..|created|] == created;
      return Ok(created);
    }

    method DeliverCreated(notification: Notification)
      modifies this`emitted
      ensures emitted == old(emitted) + [Created(notification.recipient, notification)]
          + [CountOf(rows, notification.recipient)]
    {
      emitted := emitted + [Created(notification.recipient, notification)];
      EmitCount(notification.recipient);
    }

    method EmitCount(user: Uuid)
      modifies this`emitted
      ensures emitted == old(emitted) + [CountOf(rows, user)]
    {
      emitted := emitted + [Count(user, CountUnread(rows, user))];
    }

    method MarkAsRead(user: Uuid, id: nat) returns (result: Result<bool, Error>)
      modifies this`rows, this`emitted
      ensures result.Err? <==> |old(rows)| <= id || old(rows[id]).recipient != user
      ensures result.Ok? ==> result.value == !old(rows[id]).isRead
      ensures View() == AfterMarkRead(old(View()), user, id)
      ensures result.Ok? ==> rows == old(rows)[id := old(rows[id]).(isRead := true)]
      ensures result == Ok(true) ==>
                emitted == old(emitted) + [ReadOne(user), Count(user, CountUnread(rows, user))]
      ensures result != Ok(true) ==> View() == old(View())
      ensures result == Ok(true) && !old(rows[id]).deleted ==>
          CountUnread(rows, user) == CountUnread(old(rows), user) - 1
      ensures forall other :: other != user || result != Ok(true) || old(rows[id]).deleted ==>
                CountUnread(rows, other) == CountUnread(old(rows), other)
    {
      if id < |rows| {
        ReadingCounts(rows, id);
      }
      if |rows| <= id || rows[id].recipient != user {
        return Err(NotFound);
      }
      if rows[id].isRead {
        return Ok(false);
      }
      rows := rows[id := rows[id].(isRead := true)];
      emitted := emitted + [ReadOne(user)];
      EmitCount(user);
      return Ok(true);
    }

    method MarkAllAsRead(user: Uuid) returns (changed: nat)
      modifies this`rows, this`emitted
      ensures changed == CountUnread(old(rows), user)
      ensures View() == AfterMarkAll(old(View()), user)
      ensures |rows| == |old(rows)|
      ensures forall i :: 0 <= i < |rows| ==>
                rows[i] == if old(rows)[i].recipient == user && !old(rows)[i].deleted
                           then old(rows)[i].(isRead := true) else old(rows)[i]
      ensures CountUnread(rows, user) == 0
      ensures emitted == if changed == 0 then old(emitted) else old(emitted) + [ReadAll(user), Count(user, 0)]
    {
      MarkAllCounts(rows, user, user);
      changed := CountUnread(rows, user);
      rows := AllMarked(rows, user);
      if changed != 0 {
        emitted := emitted + [ReadAll(user)];
        EmitCount(user);
      } else {
        AllMarkedNothing(old(rows), user);
      }
    }

    method DeleteNotification(user: Uuid, id: nat) returns (result: Result<Notification, Error>)
      modifies this`rows, this`emitted
      ensures result.Err? <==> |old(rows)| <= id || old(rows[id]).recipient != user
      ensures View() == AfterDelete(old(View()), user, id)
      ensures result.Err? ==> View() == old(View())
      ensures result.Ok? ==> rows == old(rows)[id := old(rows[id]).(deleted := true)] && result.value == rows[id]
      ensures result.Ok? ==>
                emitted == if old(rows[id]).deleted then old(emitted)
                           else old(emitted) + [Deleted(user), Count(user, CountUnread(rows, user))]
      ensures result.Ok? && !old(rows[id]).deleted && !old(rows[id]).isRead ==>
                CountUnread(rows, user) == CountUnread(old(rows), user) - 1
      ensures forall other :: other != user || result.Err? || old(rows[id]).deleted || old(rows[id]).isRead ==>
                CountUnread(rows, other) == CountUnread(old(rows), other)
    {
      if id < |rows| {
        DeletingCounts(rows, id);
      }
      if |rows| <= id || rows[id].recipient != user {
        return Err(NotFound);
      }
      if !rows[id].deleted {
        rows := rows[id := rows[id].(deleted := true)];
        emitted := emitted + [Deleted(user)];
        EmitCount(user);
      }
      return Ok(rows[id]);
    }

    method CleanupOldNotifications(before: int) returns (removed: nat)
      modifies this`rows
      ensures View() == AfterCleanup(old(View()), before)
      ensures removed == |old(rows)| - |rows|
      ensures forall n :: n in rows <==> n in old(rows) && before <= n.createdAt
    {
      forall n ensures n in Filter(rows, CreatedBefore(before, false)) <==> n in rows && before <= n.createdAt {
        FilterMember(rows, CreatedBefore(before, false), n);
      }
      var kept := Filter(rows, CreatedBefore(before, false));
      removed := |rows| - |kept|;
      rows := kept;
    }
  }

  // --- Marking all ---

  /** Marking all leaves none unread and takes nothing from the other users. */
  lemma {:induction false} MarkAllCounts(rows: seq<Notification>, user: Uuid, other: Uuid)
    ensures CountUnread(AllMarked(rows, user), other) == if other == user then 0 else CountUnread(rows, other)
  {
    if rows != [] {
      MarkAllCounts(rows[..|rows| - 1], user, other);
      assert AllMarked(rows, user)[..|rows| - 1] == AllMarked(rows[..|rows| - 1], user);
    }
  }

  lemma {:induction false} AllMarkedNothing(rows: seq<Notification>, user: Uuid)
    requires CountUnread(rows, user) == 0
    ensures AllMarked(rows, user) == rows
  {
    if rows != [] {
      AllMarkedNothing(rows[..|rows| - 1], user);
      assert AllMarked(rows, user)[..|rows| - 1] == AllMarked(rows[..|rows| - 1], user);
      assert rows == rows[..|rows| - 1] + [rows[|rows| - 1]];
      assert AllMarked(rows, user) == AllMarked(rows, user)[..|rows| - 1] + [MarkedRead(rows[|rows| - 1], user)];
    }
  }
}
