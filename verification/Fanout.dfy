/**
 Fan-out of a message to its readers, and what deduplication by key promises about batches:
 `create_many_notifications` and `notify_message` of app/services/notification_service.py.
 */
module Fanout {
  import opened Common
  import opened Notifications
  import opened NotificationRuns
  import Mentions

  // --- Deduplication keys ---

  function TypeValue(kind: NotificationType): string {
    match kind
    case NewMessage => "new_message"
    case Mention => "mention"
    case DirectMessage => "direct_message"
    case Reaction => "reaction"
    case ChannelInvitation => "channel_invitation"
    case System => "system"
  }

  function KeyOf(kind: NotificationType, message: Uuid, recipient: Uuid): string {
    TypeValue(kind) + ":" + message + ":" + recipient
  }

  /** A key says which type, message and recipient it was made for. */
  lemma KeyInjective(k1: NotificationType, m1: Uuid, u1: Uuid, k2: NotificationType, m2: Uuid, u2: Uuid)
    requires KeyOf(k1, m1, u1) == KeyOf(k2, m2, u2)
    ensures k1 == k2 && m1 == m2 && u1 == u2
  {
    var a, b := KeyOf(k1, m1, u1), KeyOf(k2, m2, u2);
    assert a[|a| - 36..] == u1 && b[|b| - 36..] == u2;
    assert a[|a| - 73..|a| - 37] == m1 && b[|b| - 73..|b| - 37] == m2;
    assert |TypeValue(k1)| == |TypeValue(k2)|;
  }

  // --- Batches ---

  predicate Nonempty(key: Option<string>) {
    key.Some? && key.value != ""
  }

  predicate Held(rows: seq<Notification>, recipient: Uuid, key: Option<string>, deleted: bool) {
    exists i :: 0 <= i < |rows| && Matches(rows[i], recipient, key) && rows[i].deleted == deleted
  }

  lemma {:induction false} DuplicateFound(rows: seq<Notification>, recipient: Uuid, key: Option<string>)
    ensures FindDuplicate(rows, recipient, key).Some? <==> Nonempty(key) && Held(rows, recipient, key, false)
  {
    if rows != [] {
      DuplicateFound(rows[..|rows| - 1], recipient, key);
      assert rows == rows[..|rows| - 1] + [rows[|rows| - 1]];
    }
  }

  predicate FromItem(preferences: Preferences, items: seq<Item>, n: Notification, now: int) {
    exists i :: 0 <= i < |items| && Wanted(preferences, items[i]) && n == NewRow(items[i], now)
  }

  lemma {:induction false} BatchRows(
    rows: seq<Notification>, preferences: Preferences, items: seq<Item>, now: int, k: nat)
    requires k < |Batch(rows, preferences, items, now)|
    ensures FromItem(preferences, items, Batch(rows, preferences, items, now)[k], now)
  {
    var front := items[..|items| - 1];
    var before := Batch(rows, preferences, front, now);
    if k < |before| {
      BatchRows(rows, preferences, front, now, k);
      var i :| 0 <= i < |front| && Wanted(preferences, front[i]) && before[k] == NewRow(front[i], now);
      assert items[i] == front[i];
    }
  }

  lemma HeldAppend(
    rows: seq<Notification>, more: seq<Notification>, recipient: Uuid, key: Option<string>, deleted: bool)
    ensures Held(rows + more, recipient, key, deleted)
       <==> Held(rows, recipient, key, deleted) || Held(more, recipient, key, deleted)
  {
    var all := rows + more;
    if Held(rows, recipient, key, deleted) {
      var i :| 0 <= i < |rows| && Matches(rows[i], recipient, key) && rows[i].deleted == deleted;
      assert all[i] == rows[i];
    }
    if Held(more, recipient, key, deleted) {
      var i :| 0 <= i < |more| && Matches(more[i], recipient, key) && more[i].deleted == deleted;
      assert all[|rows| + i] == more[i];
    }
  }

  /** After a batch every wanted item has an undeleted row, its own or one that was there before. */
  lemma {:induction false} BatchCovers(
    rows: seq<Notification>, preferences: Preferences, items: seq<Item>, now: int, i: nat)
    requires i < |items| && Wanted(preferences, items[i])
    ensures Held(rows + Batch(rows, preferences, items, now), items[i].recipient.id, items[i].key, false)
  {
    var front, item := items[..|items| - 1], items[|items| - 1];
    var before, after := Batch(rows, preferences, front, now), Batch(rows, preferences, items, now);
    if i < |front| {
      BatchCovers(rows, preferences, front, now, i);
      if after != before {
        HeldAppend(rows + before, [NewRow(item, now)], items[i].recipient.id, items[i].key, false);
        assert rows + after == (rows + before) + [NewRow(item, now)];
      }
    } else {
      DuplicateFound(rows + before, item.recipient.id, item.key);
      if after != before {
        assert (rows + after)[|rows + after| - 1] == NewRow(item, now);
      }
    }
  }

  predicate SameKey(a: Item, b: Item) {
    a.recipient.id == b.recipient.id && a.key == b.key
  }

  predicate Earlier(preferences: Preferences, items: seq<Item>, item: Item) {
    exists i :: 0 <= i < |items| && Wanted(preferences, items[i]) && SameKey(items[i], item)
  }

  /**
   An item the constraint will refuse: a row marked deleted still holds its key, or the key is empty,
   which the constraint counts as a key and the search for duplicates does not.
   */
  predicate Blocked(rows: seq<Notification>, preferences: Preferences, items: seq<Item>, j: nat)
    requires j < |items|
  {
    var item := items[j];
    var recipient := item.recipient.id;
    && Wanted(preferences, item)
    && item.key.Some?
    && (|| Held(rows, recipient, item.key, true)
        || (item.key.value == "" && (Held(rows, recipient, item.key, false) || Earlier(preferences, items[..j], item))))
  }

  predicate SomeBlocked(rows: seq<Notification>, preferences: Preferences, items: seq<Item>) {
    exists j: nat :: j < |items| && Blocked(rows, preferences, items, j)
  }

  lemma BlockedLast(rows: seq<Notification>, preferences: Preferences, items: seq<Item>)
    requires items != []
    ensures SomeBlocked(rows, preferences, items)
       <==> SomeBlocked(rows, preferences, items[..|items| - 1]) || Blocked(rows, preferences, items, |items| - 1)
  {
    var front := items[..|items| - 1];
    forall j: nat | j < |front| ensures Blocked(rows, preferences, items, j) <==> Blocked(rows, preferences, front, j) {
      assert front[..j] == items[..j];
    }
    if SomeBlocked(rows, preferences, items) {
      var j: nat :| j < |items| && Blocked(rows, preferences, items, j);
      assert j < |front| ==> Blocked(rows, preferences, front, j);
    }
    if SomeBlocked(rows, preferences, front) {
      var j: nat :| j < |front| && Blocked(rows, preferences, front, j);
      assert Blocked(rows, preferences, items, j);
    }
  }

  /** The new row of an item violates the constraint when some row, deleted or not, has its key. */
  lemma KeysAppend(rows: seq<Notification>, n: Notification)
    ensures UniqueKeys(rows + [n])
       <==> && UniqueKeys(rows)
            && (n.key.Some? ==> !Held(rows, n.recipient, n.key, true) && !Held(rows, n.recipient, n.key, false))
  {
    var all := rows + [n];
    assert forall i :: 0 <= i < |rows| ==> all[i] == rows[i];
    assert forall i :: 0 <= i < |rows| && Matches(rows[i], n.recipient, n.key) && n.key.Some? ==>
      Clash(all[i], all[|rows|]);
    if UniqueKeys(all) {
      forall i, j | 0 <= i < j < |rows| ensures !Clash(rows[i], rows[j]) {
        assert !Clash(all[i], all[j]);
      }
    }
  }

  /** A wanted item with an empty key always gets a row, and every row with an empty key came from one. */
  lemma {:induction false} EmptyKeys(
    rows: seq<Notification>, preferences: Preferences, items: seq<Item>, now: int, item: Item)
    requires item.key == Some("")
    ensures Held(Batch(rows, preferences, items, now), item.recipient.id, item.key, false)
        <==> Earlier(preferences, items, item)
  {
    if items != [] {
      var front, last := items[..|items| - 1], items[|items| - 1];
      var before := Batch(rows, preferences, front, now);
      EmptyKeys(rows, preferences, front, now, item);
      HeldAppend(before, [NewRow(last, now)], item.recipient.id, item.key, false);
      assert Earlier(preferences, items, item)
        <==> Earlier(preferences, front, item) || (Wanted(preferences, last) && SameKey(last, item)) by
      {
        assert items == front + [last];
      }
      assert Held([NewRow(last, now)], item.recipient.id, item.key, false) <==> SameKey(last, item) by {
        assert [NewRow(last, now)][0] == NewRow(last, now);
      }
      DuplicateFound(rows + before, last.recipient.id, last.key);
    }
  }

  lemma NoneDeleted(
    rows: seq<Notification>, preferences: Preferences, items: seq<Item>, now: int, recipient: Uuid,
    key: Option<string>)
    ensures !Held(Batch(rows, preferences, items, now), recipient, key, true)
  {
    var created := Batch(rows, preferences, items, now);
    forall k | 0 <= k < |created| ensures !created[k].deleted {
      BatchRows(rows, preferences, items, now, k);
    }
  }

  lemma LiveExcludesDeleted(rows: seq<Notification>, recipient: Uuid, key: Option<string>)
    requires UniqueKeys(rows) && key.Some?
    ensures !(Held(rows, recipient, key, true) && Held(rows, recipient, key, false))
  {
    if Held(rows, recipient, key, true) && Held(rows, recipient, key, false) {
      var i :| 0 <= i < |rows| && Matches(rows[i], recipient, key) && rows[i].deleted;
      var j :| 0 <= j < |rows| && Matches(rows[j], recipient, key) && !rows[j].deleted;
      assert Clash(rows[i], rows[j]) && Clash(rows[j], rows[i]);
    }
  }

  /** One more item: whether its row can be added. */
  lemma LastFits(rows: seq<Notification>, preferences: Preferences, items: seq<Item>, now: int)
    requires items != [] && UniqueKeys(rows + Batch(rows, preferences, items[..|items| - 1], now))
    ensures UniqueKeys(rows + Batch(rows, preferences, items, now)) <==> !Blocked(rows, preferences, items, |items| - 1)
  {
    var front, item := items[..|items| - 1], items[|items| - 1];
    var before, after := Batch(rows, preferences, front, now), Batch(rows, preferences, items, now);
    var recipient, key := item.recipient.id, item.key;
    HeldAppend(rows, before, recipient, key, true);
    HeldAppend(rows, before, recipient, key, false);
    NoneDeleted(rows, preferences, front, now, recipient, key);
    DuplicateFound(rows + before, recipient, key);
    if key == Some("") {
      EmptyKeys(rows, preferences, front, now, item);
    }
    if key.Some? {
      LiveExcludesDeleted(rows + before, recipient, key);
    }
    if after != before {
      KeysAppend(rows + before, NewRow(item, now));
      assert rows + after == (rows + before) + [NewRow(item, now)];
    }
  }

  /** A batch that already violates the constraint still does with one more item. */
  lemma ViolationStays(rows: seq<Notification>, preferences: Preferences, items: seq<Item>, now: int)
    requires items != [] && UniqueKeys(rows + Batch(rows, preferences, items, now))
    ensures UniqueKeys(rows + Batch(rows, preferences, items[..|items| - 1], now))
  {
    var front, item := items[..|items| - 1], items[|items| - 1];
    var before, after := Batch(rows, preferences, front, now), Batch(rows, preferences, items, now);
    if after != before {
      KeysAppend(rows + before, NewRow(item, now));
      assert rows + after == (rows + before) + [NewRow(item, now)];
    }
  }

  /**
   Deduplication against the constraint: a batch fails exactly when one of its wanted items has a key
   that a deleted notification still holds, or an empty key that is already in use.
   */
  lemma {:induction false} BatchFailsIff(rows: seq<Notification>, preferences: Preferences, items: seq<Item>, now: int)
    requires UniqueKeys(rows)
    ensures !UniqueKeys(rows + Batch(rows, preferences, items, now)) <==> SomeBlocked(rows, preferences, items)
  {
    if items == [] {
      assert rows + [] == rows;
    } else {
      BatchFailsIff(rows, preferences, items[..|items| - 1], now);
      BlockedLast(rows, preferences, items);
      if UniqueKeys(rows + Batch(rows, preferences, items[..|items| - 1], now)) {
        LastFits(rows, preferences, items, now);
      } else if UniqueKeys(rows + Batch(rows, preferences, items, now)) {
        ViolationStays(rows, preferences, items, now);
      }
    }
  }

  /** A user's deleted notification makes every later batch with the same key fail as a whole. */
  lemma DeletedKeyFails(n: Notification, preferences: Preferences, item: Item, now: int, emitted: seq<Emission>)
    requires n.deleted && n.key == item.key && n.recipient == item.recipient.id && Nonempty(item.key)
    requires Wanted(preferences, item)
    ensures FindDuplicate([n], n.recipient, n.key) == None
    ensures AfterBatch(State([n], emitted), preferences, [item], now) == Err(CreateFailed)
  {
    DuplicateFound([n], n.recipient, n.key);
    assert Matches([n][0], item.recipient.id, item.key) && Held([n], item.recipient.id, item.key, true);
    assert Blocked([n], preferences, [item], 0);
    BatchFailsIff([n], preferences, [item], now);
  }

  /** Repeating a batch whose rows are still there, in any order of its items, adds nothing. */
  lemma {:induction false} RepeatAddsNothing(
    rows: seq<Notification>, preferences: Preferences, items: seq<Item>, now: int)
    requires forall i :: 0 <= i < |items| && Wanted(preferences, items[i]) ==>
               Nonempty(items[i].key) && Held(rows, items[i].recipient.id, items[i].key, false)
    ensures Batch(rows, preferences, items, now) == []
  {
    if items != [] {
      var front, item := items[..|items| - 1], items[|items| - 1];
      assert forall i :: 0 <= i < |front| ==> front[i] == items[i];
      RepeatAddsNothing(rows, preferences, front, now);
      assert rows + [] == rows;
      if Wanted(preferences, item) {
        assert items[|items| - 1] == item;
        DuplicateFound(rows, item.recipient.id, item.key);
      }
    }
  }

  // --- Messages ---

  datatype Context = InChannel(id: Uuid) | InConversation(id: Uuid)

  datatype Message = Message(id: Uuid, sender: Uuid, context: Context, content: string)

  datatype Participant = Participant(conversation: Uuid, user: Uuid, active: bool)

  datatype Directory = Directory(users: map<Uuid, User>, memberships: set<(Uuid, Uuid)>, participants: set<Participant>)

  predicate ValidDirectory(d: Directory) {
    forall id :: id in d.users ==> d.users[id].id == id
  }

  predicate InAudience(d: Directory, m: Message, user: Uuid) {
    && user != m.sender
    && match m.context
       case InChannel(id) => (id, user) in d.memberships
       case InConversation(id) => Participant(id, user, true) in d.participants
  }

  predicate IsRecipient(d: Directory, m: Message, user: User) {
    user.id in d.users && d.users[user.id] == user && InAudience(d, m, user.id) && IsActive(user)
  }

  ghost function KindFor(m: Message, user: User): NotificationType {
    if Mentions.Names(m.content, user.username) then Mention
    else if m.context.InChannel? then NewMessage
    else DirectMessage
  }

  ghost function ItemFor(m: Message, user: User): Item {
    Item(user, KindFor(m, user), Some(m.id), Some(KeyOf(KindFor(m, user), m.id, user.id)))
  }

  ghost function ItemsOf(m: Message, order: seq<User>): (r: seq<Item>)
    ensures |r| == |order| && forall i :: 0 <= i < |r| ==> r[i] == ItemFor(m, order[i])
  {
    seq(|order|, i requires 0 <= i < |order| => ItemFor(m, order[i]))
  }

  /** The recipients of a message in some order, each once. */
  ghost predicate Lists(order: seq<User>, d: Directory, m: Message) {
    && (forall user: User :: user in order <==> IsRecipient(d, m, user))
    && (forall i, j :: 0 <= i < j < |order| ==> order[i].id != order[j].id)
  }

  /** The part of the recipients in done has its items. */
  ghost predicate ItemsListed(
    m: Message, recipients: map<Uuid, User>, done: set<Uuid>, items: seq<Item>, order: seq<User>)
  {
    && done <= recipients.Keys
    && |items| == |order| && (forall i :: 0 <= i < |order| ==> items[i] == ItemFor(m, order[i]))
    && (forall i :: 0 <= i < |order| ==> order[i].id in done && order[i] == recipients[order[i].id])
    && (forall id :: id in done ==> recipients[id] in order)
    && (forall i, j :: 0 <= i < j < |order| ==> order[i].id != order[j].id)
  }

  lemma ListedStep(
    m: Message, recipients: map<Uuid, User>, done: set<Uuid>, items: seq<Item>, order: seq<User>, id: Uuid)
    requires ItemsListed(m, recipients, done, items, order)
    requires id in recipients && id !in done && recipients[id].id == id
    ensures ItemsListed(
              m, recipients, done + {id}, items + [ItemFor(m, recipients[id])], order + [recipients[id]])
  {
  }

  /** The batch for a message: a mention for the recipients it names, the context's type for the others. */
  method MessageItems(d: Directory, m: Message) returns (items: seq<Item>, order: seq<User>)
    requires ValidDirectory(d)
    ensures Lists(order, d, m) && items == ItemsOf(m, order)
  {
    var recipients := map id | id in d.users && InAudience(d, m, id) && IsActive(d.users[id]) :: d.users[id];
    var names := Mentions.MentionedNames(m.content);
    var mentioned := (set id | id in d.users && d.users[id].username in names) * recipients.Keys;
    var kind := if m.context.InChannel? then NewMessage else DirectMessage;
    var pending := recipients.Keys;
    items, order := [], [];
    while pending != {}
      invariant pending <= recipients.Keys
      invariant ItemsListed(m, recipients, recipients.Keys - pending, items, order)
      decreases pending
    {
      var id :| id in pending;
      var recipient := recipients[id];
      var actual := if id in mentioned then Mention else kind;
      assert actual == KindFor(m, recipient);
      ListedStep(m, recipients, recipients.Keys - pending, items, order, id);
      assert recipients.Keys - (pending - {id}) == recipients.Keys - pending + {id};
      items := items + [Item(recipient, actual, Some(m.id), Some(KeyOf(actual, m.id, recipient.id)))];
      order := order + [recipient];
      pending := pending - {id};
    }
    ListsAll(d, m, recipients, order);
  }

  lemma ListsAll(d: Directory, m: Message, recipients: map<Uuid, User>, order: seq<User>)
    requires ValidDirectory(d)
    requires recipients == map id | id in d.users && InAudience(d, m, id) && IsActive(d.users[id]) :: d.users[id]
    requires forall i :: 0 <= i < |order| ==> order[i].id in recipients && order[i] == recipients[order[i].id]
    requires forall id :: id in recipients ==> recipients[id] in order
    requires forall i, j :: 0 <= i < j < |order| ==> order[i].id != order[j].id
    ensures Lists(order, d, m)
  {
    forall user: User ensures user in order <==> IsRecipient(d, m, user) {
      if IsRecipient(d, m, user) {
        assert recipients[user.id] == user;
      }
    }
  }

  method NotifyMessage(service: NotificationService, d: Directory, m: Message, now: int)
    returns (failed: bool, order: seq<User>)
    requires ValidDirectory(d) && UniqueKeys(service.rows)
    modifies service`rows, service`emitted
    ensures Lists(order, d, m) && UniqueKeys(service.rows)
    ensures match AfterBatch(old(service.View()), service.preferences, ItemsOf(m, order), now)
            case Ok(s) => !failed && service.View() == s
            case Err(_) => failed && service.View() == old(service.View())
  {
    var items;
    items, order := MessageItems(d, m);
    if items == [] {
      assert service.rows + [] == service.rows && service.emitted + [] == service.emitted;
      return false, order;
    }
    var result := service.CreateManyNotifications(items, now);
    return result.Err?, order;
  }

  /** No row yet has a key that names the message. */
  ghost predicate Fresh(rows: seq<Notification>, message: Uuid) {
    forall i, kind, user: Uuid :: 0 <= i < |rows| ==> rows[i].key != Some(KeyOf(kind, message, user))
  }

  lemma FreshNotHeld(rows: seq<Notification>, m: Message, user: User, deleted: bool)
    requires Fresh(rows, m.id)
    ensures !Held(rows, user.id, ItemFor(m, user).key, deleted)
  {
  }

  /** The row of an item in the batch, found again from its key. */
  lemma RowOfItem(rows: seq<Notification>, preferences: Preferences, m: Message, order: seq<User>, now: int, k: nat)
    returns (i: nat)
    requires k < |Batch(rows, preferences, ItemsOf(m, order), now)|
    ensures i < |order| && Wanted(preferences, ItemFor(m, order[i]))
    ensures Batch(rows, preferences, ItemsOf(m, order), now)[k] == NewRow(ItemFor(m, order[i]), now)
  {
    var items := ItemsOf(m, order);
    BatchRows(rows, preferences, items, now, k);
    i :| 0 <= i < |items| && Wanted(preferences, items[i])
      && Batch(rows, preferences, items, now)[k] == NewRow(items[i], now);
  }

  ghost predicate Deserves(preferences: Preferences, d: Directory, m: Message, user: User) {
    IsRecipient(d, m, user) && IsEnabled(preferences, user.id, KindFor(m, user))
  }

  /** A row that some recipient of the message is due. */
  ghost predicate Warranted(preferences: Preferences, d: Directory, m: Message, n: Notification, now: int) {
    exists user: User :: Deserves(preferences, d, m, user) && n == NewRow(ItemFor(m, user), now)
  }

  lemma FreshBatchFits(rows: seq<Notification>, preferences: Preferences, m: Message, order: seq<User>, now: int)
    requires UniqueKeys(rows) && Fresh(rows, m.id)
    ensures UniqueKeys(rows + Batch(rows, preferences, ItemsOf(m, order), now))
  {
    var items := ItemsOf(m, order);
    forall j: nat | j < |items| ensures !Blocked(rows, preferences, items, j) {
      FreshNotHeld(rows, m, order[j], true);
    }
    BatchFailsIff(rows, preferences, items, now);
  }

  /** A wanted recipient's row is in the batch: nothing older can have stood in for it. */
  lemma FreshBatchCovers(
    rows: seq<Notification>, preferences: Preferences, d: Directory, m: Message, order: seq<User>, now: int,
    user: User)
    requires Fresh(rows, m.id) && Lists(order, d, m) && Deserves(preferences, d, m, user)
    ensures NewRow(ItemFor(m, user), now) in Batch(rows, preferences, ItemsOf(m, order), now)
  {
    var items := ItemsOf(m, order);
    var created := Batch(rows, preferences, items, now);
    assert user in order;
    var i :| 0 <= i < |order| && order[i] == user;
    BatchCovers(rows, preferences, items, now, i);
    HeldAppend(rows, created, user.id, items[i].key, false);
    FreshNotHeld(rows, m, user, false);
    var k :| 0 <= k < |created| && Matches(created[k], user.id, items[i].key) && !created[k].deleted;
    var j := RowOfItem(rows, preferences, m, order, now, k);
    assert order[j].id == user.id;
  }

  /** What a user is due for a message, in terms of the tables: exactly this notification. */
  ghost predicate Due(preferences: Preferences, d: Directory, m: Message, user: User, n: Notification, now: int) {
    && user.id in d.users && d.users[user.id] == user && user.isActive && user.statusActive
    && user.id != m.sender
    && (m.context.InChannel? ==> (m.context.id, user.id) in d.memberships)
    && (m.context.InConversation? ==> Participant(m.context.id, user.id, true) in d.participants)
    && (Mentions.Names(m.content, user.username) ==> n.kind == Mention)
    && (!Mentions.Names(m.content, user.username) ==>
          n.kind == if m.context.InChannel? then NewMessage else DirectMessage)
    && ((user.id, n.kind) in preferences ==> preferences[(user.id, n.kind)])
    && n == Notification(
              user.id, n.kind, Some(m.id), Some(PrefixOf(n.kind) + m.id + ":" + user.id), false, false, now)
  }

  /** How the keys of a message's notifications begin. */
  function PrefixOf(kind: NotificationType): string {
    match kind
    case Mention => "mention:"
    case NewMessage => "new_message:"
    case DirectMessage => "direct_message:"
    case _ => ""
  }

  lemma DueIff(preferences: Preferences, d: Directory, m: Message, user: User, n: Notification, now: int)
    ensures Due(preferences, d, m, user, n, now)
       <==> Deserves(preferences, d, m, user) && n == NewRow(ItemFor(m, user), now)
  {
    assert TypeValue(KindFor(m, user)) + ":" == PrefixOf(KindFor(m, user));
  }

  lemma RowDeserved(
    rows: seq<Notification>, preferences: Preferences, d: Directory, m: Message, order: seq<User>, now: int, k: nat)
    requires Lists(order, d, m) && k < |Batch(rows, preferences, ItemsOf(m, order), now)|
    ensures Warranted(preferences, d, m, Batch(rows, preferences, ItemsOf(m, order), now)[k], now)
  {
    var i := RowOfItem(rows, preferences, m, order, now, k);
    assert order[i] in order && Deserves(preferences, d, m, order[i]);
  }

  lemma RecipientsDiffer(
    rows: seq<Notification>, preferences: Preferences, d: Directory, m: Message, order: seq<User>, now: int, k: nat,
    l: nat)
    requires Lists(order, d, m) && k < l < |Batch(rows, preferences, ItemsOf(m, order), now)|
    requires UniqueKeys(rows + Batch(rows, preferences, ItemsOf(m, order), now))
    ensures var created := Batch(rows, preferences, ItemsOf(m, order), now);
            created[k].recipient != created[l].recipient
  {
    var created := Batch(rows, preferences, ItemsOf(m, order), now);
    var i := RowOfItem(rows, preferences, m, order, now, k);
    var j := RowOfItem(rows, preferences, m, order, now, l);
    assert (rows + created)[|rows| + k] == created[k] && (rows + created)[|rows| + l] == created[l];
    assert !Clash(created[k], created[l]);
    assert order[i].id == order[j].id ==> i == j;
  }

  /**
   A fresh message reaches every active reader but its sender with exactly one notification, a mention if
   the text names the reader and the context's own type otherwise, unless the reader disabled that type.
   */
  lemma {:induction false} EachRecipientOnce(
    s: State, preferences: Preferences, d: Directory, m: Message, order: seq<User>, now: int)
    requires UniqueKeys(s.rows) && Fresh(s.rows, m.id) && Lists(order, d, m)
    ensures var created := Batch(s.rows, preferences, ItemsOf(m, order), now);
            && AfterBatch(s, preferences, ItemsOf(m, order), now)
               == Ok(State(s.rows + created, s.emitted + Deliveries(s.rows + created, created)))
            && (forall user: User, n :: Due(preferences, d, m, user, n, now) ==> n in created)
            && (forall n :: n in created ==> exists user: User :: Due(preferences, d, m, user, n, now))
            && (forall k, l :: 0 <= k < l < |created| ==> created[k].recipient != created[l].recipient)
  {
    var created := Batch(s.rows, preferences, ItemsOf(m, order), now);
    FreshBatchFits(s.rows, preferences, m, order, now);
    forall user: User, n | Due(preferences, d, m, user, n, now) ensures n in created {
      DueIff(preferences, d, m, user, n, now);
      FreshBatchCovers(s.rows, preferences, d, m, order, now, user);
    }
    forall n | n in created ensures exists user: User :: Due(preferences, d, m, user, n, now) {
      var k :| 0 <= k < |created| && created[k] == n;
      RowDeserved(s.rows, preferences, d, m, order, now, k);
      var user: User :| Deserves(preferences, d, m, user) && n == NewRow(ItemFor(m, user), now);
      DueIff(preferences, d, m, user, n, now);
    }
    forall k, l | 0 <= k < l < |created| ensures created[k].recipient != created[l].recipient {
      RecipientsDiffer(s.rows, preferences, d, m, order, now, k, l);
    }
  }

  /** Notifying one message leaves every other message as fresh as it was. */
  lemma OthersStayFresh(
    rows: seq<Notification>, preferences: Preferences, m: Message, order: seq<User>, now: int, other: Uuid)
    requires Fresh(rows, other) && other != m.id
    ensures Fresh(rows + Batch(rows, preferences, ItemsOf(m, order), now), other)
  {
    var created := Batch(rows, preferences, ItemsOf(m, order), now);
    forall k, kind, user: Uuid | 0 <= k < |created| ensures created[k].key != Some(KeyOf(kind, other, user)) {
      var i := RowOfItem(rows, preferences, m, order, now, k);
      if KeyOf(KindFor(m, order[i]), m.id, order[i].id) == KeyOf(kind, other, user) {
        KeyInjective(KindFor(m, order[i]), m.id, order[i].id, kind, other, user);
      }
    }
  }

  // --- Notifying again ---

  predicate Kept(rows: seq<Notification>, later: seq<Notification>) {
    && |rows| <= |later|
    && forall i :: 0 <= i < |rows| ==>
         later[i].recipient == rows[i].recipient && later[i].key == rows[i].key && later[i].deleted == rows[i].deleted
  }

  /** run is base followed by actions that remove no notification. */
  predicate Continues(base: Run, run: Run) {
    run == base || (run.Then? && !run.action.Delete? && !run.action.Cleanup? && Continues(base, run.before))
  }

  lemma NothingLost(s: State, action: Action)
    requires !action.Delete? && !action.Cleanup?
    ensures Kept(s.rows, Next(s, action).rows)
  {
  }

  lemma {:induction false} ContinuingKeeps(base: Run, run: Run)
    requires Continues(base, run)
    ensures Kept(Final(base).rows, Final(run).rows)
  {
    if run != base {
      ContinuingKeeps(base, run.before);
      NothingLost(Final(run.before), run.action);
    }
  }

  lemma KeptHeld(rows: seq<Notification>, later: seq<Notification>, recipient: Uuid, key: Option<string>)
    requires Kept(rows, later) && Held(rows, recipient, key, false)
    ensures Held(later, recipient, key, false)
  {
    var i :| 0 <= i < |rows| && Matches(rows[i], recipient, key) && !rows[i].deleted;
    assert Matches(later[i], recipient, key) && !later[i].deleted;
  }

  /**
   Once a message's notifications are stored, notifying it again changes nothing, whatever was created
   or read in between and in whatever order the recipients come, as long as none was deleted.
   */
  lemma {:induction false} NotifyAgain(base: Run, run: Run, preferences: Preferences, d: Directory, m: Message,
                    order: seq<User>, again: seq<User>, now: int, later: int)
    requires Lists(order, d, m) && Lists(again, d, m)
    requires AfterBatch(Final(base), preferences, ItemsOf(m, order), now).Ok?
    requires Continues(Then(base, Create(ItemsOf(m, order), preferences, now)), run)
    ensures Batch(Final(run).rows, preferences, ItemsOf(m, again), later) == []
    ensures Next(Final(run), Create(ItemsOf(m, again), preferences, later)) == Final(run)
  {
    var first := Then(base, Create(ItemsOf(m, order), preferences, now));
    var items, s := ItemsOf(m, again), Final(run);
    ContinuingKeeps(first, run);
    forall i | 0 <= i < |items| && Wanted(preferences, items[i])
      ensures Nonempty(items[i].key) && Held(s.rows, items[i].recipient.id, items[i].key, false)
    {
      assert again[i] in order;
      var j :| 0 <= j < |order| && order[j] == again[i];
      assert ItemsOf(m, order)[j] == items[i];
      BatchCovers(Final(base).rows, preferences, ItemsOf(m, order), now, j);
      KeptHeld(Final(first).rows, s.rows, items[i].recipient.id, items[i].key);
    }
    RepeatAddsNothing(s.rows, preferences, items, later);
    KeysStayUnique(run);
    assert s.rows + [] == s.rows && s.emitted + [] == s.emitted;
  }
}
