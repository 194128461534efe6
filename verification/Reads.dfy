/**
 Read receipts and the unread count: app/services/read_service.py, app/repositories/read_repository.py
 and the grouping by room of app/routes/reads.py.
 */
module Reads {
  import opened Common
  import opened History

  datatype Read = Read(message: nat, user: nat, readAt: int)

  datatype ReadError = ReadAccessDenied | MessageDeleted | ReadMarkFailed | UnhandledError

  // --- Queries ---

  predicate HasRead(receipts: seq<Read>, message: nat, user: nat) {
    exists i :: 0 <= i < |receipts| && receipts[i].message == message && receipts[i].user == user
  }

  function GetRead(receipts: seq<Read>, message: nat, user: nat): (r: Option<Read>)
    ensures r.Some? <==> HasRead(receipts, message, user)
    ensures r.Some? ==> r.value in receipts && r.value.message == message && r.value.user == user
  {
    if receipts == [] then None
    else
      var last := receipts[|receipts| - 1];
      if last.message == message && last.user == user then Some(last)
      else
        var rest := GetRead(receipts[..|receipts| - 1], message, user);
        assert HasRead(receipts, message, user) ==> HasRead(receipts[..|receipts| - 1], message, user) by {
          if HasRead(receipts, message, user) {
            var i :| 0 <= i < |receipts| && receipts[i].message == message && receipts[i].user == user;
            assert i < |receipts| - 1 && receipts[..|receipts| - 1][i] == receipts[i];
          }
        }
        rest
  }

  /** The unique constraint on (message, user). */
  predicate UniqueReads(receipts: seq<Read>) {
    forall i, j :: 0 <= i < j < |receipts| ==>
      receipts[i].message != receipts[j].message || receipts[i].user != receipts[j].user
  }

  /** Membership in the channel, or participation in the conversation that has not ended. */
  predicate Sees(access: Access, user: nat, context: Context) {
    match context
    case Channel(id) => (id, user) in access.members
    case Conversation(id) => (id, user) in access.participants && !access.participants[(id, user)]
  }

  predicate IsUnread(access: Access, receipts: seq<Read>, user: nat, m: Message) {
    m.sender != user && m.deletedAt.None? && Sees(access, user, m.context) && !HasRead(receipts, m.id, user)
  }

  function UnreadBy(access: Access, receipts: seq<Read>, user: nat): Message -> nat {
    (m: Message) => if IsUnread(access, receipts, user, m) then 1 else 0
  }

  function UnreadCount(access: Access, rows: seq<Message>, receipts: seq<Read>, user: nat): nat {
    Sum(rows, UnreadBy(access, receipts, user))
  }

  function ReadCount(receipts: seq<Read>, message: nat): nat {
    |Filter(receipts, ReadOf(message))|
  }

  function Readers(receipts: seq<Read>, message: nat): (r: set<nat>)
    ensures forall user :: user in r <==> HasRead(receipts, message, user)
  {
    if receipts == [] then {}
    else
      var front, last := receipts[..|receipts| - 1], receipts[|receipts| - 1];
      assert receipts == front + [last];
      if last.message == message then Readers(front, message) + {last.user} else Readers(front, message)
  }

  function ReadOf(message: nat): Read -> bool {
    (r: Read) => r.message == message
  }

  /** The message, if the user may read where it was sent. */
  function MessageFor(access: Access, rows: seq<Message>, user: nat, id: nat): Result<Message, ReadError> {
    var found := GetById(rows, id);
    if found.None? then Err(ReadAccessDenied)
    else
      var (channel, conversation) := ContextIds(found.value.context);
      match ContextFor(access, user, channel, conversation)
      case Ok(_) => Ok(found.value)
      case Err(Unhandled) => Err(UnhandledError)
      case Err(_) => Err(ReadAccessDenied)
  }

  /** What a request finds: its message, if the user belongs to its context and the context is not a locked channel. */
  lemma MessageForExact(access: Access, rows: seq<Message>, user: nat, m: Message)
    requires UniqueIds(rows) && m in rows
    ensures var found := MessageFor(access, rows, user, m.id);
            && (found.Ok? <==> BelongsTo(access, user, m.context))
            && (found.Ok? ==> found.value == m)
            && (found == Err(UnhandledError)
                <==> && m.context.Channel? && m.context.id in access.channels
                     && access.channels[m.context.id].locked && (m.context.id, user) in access.members)
            && (found.Err? ==> found.error == UnhandledError || found.error == ReadAccessDenied)
  {
    GetByIdOf(rows, m);
    var (channel, conversation) := ContextIds(m.context);
    ContextForExact(access, user, channel, conversation);
  }

  lemma UnknownMessage(access: Access, rows: seq<Message>, user: nat, id: nat)
    requires forall m :: m in rows ==> m.id != id
    ensures MessageFor(access, rows, user, id) == Err(ReadAccessDenied)
  {
    GetByIdFinds(rows, id);
  }

  /** The unread messages of a user, by the rows that decide it. */
  predicate Unread(access: Access, receipts: seq<Read>, user: nat, m: Message) {
    && m.sender != user && m.deletedAt == None
    && (m.context.Channel? ==> (m.context.id, user) in access.members)
    && (m.context.Conversation? ==>
          var pair := (m.context.id, user);
          pair in access.participants && !access.participants[pair])
    && forall r :: r in receipts ==> r.message != m.id || r.user != user
  }

  lemma UnreadCountExact(access: Access, rows: seq<Message>, receipts: seq<Read>, user: nat)
    ensures UnreadCount(access, rows, receipts, user)
         == |set i | 0 <= i < |rows| && Unread(access, receipts, user, rows[i])|
  {
    var places := set i | 0 <= i < |rows| && Unread(access, receipts, user, rows[i]);
    forall i | 0 <= i < |rows| ensures Unread(access, receipts, user, rows[i])
      <==> IsUnread(access, receipts, user, rows[i])
    {
      assert forall r :: r in receipts <==> exists k :: 0 <= k < |receipts| && receipts[k] == r;
    }
    SumCounts(rows, UnreadBy(access, receipts, user), places);
  }

  // --- Marking ---

  predicate Markable(access: Access, rows: seq<Message>, user: nat, id: nat) {
    var m := MessageFor(access, rows, user, id);
    m.Ok? && m.value.deletedAt.None?
  }

  /** The messages of a request, in its order; meant for requests that are not refused. */
  function MessagesFor(access: Access, rows: seq<Message>, user: nat, ids: seq<nat>): seq<Message> {
    if ids == [] then []
    else
      var m := MessageFor(access, rows, user, ids[|ids| - 1]);
      MessagesFor(access, rows, user, ids[..|ids| - 1]) + if m.Ok? then [m.value] else []
  }

  /** The rows a batch adds: the query before each one also sees those added so far. */
  function Created(receipts: seq<Read>, user: nat, messages: seq<Message>, now: int): seq<Read> {
    if messages == [] then []
    else
      var before, m := Created(receipts, user, messages[..|messages| - 1], now), messages[|messages| - 1];
      if HasRead(receipts + before, m.id, user) then before else before + [Read(m.id, user, now)]
  }

  class ReadService {
    var receipts: seq<Read>

    constructor ()
      ensures receipts == []
    {
      receipts := [];
    }

    /**
     The rows in concurrent are committed by other requests after this one has looked and before it
     commits. Losing that race is not an error: the row is there either way.
     */
    method MarkRead(access: Access, rows: seq<Message>, user: nat, id: nat, concurrent: seq<Read>, now: int)
      returns (result: Result<(Read, bool), ReadError>)
      requires UniqueReads(receipts + concurrent)
      modifies this
      ensures UniqueReads(receipts)
      ensures result.Err? <==>
              MessageFor(access, rows, user, id).Err? || MessageFor(access, rows, user, id).value.deletedAt.Some?
      ensures result.Err? ==> result.error != ReadMarkFailed && receipts == old(receipts)
      ensures result == Err(MessageDeleted) <==>
              MessageFor(access, rows, user, id).Ok? && MessageFor(access, rows, user, id).value.deletedAt.Some?
      ensures result.Ok? ==> result.value.0 in receipts && result.value.0.message == id && result.value.0.user == user
      ensures result.Ok? ==> result.value.1 == !HasRead(old(receipts) + concurrent, id, user)
      ensures result.Ok? && result.value.1 ==> receipts == old(receipts) + concurrent + [Read(id, user, now)]
      ensures result.Ok? && !result.value.1 ==>
          receipts == if HasRead(old(receipts), id, user) then old(receipts) else old(receipts) + concurrent
    {
      ReadsAppend(receipts, concurrent);
      HasReadAppend(receipts, concurrent, id, user);
      var message := MessageFor(access, rows, user, id);
      if message.Err? {
        return Err(message.error);
      }
      if message.value.deletedAt.Some? {
        return Err(MessageDeleted);
      }
      GetByIdFinds(rows, id);
      var existing := GetRead(receipts, id, user);
      if existing.Some? {
        return Ok((existing.value, false));
      }
      receipts := receipts + concurrent;
      var item := Read(id, user, now);
      UniqueAppend(receipts, item);
      if !UniqueReads(receipts + [item]) {
        existing := GetRead(receipts, id, user);
        if existing.None? {
          return Err(ReadMarkFailed);
        }
        return Ok((existing.value, false));
      }
      receipts := receipts + [item];
      return Ok((item, true));
    }

    /** All the messages of a request, or the first refusal; a deleted one is noticed only after all were found. */
    method Load(access: Access, rows: seq<Message>, user: nat, ids: seq<nat>)
      returns (result: Result<seq<Message>, ReadError>)
      ensures result.Ok? <==> forall i :: 0 <= i < |ids| ==> Markable(access, rows, user, ids[i])
      ensures result.Ok? ==> result.value == MessagesFor(access, rows, user, ids)
      ensures result.Ok? ==> |result.value| == |ids| && forall i :: 0 <= i < |ids| ==> result.value[i].id == ids[i]
      ensures result.Err? ==> result.error != ReadMarkFailed
      ensures result == Err(MessageDeleted) <==>
                && (forall i :: 0 <= i < |ids| ==> MessageFor(access, rows, user, ids[i]).Ok?)
                && !forall i :: 0 <= i < |ids| ==> Markable(access, rows, user, ids[i])
    {
      var messages := [];
      for i := 0 to |ids|
        invariant messages == MessagesFor(access, rows, user, ids[..i])
        invariant forall k :: 0 <= k < i ==> MessageFor(access, rows, user, ids[k]).Ok?
      {
        var message := MessageFor(access, rows, user, ids[i]);
        if message.Err? {
          assert !Markable(access, rows, user, ids[i]);
          return Err(message.error);
        }
        assert ids[..i + 1][..i] == ids[..i];
        messages := messages + [message.value];
      }
      assert ids[..|ids|] == ids;
      MessagesForIds(access, rows, user, ids);
      if exists i :: 0 <= i < |messages| && messages[i].deletedAt.Some? {
        ghost var i :| 0 <= i < |messages| && messages[i].deletedAt.Some?;
        assert !Markable(access, rows, user, ids[i]);
        return Err(MessageDeleted);
      }
      return Ok(messages);
    }

    method MarkMany(access: Access, rows: seq<Message>, user: nat, ids: seq<nat>, concurrent: seq<Read>, now: int)
      returns (result: Result<(seq<Read>, seq<Message>), ReadError>)
      requires UniqueReads(receipts + concurrent)
      modifies this
      ensures UniqueReads(receipts)
      ensures result.Ok? ==>
                && result.value.1 == MessagesFor(access, rows, user, ids)
                && result.value.0 == Created(old(receipts), user, result.value.1, now)
                && receipts == old(receipts) + concurrent + result.value.0
      ensures result.Err? ==>
                receipts == if result.error == ReadMarkFailed then old(receipts) + concurrent else old(receipts)
      ensures result == Err(ReadMarkFailed) ==> forall i :: 0 <= i < |ids| ==> Markable(access, rows, user, ids[i])
      ensures result == Err(MessageDeleted) <==>
                && (forall i :: 0 <= i < |ids| ==> MessageFor(access, rows, user, ids[i]).Ok?)
                && !forall i :: 0 <= i < |ids| ==> Markable(access, rows, user, ids[i])
      ensures result.Ok? <==>
                && (forall i :: 0 <= i < |ids| ==> Markable(access, rows, user, ids[i]))
                && (forall i :: 0 <= i < |ids| && HasRead(concurrent, ids[i], user) ==>
                      HasRead(old(receipts), ids[i], user))
    {
      ReadsAppend(receipts, concurrent);
      var loaded := Load(access, rows, user, ids);
      if loaded.Err? {
        return Err(loaded.error);
      }
      var messages := loaded.value;
      var created := [];
      for i := 0 to |messages|
        invariant receipts == old(receipts)
        invariant created == Created(receipts, user, messages[..i], now)
      {
        assert messages[..i + 1][..i] == messages[..i];
        if GetRead(receipts + created, messages[i].id, user).None? {
          created := created + [Read(messages[i].id, user, now)];
        }
      }
      assert messages[..|messages|] == messages;
      CommitsIff(receipts, concurrent, user, messages, now);
      receipts := receipts + concurrent;
      if !UniqueReads(receipts + created) {
        return Err(ReadMarkFailed);
      }
      receipts := receipts + created;
      return Ok((created, messages));
    }

    method Summary(access: Access, rows: seq<Message>, user: nat, id: nat)
      returns (result: Result<(nat, Option<int>), ReadError>)
      requires UniqueReads(receipts)
      ensures result.Err? <==> MessageFor(access, rows, user, id).Err?
      ensures result.Ok? ==> result.value.0 == |Readers(receipts, id)|
      ensures result.Ok? ==> (result.value.1.Some? <==> HasRead(receipts, id, user))
      ensures result.Ok? && result.value.1.Some? ==> Read(id, user, result.value.1.value) in receipts
    {
      var message := MessageFor(access, rows, user, id);
      if message.Err? {
        return Err(message.error);
      }
      var existing := GetRead(receipts, id, user);
      assert existing.Some? ==> existing.value == Read(id, user, existing.value.readAt);
      ReadCountIsReaders(receipts, id);
      return Ok((ReadCount(receipts, id), if existing.Some? then Some(existing.value.readAt) else None));
    }
  }

  lemma {:induction false} MessagesForIds(access: Access, rows: seq<Message>, user: nat, ids: seq<nat>)
    requires forall k :: 0 <= k < |ids| ==> MessageFor(access, rows, user, ids[k]).Ok?
    ensures var messages := MessagesFor(access, rows, user, ids);
            && |messages| == |ids|
            && forall k :: 0 <= k < |ids| ==>
                 messages[k] == MessageFor(access, rows, user, ids[k]).value && messages[k].id == ids[k]
                   && messages[k] in rows
  {
    if ids != [] {
      MessagesForIds(access, rows, user, ids[..|ids| - 1]);
      GetByIdFinds(rows, ids[|ids| - 1]);
    }
  }

  lemma HasReadAppend(receipts: seq<Read>, more: seq<Read>, message: nat, user: nat)
    ensures HasRead(receipts + more, message, user)
        <==> HasRead(receipts, message, user) || HasRead(more, message, user)
  {
    var all := receipts + more;
    if HasRead(receipts, message, user) {
      var i :| 0 <= i < |receipts| && receipts[i].message == message && receipts[i].user == user;
      assert all[i] == receipts[i];
    }
    if HasRead(more, message, user) {
      var i :| 0 <= i < |more| && more[i].message == message && more[i].user == user;
      assert all[|receipts| + i] == more[i];
    }
  }

  lemma ReadsAppend(receipts: seq<Read>, more: seq<Read>)
    ensures UniqueReads(receipts + more) ==> UniqueReads(receipts)
  {
    var all := receipts + more;
    if UniqueReads(all) {
      forall i, j | 0 <= i < j < |receipts|
        ensures receipts[i].message != receipts[j].message || receipts[i].user != receipts[j].user
      {
        assert all[i] == receipts[i] && all[j] == receipts[j];
      }
    }
  }

  lemma UniqueAppend(receipts: seq<Read>, r: Read)
    ensures UniqueReads(receipts + [r]) <==> UniqueReads(receipts) && !HasRead(receipts, r.message, r.user)
  {
    var all := receipts + [r];
    ReadsAppend(receipts, [r]);
    if HasRead(receipts, r.message, r.user) {
      var i :| 0 <= i < |receipts| && receipts[i].message == r.message && receipts[i].user == r.user;
      assert all[i] == receipts[i] && all[|receipts|] == r;
    }
  }

  predicate AlreadyThere(concurrent: seq<Read>, receipts: seq<Read>, user: nat, m: Message) {
    HasRead(concurrent, m.id, user) ==> HasRead(receipts, m.id, user)
  }

  lemma {:induction false} CreatedHas(
    receipts: seq<Read>, user: nat, messages: seq<Message>, now: int, id: nat, reader: nat)
    ensures HasRead(Created(receipts, user, messages, now), id, reader)
       <==> reader == user && !HasRead(receipts, id, user) && exists i :: 0 <= i < |messages| && messages[i].id == id
  {
    if messages != [] {
      var front, m := messages[..|messages| - 1], messages[|messages| - 1];
      var before, after := Created(receipts, user, front, now), Created(receipts, user, messages, now);
      CreatedHas(receipts, user, front, now, id, reader);
      CreatedHas(receipts, user, front, now, m.id, user);
      HasReadAppend(receipts, before, m.id, user);
      HasReadAppend(before, [Read(m.id, user, now)], id, reader);
      assert HasRead([Read(m.id, user, now)], id, reader) <==> m.id == id && user == reader by {
        assert [Read(m.id, user, now)][0] == Read(m.id, user, now);
      }
      assert messages == front + [m];
    }
  }

  /** A batch commits unless a concurrent request has just read one of its messages for the same user. */
  lemma {:induction false} CommitsIff(
    receipts: seq<Read>, concurrent: seq<Read>, user: nat, messages: seq<Message>, now: int)
    requires UniqueReads(receipts + concurrent)
    ensures UniqueReads(receipts + concurrent + Created(receipts, user, messages, now))
       <==> forall i :: 0 <= i < |messages| ==> AlreadyThere(concurrent, receipts, user, messages[i])
  {
    var base := receipts + concurrent;
    if messages == [] {
      assert base + [] == base;
    } else {
      var front, m := messages[..|messages| - 1], messages[|messages| - 1];
      var before, after := Created(receipts, user, front, now), Created(receipts, user, messages, now);
      CommitsIff(receipts, concurrent, user, front, now);
      assert messages == front + [m];
      HasReadAppend(receipts, before, m.id, user);
      HasReadAppend(receipts, concurrent, m.id, user);
      HasReadAppend(base, before, m.id, user);
      if after != before {
        UniqueAppend(base + before, Read(m.id, user, now));
        assert base + after == (base + before) + [Read(m.id, user, now)];
      } else {
        CreatedHas(receipts, user, front, now, m.id, user);
      }
    }
  }

  lemma {:induction false} ReadCountIsReaders(receipts: seq<Read>, message: nat)
    requires UniqueReads(receipts)
    ensures ReadCount(receipts, message) == |Readers(receipts, message)|
  {
    if receipts != [] {
      var front, last := receipts[..|receipts| - 1], receipts[|receipts| - 1];
      assert receipts == front + [last];
      ReadCountIsReaders(front, message);
      UniqueAppend(front, last);
      assert last.message == message ==> last.user !in Readers(front, message);
      assert Filter(receipts, ReadOf(message))
          == Filter(front, ReadOf(message)) + if last.message == message then [last] else [];
    }
  }

  // --- The unread count ---

  /** Two sums that differ in one element. */
  lemma {:induction false} SumDiffers(rows: seq<Message>, k: nat, f: Message -> nat, g: Message -> nat)
    requires k < |rows| && forall i :: 0 <= i < |rows| && i != k ==> f(rows[i]) == g(rows[i])
    ensures Sum(rows, f) + g(rows[k]) == Sum(rows, g) + f(rows[k])
  {
    if k < |rows| - 1 {
      SumDiffers(rows[..|rows| - 1], k, f, g);
    } else {
      SumAgrees(rows[..|rows| - 1], f, g);
    }
  }

  lemma {:induction false} SumAgrees(rows: seq<Message>, f: Message -> nat, g: Message -> nat)
    requires forall i :: 0 <= i < |rows| ==> f(rows[i]) == g(rows[i])
    ensures Sum(rows, f) == Sum(rows, g)
  {
    if rows != [] {
      SumAgrees(rows[..|rows| - 1], f, g);
    }
  }

  /** The messages other users sent, among those of some rows. */
  function SentByOthers(rows: seq<Message>, user: nat): Read -> nat {
    (r: Read) => var m := GetById(rows, r.message); if m.Some? && m.value.sender != user then 1 else 0
  }

  lemma IdsApart(rows: seq<Message>, k: nat, i: nat)
    requires UniqueIds(rows) && k < |rows| && i < |rows| && i != k
    ensures rows[i].id != rows[k].id
  {
    if i < k { assert rows[i].id != rows[k].id; } else { assert rows[k].id != rows[i].id; }
  }

  lemma OneRead(access: Access, rows: seq<Message>, receipts: seq<Read>, user: nat, k: nat, now: int)
    requires UniqueIds(rows) && k < |rows| && rows[k].deletedAt.None? && Sees(access, user, rows[k].context)
    requires !HasRead(receipts, rows[k].id, user)
    ensures UnreadCount(access, rows, receipts + [Read(rows[k].id, user, now)], user)
        + (if rows[k].sender != user then 1 else 0)
         == UnreadCount(access, rows, receipts, user)
  {
    var after := receipts + [Read(rows[k].id, user, now)];
    var f, g := UnreadBy(access, after, user), UnreadBy(access, receipts, user);
    assert after[|receipts|] == Read(rows[k].id, user, now);
    forall i | 0 <= i < |rows| && i != k ensures f(rows[i]) == g(rows[i]) {
      IdsApart(rows, k, i);
      HasReadAppend(receipts, [Read(rows[k].id, user, now)], rows[i].id, user);
    }
    SumDiffers(rows, k, f, g);
  }

  lemma OneMoreMarked(
    access: Access, rows: seq<Message>, receipts: seq<Read>, before: seq<Read>, user: nat, m: Message, now: int)
    requires UniqueIds(rows) && m in rows && m.deletedAt.None? && Sees(access, user, m.context)
    requires !HasRead(receipts + before, m.id, user)
    ensures var after := before + [Read(m.id, user, now)];
            UnreadCount(access, rows, receipts + after, user) + Sum(after, SentByOthers(rows, user))
            == UnreadCount(access, rows, receipts + before, user) + Sum(before, SentByOthers(rows, user))
  {
    var r := Read(m.id, user, now);
    var k :| 0 <= k < |rows| && rows[k] == m;
    OneRead(access, rows, receipts + before, user, k, now);
    assert receipts + (before + [r]) == (receipts + before) + [r];
    SumAppend(before, r, SentByOthers(rows, user));
    GetByIdOf(rows, m);
  }

  /**
   Marking a batch lowers the user's unread count by exactly the rows it creates for messages that
   somebody else sent.
   */
  lemma {:induction false} MarkingLowersUnread(
    access: Access, rows: seq<Message>, receipts: seq<Read>, user: nat, messages: seq<Message>, now: int)
    requires UniqueIds(rows)
    requires forall i :: 0 <= i < |messages| ==>
               messages[i] in rows && messages[i].deletedAt.None? && Sees(access, user, messages[i].context)
    ensures var created := Created(receipts, user, messages, now);
            UnreadCount(access, rows, receipts + created, user) + Sum(created, SentByOthers(rows, user))
            == UnreadCount(access, rows, receipts, user)
  {
    if messages == [] {
      assert receipts + [] == receipts;
    } else {
      var front, m := messages[..|messages| - 1], messages[|messages| - 1];
      var before := Created(receipts, user, front, now);
      MarkingLowersUnread(access, rows, receipts, user, front, now);
      if !HasRead(receipts + before, m.id, user) {
        assert messages[|messages| - 1] in rows;
        OneMoreMarked(access, rows, receipts, before, user, m, now);
      }
    }
  }

  /** Nobody else's count moves. */
  lemma OthersUnaffected(
    access: Access, rows: seq<Message>, receipts: seq<Read>, user: nat, messages: seq<Message>, now: int, other: nat)
    requires other != user
    ensures UnreadCount(access, rows, receipts + Created(receipts, user, messages, now), other)
        == UnreadCount(access, rows, receipts, other)
  {
    var created := Created(receipts, user, messages, now);
    forall i | 0 <= i < |rows|
      ensures HasRead(receipts + created, rows[i].id, other) == HasRead(receipts, rows[i].id, other)
    {
      HasReadAppend(receipts, created, rows[i].id, other);
      CreatedHas(receipts, user, messages, now, rows[i].id, other);
    }
    SumAgrees(rows, UnreadBy(access, receipts + created, other), UnreadBy(access, receipts, other));
  }

  /** Marking the same messages again creates nothing, whatever else was read in between. */
  lemma {:induction false} RepeatCreatesNothing(receipts: seq<Read>, user: nat, messages: seq<Message>, now: int)
    requires forall i :: 0 <= i < |messages| ==> HasRead(receipts, messages[i].id, user)
    ensures Created(receipts, user, messages, now) == []
  {
    if messages != [] {
      var front := messages[..|messages| - 1];
      assert forall i :: 0 <= i < |front| ==> front[i] == messages[i];
      RepeatCreatesNothing(receipts, user, front, now);
      assert receipts + [] == receipts;
      assert HasRead(receipts, messages[|messages| - 1].id, user);
    }
  }

  lemma MarkedIsRead(
    access: Access, rows: seq<Message>, receipts: seq<Read>, user: nat, messages: seq<Message>, now: int,
    more: seq<Read>, i: nat)
    requires i < |messages| && Markable(access, rows, user, messages[i].id)
    requires MessageFor(access, rows, user, messages[i].id) == Ok(messages[i])
    ensures messages[i].deletedAt.None? && Sees(access, user, messages[i].context)
    ensures var after := receipts + Created(receipts, user, messages, now);
            HasRead(after, messages[i].id, user) && HasRead(after + more, messages[i].id, user)
  {
    var created := Created(receipts, user, messages, now);
    CreatedHas(receipts, user, messages, now, messages[i].id, user);
    HasReadAppend(receipts, created, messages[i].id, user);
    HasReadAppend(receipts + created, more, messages[i].id, user);
  }

  /** The rows a batch adds bear the user and the time of the request. */
  lemma {:induction false} CreatedRows(receipts: seq<Read>, user: nat, messages: seq<Message>, now: int, r: Read)
    requires r in Created(receipts, user, messages, now)
    ensures r.user == user && r.readAt == now && !HasRead(receipts, r.message, user)
  {
    var front, m := messages[..|messages| - 1], messages[|messages| - 1];
    var before := Created(receipts, user, front, now);
    HasReadAppend(receipts, before, m.id, user);
    if r in before { CreatedRows(receipts, user, front, now, r); }
  }

  /** What a whole request achieves when nobody interferes. */
  lemma MarkManyExact(
    access: Access, rows: seq<Message>, receipts: seq<Read>, user: nat, ids: seq<nat>, now: int,
    more: seq<Read>, later: int)
    requires UniqueIds(rows) && UniqueReads(receipts)
    requires forall i :: 0 <= i < |ids| ==> Markable(access, rows, user, ids[i])
    ensures var messages := MessagesFor(access, rows, user, ids);
            var created := Created(receipts, user, messages, now);
            && UniqueReads(receipts + created)
            && (forall i :: 0 <= i < |ids| ==> HasRead(receipts + created, ids[i], user))
            && UnreadCount(access, rows, receipts + created, user) + Sum(created, SentByOthers(rows, user))
               == UnreadCount(access, rows, receipts, user)
            && (forall r :: r in created ==> r.user == user && r.readAt == now && !HasRead(receipts, r.message, user))
            && Created(receipts + created + more, user, messages, later) == []
  {
    var messages := MessagesFor(access, rows, user, ids);
    var created := Created(receipts, user, messages, now);
    MessagesForIds(access, rows, user, ids);
    forall i | 0 <= i < |messages|
      ensures messages[i].deletedAt.None? && Sees(access, user, messages[i].context)
      ensures HasRead(receipts + created, ids[i], user) && HasRead(receipts + created + more, messages[i].id, user)
    {
      MarkedIsRead(access, rows, receipts, user, messages, now, more, i);
    }
    assert receipts + [] == receipts;
    CommitsIff(receipts, [], user, messages, now);
    MarkingLowersUnread(access, rows, receipts, user, messages, now);
    RepeatCreatesNothing(receipts + created + more, user, messages, later);
    forall r | r in created ensures r.user == user && r.readAt == now && !HasRead(receipts, r.message, user) {
      CreatedRows(receipts, user, messages, now, r);
    }
  }

  // --- Announcing a batch room by room ---

  /** The room of a created row: the context of its message, the last one of that identifier in the request. */
  function RoomOf(messages: seq<Message>, r: Read): Option<Context> {
    var m := GetById(messages, r.message);
    if m.Some? then Some(m.value.context) else None
  }

  function InRoom(messages: seq<Message>, room: Context): Read -> bool {
    (r: Read) => RoomOf(messages, r) == Some(room)
  }

  method IndexById(messages: seq<Message>) returns (byId: map<nat, Message>)
    ensures forall id :: GetById(messages, id) == if id in byId then Some(byId[id]) else None
  {
    byId := map[];
    for i := 0 to |messages|
      invariant forall id :: GetById(messages[..i], id) == if id in byId then Some(byId[id]) else None
    {
      assert messages[..i + 1][..i] == messages[..i];
      byId := byId[messages[i].id := messages[i]];
    }
    assert messages[..|messages|] == messages;
  }

  method GroupByRoom(created: seq<Read>, messages: seq<Message>) returns (rooms: map<Context, seq<Read>>)
    requires forall i :: 0 <= i < |created| ==> GetById(messages, created[i].message).Some?
    ensures forall room :: room in rooms <==> Filter(created, InRoom(messages, room)) != []
    ensures forall room :: room in rooms ==> rooms[room] == Filter(created, InRoom(messages, room))
  {
    var byId := IndexById(messages);
    rooms := map[];
    for i := 0 to |created|
      invariant forall room :: room in rooms <==> Filter(created[..i], InRoom(messages, room)) != []
      invariant forall room :: room in rooms ==> rooms[room] == Filter(created[..i], InRoom(messages, room))
    {
      var r := created[i];
      assert GetById(messages, r.message).Some?;
      var room := byId[r.message].context;
      assert RoomOf(messages, r) == Some(room);
      assert created[..i + 1] == created[..i] + [r];
      forall other ensures Filter(created[..i + 1], InRoom(messages, other))
                        == Filter(created[..i], InRoom(messages, other)) + (if other == room then [r] else [])
      {
        FilterAppend(created[..i], r, InRoom(messages, other));
      }
      rooms := rooms[room := (if room in rooms then rooms[room] else []) + [r]];
    }
    assert created[..|created|] == created;
  }

  lemma {:induction false} FilterTimes(s: seq<Read>, p: Read -> bool, r: Read)
    ensures multiset(Filter(s, p))[r] == if p(r) then multiset(s)[r] else 0
  {
    if s != [] {
      var front, last := s[..|s| - 1], s[|s| - 1];
      FilterTimes(front, p, r);
      assert s == front + [last];
    }
  }

  /** Every created row is announced once, in the room its message was sent in and in no other. */
  lemma RoomsPartition(created: seq<Read>, messages: seq<Message>, r: Read, m: Message, room: Context)
    requires UniqueReads(created) && r in created && m in messages && m.id == r.message
    requires forall n :: n in messages && n.id == m.id ==> n == m
    ensures multiset(Filter(created, InRoom(messages, room)))[r] == if room == m.context then 1 else 0
  {
    FilterTimes(created, InRoom(messages, room), r);
    OnceEach(created, r);
    GetByIdFinds(messages, r.message);
  }

  lemma {:induction false} OnceEach(created: seq<Read>, r: Read)
    requires UniqueReads(created)
    ensures multiset(created)[r] == if r in created then 1 else 0
  {
    if created != [] {
      var front, last := created[..|created| - 1], created[|created| - 1];
      assert created == front + [last];
      ReadsAppend(front, [last]);
      OnceEach(front, r);
      UniqueAppend(front, last);
      assert r in front ==> HasRead(front, r.message, r.user);
    }
  }
}
