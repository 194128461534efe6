/**
 Message history: the page query of app/repositories/message_repository.py, and the access rule and
 the writes of app/services/message_service.py.
 */
module History {
  import opened Common

  datatype Context = Channel(id: nat) | Conversation(id: nat)

  datatype Message = Message(
    id: nat, context: Context, sender: nat, content: string,
    createdAt: int, updatedAt: int, isEdited: bool, deletedAt: Option<int>)

  /** Where a message stands in its history. */
  datatype Place = Place(createdAt: int, id: nat)

  function PlaceOf(m: Message): Place {
    Place(m.createdAt, m.id)
  }

  predicate Precedes(a: Place, b: Place) {
    a.createdAt < b.createdAt || (a.createdAt == b.createdAt && a.id < b.id)
  }

  // --- The query ---

  datatype Page = Page(items: seq<Message>, hasMore: bool)

  /** The WHERE clause: the context, and strictly before the cursor if there is one. */
  predicate Eligible(m: Message, context: Context, before: Option<Message>) {
    m.context == context && (before.Some? ==> Precedes(PlaceOf(m), PlaceOf(before.value)))
  }

  function Selects(context: Context, before: Option<Message>): Message -> bool {
    (m: Message) => Eligible(m, context, before)
  }

  function InsertDescending(sorted: seq<Message>, m: Message): seq<Message> {
    if sorted == [] then [m]
    else if Precedes(PlaceOf(m), PlaceOf(sorted[|sorted| - 1])) then sorted + [m]
    else InsertDescending(sorted[..|sorted| - 1], m) + [sorted[|sorted| - 1]]
  }

  /** ORDER BY created_at DESC, id DESC. */
  function NewestFirst(rows: seq<Message>): seq<Message> {
    if rows == [] then []
    else InsertDescending(NewestFirst(rows[..|rows| - 1]), rows[|rows| - 1])
  }

  function Skip(s: seq<Message>, n: nat): seq<Message> {
    if n <= |s| then s[n..] else []
  }

  function Take(s: seq<Message>, n: nat): seq<Message> {
    if n <= |s| then s[..n] else s
  }

  function Reversed(s: seq<Message>): (r: seq<Message>)
    ensures |r| == |s| && forall i :: 0 <= i < |r| ==> r[i] == s[|s| - 1 - i]
  {
    seq(|s|, i requires 0 <= i < |s| => s[|s| - 1 - i])
  }

  /** One row more than the limit is fetched to learn whether an older message remains. */
  function ListHistory(rows: seq<Message>, context: Context, limit: nat, before: Option<Message>, offset: nat): Page {
    var fetched := Take(Skip(NewestFirst(Filter(rows, Selects(context, before))), offset), limit + 1);
    Page(Reversed(Take(fetched, limit)), limit < |fetched|)
  }

  // --- Facts about the query ---

  ghost predicate UniqueIds(rows: seq<Message>) {
    forall i, j {:trigger rows[i].id, rows[j].id} :: 0 <= i < j < |rows| ==> rows[i].id != rows[j].id
  }

  ghost predicate Descending(s: seq<Message>) {
    forall i, j :: 0 <= i < j < |s| ==> Precedes(PlaceOf(s[j]), PlaceOf(s[i]))
  }

  ghost predicate Ascending(s: seq<Message>) {
    forall i, j :: 0 <= i < j < |s| ==> Precedes(PlaceOf(s[i]), PlaceOf(s[j]))
  }

  lemma {:induction false} InsertSorted(sorted: seq<Message>, m: Message)
    requires Descending(sorted)
    requires forall x :: x in sorted ==> x.id != m.id
    ensures Descending(InsertDescending(sorted, m))
    ensures Elements(InsertDescending(sorted, m)) == Elements(sorted) + {m}
    ensures |InsertDescending(sorted, m)| == |sorted| + 1
  {
    if sorted != [] {
      var init, last := sorted[..|sorted| - 1], sorted[|sorted| - 1];
      assert sorted == init + [last];
      if !Precedes(PlaceOf(m), PlaceOf(last)) {
        InsertSorted(init, m);
        var r := InsertDescending(init, m);
        forall i | 0 <= i < |r| ensures Precedes(PlaceOf(last), PlaceOf(r[i])) {
          assert r[i] in Elements(r);
          assert last.id != m.id;
        }
        assert Elements(r + [last]) == Elements(r) + {last};
      } else {
        assert Elements(sorted + [m]) == Elements(sorted) + {m};
      }
    }
  }

  lemma {:induction false} NewestFirstSorted(rows: seq<Message>)
    requires UniqueIds(rows)
    ensures Descending(NewestFirst(rows))
    ensures Elements(NewestFirst(rows)) == Elements(rows)
    ensures |NewestFirst(rows)| == |rows|
  {
    if rows != [] {
      var init, last := rows[..|rows| - 1], rows[|rows| - 1];
      assert rows == init + [last];
      NewestFirstSorted(init);
      forall x | x in NewestFirst(init) ensures x.id != last.id {
        assert x in Elements(init);
      }
      InsertSorted(NewestFirst(init), last);
      assert Elements(rows) == Elements(init) + {last};
    }
  }

  lemma {:induction false} FilterUnique(rows: seq<Message>, p: Message -> bool)
    requires UniqueIds(rows)
    ensures UniqueIds(Filter(rows, p))
    ensures Elements(Filter(rows, p)) == set m | m in rows && p(m)
  {
    forall x ensures x in Filter(rows, p) <==> x in rows && p(x) {
      FilterMember(rows, p, x);
    }
    if rows != [] {
      var init, last := rows[..|rows| - 1], rows[|rows| - 1];
      FilterUnique(init, p);
      forall x | x in Filter(init, p) ensures x.id != last.id {
        FilterMember(init, p, x);
      }
    }
  }

  function Selected(rows: seq<Message>, context: Context, before: Option<Message>): seq<Message> {
    NewestFirst(Filter(rows, Selects(context, before)))
  }

  lemma SelectedSorted(rows: seq<Message>, context: Context, before: Option<Message>)
    requires UniqueIds(rows)
    ensures Descending(Selected(rows, context, before))
    ensures forall m :: m in Selected(rows, context, before) <==> m in rows && Eligible(m, context, before)
    ensures |Selected(rows, context, before)| == |Filter(rows, Selects(context, before))|
  {
    var chosen := Filter(rows, Selects(context, before));
    FilterUnique(rows, Selects(context, before));
    NewestFirstSorted(chosen);
    forall m ensures m in Selected(rows, context, before) <==> m in rows && Eligible(m, context, before) {
      assert m in Elements(Selected(rows, context, before)) <==> m in Elements(chosen);
    }
  }

  lemma PageShape(rows: seq<Message>, context: Context, limit: nat, before: Option<Message>, offset: nat)
    ensures var page := ListHistory(rows, context, limit, before, offset);
            var rest := Skip(Selected(rows, context, before), offset);
            page.items == Reversed(Take(rest, limit)) && page.hasMore == (limit < |rest|)
  {
    var rest := Skip(Selected(rows, context, before), offset);
    assert Take(Take(rest, limit + 1), limit) == Take(rest, limit);
  }

  lemma FirstPageShape(rows: seq<Message>, context: Context, limit: nat, before: Option<Message>)
    ensures var all := Selected(rows, context, before);
            ListHistory(rows, context, limit, before, 0) == Page(Reversed(Take(all, limit)), limit < |all|)
  {
    PageShape(rows, context, limit, before, 0);
    assert Skip(Selected(rows, context, before), 0) == Selected(rows, context, before);
  }

  lemma TakeAscending(all: seq<Message>, limit: nat)
    requires Descending(all)
    ensures Ascending(Reversed(Take(all, limit)))
    ensures forall m :: m in Reversed(Take(all, limit)) ==> m in all
  {
    var shown := Take(all, limit);
    forall m | m in Reversed(shown) ensures m in all {
      var i :| 0 <= i < |shown| && Reversed(shown)[i] == m;
      assert all[|shown| - 1 - i] == m;
    }
  }

  /** A page shows selected messages only, in ascending order, and is full when more remain. */
  lemma PageOrdered(rows: seq<Message>, context: Context, limit: nat, before: Option<Message>)
    requires UniqueIds(rows)
    ensures var page := ListHistory(rows, context, limit, before, 0);
            && Ascending(page.items)
            && (forall i, j :: 0 <= i < j < |page.items| ==>
                  var a, b := page.items[i], page.items[j];
                  a.createdAt < b.createdAt || (a.createdAt == b.createdAt && a.id < b.id))
            && (forall m :: m in page.items ==> m in rows && Eligible(m, context, before))
            && |page.items| <= limit
            && (page.hasMore ==> |page.items| == limit)
  {
    FirstPageShape(rows, context, limit, before);
    SelectedSorted(rows, context, before);
    TakeAscending(Selected(rows, context, before), limit);
  }

  lemma TakeComplete(all: seq<Message>, limit: nat, m: Message)
    requires Descending(all) && m in all && 1 <= limit
    ensures var shown := Reversed(Take(all, limit));
            m in shown || (limit < |all| && shown != [] && Precedes(PlaceOf(m), PlaceOf(shown[0])))
  {
    var shown := Reversed(Take(all, limit));
    var k :| 0 <= k < |all| && all[k] == m;
    if k < limit {
      assert shown[|shown| - 1 - k] == m;
    } else {
      assert shown[0] == all[limit - 1];
    }
  }

  /** The only selected messages a page leaves out are older than everything on it. */
  lemma PageComplete(rows: seq<Message>, context: Context, limit: nat, before: Option<Message>, m: Message)
    requires UniqueIds(rows) && 1 <= limit
    requires m in rows && m.context == context
    requires match before
             case None => true
             case Some(b) => m.createdAt < b.createdAt || (m.createdAt == b.createdAt && m.id < b.id)
    ensures var page := ListHistory(rows, context, limit, before, 0);
            m in page.items || (page.items != [] && page.hasMore && Precedes(PlaceOf(m), PlaceOf(page.items[0])))
  {
    FirstPageShape(rows, context, limit, before);
    SelectedSorted(rows, context, before);
    TakeComplete(Selected(rows, context, before), limit, m);
  }

  predicate HoldsOlder(rows: seq<Message>, context: Context, m: Message) {
    exists x :: x in rows && x.context == context && Precedes(PlaceOf(x), PlaceOf(m))
  }

  lemma RemainderOlder(all: seq<Message>, limit: nat)
    requires Descending(all) && 1 <= limit < |all|
    ensures var shown := Reversed(Take(all, limit));
            shown != [] && all[limit] in all && Precedes(PlaceOf(all[limit]), PlaceOf(shown[0]))
  {
    assert Reversed(Take(all, limit))[0] == all[limit - 1];
  }

  /** has_more is true exactly when the context holds a message older than the oldest one shown. */
  lemma HasMoreExact(rows: seq<Message>, context: Context, limit: nat, before: Option<Message>)
    requires UniqueIds(rows) && 1 <= limit
    ensures var page := ListHistory(rows, context, limit, before, 0);
            page.hasMore <==> page.items != [] && HoldsOlder(rows, context, page.items[0])
  {
    var page := ListHistory(rows, context, limit, before, 0);
    if page.hasMore {
      FirstPageShape(rows, context, limit, before);
      SelectedSorted(rows, context, before);
      RemainderOlder(Selected(rows, context, before), limit);
    } else if page.items != [] && HoldsOlder(rows, context, page.items[0]) {
      var x :| x in rows && x.context == context && Precedes(PlaceOf(x), PlaceOf(page.items[0]));
      PageOrdered(rows, context, limit, before);
      assert page.items[0] in page.items;
      assert forall m :: m in page.items ==> !Precedes(PlaceOf(m), PlaceOf(page.items[0]));
      PageComplete(rows, context, limit, before, x);
    }
  }

  /**
   The page as a client may describe it, without the query: some of the eligible messages in order,
   leaving out older ones only, and has_more exactly when the context holds an older message.
   */
  ghost predicate IsPage(page: Page, rows: seq<Message>, context: Context, limit: nat, before: Option<Message>) {
    && Ascending(page.items)
    && (forall m :: m in page.items ==> m in rows && Eligible(m, context, before))
    && |page.items| <= limit
    && (page.hasMore ==> |page.items| == limit)
    && (forall m :: m in rows && Eligible(m, context, before) ==>
          m in page.items || (page.items != [] && page.hasMore && Precedes(PlaceOf(m), PlaceOf(page.items[0]))))
    && (page.hasMore <==> page.items != [] && HoldsOlder(rows, context, page.items[0]))
  }

  /** The query returns such a page. */
  lemma ListHistoryIsPage(rows: seq<Message>, context: Context, limit: nat, before: Option<Message>)
    requires UniqueIds(rows) && 1 <= limit
    ensures IsPage(ListHistory(rows, context, limit, before, 0), rows, context, limit, before)
  {
    PageOrdered(rows, context, limit, before);
    HasMoreExact(rows, context, limit, before);
    var page := ListHistory(rows, context, limit, before, 0);
    forall m | m in rows && Eligible(m, context, before)
      ensures m in page.items || (page.items != [] && page.hasMore && Precedes(PlaceOf(m), PlaceOf(page.items[0])))
    {
      PageComplete(rows, context, limit, before, m);
    }
  }

  lemma NotBeforeFirst(s: seq<Message>, m: Message)
    requires Ascending(s) && m in s
    ensures !Precedes(PlaceOf(m), PlaceOf(s[0]))
  {
    var i :| 0 <= i < |s| && s[i] == m;
    assert i == 0 || Precedes(PlaceOf(s[0]), PlaceOf(s[i]));
  }

  lemma PageSubset(
    p: Page, q: Page, rows: seq<Message>, context: Context, limit: nat, before: Option<Message>, m: Message)
    requires IsPage(p, rows, context, limit, before) && IsPage(q, rows, context, limit, before)
    requires m in p.items
    ensures m in q.items
  {
    if m !in q.items {
      NotBeforeFirst(p.items, m);
      forall x | x in q.items ensures x in p.items {
        NotBeforeFirst(q.items, x);
      }
      SubsetSize(Elements(q.items) + {m}, Elements(p.items));
      DistinctSize(p.items);
      DistinctSize(q.items);
    }
  }

  /** And it is the only one: the client's description leaves no freedom. */
  lemma PageDetermined(p: Page, rows: seq<Message>, context: Context, limit: nat, before: Option<Message>)
    requires UniqueIds(rows) && 1 <= limit
    ensures IsPage(p, rows, context, limit, before) <==> p == ListHistory(rows, context, limit, before, 0)
  {
    var q := ListHistory(rows, context, limit, before, 0);
    ListHistoryIsPage(rows, context, limit, before);
    if IsPage(p, rows, context, limit, before) {
      forall m ensures m in p.items <==> m in q.items {
        if m in p.items { PageSubset(p, q, rows, context, limit, before, m); }
        if m in q.items { PageSubset(q, p, rows, context, limit, before, m); }
      }
      SortedUnique(p.items, q.items, Leads);
    }
  }

  predicate Leads(a: Message, b: Message) {
    Precedes(PlaceOf(a), PlaceOf(b))
  }

  // --- Reading and writing through the service ---

  const MAX_MESSAGE_LENGTH := 4000

  datatype ChannelRow = ChannelRow(isPrivate: bool, locked: bool)

  /** Channels with their members, conversations with their participants and whether each has left. */
  datatype Access = Access(
    channels: map<nat, ChannelRow>, members: set<(nat, nat)>,
    conversations: set<nat>, participants: map<(nat, nat), bool>)

  datatype Error =
    | InvalidMessageContext | MessageAccessDenied | InvalidMessageCursor
    | AccountRestricted | ContentRequired | ContentTooLong | SendFailed
    | MessageNotFound | AlreadyDeleted | EditNotAllowed | DeleteNotAllowed
    | CommitRefused
    | Unhandled

  /** A locked channel ends in an attribute error, because the user record built there has no moderation role. */
  function ContextFor(
    access: Access, user: nat, channelId: Option<nat>, conversationId: Option<nat>): Result<Context, Error>
  {
    if channelId.Some? == conversationId.Some? then Err(InvalidMessageContext)
    else if channelId.Some? then
      var id := channelId.value;
      var member := (id, user) in access.members;
      if id !in access.channels || (access.channels[id].isPrivate && !member) then Err(MessageAccessDenied)
      else if !member then Err(MessageAccessDenied)
      else if access.channels[id].locked then Err(Unhandled)
      else Ok(Channel(id))
    else
      var id := conversationId.value;
      if id !in access.conversations || (id, user) !in access.participants || access.participants[(id, user)]
      then Err(MessageAccessDenied)
      else Ok(Conversation(id))
  }

  function GetById(rows: seq<Message>, id: nat): Option<Message> {
    if rows == [] then None
    else if rows[|rows| - 1].id == id then Some(rows[|rows| - 1])
    else GetById(rows[..|rows| - 1], id)
  }

  /** A cursor that names no message at all reads the newest page. */
  function ListMessages(
    access: Access, rows: seq<Message>, user: nat, channelId: Option<nat>, conversationId: Option<nat>,
    limit: nat, beforeId: Option<nat>, offset: nat): Result<Page, Error>
  {
    match ContextFor(access, user, channelId, conversationId)
    case Err(e) => Err(e)
    case Ok(context) =>
      var before := if beforeId.Some? then GetById(rows, beforeId.value) else None;
      if before.Some? && before.value.context != context then Err(InvalidMessageCursor)
      else Ok(ListHistory(rows, context, limit, before, offset))
  }

  predicate BelongsTo(access: Access, user: nat, context: Context) {
    match context
    case Channel(id) => id in access.channels && !access.channels[id].locked && (id, user) in access.members
    case Conversation(id) =>
      id in access.conversations && (id, user) in access.participants && !access.participants[(id, user)]
  }

  function ContextIds(context: Context): (Option<nat>, Option<nat>) {
    match context
    case Channel(id) => (Some(id), None)
    case Conversation(id) => (None, Some(id))
  }

  /** Access, refusals and the one error that is not a refusal, by the rows that decide them. */
  lemma ContextForExact(access: Access, user: nat, channelId: Option<nat>, conversationId: Option<nat>)
    ensures var result := ContextFor(access, user, channelId, conversationId);
            && (result == Err(InvalidMessageContext) <==> channelId.Some? == conversationId.Some?)
            && (channelId.Some? && conversationId.None? ==>
                  var id := channelId.value;
                  var member := id in access.channels && (id, user) in access.members;
                  && (result.Ok? <==> member && !access.channels[id].locked)
                  && (result == Err(Unhandled) <==> member && access.channels[id].locked)
                  && (result.Ok? ==> result.value == Channel(id)))
            && (channelId.None? && conversationId.Some? ==>
                  var id := conversationId.value;
                  && (result.Ok? <==> id in access.conversations && (id, user) in access.participants
                                      && !access.participants[(id, user)])
                  && (result.Ok? ==> result.value == Conversation(id))
                  && result != Err(Unhandled))
  {
  }

  lemma {:induction false} GetByIdFinds(rows: seq<Message>, id: nat)
    ensures GetById(rows, id).Some? ==> GetById(rows, id).value in rows && GetById(rows, id).value.id == id
    ensures GetById(rows, id).None? ==> forall m :: m in rows ==> m.id != id
  {
    if rows != [] {
      GetByIdFinds(rows[..|rows| - 1], id);
      assert rows == rows[..|rows| - 1] + [rows[|rows| - 1]];
    }
  }

  lemma GetByIdOf(rows: seq<Message>, m: Message)
    requires UniqueIds(rows) && m in rows
    ensures GetById(rows, m.id) == Some(m)
  {
    GetByIdFinds(rows, m.id);
    var i :| 0 <= i < |rows| && rows[i] == m;
    var j :| 0 <= j < |rows| && rows[j] == GetById(rows, m.id).value;
    assert i == j;
  }

  lemma ShownIsMember(all: seq<Message>, offset: nat, limit: nat, m: Message)
    requires m in Reversed(Take(Skip(all, offset), limit))
    ensures m in all
  {
    var shown := Take(Skip(all, offset), limit);
    var i :| 0 <= i < |Reversed(shown)| && Reversed(shown)[i] == m;
    assert shown[|shown| - 1 - i] == m;
  }

  lemma PageMembers(rows: seq<Message>, context: Context, limit: nat, before: Option<Message>, offset: nat, m: Message)
    requires UniqueIds(rows) && m in ListHistory(rows, context, limit, before, offset).items
    ensures m in rows && Eligible(m, context, before)
  {
    PageShape(rows, context, limit, before, offset);
    SelectedSorted(rows, context, before);
    ShownIsMember(Selected(rows, context, before), offset, limit, m);
  }

  /** A page that is handed out shows only the one context asked for, to somebody who belongs to it. */
  lemma PageWithinAccess(
    access: Access, rows: seq<Message>, user: nat, channelId: Option<nat>, conversationId: Option<nat>,
    limit: nat, beforeId: Option<nat>, offset: nat)
    requires UniqueIds(rows)
    ensures var result := ListMessages(access, rows, user, channelId, conversationId, limit, beforeId, offset);
            result.Ok? ==>
              && channelId.Some? != conversationId.Some?
              && var context :=
                   if channelId.Some? then Channel(channelId.value) else Conversation(conversationId.value);
                 && BelongsTo(access, user, context)
                 && forall m :: m in result.value.items ==> m in rows && m.context == context
  {
    var result := ListMessages(access, rows, user, channelId, conversationId, limit, beforeId, offset);
    if result.Ok? {
      var context := ContextFor(access, user, channelId, conversationId).value;
      var before := if beforeId.Some? then GetById(rows, beforeId.value) else None;
      forall m | m in result.value.items ensures m in rows && m.context == context {
        PageMembers(rows, context, limit, before, offset, m);
      }
    }
  }

  /** The row a cursor names: none for no cursor, and none for one that is in no row. */
  predicate CursorNames(rows: seq<Message>, beforeId: Option<nat>, row: Option<Message>) {
    match row
    case Some(m) => m in rows && beforeId == Some(m.id)
    case None => beforeId.Some? ==> forall m :: m in rows ==> m.id != beforeId.value
  }

  lemma CursorFound(rows: seq<Message>, beforeId: Option<nat>, row: Option<Message>)
    requires UniqueIds(rows) && CursorNames(rows, beforeId, row)
    ensures row == if beforeId.Some? then GetById(rows, beforeId.value) else None
  {
    if row.Some? {
      GetByIdOf(rows, row.value);
    } else if beforeId.Some? {
      GetByIdFinds(rows, beforeId.value);
    }
  }

  /**
   What the service answers without a page number, in a client's terms: with access, and a cursor that is not
   from elsewhere, exactly the page before the row the cursor names, or the newest one if it names none.
   */
  lemma ListMessagesIsPage(
    access: Access, rows: seq<Message>, user: nat, context: Context, limit: nat, beforeId: Option<nat>,
    row: Option<Message>, p: Page)
    requires UniqueIds(rows) && 1 <= limit && BelongsTo(access, user, context)
    requires CursorNames(rows, beforeId, row) && (row.Some? ==> row.value.context == context)
    ensures var (channel, conversation) := ContextIds(context);
            ListMessages(access, rows, user, channel, conversation, limit, beforeId, 0) == Ok(p)
            <==> IsPage(p, rows, context, limit, row)
  {
    CursorFound(rows, beforeId, row);
    PageDetermined(p, rows, context, limit, row);
  }

  /** A cursor is refused exactly when it names a message of another context, to somebody with access. */
  lemma CursorRefusedIff(
    access: Access, rows: seq<Message>, user: nat, channelId: Option<nat>, conversationId: Option<nat>,
    limit: nat, beforeId: Option<nat>, offset: nat)
    requires UniqueIds(rows)
    ensures ListMessages(access, rows, user, channelId, conversationId, limit, beforeId, offset)
            == Err(InvalidMessageCursor)
       <==> && ContextFor(access, user, channelId, conversationId).Ok? && beforeId.Some?
            && exists m :: m in rows && m.id == beforeId.value
                           && m.context != ContextFor(access, user, channelId, conversationId).value
  {
    if beforeId.Some? {
      GetByIdFinds(rows, beforeId.value);
      forall m | m in rows && m.id == beforeId.value ensures GetById(rows, beforeId.value) == Some(m) {
        GetByIdOf(rows, m);
      }
    }
  }

  /** Rows keep their identity and place; only their text and marks change; new rows come at the end. */
  ghost predicate Evolves(rows: seq<Message>, rows': seq<Message>) {
    && UniqueIds(rows')
    && |rows| <= |rows'|
    && forall i :: 0 <= i < |rows| ==> SameMessage(rows[i], rows'[i])
  }

  predicate SameMessage(m: Message, m': Message) {
    PlaceOf(m') == PlaceOf(m) && m'.context == m.context && m'.sender == m.sender
  }

  predicate IsSpace(c: char) {
    c == ' ' || 9 <= c as int <= 13 || 28 <= c as int <= 31
  }

  predicate Blank(content: string) {
    forall i :: 0 <= i < |content| ==> IsSpace(content[i])
  }

  class MessageService {
    var rows: seq<Message>

    constructor ()
      ensures rows == []
    {
      rows := [];
    }

    /** The identifier and the time come from the database; an identifier in use makes the commit fail. */
    method CreateMessage(access: Access, user: nat, restricted: bool, content: string,
                         channelId: Option<nat>, conversationId: Option<nat>, id: nat, now: int)
      returns (result: Result<Message, Error>)
      requires UniqueIds(rows)
      modifies this
      ensures Evolves(old(rows), rows)
      ensures result.Ok? <==>
                && !restricted && !Blank(content) && |content| <= 4000
                && ContextFor(access, user, channelId, conversationId).Ok?
                && forall m :: m in old(rows) ==> m.id != id
      ensures result == Err(AccountRestricted) <==> restricted
      ensures result == Err(ContentRequired) <==> !restricted && Blank(content)
      ensures result == Err(ContentTooLong) <==> !restricted && !Blank(content) && 4000 < |content|
      ensures !restricted && !Blank(content) && |content| <= 4000 && result.Err? ==>
                var context := ContextFor(access, user, channelId, conversationId);
                result.error == if context.Err? then context.error else SendFailed
      ensures result.Err? ==> rows == old(rows)
      ensures result.Ok? ==>
                && rows == old(rows) + [result.value]
                && BelongsTo(access, user, result.value.context)
                && ContextIds(result.value.context) == (channelId, conversationId)
                && result.value == Message(id, result.value.context, user, content, now, now, false, None)
    {
      if restricted {
        return Err(AccountRestricted);
      }
      if Blank(content) {
        return Err(ContentRequired);
      }
      if MAX_MESSAGE_LENGTH < |content| {
        return Err(ContentTooLong);
      }
      var context := ContextFor(access, user, channelId, conversationId);
      if context.Err? {
        return Err(context.error);
      }
      var message := Message(id, context.value, user, content, now, now, false, None);
      GetByIdFinds(rows, id);
      if GetById(rows, id).Some? {
        return Err(SendFailed);
      }
      rows := rows + [message];
      return Ok(message);
    }

    method EditMessage(user: nat, restricted: bool, index: nat, content: string, now: int)
      returns (result: Result<Message, Error>)
      requires UniqueIds(rows) && index < |rows|
      modifies this
      ensures Evolves(old(rows), rows)
      ensures result.Ok? <==>
              old(rows[index]).deletedAt.None? && !restricted && old(rows[index]).sender == user
      ensures result == Err(AlreadyDeleted) <==> old(rows[index]).deletedAt.Some?
      ensures result.Err? ==> result.error in {AlreadyDeleted, EditNotAllowed}
      ensures result.Ok? ==> result.value == rows[index]
      ensures rows == if result.Ok?
                      then old(rows)[index := old(rows[index]).(content := content, isEdited := true, updatedAt := now)]
                      else old(rows)
    {
      var message := rows[index];
      if message.deletedAt.Some? {
        return Err(AlreadyDeleted);
      }
      if restricted || message.sender != user {
        return Err(EditNotAllowed);
      }
      message := message.(content := content, isEdited := true, updatedAt := now);
      rows := rows[index := message];
      return Ok(message);
    }

    /**
     The commit asks for an empty text, which the table's check forbids: accepted says whether the database
     takes the row.
     */
    method DeleteMessage(user: nat, active: bool, index: nat, accepted: bool, now: int)
      returns (result: Result<Message, Error>)
      requires UniqueIds(rows) && index < |rows|
      modifies this
      ensures Evolves(old(rows), rows)
      ensures result.Ok? <==>
              old(rows[index]).deletedAt.None? && active && old(rows[index]).sender == user && accepted
      ensures result == Err(AlreadyDeleted) <==> old(rows[index]).deletedAt.Some?
      ensures result == Err(DeleteNotAllowed) <==>
              old(rows[index]).deletedAt.None? && (!active || old(rows[index]).sender != user)
      ensures result.Ok? ==> result.value == rows[index]
      ensures rows == if result.Ok?
                      then old(rows)[index :=
                        old(rows[index]).(deletedAt := Some(now), content := "", updatedAt := now)]
                      else old(rows)
    {
      var message := rows[index];
      if message.deletedAt.Some? {
        return Err(AlreadyDeleted);
      }
      if !active || message.sender != user {
        return Err(DeleteNotAllowed);
      }
      if !accepted {
        return Err(CommitRefused);
      }
      message := message.(deletedAt := Some(now), content := "", updatedAt := now);
      rows := rows[index := message];
      return Ok(message);
    }
  }
}
