/** What a client sees that walks back through a message history page by page while others write. */
module HistoryWalk {
  import opened Common
  import opened History

  /** The fetches of a walk so far: who had access and what the table held at each fetch, and the page it gave. */
  datatype Walk = Start | Fetch(previous: Walk, access: Access, table: seq<Message>, page: Page)

  /** The next cursor: the row, as the table now holds it, of the oldest message shown so far. */
  function Cursor(w: Walk, table: seq<Message>): Option<Message> {
    if w.Start? || w.page.items == [] then None else GetById(table, w.page.items[0].id)
  }

  /** A further page is fetched only after one that promised more; meanwhile others may write. */
  ghost predicate MayFollow(w: Walk, table: seq<Message>) {
    UniqueIds(table) && (w.Fetch? ==> w.page.hasMore && Evolves(w.table, table))
  }

  /** What the client sends along: the identifier of the oldest message shown so far. */
  function NextBefore(w: Walk): Option<nat> {
    if w.Start? || w.page.items == [] then None else Some(w.page.items[0].id)
  }

  /** Every page is what the service answers to the user. */
  ghost predicate IsWalk(w: Walk, user: nat, context: Context, limit: nat) {
    w.Fetch? ==>
      && IsWalk(w.previous, user, context, limit)
      && MayFollow(w.previous, w.table)
      && var (channel, conversation) := ContextIds(context);
         ListMessages(w.access, w.table, user, channel, conversation, limit, NextBefore(w.previous), 0) == Ok(w.page)
  }

  lemma AnswerIsQuery(w: Walk, user: nat, context: Context, limit: nat)
    requires IsWalk(w, user, context, limit) && w.Fetch?
    ensures w.page == ListHistory(w.table, context, limit, Cursor(w.previous, w.table), 0)
  {
  }

  /** What the client shows after prepending each page to the previous ones. */
  function Shown(w: Walk): seq<Message> {
    match w
    case Start => []
    case Fetch(previous, _, _, page) => page.items + Shown(previous)
  }

  function Fetches(w: Walk): nat {
    match w
    case Start => 0
    case Fetch(previous, _, _, page) => Fetches(previous) + 1
  }

  /** The table of the first fetch. */
  function First(w: Walk): seq<Message>
    requires w.Fetch?
  {
    if w.previous.Start? then w.table else First(w.previous)
  }

  /** The same walk, knowing of each page only what a client may say about it. */
  ghost predicate IsPagedWalk(w: Walk, context: Context, limit: nat) {
    w.Fetch? ==>
      && IsPagedWalk(w.previous, context, limit)
      && MayFollow(w.previous, w.table)
      && IsPage(w.page, w.table, context, limit, Cursor(w.previous, w.table))
  }

  lemma {:induction false} WalkIsPaged(w: Walk, user: nat, context: Context, limit: nat)
    requires IsWalk(w, user, context, limit) && 1 <= limit
    ensures IsPagedWalk(w, context, limit)
  {
    if w.Fetch? {
      WalkIsPaged(w.previous, user, context, limit);
      AnswerIsQuery(w, user, context, limit);
      ListHistoryIsPage(w.table, context, limit, Cursor(w.previous, w.table));
    }
  }

  lemma {:induction false} EvolvesAlong(w: Walk, context: Context, limit: nat)
    requires IsPagedWalk(w, context, limit) && w.Fetch?
    ensures Evolves(First(w), w.table)
  {
    if w.previous.Fetch? {
      EvolvesAlong(w.previous, context, limit);
    }
  }

  /** The cursor is the row of the first message shown. */
  lemma CursorIsOldest(w: Walk, context: Context, limit: nat, table: seq<Message>)
    requires IsPagedWalk(w, context, limit) && w.Fetch? && MayFollow(w, table)
    ensures Shown(w) != [] && Shown(w)[0] == w.page.items[0]
    ensures Cursor(w, table).Some? && SameMessage(Shown(w)[0], Cursor(w, table).value)
  {
    var oldest := w.page.items[0];
    assert oldest in w.page.items;
    var i :| 0 <= i < |w.table| && w.table[i] == oldest;
    assert SameMessage(w.table[i], table[i]);
    GetByIdFinds(table, oldest.id);
    assert table[i] in table;
    var j :| 0 <= j < |table| && table[j] == GetById(table, oldest.id).value;
    assert i == j;
  }

  lemma AscendingConcat(a: seq<Message>, b: seq<Message>)
    requires Ascending(a) && Ascending(b)
    requires b != [] ==> forall m :: m in a ==> Precedes(PlaceOf(m), PlaceOf(b[0]))
    ensures Ascending(a + b)
  {
    forall i, j | 0 <= i < j < |a + b| ensures Precedes(PlaceOf((a + b)[i]), PlaceOf((a + b)[j])) {
      if i < |a| <= j {
        assert Precedes(PlaceOf(a[i]), PlaceOf(b[0]));
        assert j == |a| || Precedes(PlaceOf(b[0]), PlaceOf(b[j - |a|]));
      }
    }
  }

  lemma {:induction false} PagedOrdered(w: Walk, context: Context, limit: nat)
    requires IsPagedWalk(w, context, limit)
    ensures Ascending(Shown(w))
    ensures forall m :: m in Shown(w) ==> m.context == context
  {
    if w.Fetch? {
      PagedOrdered(w.previous, context, limit);
      if w.previous.Fetch? {
        CursorIsOldest(w.previous, context, limit, w.table);
      }
      AscendingConcat(w.page.items, Shown(w.previous));
    }
  }

  ghost predicate IsShown(w: Walk, m: Message) {
    exists x :: x in Shown(w) && SameMessage(m, x)
  }

  /** A message of the first table is shown, or is older than everything shown and promised by has_more. */
  lemma {:induction false} PagedComplete(w: Walk, context: Context, limit: nat, m: Message)
    requires IsPagedWalk(w, context, limit) && w.Fetch?
    requires m in First(w) && m.context == context
    ensures IsShown(w, m) || (w.page.hasMore && w.page.items != [] && Precedes(PlaceOf(m), PlaceOf(w.page.items[0])))
  {
    EvolvesAlong(w, context, limit);
    var i :| 0 <= i < |First(w)| && First(w)[i] == m;
    var now := w.table[i];
    assert SameMessage(m, now) && now in w.table;
    if w.previous.Fetch? {
      PagedComplete(w.previous, context, limit, m);
      CursorIsOldest(w.previous, context, limit, w.table);
      if IsShown(w.previous, m) {
        var x :| x in Shown(w.previous) && SameMessage(m, x);
        assert x in Shown(w);
      }
    }
    if now in w.page.items {
      assert now in Shown(w);
    }
  }

  /**
   Whatever others write meanwhile, what is shown is in order, so nothing is shown twice, and once
   the walk has ended no message of the first table is missing.
   */
  lemma {:induction false} WalkMissesNothing(w: Walk, user: nat, context: Context, limit: nat)
    requires IsWalk(w, user, context, limit) && 1 <= limit && w.Fetch?
    ensures Ascending(Shown(w))
    ensures forall m :: m in Shown(w) ==> m.context == context
    ensures !w.page.hasMore ==> forall m :: m in First(w) && m.context == context ==> IsShown(w, m)
  {
    WalkIsPaged(w, user, context, limit);
    PagedOrdered(w, context, limit);
    forall m | m in First(w) && m.context == context && !w.page.hasMore ensures IsShown(w, m) {
      PagedComplete(w, context, limit, m);
    }
  }

  // --- When what others create does not get before the cursor ---

  /** A message of the context that the first table did not hold stands before the place. */
  ghost predicate AddedBefore(first: seq<Message>, table: seq<Message>, context: Context, place: Place) {
    exists i :: |first| <= i < |table| && table[i].context == context && Precedes(PlaceOf(table[i]), place)
  }

  /** No table fetched from held an added message before the cursor of that fetch. */
  ghost predicate Undisturbed(w: Walk, first: seq<Message>, context: Context) {
    w.Fetch? ==>
      && Undisturbed(w.previous, first, context)
      && (Cursor(w.previous, w.table).Some? ==>
            !AddedBefore(first, w.table, context, PlaceOf(Cursor(w.previous, w.table).value)))
  }

  /** The place is that of one of the first table's messages of the context. */
  ghost predicate FromFirst(first: seq<Message>, context: Context, place: Place) {
    exists m :: m in first && m.context == context && PlaceOf(m) == place
  }

  /** An eligible message of the table of an undisturbed fetch is one of the first table's. */
  lemma EligibleFromFirst(w: Walk, context: Context, limit: nat, x: Message)
    requires IsPagedWalk(w, context, limit) && w.Fetch? && Undisturbed(w, First(w), context)
    requires x in w.table && Eligible(x, context, Cursor(w.previous, w.table))
    ensures FromFirst(First(w), context, PlaceOf(x))
  {
    var i :| 0 <= i < |w.table| && w.table[i] == x;
    EvolvesAlong(w, context, limit);
    if w.previous.Fetch? {
      CursorIsOldest(w.previous, context, limit, w.table);
    }
    assert i < |First(w)|;
    assert SameMessage(First(w)[i], x) && First(w)[i] in First(w);
  }

  /** Nothing shown was created during the walk. */
  lemma {:induction false} ShownFromFirst(w: Walk, context: Context, limit: nat, x: Message)
    requires IsPagedWalk(w, context, limit) && w.Fetch? && Undisturbed(w, First(w), context)
    requires x in Shown(w)
    ensures FromFirst(First(w), context, PlaceOf(x))
  {
    if x in w.page.items {
      EligibleFromFirst(w, context, limit, x);
    } else {
      ShownFromFirst(w.previous, context, limit, x);
    }
  }

  lemma {:induction false} FirstUnique(w: Walk, context: Context, limit: nat)
    requires IsPagedWalk(w, context, limit) && w.Fetch?
    ensures UniqueIds(First(w))
  {
    if w.previous.Fetch? {
      FirstUnique(w.previous, context, limit);
    }
  }

  function Places(s: seq<Message>): (r: seq<Place>)
    ensures |r| == |s| && forall i :: 0 <= i < |r| ==> r[i] == PlaceOf(s[i])
  {
    seq(|s|, i requires 0 <= i < |s| => PlaceOf(s[i]))
  }

  lemma PlacesMember(s: seq<Message>, p: Place)
    ensures p in Places(s) <==> exists m :: m in s && PlaceOf(m) == p
  {
    if p in Places(s) {
      var i :| 0 <= i < |s| && Places(s)[i] == p;
      assert s[i] in s;
    }
    if m :| m in s && PlaceOf(m) == p {
      var i :| 0 <= i < |s| && s[i] == m;
      assert Places(s)[i] == p;
    }
  }

  /** The whole history of a context, oldest first: what the walk is meant to reproduce. */
  function FullHistory(rows: seq<Message>, context: Context): seq<Message> {
    Reversed(Selected(rows, context, None))
  }

  lemma ReversedMember(s: seq<Message>, m: Message)
    ensures m in Reversed(s) <==> m in s
  {
    if m in s {
      var i :| 0 <= i < |s| && s[i] == m;
      assert Reversed(s)[|s| - 1 - i] == m;
    }
  }

  lemma FullHistoryPlaces(rows: seq<Message>, context: Context)
    requires UniqueIds(rows)
    ensures Ascending(FullHistory(rows, context))
    ensures forall p :: p in Places(FullHistory(rows, context)) <==> FromFirst(rows, context, p)
  {
    var full := FullHistory(rows, context);
    SelectedSorted(rows, context, None);
    forall m ensures m in full <==> m in rows && m.context == context {
      ReversedMember(Selected(rows, context, None), m);
    }
    forall p ensures p in Places(full) <==> FromFirst(rows, context, p) {
      PlacesMember(full, p);
    }
  }

  lemma ShownPlaces(w: Walk, context: Context, limit: nat, p: Place)
    requires IsPagedWalk(w, context, limit) && w.Fetch? && Undisturbed(w, First(w), context)
    ensures p in Places(Shown(w)) ==> FromFirst(First(w), context, p)
    ensures FromFirst(First(w), context, p) && !w.page.hasMore ==> p in Places(Shown(w))
  {
    PlacesMember(Shown(w), p);
    if x :| x in Shown(w) && PlaceOf(x) == p {
      ShownFromFirst(w, context, limit, x);
    }
    if m :| m in First(w) && m.context == context && PlaceOf(m) == p {
      PagedComplete(w, context, limit, m);
    }
  }

  lemma UndisturbedReproduces(w: Walk, context: Context, limit: nat)
    requires IsPagedWalk(w, context, limit) && w.Fetch? && Undisturbed(w, First(w), context)
    requires !w.page.hasMore
    ensures Places(Shown(w)) == Places(FullHistory(First(w), context))
  {
    PagedOrdered(w, context, limit);
    FirstUnique(w, context, limit);
    var shown, full := Places(Shown(w)), Places(FullHistory(First(w), context));
    FullHistoryPlaces(First(w), context);
    forall p ensures p in shown <==> p in full {
      ShownPlaces(w, context, limit, p);
    }
    SortedUnique(shown, full, Precedes);
  }

  /** The message at a place of the table is shown, or still to come. */
  ghost predicate ShownOrToCome(w: Walk, m: Message)
    requires w.Fetch?
  {
    IsShown(w, m) || (w.page.hasMore && w.page.items != [] && Precedes(PlaceOf(m), PlaceOf(w.page.items[0])))
  }

  lemma EligibleToCome(w: Walk, context: Context, limit: nat, m: Message)
    requires IsPagedWalk(w, context, limit) && w.Fetch?
    requires m in w.table && Eligible(m, context, Cursor(w.previous, w.table))
    ensures ShownOrToCome(w, m)
  {
    if m in w.page.items {
      assert m in Shown(w);
    }
  }

  lemma StaysToCome(w: Walk, context: Context, limit: nat, i: nat)
    requires IsPagedWalk(w, context, limit) && w.Fetch? && w.previous.Fetch?
    requires i < |w.previous.table| && w.previous.table[i].context == context
    requires ShownOrToCome(w.previous, w.previous.table[i])
    ensures i < |w.table| && w.table[i].context == context && ShownOrToCome(w, w.table[i])
  {
    var before, m := w.previous.table[i], w.table[i];
    assert SameMessage(before, m);
    CursorIsOldest(w.previous, context, limit, w.table);
    if IsShown(w.previous, before) {
      var x :| x in Shown(w.previous) && SameMessage(before, x);
      assert x in Shown(w);
    } else {
      EligibleToCome(w, context, limit, m);
    }
  }

  /** Once an added message stood before a cursor, the walk shows one. */
  lemma {:induction false} Intruder(w: Walk, context: Context, limit: nat) returns (i: nat)
    requires IsPagedWalk(w, context, limit) && w.Fetch? && !Undisturbed(w, First(w), context)
    ensures |First(w)| <= i < |w.table| && w.table[i].context == context && ShownOrToCome(w, w.table[i])
  {
    if !Undisturbed(w.previous, First(w), context) {
      i := Intruder(w.previous, context, limit);
      StaysToCome(w, context, limit, i);
    } else {
      var cursor := Cursor(w.previous, w.table).value;
      i :| |First(w)| <= i < |w.table| && w.table[i].context == context
           && Precedes(PlaceOf(w.table[i]), PlaceOf(cursor));
      EligibleToCome(w, context, limit, w.table[i]);
    }
  }

  /** An added message has a place of its own. */
  lemma AddedNotFromFirst(w: Walk, context: Context, limit: nat, i: nat)
    requires IsPagedWalk(w, context, limit) && w.Fetch? && |First(w)| <= i < |w.table|
    ensures !FromFirst(First(w), context, PlaceOf(w.table[i]))
  {
    EvolvesAlong(w, context, limit);
    forall k | 0 <= k < |First(w)| ensures PlaceOf(First(w)[k]) != PlaceOf(w.table[i]) {
      assert SameMessage(First(w)[k], w.table[k]) && w.table[k].id != w.table[i].id;
    }
  }

  lemma DisturbedDiffers(w: Walk, context: Context, limit: nat)
    requires IsPagedWalk(w, context, limit) && w.Fetch? && !Undisturbed(w, First(w), context)
    requires !w.page.hasMore
    ensures Places(Shown(w)) != Places(FullHistory(First(w), context))
  {
    var i := Intruder(w, context, limit);
    AddedNotFromFirst(w, context, limit, i);
    FirstUnique(w, context, limit);
    FullHistoryPlaces(First(w), context);
    PlacesMember(Shown(w), PlaceOf(w.table[i]));
  }

  /**
   The exact condition: a finished walk has shown exactly the history the context held at the start, in order,
   each message once, if and only if no fetch found an added message before its cursor.
   */
  lemma {:induction false} WalkReproducesIff(w: Walk, user: nat, context: Context, limit: nat)
    requires IsWalk(w, user, context, limit) && 1 <= limit && w.Fetch? && !w.page.hasMore
    ensures Places(Shown(w)) == Places(FullHistory(First(w), context)) <==> Undisturbed(w, First(w), context)
  {
    WalkIsPaged(w, user, context, limit);
    if Undisturbed(w, First(w), context) {
      UndisturbedReproduces(w, context, limit);
    } else {
      DisturbedDiffers(w, context, limit);
    }
  }

  /** Every message of the context that was added since is newer than all it held at first. */
  ghost predicate OnlyNewer(first: seq<Message>, table: seq<Message>, context: Context) {
    forall i, m :: |first| <= i < |table| && table[i].context == context && m in first && m.context == context
      ==> Precedes(PlaceOf(m), PlaceOf(table[i]))
  }

  ghost predicate AllOnlyNewer(w: Walk, first: seq<Message>, context: Context) {
    w.Fetch? ==> AllOnlyNewer(w.previous, first, context) && OnlyNewer(first, w.table, context)
  }

  lemma {:induction false} NewerUndisturbed(w: Walk, context: Context, limit: nat)
    requires IsPagedWalk(w, context, limit) && w.Fetch? && AllOnlyNewer(w, First(w), context)
    ensures Undisturbed(w, First(w), context)
  {
    if w.previous.Fetch? {
      NewerUndisturbed(w.previous, context, limit);
      CursorIsOldest(w.previous, context, limit, w.table);
      ShownFromFirst(w.previous, context, limit, Shown(w.previous)[0]);
    }
  }

  /** In particular when everything inserted during the walk is newer than the history it began with. */
  lemma {:induction false} WalkReproducesHistory(w: Walk, user: nat, context: Context, limit: nat)
    requires IsWalk(w, user, context, limit) && 1 <= limit && w.Fetch? && AllOnlyNewer(w, First(w), context)
    requires !w.page.hasMore
    ensures Places(Shown(w)) == Places(FullHistory(First(w), context))
  {
    WalkIsPaged(w, user, context, limit);
    NewerUndisturbed(w, context, limit);
    UndisturbedReproduces(w, context, limit);
  }

  predicate FullPages(w: Walk, limit: nat) {
    w.Fetch? ==> FullPages(w.previous, limit) && |w.page.items| == limit
  }

  lemma FullPage(w: Walk, context: Context, limit: nat)
    requires IsPagedWalk(w, context, limit) && w.Fetch? && w.page.hasMore
    ensures |w.page.items| == limit && IsPagedWalk(w.previous, context, limit)
    ensures w.previous.Fetch? ==> w.previous.page.hasMore
  {
  }

  lemma {:induction false} PagesFull(w: Walk, context: Context, limit: nat)
    requires IsPagedWalk(w, context, limit) && (w.Fetch? ==> w.page.hasMore)
    ensures FullPages(w, limit)
  {
    if w.Fetch? {
      FullPage(w, context, limit);
      PagesFull(w.previous, context, limit);
    }
  }

  lemma {:induction false} ShownLength(w: Walk, limit: nat)
    requires FullPages(w, limit)
    ensures |Shown(w)| == Times(Fetches(w), limit)
  {
    if w.Fetch? {
      ShownLength(w.previous, limit);
    }
  }

  lemma AscendingSize(s: seq<Message>)
    requires Ascending(s)
    ensures |Elements(Places(s))| == |s|
  {
    DistinctSize(Places(s));
  }

  /** While a page promises more, the first table holds a message that has not been shown. */
  lemma OlderRemains(w: Walk, context: Context, limit: nat) returns (older: Place)
    requires IsPagedWalk(w, context, limit) && w.Fetch? && Undisturbed(w, First(w), context)
    requires w.page.hasMore
    ensures FromFirst(First(w), context, older) && older !in Places(Shown(w))
  {
    var oldest := w.page.items[0];
    var m :| m in w.table && m.context == context && Precedes(PlaceOf(m), PlaceOf(oldest));
    older := PlaceOf(m);
    assert Shown(w)[0] == oldest;
    EligibleFromFirst(w, context, limit, m);
    PagedOrdered(w, context, limit);
    forall x | x in Shown(w) ensures PlaceOf(x) != older {
      var i :| 0 <= i < |Shown(w)| && Shown(w)[i] == x;
      assert i == 0 || Precedes(PlaceOf(oldest), PlaceOf(x));
    }
    PlacesMember(Shown(w), older);
  }

  /** The walk ends: as long as it promises more, its full pages fit into the history with room to spare. */
  lemma {:induction false} WalkTerminates(w: Walk, user: nat, context: Context, limit: nat)
    requires IsWalk(w, user, context, limit) && 1 <= limit && w.Fetch? && Undisturbed(w, First(w), context)
    requires w.page.hasMore
    ensures Fetches(w) * limit < |FullHistory(First(w), context)|
  {
    WalkIsPaged(w, user, context, limit);
    var shown, full := Places(Shown(w)), Places(FullHistory(First(w), context));
    var older := OlderRemains(w, context, limit);
    FirstUnique(w, context, limit);
    FullHistoryPlaces(First(w), context);
    forall p | p in Elements(shown) + {older} ensures p in Elements(full) {
      ShownPlaces(w, context, limit, p);
    }
    SubsetSize(Elements(shown) + {older}, Elements(full));
    PagedOrdered(w, context, limit);
    AscendingSize(Shown(w));
    AscendingSize(FullHistory(First(w), context));
    PagesFull(w, context, limit);
    ShownLength(w, limit);
    TimesIsProduct(Fetches(w), limit);
  }

  // --- Page numbers and cursors agree on an unchanged history ---

  predicate Follows(a: Message, b: Message) {
    Precedes(PlaceOf(b), PlaceOf(a))
  }

  lemma SelectedAfter(rows: seq<Message>, context: Context, j: nat)
    requires UniqueIds(rows) && j < |Selected(rows, context, None)|
    ensures var all := Selected(rows, context, None); Selected(rows, context, Some(all[j])) == all[j + 1..]
  {
    var all := Selected(rows, context, None);
    var after := Selected(rows, context, Some(all[j]));
    SelectedSorted(rows, context, None);
    SelectedSorted(rows, context, Some(all[j]));
    forall m ensures m in after <==> m in all[j + 1..] {
      if m in after {
        assert m in all;
        var k :| 0 <= k < |all| && all[k] == m;
        assert !(k < j);
        assert all[j + 1..][k - j - 1] == m;
      }
      if m in all[j + 1..] {
        var k :| 0 <= k < |all[j + 1..]| && all[j + 1..][k] == m;
        assert all[j + 1 + k] == m && m in all;
      }
    }
    SortedUnique(after, all[j + 1..], Follows);
  }

  /** The page of a list of messages, newest first, that starts at the given position. */
  function Slice(all: seq<Message>, start: nat, limit: nat): Page
    requires start <= |all|
  {
    Page(Reversed(Take(all[start..], limit)), limit < |all| - start)
  }

  lemma SliceOldest(all: seq<Message>, start: nat, limit: nat)
    requires 1 <= limit && start + limit <= |all|
    ensures Slice(all, start, limit).items != [] && Slice(all, start, limit).items[0] == all[start + limit - 1]
  {
  }

  lemma SelectedMember(rows: seq<Message>, context: Context, j: nat)
    requires UniqueIds(rows) && j < |Selected(rows, context, None)|
    ensures Selected(rows, context, None)[j] in rows
  {
    SelectedSorted(rows, context, None);
    assert Selected(rows, context, None)[j] in Selected(rows, context, None);
  }

  /** After a full page the cursor stands at the page's last position. */
  lemma CursorAfterSlice(rows: seq<Message>, context: Context, w: Walk, start: nat, limit: nat)
    requires UniqueIds(rows) && w.Fetch? && 1 <= limit && start + limit < |Selected(rows, context, None)|
    requires w.page == Slice(Selected(rows, context, None), start, limit)
    ensures Selected(rows, context, Cursor(w, rows)) == Selected(rows, context, None)[start + limit..]
  {
    SliceOldest(Selected(rows, context, None), start, limit);
    SelectedMember(rows, context, start + limit - 1);
    GetByIdOf(rows, w.page.items[0]);
    SelectedAfter(rows, context, start + limit - 1);
  }

  /** Nobody writes during the walk. */
  ghost predicate Still(w: Walk, rows: seq<Message>) {
    w.Fetch? ==> w.table == rows && Still(w.previous, rows)
  }

  /** What the query selects with the cursor that a walk has reached. */
  function RestAfter(rows: seq<Message>, context: Context): Walk -> seq<Message> {
    (w: Walk) => Selected(rows, context, Cursor(w, rows))
  }

  /** Each page shows the beginning of what is left at its cursor, and follows a page that promised more. */
  ghost predicate FromRests(w: Walk, rest: Walk -> seq<Message>, limit: nat) {
    w.Fetch? ==>
      && FromRests(w.previous, rest, limit)
      && (w.previous.Fetch? ==> w.previous.page.hasMore)
      && w.page == Slice(rest(w.previous), 0, limit)
  }

  lemma FetchIsSlice(rows: seq<Message>, context: Context, limit: nat, before: Option<Message>)
    ensures ListHistory(rows, context, limit, before, 0) == Slice(Selected(rows, context, before), 0, limit)
  {
    FirstPageShape(rows, context, limit, before);
    assert Selected(rows, context, before)[0..] == Selected(rows, context, before);
  }

  lemma {:induction false} StillWalkFromRests(w: Walk, user: nat, rows: seq<Message>, context: Context, limit: nat)
    requires IsWalk(w, user, context, limit) && Still(w, rows)
    ensures FromRests(w, RestAfter(rows, context), limit)
    ensures w.Fetch? ==> UniqueIds(rows)
  {
    if w.Fetch? {
      StillWalkFromRests(w.previous, user, rows, context, limit);
      AnswerIsQuery(w, user, context, limit);
      FetchIsSlice(rows, context, limit, Cursor(w.previous, rows));
    }
  }

  lemma SliceOfRest(all: seq<Message>, start: nat, limit: nat)
    requires start <= |all|
    ensures Slice(all[start..], 0, limit) == Slice(all, start, limit)
  {
    assert all[start..][0..] == all[start..];
  }

  /** Every full page moves the rest on by limit positions. */
  ghost predicate MovesOn(all: seq<Message>, rest: Walk -> seq<Message>, limit: nat) {
    && rest(Start) == all
    && forall v: Walk, start: nat :: v.Fetch? && start + limit < |all| && v.page == Slice(all, start, limit)
         ==> rest(v) == all[start + limit..]
  }

  /** Then so do the pages. */
  lemma {:induction false} PagesAreSlices(w: Walk, all: seq<Message>, rest: Walk -> seq<Message>, limit: nat)
    requires FromRests(w, rest, limit) && w.Fetch? && MovesOn(all, rest, limit)
    ensures var start := Times(Fetches(w.previous), limit); start <= |all| && w.page == Slice(all, start, limit)
  {
    var start := Times(Fetches(w.previous), limit);
    if w.previous.Start? {
      assert w.previous == Start && start == 0;
    } else {
      PagesAreSlices(w.previous, all, rest, limit);
      var before := Times(Fetches(w.previous.previous), limit);
      assert start == before + limit;
      assert rest(w.previous) == all[start..];
      SliceOfRest(all, start, limit);
    }
  }

  lemma OffsetIsSlice(rows: seq<Message>, context: Context, limit: nat, start: nat)
    requires start <= |Selected(rows, context, None)|
    ensures ListHistory(rows, context, limit, None, start) == Slice(Selected(rows, context, None), start, limit)
  {
    PageShape(rows, context, limit, None, start);
  }

  lemma CursorsMoveOn(rows: seq<Message>, context: Context, limit: nat)
    requires UniqueIds(rows) && 1 <= limit
    ensures MovesOn(Selected(rows, context, None), RestAfter(rows, context), limit)
  {
    var all := Selected(rows, context, None);
    assert Cursor(Start, rows) == None;
    forall v: Walk, start: nat | v.Fetch? && start + limit < |all| && v.page == Slice(all, start, limit)
      ensures RestAfter(rows, context)(v) == all[start + limit..]
    {
      CursorAfterSlice(rows, context, v, start, limit);
    }
  }

  lemma StillPageIsSlice(w: Walk, user: nat, rows: seq<Message>, context: Context, limit: nat)
    requires IsWalk(w, user, context, limit) && Still(w, rows) && w.Fetch? && 1 <= limit
    ensures var all, start := Selected(rows, context, None), Times(Fetches(w.previous), limit);
            start <= |all| && w.page == Slice(all, start, limit)
  {
    StillWalkFromRests(w, user, rows, context, limit);
    CursorsMoveOn(rows, context, limit);
    PagesAreSlices(w, Selected(rows, context, None), RestAfter(rows, context), limit);
  }

  lemma FetchesBefore(w: Walk)
    requires w.Fetch?
    ensures Fetches(w.previous) == Fetches(w) - 1
  {
  }

  lemma StillPageAt(w: Walk, user: nat, rows: seq<Message>, context: Context, limit: nat, start: nat)
    requires IsWalk(w, user, context, limit) && Still(w, rows) && w.Fetch? && 1 <= limit
    requires start == Times(Fetches(w.previous), limit)
    ensures w.page == ListHistory(rows, context, limit, None, start)
  {
    StillPageIsSlice(w, user, rows, context, limit);
    OffsetIsSlice(rows, context, limit, start);
  }

  /** On an unchanged history the page numbered p, fetched by its offset, is the p-th page of the cursor walk. */
  lemma {:induction false} PageNumberMatchesCursor(
    w: Walk, user: nat, rows: seq<Message>, context: Context, limit: nat, page: nat)
    requires IsWalk(w, user, context, limit) && Still(w, rows) && w.Fetch? && 1 <= limit
    requires page == Fetches(w)
    ensures w.page == ListHistory(rows, context, limit, None, Times(page - 1, limit))
  {
    FetchesBefore(w);
    StillPageAt(w, user, rows, context, limit, Times(page - 1, limit));
  }

  /** The same in what the service answers: for a page number, with the offset the route computes. */
  lemma {:induction false} PageByNumber(
    w: Walk, user: nat, access: Access, rows: seq<Message>, context: Context, limit: nat, page: nat, offset: nat)
    requires IsWalk(w, user, context, limit) && Still(w, rows) && w.Fetch? && 1 <= limit
    requires BelongsTo(access, user, context) && page == Fetches(w) && offset == (page - 1) * limit
    ensures var (channel, conversation) := ContextIds(context);
            ListMessages(access, rows, user, channel, conversation, limit, None, offset) == Ok(w.page)
  {
    TimesIsProduct(page - 1, limit);
    PageNumberMatchesCursor(w, user, rows, context, limit, page);
  }

  ghost predicate ReachesPage(w: Walk, user: nat, rows: seq<Message>, context: Context, limit: nat, page: nat) {
    IsWalk(w, user, context, limit) && Still(w, rows) && w.Fetch? && Fetches(w) == page
  }

  /** The page after which a walk stands promises more exactly when the history goes on. */
  lemma MoreAfterPage(w: Walk, user: nat, rows: seq<Message>, context: Context, limit: nat, page: nat)
    requires ReachesPage(w, user, rows, context, limit, page) && 1 <= limit
    ensures w.page.hasMore <==> Times(page, limit) < |FullHistory(rows, context)|
  {
    PageNumberMatchesCursor(w, user, rows, context, limit, page);
    PageShape(rows, context, limit, None, Times(page - 1, limit));
    assert Times(page, limit) == Times(page - 1, limit) + limit;
  }

  /** The row of the cursor is of the walk's own context. */
  lemma CursorContext(w: Walk, user: nat, context: Context, limit: nat, table: seq<Message>)
    requires IsWalk(w, user, context, limit) && 1 <= limit && MayFollow(w, table)
    ensures w.Fetch? ==> Cursor(w, table).Some? && Cursor(w, table).value.context == context
  {
    WalkIsPaged(w, user, context, limit);
    if w.Fetch? {
      CursorIsOldest(w, context, limit, table);
      assert w.page.items[0] in w.page.items;
    }
  }

  lemma NextPage(
    before: Walk, user: nat, access: Access, rows: seq<Message>, context: Context, limit: nat, page: nat)
    returns (w: Walk)
    requires ReachesPage(before, user, rows, context, limit, page) && before.page.hasMore && UniqueIds(rows)
    requires BelongsTo(access, user, context) && 1 <= limit
    ensures ReachesPage(w, user, rows, context, limit, page + 1)
  {
    CursorContext(before, user, context, limit, rows);
    w := Fetch(before, access, rows, ListHistory(rows, context, limit, Cursor(before, rows), 0));
  }

  ghost predicate Reached(user: nat, rows: seq<Message>, context: Context, limit: nat, page: nat) {
    exists w :: ReachesPage(w, user, rows, context, limit, page)
  }

  lemma FirstReached(user: nat, access: Access, rows: seq<Message>, context: Context, limit: nat)
    requires UniqueIds(rows) && BelongsTo(access, user, context)
    ensures Reached(user, rows, context, limit, 1)
  {
    var w := Fetch(Start, access, rows, ListHistory(rows, context, limit, None, 0));
    assert Fetches(Start) == 0 && Still(Start, rows) && IsWalk(Start, user, context, limit);
    assert ReachesPage(w, user, rows, context, limit, 1);
  }

  lemma NextReached(user: nat, access: Access, rows: seq<Message>, context: Context, limit: nat, page: nat)
    requires UniqueIds(rows) && BelongsTo(access, user, context) && 1 <= limit
    requires Reached(user, rows, context, limit, page) && Times(page, limit) < |FullHistory(rows, context)|
    ensures Reached(user, rows, context, limit, page + 1)
  {
    var before :| ReachesPage(before, user, rows, context, limit, page);
    MoreAfterPage(before, user, rows, context, limit, page);
    var w := NextPage(before, user, access, rows, context, limit, page);
  }

  lemma {:induction false} CountsUp(reached: nat -> bool, limit: nat, total: nat, page: nat)
    requires reached(1) && forall p: nat :: reached(p) && Times(p, limit) < total ==> reached(p + 1)
    requires 1 <= page && (page == 1 || Times(page - 1, limit) < total)
    ensures reached(page)
  {
    if page != 1 {
      TimesMonotone(page - 2, page - 1, limit);
      CountsUp(reached, limit, total, page - 1);
    }
  }

  lemma ReachesAll(user: nat, access: Access, rows: seq<Message>, context: Context, limit: nat, page: nat)
    requires UniqueIds(rows) && BelongsTo(access, user, context) && 1 <= limit && 1 <= page
    requires page == 1 || Times(page - 1, limit) < |FullHistory(rows, context)|
    ensures Reached(user, rows, context, limit, page)
  {
    var reached := (p: nat) => Reached(user, rows, context, limit, p);
    FirstReached(user, access, rows, context, limit);
    forall p: nat | reached(p) && Times(p, limit) < |FullHistory(rows, context)| ensures reached(p + 1) {
      NextReached(user, access, rows, context, limit, p);
    }
    CountsUp(reached, limit, |FullHistory(rows, context)|, page);
  }

  lemma PreviousReaches(w: Walk, user: nat, rows: seq<Message>, context: Context, limit: nat, page: nat)
    requires ReachesPage(w, user, rows, context, limit, page) && 2 <= page
    ensures ReachesPage(w.previous, user, rows, context, limit, page - 1) && w.previous.page.hasMore
  {
    assert Fetches(Start) == 0;
    assert Fetches(w) == Fetches(w.previous) + 1;
    assert IsWalk(w.previous, user, context, limit) && Still(w.previous, rows);
  }

  lemma ReachedIsWithin(w: Walk, user: nat, rows: seq<Message>, context: Context, limit: nat, page: nat)
    requires ReachesPage(w, user, rows, context, limit, page) && 1 <= limit && 2 <= page
    ensures Times(page - 1, limit) < |FullHistory(rows, context)|
  {
    PreviousReaches(w, user, rows, context, limit, page);
    MoreAfterPage(w.previous, user, rows, context, limit, page - 1);
  }

  lemma ReachesNoMore(user: nat, rows: seq<Message>, context: Context, limit: nat, page: nat)
    requires Reached(user, rows, context, limit, page) && 1 <= limit && 2 <= page
    ensures Times(page - 1, limit) < |FullHistory(rows, context)|
  {
    var w :| ReachesPage(w, user, rows, context, limit, page);
    ReachedIsWithin(w, user, rows, context, limit, page);
  }

  /** The cursor walk reaches the first page, every other one whose offset lies within the history, and no more. */
  lemma {:induction false} PageReachedIff(
    user: nat, access: Access, rows: seq<Message>, context: Context, limit: nat, page: nat, offset: nat)
    requires UniqueIds(rows) && BelongsTo(access, user, context) && 1 <= limit && 1 <= page
    requires offset == (page - 1) * limit
    ensures Reached(user, rows, context, limit, page) <==> page == 1 || offset < |FullHistory(rows, context)|
  {
    TimesIsProduct(page - 1, limit);
    if Reached(user, rows, context, limit, page) && page != 1 {
      ReachesNoMore(user, rows, context, limit, page);
    }
    if page == 1 || offset < |FullHistory(rows, context)| {
      ReachesAll(user, access, rows, context, limit, page);
    }
  }
}
