/**
 Who is online, and who is told: the socket table of app/presence/manager.py and the visibility
 queries of app/repositories/presence_repository.py that app/services/presence_service.py combines.
 */
module Presence {
  import opened Common
  import opened Alternation

  type UserId = nat

  type SocketId = string

  datatype State = State(
    connections: map<UserId, set<SocketId>>,
    socketUsers: map<SocketId, UserId>,
    changes: seq<Event<UserId>>)

  function SocketsOf(connections: map<UserId, set<SocketId>>, user: UserId): set<SocketId> {
    if user in connections then connections[user] else {}
  }

  function AfterRegister(s: State, user: UserId, socket: SocketId): State {
    State(
      s.connections[user := SocketsOf(s.connections, user) + {socket}],
      s.socketUsers[socket := user],
      if SocketsOf(s.connections, user) == {} then s.changes + [Event(user, true)] else s.changes)
  }

  /** Unregistering a socket whose user still has other sockets, or none on record, changes no status. */
  function AfterUnregister(s: State, socket: SocketId): State {
    if socket !in s.socketUsers then s
    else
      var user := s.socketUsers[socket];
      var left := SocketsOf(s.connections, user) - {socket};
      var remaining := s.socketUsers - {socket};
      if SocketsOf(s.connections, user) == {} then s.(socketUsers := remaining)
      else if left == {} then State(s.connections - {user}, remaining, s.changes + [Event(user, false)])
      else State(s.connections[user := left], remaining, s.changes)
  }

  class PresenceManager {
    var connections: map<UserId, set<SocketId>>
    var socketUsers: map<SocketId, UserId>
    /** The status changes reported to the callers, in the order of the lock regions. */
    ghost var changes: seq<Event<UserId>>

    ghost function View(): State
      reads this
    {
      State(connections, socketUsers, changes)
    }

    constructor ()
      ensures View() == State(map[], map[], [])
    {
      connections, socketUsers, changes := map[], map[], [];
    }

    method Register(user: UserId, socket: SocketId) returns (becameOnline: bool)
      modifies this
      ensures View() == AfterRegister(old(View()), user, socket)
      ensures becameOnline == (changes == old(changes) + [Event(user, true)])
    {
      if user !in connections {
        connections := connections[user := {}];
      }
      becameOnline := connections[user] == {};
      connections := connections[user := connections[user] + {socket}];
      socketUsers := socketUsers[socket := user];
      if becameOnline {
        changes := changes + [Event(user, true)];
      }
    }

    method Unregister(socket: SocketId) returns (user: Option<UserId>, becameOffline: bool)
      modifies this
      ensures View() == AfterUnregister(old(View()), socket)
      ensures user == if socket in old(socketUsers) then Some(old(socketUsers[socket])) else None
      ensures becameOffline == (user.Some? && changes == old(changes) + [Event(user.value, false)])
    {
      if socket !in socketUsers {
        return None, false;
      }
      var owner := socketUsers[socket];
      socketUsers := socketUsers - {socket};
      user := Some(owner);
      if owner !in connections || connections[owner] == {} {
        return user, false;
      }
      connections := connections[owner := connections[owner] - {socket}];
      becameOffline := connections[owner] == {};
      if becameOffline {
        connections := connections - {owner};
        changes := changes + [Event(owner, false)];
      }
    }

    predicate IsOnline(user: UserId)
      reads this
    {
      SocketsOf(connections, user) != {}
    }

    function GetConnectionCount(user: UserId): nat
      reads this
    {
      |SocketsOf(connections, user)|
    }

    /** Only the users with at least one socket get an entry. */
    function SocketIdsForUsers(users: set<UserId>): map<UserId, set<SocketId>>
      reads this
    {
      map user | user in users && SocketsOf(connections, user) != {} :: SocketsOf(connections, user)
    }
  }

  // --- Every run ---

  datatype Action = Register(user: UserId, socket: SocketId) | Unregister(socket: SocketId)

  function Apply(s: State, a: Action): State {
    match a
    case Register(user, socket) => AfterRegister(s, user, socket)
    case Unregister(socket) => AfterUnregister(s, socket)
  }

  function Final(s: State, run: seq<Action>): State {
    if run == [] then s else Apply(Final(s, run[..|run| - 1]), run[|run| - 1])
  }

  const NOBODY := State(map[], map[], [])

  /** Each user's changes alternate, the last one says whether there are sockets on record, and no entry is empty. */
  ghost predicate Coherent(s: State) {
    && AllAlternate(s.changes)
    && (forall user :: IsUp(s.changes, user) == (SocketsOf(s.connections, user) != {}))
    && (forall user :: user in s.connections ==> s.connections[user] != {})
  }

  lemma StepCoherent(s: State, a: Action)
    requires Coherent(s)
    ensures Coherent(Apply(s, a))
  {
    match a
    case Register(user, socket) =>
      if SocketsOf(s.connections, user) == {} { AppendFlip(s.changes, Event(user, true)); }
    case Unregister(socket) =>
      if socket in s.socketUsers {
        var user := s.socketUsers[socket];
        var sockets := SocketsOf(s.connections, user);
        if sockets != {} && sockets - {socket} == {} { AppendFlip(s.changes, Event(user, false)); }
      }
  }

  lemma {:induction false} RunCoherent(run: seq<Action>)
    ensures Coherent(Final(NOBODY, run))
  {
    if run != [] {
      RunCoherent(run[..|run| - 1]);
      StepCoherent(Final(NOBODY, run[..|run| - 1]), run[|run| - 1]);
    }
  }

  /**
   After any run, whoever registers whose sockets, each user goes online, offline, online, ..., and is_online
   answers true exactly when the last of these changes was "online".
   */
  lemma StatusesAlternate(manager: PresenceManager, run: seq<Action>)
    requires manager.View() == Final(NOBODY, run)
    ensures forall user :: Alternates(Trace(manager.changes, user))
    ensures forall user :: manager.IsOnline(user) <==> IsUp(manager.changes, user)
    ensures forall user :: user in manager.connections ==> manager.IsOnline(user)
  {
    RunCoherent(run);
  }

  // What the calls themselves tell, without the maps.

  /** Who registered the socket last, unless it was unregistered since. */
  function Owner(run: seq<Action>, socket: SocketId): Option<UserId> {
    if run == [] then None
    else
      match run[|run| - 1]
      case Register(user, registered) =>
        if registered == socket then Some(user) else Owner(run[..|run| - 1], socket)
      case Unregister(gone) => if gone == socket then None else Owner(run[..|run| - 1], socket)
  }

  /** The user registered the socket, and did not own it at any unregistering since. */
  predicate Holds(run: seq<Action>, user: UserId, socket: SocketId) {
    && run != []
    && var before := run[..|run| - 1];
       match run[|run| - 1]
       case Register(who, registered) => (who == user && registered == socket) || Holds(before, user, socket)
       case Unregister(gone) => Holds(before, user, socket) && (gone != socket || Owner(before, socket) != Some(user))
  }

  /** After any run, live sockets taken over or not, both maps hold exactly what the calls tell. */
  lemma {:induction false} SocketsExact(run: seq<Action>, user: UserId, socket: SocketId)
    ensures var s := Final(NOBODY, run);
            && (socket in SocketsOf(s.connections, user) <==> Holds(run, user, socket))
            && Owner(run, socket) == if socket in s.socketUsers then Some(s.socketUsers[socket]) else None
  {
    if run != [] {
      var before := run[..|run| - 1];
      SocketsExact(before, user, socket);
    }
  }

  // --- The two maps ---

  /** The socket is not live for somebody else. */
  predicate NotForeign(s: State, a: Action) {
    a.Register? && a.socket in s.socketUsers ==> s.socketUsers[a.socket] == a.user
  }

  predicate Agree(s: State, user: UserId, socket: SocketId) {
    socket in SocketsOf(s.connections, user) <==> socket in s.socketUsers && s.socketUsers[socket] == user
  }

  /** Each map is the inverse of the other, and no user has an empty entry. */
  ghost predicate Inverse(s: State) {
    && (forall user, socket :: Agree(s, user, socket))
    && (forall user :: user in s.connections ==> s.connections[user] != {})
  }

  /** The exact condition: from inverse maps, a call keeps them inverse unless it takes over a live socket. */
  lemma InverseKeptIff(s: State, a: Action)
    requires Inverse(s)
    ensures Inverse(Apply(s, a)) <==> NotForeign(s, a)
  {
    var s' := Apply(s, a);
    if !NotForeign(s, a) {
      var other := s.socketUsers[a.socket];
      assert Agree(s, other, a.socket);
      assert !Agree(s', other, a.socket);
    } else {
      forall user, socket ensures Agree(s', user, socket) {
        assert Agree(s, user, socket);
        assert Agree(s, user, a.socket);
      }
    }
  }

  ghost predicate AlwaysInverse(run: seq<Action>) {
    Inverse(Final(NOBODY, run)) && (run == [] || AlwaysInverse(run[..|run| - 1]))
  }

  predicate NeverForeign(run: seq<Action>) {
    run == []
    || (NeverForeign(run[..|run| - 1]) && NotForeign(Final(NOBODY, run[..|run| - 1]), run[|run| - 1]))
  }

  /** And on whole runs: the maps are inverse throughout if and only if no live socket was ever taken over. */
  lemma {:induction false} AlwaysInverseIff(run: seq<Action>)
    ensures AlwaysInverse(run) <==> NeverForeign(run)
  {
    if run != [] {
      var before := run[..|run| - 1];
      AlwaysInverseIff(before);
      if AlwaysInverse(before) {
        assert Inverse(Final(NOBODY, before));
        InverseKeptIff(Final(NOBODY, before), run[|run| - 1]);
      }
    }
  }

  // --- Connection counts ---

  /** The sum of get_connection_count over the listed users. */
  function TotalCount(manager: PresenceManager, users: seq<UserId>): nat
    reads manager
  {
    if users == [] then 0
    else TotalCount(manager, users[..|users| - 1]) + manager.GetConnectionCount(users[|users| - 1])
  }

  function LiveSockets(s: State, users: set<UserId>): set<SocketId> {
    set socket | socket in s.socketUsers && s.socketUsers[socket] in users
  }

  lemma LiveSocketsSplit(s: State, users: set<UserId>, user: UserId)
    requires Inverse(s) && user !in users
    ensures LiveSockets(s, users + {user}) == LiveSockets(s, users) + SocketsOf(s.connections, user)
    ensures LiveSockets(s, users) !! SocketsOf(s.connections, user)
  {
    forall socket ensures socket in SocketsOf(s.connections, user) <==> socket in LiveSockets(s, {user}) {
      assert Agree(s, user, socket);
    }
  }

  lemma {:induction false} CountLive(manager: PresenceManager, users: seq<UserId>)
    requires Inverse(manager.View()) && Distinct(users)
    ensures TotalCount(manager, users) == |LiveSockets(manager.View(), Elements(users))|
  {
    var s := manager.View();
    if users == [] {
      assert LiveSockets(s, Elements(users)) == {};
    } else {
      var before, user := users[..|users| - 1], users[|users| - 1];
      CountLive(manager, before);
      assert Elements(users) == Elements(before) + {user};
      assert user !in Elements(before);
      LiveSocketsSplit(s, Elements(before), user);
    }
  }

  /** However the connected users are listed, their counts add up to the number of live sockets. */
  lemma CountsAddUp(manager: PresenceManager, users: seq<UserId>)
    requires Inverse(manager.View()) && Distinct(users) && Elements(users) == manager.connections.Keys
    ensures TotalCount(manager, users) == |manager.socketUsers|
  {
    var s := manager.View();
    CountLive(manager, users);
    forall socket | socket in s.socketUsers
      ensures s.socketUsers[socket] in s.connections
    {
      assert Agree(s, s.socketUsers[socket], socket);
    }
    assert LiveSockets(s, Elements(users)) == s.socketUsers.Keys;
  }

  // --- Visibility ---

  datatype Membership = Membership(channel: nat, user: UserId)

  datatype Participant = Participant(conversation: nat, user: UserId, left: bool)

  datatype Db = Db(memberships: set<Membership>, participants: set<Participant>)

  predicate SharedChannel(db: Db, viewer: UserId, target: UserId) {
    exists v, t :: v in db.memberships && t in db.memberships && t.channel == v.channel
                && v.user == viewer && t.user == target
  }

  /** The conversations the user has not left. */
  function ActiveConversations(db: Db, user: UserId): set<nat> {
    set p | p in db.participants && p.user == user && !p.left :: p.conversation
  }

  predicate SharedConversation(db: Db, viewer: UserId, target: UserId) {
    exists p :: p in db.participants && p.conversation in ActiveConversations(db, viewer) && p.user == target && !p.left
  }

  predicate CanViewPresence(db: Db, viewer: UserId, target: UserId) {
    viewer == target || SharedChannel(db, viewer, target) || SharedConversation(db, viewer, target)
  }

  function SharedObserverIds(db: Db, target: UserId): set<UserId> {
    (set o, t | o in db.memberships && t in db.memberships && t.channel == o.channel && t.user == target :: o.user)
    + (set p | p in db.participants && p.conversation in ActiveConversations(db, target) && !p.left :: p.user)
  }

  function AllSockets(byUser: map<UserId, set<SocketId>>): set<SocketId> {
    set user, socket | user in byUser && socket in byUser[user] :: socket
  }

  predicate BothIn(db: Db, channel: nat, a: UserId, b: UserId) {
    Membership(channel, a) in db.memberships && Membership(channel, b) in db.memberships
  }

  predicate BothTalk(db: Db, conversation: nat, a: UserId, b: UserId) {
    && Participant(conversation, a, false) in db.participants
    && Participant(conversation, b, false) in db.participants
  }

  /** Users see themselves, the members of their channels and the others in conversations neither has left. */
  lemma ViewersExact(db: Db, viewer: UserId, target: UserId)
    ensures CanViewPresence(db, viewer, target)
       <==> || viewer == target
            || (exists channel :: BothIn(db, channel, viewer, target))
            || (exists conversation :: BothTalk(db, conversation, viewer, target))
  {
    if SharedChannel(db, viewer, target) {
      var v, t :| v in db.memberships && t in db.memberships && t.channel == v.channel
               && v.user == viewer && t.user == target;
      assert v == Membership(v.channel, viewer) && t == Membership(v.channel, target);
      assert BothIn(db, v.channel, viewer, target);
    }
    if channel :| BothIn(db, channel, viewer, target) {
      assert Membership(channel, viewer).user == viewer && Membership(channel, target).user == target;
      assert SharedChannel(db, viewer, target);
    }
    if SharedConversation(db, viewer, target) {
      var t :| t in db.participants && t.conversation in ActiveConversations(db, viewer) && t.user == target && !t.left;
      var v :| v in db.participants && v.user == viewer && !v.left && v.conversation == t.conversation;
      assert v == Participant(t.conversation, viewer, false) && t == Participant(t.conversation, target, false);
      assert BothTalk(db, t.conversation, viewer, target);
    }
    if conversation :| BothTalk(db, conversation, viewer, target) {
      var v, t := Participant(conversation, viewer, false), Participant(conversation, target, false);
      assert v.conversation in ActiveConversations(db, viewer) && t in db.participants;
      assert SharedConversation(db, viewer, target);
    }
  }

  lemma VisibilitySymmetric(db: Db, a: UserId, b: UserId)
    ensures CanViewPresence(db, a, b) <==> CanViewPresence(db, b, a)
  {
    SharedConversationSymmetric(db, a, b);
    SharedConversationSymmetric(db, b, a);
  }

  lemma SharedConversationSymmetric(db: Db, a: UserId, b: UserId)
    ensures SharedConversation(db, a, b) ==> SharedConversation(db, b, a)
  {
    if SharedConversation(db, a, b) {
      var p :| p in db.participants && p.conversation in ActiveConversations(db, a) && p.user == b && !p.left;
      var q :| q in db.participants && q.user == a && !q.left && q.conversation == p.conversation;
      assert p.conversation in ActiveConversations(db, b);
    }
  }

  /** The one query that collects observers agrees with the other that decides a single pair. */
  lemma ObserversAreViewers(db: Db, target: UserId, viewer: UserId)
    ensures viewer in SharedObserverIds(db, target) + {target} <==> CanViewPresence(db, viewer, target)
  {
    SharedConversationSymmetric(db, viewer, target);
    SharedConversationSymmetric(db, target, viewer);
    if SharedChannel(db, viewer, target) {
      var v, t :| v in db.memberships && t in db.memberships && t.channel == v.channel
               && v.user == viewer && t.user == target;
      assert v.user in SharedObserverIds(db, target);
    }
  }

  /** A change is delivered on exactly the live sockets of the users allowed to see it. */
  lemma RecipientsExact(manager: PresenceManager, db: Db, target: UserId, socket: SocketId)
    requires Inverse(manager.View())
    ensures socket in AllSockets(manager.SocketIdsForUsers(SharedObserverIds(db, target) + {target}))
       <==> socket in manager.socketUsers && CanViewPresence(db, manager.socketUsers[socket], target)
  {
    var s := manager.View();
    var byUser := manager.SocketIdsForUsers(SharedObserverIds(db, target) + {target});
    if socket in manager.socketUsers {
      var user := manager.socketUsers[socket];
      ObserversAreViewers(db, target, user);
      assert Agree(s, user, socket);
      assert user in byUser <==> user in SharedObserverIds(db, target) + {target};
    }
    if socket in AllSockets(byUser) {
      var user :| user in byUser && socket in byUser[user];
      assert Agree(s, user, socket);
      ObserversAreViewers(db, target, user);
    }
  }

  /** The sockets a status change of the user is sent to. */
  method RecipientSocketIds(manager: PresenceManager, db: Db, user: UserId) returns (sockets: set<SocketId>)
    ensures Inverse(manager.View()) ==>
              forall socket :: socket in sockets
                <==> socket in manager.socketUsers && CanViewPresence(db, manager.socketUsers[socket], user)
  {
    var candidates := SharedObserverIds(db, user);
    candidates := candidates + {user};
    var byUser := manager.SocketIdsForUsers(candidates);
    sockets := set u, socket | u in byUser && socket in byUser[u] :: socket;
    if Inverse(manager.View()) {
      forall socket
        ensures socket in sockets
           <==> socket in manager.socketUsers && CanViewPresence(db, manager.socketUsers[socket], user)
      {
        RecipientsExact(manager, db, user, socket);
      }
    }
  }
}
