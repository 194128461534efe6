/**
 Channels and their memberships: app/services/channel_service.py, app/services/membership_service.py and
 the moderator's removal of app/services/moderation_service.py, under app/permissions/channel_permissions.py.
 */
module Channels {
  import opened Common

  datatype Role = Member | Admin | Owner

  function Level(role: Role): nat {
    match role
    case Member => 1
    case Admin => 2
    case Owner => 3
  }

  datatype Channel = Channel(owner: nat, isPrivate: bool)

  datatype Membership = Membership(channel: nat, user: nat, role: Role)

  datatype Tables = Tables(channels: map<nat, Channel>, rows: seq<Membership>, users: set<nat>)

  datatype Error =
    | ChannelNotFound | AccessDenied | UpdateForbidden | DeleteForbidden | AlreadyMember | OwnerCannotLeave
    | MembershipForbidden | MembershipNotFound | UserNotFound | TargetNotFound | PermissionDenied | TargetProtected
    | CommitFailed

  // --- Queries and permissions ---

  predicate IsRow(m: Membership, channel: nat, user: nat) {
    m.channel == channel && m.user == user
  }

  function GetMembership(rows: seq<Membership>, channel: nat, user: nat): Option<Membership> {
    if rows == [] then None
    else if IsRow(rows[|rows| - 1], channel, user) then Some(rows[|rows| - 1])
    else GetMembership(rows[..|rows| - 1], channel, user)
  }

  predicate HasRole(membership: Option<Membership>, required: Role) {
    membership.Some? && Level(required) <= Level(membership.value.role)
  }

  predicate CanView(channel: Channel, membership: Option<Membership>) {
    !channel.isPrivate || membership.Some?
  }

  predicate CanManageMember(actor: Option<Membership>, target: Option<Membership>) {
    HasRole(actor, Admin) && (target.None? || target.value.role != Owner)
  }

  // --- What an operation decides, and what it then writes ---

  datatype Operation =
    | Update(channel: nat, actor: nat, isPrivate: Option<bool>)
    | Delete(channel: nat, actor: nat)
    | Join(channel: nat, user: nat)
    | Leave(channel: nat, user: nat)
    | Add(channel: nat, actor: nat, user: nat)
    | Remove(channel: nat, actor: nat, user: nat)
    | ChangeRole(channel: nat, actor: nat, user: nat, role: Role)
    | Moderate(channel: nat, permitted: bool, user: nat)

  datatype Write =
    | SetPrivacy(channel: nat, isPrivate: Option<bool>)
    | DropChannel(channel: nat)
    | InsertMember(channel: nat, user: nat, invited: bool)
    | DropMember(channel: nat, user: nat)
    | SetRole(channel: nat, user: nat, role: Role)

  /** The checks of an operation, on the tables it reads. */
  function Check(t: Tables, op: Operation): Result<Write, Error> {
    if op.channel !in t.channels then Err(if op.Moderate? then TargetNotFound else ChannelNotFound)
    else
      var channel := t.channels[op.channel];
      match op
      case Update(id, actor, isPrivate) =>
        var membership := GetMembership(t.rows, id, actor);
        if !CanView(channel, membership) then Err(ChannelNotFound)
        else if !HasRole(membership, Admin) then Err(UpdateForbidden)
        else if isPrivate.Some? && membership.value.role != Owner then Err(UpdateForbidden)
        else Ok(SetPrivacy(id, isPrivate))
      case Delete(id, actor) =>
        var membership := GetMembership(t.rows, id, actor);
        if !CanView(channel, membership) then Err(ChannelNotFound)
        else if !HasRole(membership, Owner) then Err(DeleteForbidden)
        else Ok(DropChannel(id))
      case Join(id, user) =>
        if channel.isPrivate then Err(AccessDenied)
        else if GetMembership(t.rows, id, user).Some? then Err(AlreadyMember)
        else Ok(InsertMember(id, user, false))
      case Leave(id, user) =>
        var membership := GetMembership(t.rows, id, user);
        if membership.None? then Err(AccessDenied)
        else if membership.value.role == Owner then Err(OwnerCannotLeave)
        else Ok(DropMember(id, user))
      case Add(id, actor, user) =>
        var membership := GetMembership(t.rows, id, actor);
        if membership.None? then Err(AccessDenied)
        else if !CanManageMember(membership, None) then Err(MembershipForbidden)
        else if user !in t.users then Err(UserNotFound)
        else if GetMembership(t.rows, id, user).Some? then Err(AlreadyMember)
        else Ok(InsertMember(id, user, true))
      case Remove(id, actor, user) =>
        var membership, target := GetMembership(t.rows, id, actor), GetMembership(t.rows, id, user);
        if membership.None? then Err(AccessDenied)
        else if target.None? then Err(MembershipNotFound)
        else if !CanManageMember(membership, target) then Err(MembershipForbidden)
        else Ok(DropMember(id, user))
      case ChangeRole(id, actor, user, role) =>
        var membership, target := GetMembership(t.rows, id, actor), GetMembership(t.rows, id, user);
        if membership.None? then Err(AccessDenied)
        else if target.None? then Err(MembershipNotFound)
        else if !HasRole(membership, Owner) || target.value.role == Owner then Err(MembershipForbidden)
        else Ok(SetRole(id, user, role))
      case Moderate(id, permitted, user) =>
        var target := GetMembership(t.rows, id, user);
        if target.None? then Err(TargetNotFound)
        else if !permitted then Err(PermissionDenied)
        else if target.value.role == Owner then Err(TargetProtected)
        else Ok(DropMember(id, user))
  }

  function OutsideChannel(channel: nat): Membership -> bool {
    (m: Membership) => m.channel != channel
  }

  function OtherRow(channel: nat, user: nat): Membership -> bool {
    (m: Membership) => !IsRow(m, channel, user)
  }

  function WithRole(rows: seq<Membership>, channel: nat, user: nat, role: Role): (r: seq<Membership>)
    ensures |r| == |rows|
    ensures forall i :: 0 <= i < |r| ==>
        r[i] == if IsRow(rows[i], channel, user) then rows[i].(role := role) else rows[i]
  {
    seq(|rows|, i requires 0 <= i < |rows| => if IsRow(rows[i], channel, user) then rows[i].(role := role) else rows[i])
  }

  /**
   The transaction, on the tables as they are by then. The unique constraint on (channel, user) and the
   reference to the channel can refuse an insertion; deleting a channel takes its memberships along.
   */
  function Commit(t: Tables, w: Write): Result<Tables, Error> {
    if w.channel !in t.channels then Err(if w.InsertMember? then AlreadyMember else CommitFailed)
    else
      match w
      case SetPrivacy(id, isPrivate) =>
        if isPrivate.None? then Ok(t)
        else Ok(t.(channels := t.channels[id := t.channels[id].(isPrivate := isPrivate.value)]))
      case DropChannel(id) => Ok(t.(channels := t.channels - {id}, rows := Filter(t.rows, OutsideChannel(id))))
      case InsertMember(id, user, _) =>
        if GetMembership(t.rows, id, user).Some? then Err(AlreadyMember)
        else Ok(t.(rows := t.rows + [Membership(id, user, Member)]))
      case DropMember(id, user) => Ok(t.(rows := Filter(t.rows, OtherRow(id, user))))
      case SetRole(id, user, role) => Ok(t.(rows := WithRole(t.rows, id, user, role)))
  }

  /** A call that nobody interrupts. */
  function Perform(t: Tables, op: Operation): Result<Tables, Error> {
    match Check(t, op)
    case Err(e) => Err(e)
    case Ok(w) => Commit(t, w)
  }

  function Opened(t: Tables, channel: nat, user: nat, isPrivate: bool): Tables {
    t.(channels := t.channels[channel := Channel(user, isPrivate)], rows := t.rows + [Membership(channel, user, Owner)])
  }

  ghost predicate Performed(before: Tables, op: Operation, after: Tables, failure: Option<Error>) {
    match Perform(before, op)
    case Ok(t) => after == t && failure == None
    case Err(e) => after == before && failure == Some(e)
  }

  class ChannelService {
    var channels: map<nat, Channel>
    var rows: seq<Membership>
    var users: set<nat>

    ghost function View(): Tables
      reads this
    {
      Tables(channels, rows, users)
    }

    constructor (users: set<nat>)
      ensures View() == Tables(map[], [], users)
    {
      channels, rows, this.users := map[], [], users;
    }

    method GetChannelForUser(id: nat, user: nat) returns (result: Result<(Channel, Option<Membership>), Error>)
      ensures result.Ok? <==> id in channels && CanView(channels[id], GetMembership(rows, id, user))
      ensures result.Ok? ==> result.value == (channels[id], GetMembership(rows, id, user))
      ensures result.Err? ==> result.error == ChannelNotFound
    {
      if id !in channels {
        return Err(ChannelNotFound);
      }
      var membership := GetMembership(rows, id, user);
      if channels[id].isPrivate && membership.None? {
        return Err(ChannelNotFound);
      }
      return Ok((channels[id], membership));
    }

    /** The channel and its owner's membership are written together; the identifier is new. */
    method CreateChannel(id: nat, user: nat, isPrivate: bool)
      requires id !in channels
      modifies this
      ensures View() == Opened(old(View()), id, user, isPrivate)
      ensures channels == old(channels)[id := Channel(user, isPrivate)]
      ensures rows == old(rows) + [Membership(id, user, Owner)] && users == old(users)
    {
      channels := channels[id := Channel(user, isPrivate)];
      rows := rows + [Membership(id, user, Owner)];
    }

    method UpdateChannel(id: nat, actor: nat, isPrivate: Option<bool>) returns (failure: Option<Error>)
      modifies this
      ensures Performed(old(View()), Update(id, actor, isPrivate), View(), failure)
    {
      var found := GetChannelForUser(id, actor);
      if found.Err? {
        return Some(found.error);
      }
      var (channel, membership) := found.value;
      if !HasRole(membership, Admin) {
        return Some(UpdateForbidden);
      }
      if isPrivate.Some? && membership.value.role != Owner {
        return Some(UpdateForbidden);
      }
      if isPrivate.Some? {
        channels := channels[id := channel.(isPrivate := isPrivate.value)];
      }
      return None;
    }

    /** Messages and moderation records that refer to the channel make the database refuse. */
    method DeleteChannel(id: nat, actor: nat, referenced: bool) returns (failure: Option<Error>)
      modifies this
      ensures referenced ==> View() == old(View())
      ensures referenced ==> failure == Some(if Check(old(View()), Delete(id, actor)).Err?
                                             then Check(old(View()), Delete(id, actor)).error else CommitFailed)
      ensures !referenced ==> Performed(old(View()), Delete(id, actor), View(), failure)
    {
      var found := GetChannelForUser(id, actor);
      if found.Err? {
        return Some(found.error);
      }
      var (_, membership) := found.value;
      if !HasRole(membership, Owner) {
        return Some(DeleteForbidden);
      }
      if referenced {
        return Some(CommitFailed);
      }
      channels := channels - {id};
      rows := Filter(rows, OutsideChannel(id));
      return None;
    }

    method JoinPublic(id: nat, user: nat) returns (failure: Option<Error>)
      modifies this
      ensures Performed(old(View()), Join(id, user), View(), failure)
    {
      if id !in channels {
        return Some(ChannelNotFound);
      }
      if channels[id].isPrivate {
        return Some(AccessDenied);
      }
      if GetMembership(rows, id, user).Some? {
        return Some(AlreadyMember);
      }
      rows := rows + [Membership(id, user, Member)];
      return None;
    }

    method LeaveChannel(id: nat, user: nat) returns (failure: Option<Error>)
      modifies this
      ensures Performed(old(View()), Leave(id, user), View(), failure)
    {
      if id !in channels {
        return Some(ChannelNotFound);
      }
      var membership := GetMembership(rows, id, user);
      if membership.None? {
        return Some(AccessDenied);
      }
      if membership.value.role == Owner {
        return Some(OwnerCannotLeave);
      }
      rows := Filter(rows, OtherRow(id, user));
      return None;
    }

    method AddMember(id: nat, actor: nat, user: nat) returns (failure: Option<Error>)
      modifies this
      ensures Performed(old(View()), Add(id, actor, user), View(), failure)
    {
      if id !in channels {
        return Some(ChannelNotFound);
      }
      var membership := GetMembership(rows, id, actor);
      if membership.None? {
        return Some(AccessDenied);
      }
      if !CanManageMember(membership, None) {
        return Some(MembershipForbidden);
      }
      if user !in users {
        return Some(UserNotFound);
      }
      if GetMembership(rows, id, user).Some? {
        return Some(AlreadyMember);
      }
      rows := rows + [Membership(id, user, Member)];
      return None;
    }

    method RemoveMember(id: nat, actor: nat, user: nat) returns (failure: Option<Error>)
      modifies this
      ensures Performed(old(View()), Remove(id, actor, user), View(), failure)
    {
      if id !in channels {
        return Some(ChannelNotFound);
      }
      var membership := GetMembership(rows, id, actor);
      if membership.None? {
        return Some(AccessDenied);
      }
      var target := GetMembership(rows, id, user);
      if target.None? {
        return Some(MembershipNotFound);
      }
      if !CanManageMember(membership, target) {
        return Some(MembershipForbidden);
      }
      rows := Filter(rows, OtherRow(id, user));
      return None;
    }

    method ChangeMemberRole(id: nat, actor: nat, user: nat, role: Role) returns (failure: Option<Error>)
      modifies this
      ensures Performed(old(View()), ChangeRole(id, actor, user, role), View(), failure)
    {
      if id !in channels {
        return Some(ChannelNotFound);
      }
      var membership := GetMembership(rows, id, actor);
      if membership.None? {
        return Some(AccessDenied);
      }
      var target := GetMembership(rows, id, user);
      if target.None? {
        return Some(MembershipNotFound);
      }
      if !HasRole(membership, Owner) || target.value.role == Owner {
        return Some(MembershipForbidden);
      }
      rows := WithRole(rows, id, user, role);
      return None;
    }
  }

  // --- The invariant ---

  predicate UniqueMembers(rows: seq<Membership>) {
    forall i, j :: 0 <= i < j < |rows| ==> !IsRow(rows[i], rows[j].channel, rows[j].user)
  }

  predicate HasOwner(t: Tables, channel: nat)
    requires channel in t.channels
  {
    Membership(channel, t.channels[channel].owner, Owner) in t.rows
  }

  predicate RightfulRow(t: Tables, m: Membership) {
    m.channel in t.channels && (m.role == Owner ==> m.user == t.channels[m.channel].owner)
  }

  ghost predicate Sound(t: Tables) {
    && UniqueMembers(t.rows)
    && (forall i :: 0 <= i < |t.rows| ==> RightfulRow(t, t.rows[i]))
    && (forall c :: c in t.channels ==> HasOwner(t, c))
  }

  lemma {:induction false} MembershipFound(rows: seq<Membership>, channel: nat, user: nat)
    ensures var found := GetMembership(rows, channel, user);
            && (found.Some? ==> found.value in rows && IsRow(found.value, channel, user))
            && (found.None? ==> forall i :: 0 <= i < |rows| ==> !IsRow(rows[i], channel, user))
  {
    if rows != [] {
      MembershipFound(rows[..|rows| - 1], channel, user);
      assert rows == rows[..|rows| - 1] + [rows[|rows| - 1]];
    }
  }

  /** Among unique rows the one with a given channel and user is the one the query returns. */
  lemma {:induction false} OnlyMembership(rows: seq<Membership>, m: Membership)
    requires UniqueMembers(rows) && m in rows
    ensures GetMembership(rows, m.channel, m.user) == Some(m)
  {
    var front, last := rows[..|rows| - 1], rows[|rows| - 1];
    assert rows == front + [last];
    if IsRow(last, m.channel, m.user) {
      forall i | 0 <= i < |front| ensures front[i] != m {
        assert !IsRow(rows[i], last.channel, last.user);
      }
    } else {
      OnlyMembership(front, m);
    }
  }

  lemma {:induction false} FilterKeepsUnique(rows: seq<Membership>, keep: Membership -> bool)
    requires UniqueMembers(rows)
    ensures UniqueMembers(Filter(rows, keep))
  {
    if rows != [] {
      var front, last := rows[..|rows| - 1], rows[|rows| - 1];
      FilterKeepsUnique(front, keep);
      var kept := Filter(front, keep);
      forall i | 0 <= i < |kept| ensures !IsRow(kept[i], last.channel, last.user) {
        FilterMember(front, keep, kept[i]);
        var j :| 0 <= j < |front| && front[j] == kept[i];
        assert rows[j] == kept[i];
      }
    }
  }

  /** A write that cannot hurt the owner of its channel, however late it is committed. */
  predicate Harmless(t: Tables, w: Write) {
    w.channel in t.channels ==>
      && (w.InsertMember? || w.DropMember? ==> w.user != t.channels[w.channel].owner)
      && (w.SetRole? ==> w.user != t.channels[w.channel].owner && w.role != Owner)
  }

  predicate Accepted(op: Operation) {
    op.ChangeRole? ==> op.role != Owner
  }

  lemma CheckIsHarmless(t: Tables, op: Operation)
    requires Sound(t) && Accepted(op)
    ensures Check(t, op).Ok? ==> Check(t, op).value.channel in t.channels && Harmless(t, Check(t, op).value)
  {
    if Check(t, op).Ok? && !op.Update? && !op.Delete? {
      assert HasOwner(t, op.channel);
      OnlyMembership(t.rows, Membership(op.channel, t.channels[op.channel].owner, Owner));
    }
  }

  lemma KeptRow(t: Tables, keep: Membership -> bool, m: Membership)
    ensures m in Filter(t.rows, keep) <==> m in t.rows && keep(m)
  {
    FilterMember(t.rows, keep, m);
  }

  lemma DroppingSound(t: Tables, t': Tables, keep: Membership -> bool)
    requires Sound(t) && t'.rows == Filter(t.rows, keep)
    requires forall m :: m in t.rows && keep(m) ==> m.channel in t'.channels
    requires forall c :: c in t'.channels ==>
               c in t.channels && t'.channels[c] == t.channels[c] && keep(Membership(c, t.channels[c].owner, Owner))
    ensures Sound(t')
  {
    FilterKeepsUnique(t.rows, keep);
    forall i | 0 <= i < |t'.rows| ensures RightfulRow(t', t'.rows[i]) {
      KeptRow(t, keep, t'.rows[i]);
      var j :| 0 <= j < |t.rows| && t.rows[j] == t'.rows[i];
      assert RightfulRow(t, t.rows[j]);
    }
    forall c | c in t'.channels ensures HasOwner(t', c) {
      assert HasOwner(t, c);
      KeptRow(t, keep, Membership(c, t.channels[c].owner, Owner));
    }
  }

  lemma CommitSound(t: Tables, w: Write)
    requires Sound(t) && Harmless(t, w)
    ensures Commit(t, w).Ok? ==> Sound(Commit(t, w).value)
  {
    if Commit(t, w).Ok? {
      var t' := Commit(t, w).value;
      match w
      case SetPrivacy(id, isPrivate) => SettingSound(t, t');
      case DropChannel(id) => DroppingSound(t, t', OutsideChannel(id));
      case InsertMember(id, user, _) =>
        MembershipFound(t.rows, id, user);
        InsertingSound(t, Membership(id, user, Member), t');
      case DropMember(id, user) =>
        forall m | m in t.rows ensures m.channel in t'.channels {
          var j :| 0 <= j < |t.rows| && t.rows[j] == m;
          assert RightfulRow(t, t.rows[j]);
        }
        DroppingSound(t, t', OtherRow(id, user));
      case SetRole(id, user, role) => RoleSound(t, id, user, role, t');
    }
  }

  lemma SettingSound(t: Tables, t': Tables)
    requires Sound(t) && t'.rows == t.rows && t'.channels.Keys == t.channels.Keys
    requires forall c :: c in t.channels ==> t'.channels[c].owner == t.channels[c].owner
    ensures Sound(t')
  {
    forall i | 0 <= i < |t'.rows| ensures RightfulRow(t', t'.rows[i]) {
      assert RightfulRow(t, t.rows[i]);
    }
    forall c | c in t'.channels ensures HasOwner(t', c) {
      assert HasOwner(t, c);
    }
  }

  lemma InsertingSound(t: Tables, m: Membership, t': Tables)
    requires Sound(t) && t'.rows == t.rows + [m]
    requires forall i :: 0 <= i < |t.rows| ==> !IsRow(t.rows[i], m.channel, m.user)
    requires forall c :: c in t.channels ==> c in t'.channels && t'.channels[c] == t.channels[c]
    requires RightfulRow(t', m)
    requires forall c :: c in t'.channels && c !in t.channels ==> m == Membership(c, t'.channels[c].owner, Owner)
    ensures Sound(t')
  {
    forall i | 0 <= i < |t'.rows| ensures RightfulRow(t', t'.rows[i]) {
      if i < |t.rows| {
        assert t'.rows[i] == t.rows[i] && RightfulRow(t, t.rows[i]);
      }
    }
    forall c | c in t'.channels ensures HasOwner(t', c) {
      assert c in t.channels ==> HasOwner(t, c);
      assert t'.rows[|t.rows|] == m;
    }
  }

  lemma RoleSound(t: Tables, id: nat, user: nat, role: Role, t': Tables)
    requires Sound(t) && id in t.channels && user != t.channels[id].owner && role != Owner
    requires t' == t.(rows := WithRole(t.rows, id, user, role))
    ensures Sound(t')
  {
    forall i, j | 0 <= i < j < |t'.rows| ensures !IsRow(t'.rows[i], t'.rows[j].channel, t'.rows[j].user) {
      assert !IsRow(t.rows[i], t.rows[j].channel, t.rows[j].user);
    }
    forall i | 0 <= i < |t'.rows| ensures RightfulRow(t', t'.rows[i]) {
      assert RightfulRow(t, t.rows[i]);
    }
    forall c | c in t'.channels ensures HasOwner(t', c) {
      assert HasOwner(t, c);
      var i :| 0 <= i < |t.rows| && t.rows[i] == Membership(c, t.channels[c].owner, Owner);
      assert t'.rows[i] == t.rows[i];
    }
  }

  lemma SecondOwnerUnsound(t: Tables, channel: nat, actor: nat, user: nat)
    requires Sound(t) && Check(t, ChangeRole(channel, actor, user, Owner)).Ok?
    ensures !Sound(t.(rows := WithRole(t.rows, channel, user, Owner)))
  {
    var t' := t.(rows := WithRole(t.rows, channel, user, Owner));
    CheckIsHarmless(t, ChangeRole(channel, actor, user, Member));
    MembershipFound(t.rows, channel, user);
    var i :| 0 <= i < |t.rows| && IsRow(t.rows[i], channel, user);
    assert !RightfulRow(t', t'.rows[i]);
  }

  lemma ChangeRoleWrites(t: Tables, channel: nat, actor: nat, user: nat, role: Role)
    requires Check(t, ChangeRole(channel, actor, user, role)).Ok?
    ensures Perform(t, ChangeRole(channel, actor, user, role)) == Ok(t.(rows := WithRole(t.rows, channel, user, role)))
  {
  }

  lemma OtherRoleSound(t: Tables, channel: nat, actor: nat, user: nat, role: Role)
    requires Sound(t) && Check(t, ChangeRole(channel, actor, user, role)).Ok? && role != Owner
    ensures Sound(t.(rows := WithRole(t.rows, channel, user, role)))
  {
    CheckIsHarmless(t, ChangeRole(channel, actor, user, role));
    RoleSound(t, channel, user, role, t.(rows := WithRole(t.rows, channel, user, role)));
  }

  /** The invariant survives a role change exactly when the new role is not that of an owner. */
  lemma ChangeRoleSoundIff(t: Tables, channel: nat, actor: nat, user: nat, role: Role)
    requires Sound(t) && Perform(t, ChangeRole(channel, actor, user, role)).Ok?
    ensures Sound(Perform(t, ChangeRole(channel, actor, user, role)).value) <==> role != Owner
  {
    ChangeRoleWrites(t, channel, actor, user, role);
    if role != Owner {
      OtherRoleSound(t, channel, actor, user, role);
    } else {
      SecondOwnerUnsound(t, channel, actor, user);
    }
  }

  // --- Every interleaving ---

  /** Requests that have been checked and not yet committed, and the channel identifiers handed out so far. */
  datatype State = State(tables: Tables, pending: seq<Write>, issued: set<nat>)

  datatype Action =
    | Create(channel: nat, user: nat, isPrivate: bool)
    | Request(op: Operation)
    | Finish(index: nat, committed: bool)

  function Next(s: State, action: Action): State {
    match action
    case Create(channel, user, isPrivate) =>
      if channel in s.issued then s
      else s.(tables := Opened(s.tables, channel, user, isPrivate), issued := s.issued + {channel})
    case Request(op) =>
      var checked := Check(s.tables, op);
      if checked.Ok? then s.(pending := s.pending + [checked.value]) else s
    case Finish(index, committed) =>
      if |s.pending| <= index then s
      else
        var after := Commit(s.tables, s.pending[index]);
        s.(pending := s.pending[..index] + s.pending[index + 1..],
           tables := if committed && after.Ok? then after.value else s.tables)
  }

  datatype Run = Initially(users: set<nat>) | Then(before: Run, action: Action)

  function Final(run: Run): State {
    match run
    case Initially(users) => State(Tables(map[], [], users), [], {})
    case Then(before, action) => Next(Final(before), action)
  }

  /** The route accepts only the roles of admin and member. */
  predicate IsRun(run: Run) {
    run.Then? ==> IsRun(run.before) && (run.action.Request? ==> Accepted(run.action.op))
  }

  ghost predicate Invariant(s: State) {
    && Sound(s.tables)
    && s.tables.channels.Keys <= s.issued
    && forall i :: 0 <= i < |s.pending| ==> s.pending[i].channel in s.issued && Harmless(s.tables, s.pending[i])
  }

  lemma CreateKeeps(s: State, action: Action)
    requires Invariant(s) && action.Create?
    ensures Invariant(Next(s, action))
  {
    if action.channel !in s.issued {
      var t := s.tables;
      var m := Membership(action.channel, action.user, Owner);
      forall i | 0 <= i < |t.rows| ensures !IsRow(t.rows[i], m.channel, m.user) {
        assert RightfulRow(t, t.rows[i]);
      }
      InsertingSound(t, m, Next(s, action).tables);
      forall i | 0 <= i < |s.pending| ensures Harmless(Next(s, action).tables, s.pending[i]) {
        assert s.pending[i].channel in s.issued && Harmless(t, s.pending[i]);
      }
    }
  }

  lemma RequestKeeps(s: State, action: Action)
    requires Invariant(s) && action.Request? && Accepted(action.op)
    ensures Invariant(Next(s, action))
  {
    CheckIsHarmless(s.tables, action.op);
  }

  lemma CommitKeepsOwners(t: Tables, w: Write)
    requires Commit(t, w).Ok?
    ensures var t' := Commit(t, w).value;
            forall c :: c in t'.channels ==> c in t.channels && t'.channels[c].owner == t.channels[c].owner
  {
  }

  lemma FinishKeeps(s: State, action: Action)
    requires Invariant(s) && action.Finish?
    ensures Invariant(Next(s, action))
  {
    if action.index < |s.pending| {
      var s', w := Next(s, action), s.pending[action.index];
      if s'.tables != s.tables {
        CommitSound(s.tables, w);
        CommitKeepsOwners(s.tables, w);
      }
      forall i | 0 <= i < |s'.pending| ensures s'.pending[i].channel in s.issued && Harmless(s'.tables, s'.pending[i]) {
        var j := if i < action.index then i else i + 1;
        assert s'.pending[i] == s.pending[j];
        assert Harmless(s.tables, s.pending[j]);
      }
    }
  }

  lemma {:induction false} RunInvariant(run: Run)
    requires IsRun(run)
    ensures Invariant(Final(run))
  {
    if run.Then? {
      RunInvariant(run.before);
      match run.action
      case Create(_, _, _) => CreateKeeps(Final(run.before), run.action);
      case Request(_) => RequestKeeps(Final(run.before), run.action);
      case Finish(_, _) => FinishKeeps(Final(run.before), run.action);
    }
  }

  function OwnerRows(channel: nat): Membership -> bool {
    (m: Membership) => m.channel == channel && m.role == Owner
  }

  lemma {:induction false} OneAmongUnique(rows: seq<Membership>, p: Membership -> bool, m: Membership)
    requires forall i, j :: 0 <= i < j < |rows| ==> rows[i] != rows[j]
    requires m in rows && p(m) && forall i :: 0 <= i < |rows| && p(rows[i]) ==> rows[i] == m
    ensures Filter(rows, p) == [m]
  {
    var front, last := rows[..|rows| - 1], rows[|rows| - 1];
    assert rows == front + [last];
    if last == m {
      NoneAmong(front, p);
    } else {
      OneAmongUnique(front, p, m);
    }
  }

  lemma {:induction false} NoneAmong(rows: seq<Membership>, p: Membership -> bool)
    requires forall i :: 0 <= i < |rows| ==> !p(rows[i])
    ensures Filter(rows, p) == []
  {
    if rows != [] {
      NoneAmong(rows[..|rows| - 1], p);
    }
  }

  /**
   In every interleaving of the checks and commits of any number of requests, failed commits included, each
   channel has exactly one owner membership, its owner's, and no user has two memberships in one channel.
   */
  lemma {:induction false} OneOwner(run: Run)
    requires IsRun(run)
    ensures var t := Final(run).tables;
            && UniqueMembers(t.rows)
            && (forall c :: c in t.channels ==>
              Filter(t.rows, OwnerRows(c)) == [Membership(c, t.channels[c].owner, Owner)])
            && (forall m :: m in t.rows ==> m.channel in t.channels)
  {
    RunInvariant(run);
    var t := Final(run).tables;
    forall c | c in t.channels ensures Filter(t.rows, OwnerRows(c)) == [Membership(c, t.channels[c].owner, Owner)] {
      OwnerRowIsOnly(t, c);
    }
    forall m | m in t.rows ensures m.channel in t.channels {
      var i :| 0 <= i < |t.rows| && t.rows[i] == m;
      assert RightfulRow(t, t.rows[i]);
    }
  }

  lemma OwnerRowIsOnly(t: Tables, c: nat)
    requires Sound(t) && c in t.channels
    ensures Filter(t.rows, OwnerRows(c)) == [Membership(c, t.channels[c].owner, Owner)]
  {
    assert HasOwner(t, c);
    forall i | 0 <= i < |t.rows| && OwnerRows(c)(t.rows[i])
      ensures t.rows[i] == Membership(c, t.channels[c].owner, Owner)
    {
      assert RightfulRow(t, t.rows[i]);
    }
    forall i, j | 0 <= i < j < |t.rows| ensures t.rows[i] != t.rows[j] {
      assert !IsRow(t.rows[i], t.rows[j].channel, t.rows[j].user);
    }
    OneAmongUnique(t.rows, OwnerRows(c), Membership(c, t.channels[c].owner, Owner));
  }

  /** Ownership never moves: whoever created a channel owns it and stays in it for as long as it exists. */
  lemma {:induction false} OwnerNeverChanges(run: Run, channel: nat, user: nat, isPrivate: bool, later: Run)
    requires IsRun(later) && Follows(Then(run, Create(channel, user, isPrivate)), later)
    requires channel !in Final(run).issued && channel in Final(later).tables.channels
    ensures Final(later).tables.channels[channel].owner == user
    ensures Membership(channel, user, Owner) in Final(later).tables.rows
  {
    OwnerKept(run, channel, user, isPrivate, later);
    RunInvariant(later);
    assert HasOwner(Final(later).tables, channel);
  }

  predicate Follows(base: Run, run: Run) {
    run == base || (run.Then? && Follows(base, run.before))
  }

  lemma {:induction false} OwnerKept(run: Run, channel: nat, user: nat, isPrivate: bool, later: Run)
    requires Follows(Then(run, Create(channel, user, isPrivate)), later) && channel !in Final(run).issued
    ensures channel in Final(later).issued
    ensures channel in Final(later).tables.channels ==> Final(later).tables.channels[channel].owner == user
  {
    if later != Then(run, Create(channel, user, isPrivate)) {
      OwnerKept(run, channel, user, isPrivate, later.before);
      var s, action := Final(later.before), later.action;
      if action.Finish? && action.index < |s.pending| && Commit(s.tables, s.pending[action.index]).Ok? {
        CommitKeepsOwners(s.tables, s.pending[action.index]);
      }
    }
  }

  // --- What each operation needs, role by role ---

  predicate Owns(t: Tables, channel: nat, user: nat) {
    Membership(channel, user, Owner) in t.rows
  }

  predicate Manages(t: Tables, channel: nat, user: nat) {
    Membership(channel, user, Admin) in t.rows || Membership(channel, user, Owner) in t.rows
  }

  predicate Belongs(t: Tables, channel: nat, user: nat) {
    Membership(channel, user, Member) in t.rows || Manages(t, channel, user)
  }

  lemma RowBelongs(t: Tables, m: Membership)
    requires m in t.rows
    ensures Belongs(t, m.channel, m.user)
  {
    match m.role
    case Member => assert m == Membership(m.channel, m.user, Member);
    case Admin => assert m == Membership(m.channel, m.user, Admin);
    case Owner => assert m == Membership(m.channel, m.user, Owner);
  }

  lemma RowOf(t: Tables, channel: nat, user: nat) returns (m: Membership)
    requires Belongs(t, channel, user)
    ensures m in t.rows && IsRow(m, channel, user)
  {
    var role :| Membership(channel, user, role) in t.rows;
    m := Membership(channel, user, role);
  }

  /** What the query says of a user, in terms of the rows there are. */
  lemma RolesRead(t: Tables, channel: nat, user: nat)
    requires UniqueMembers(t.rows)
    ensures var found := GetMembership(t.rows, channel, user);
            && (found.Some? <==> Belongs(t, channel, user))
            && (HasRole(found, Admin) <==> Manages(t, channel, user))
            && (HasRole(found, Owner) <==> Owns(t, channel, user))
            && (found.Some? && found.value.role == Owner <==> Owns(t, channel, user))
  {
    MembershipFound(t.rows, channel, user);
    var found := GetMembership(t.rows, channel, user);
    if found.Some? {
      assert found.value == Membership(channel, user, found.value.role);
      RowBelongs(t, found.value);
    }
    OneRole(t, channel, user);
  }

  /** A user has one role in a channel. */
  lemma OneRole(t: Tables, channel: nat, user: nat)
    requires UniqueMembers(t.rows)
    ensures forall role :: Membership(channel, user, role) in t.rows
              ==> GetMembership(t.rows, channel, user) == Some(Membership(channel, user, role))
  {
    forall role | Membership(channel, user, role) in t.rows
      ensures GetMembership(t.rows, channel, user) == Some(Membership(channel, user, role))
    {
      OnlyMembership(t.rows, Membership(channel, user, role));
    }
  }

  /** An admin or the owner adds an existing user who is no member yet. */
  lemma AddIff(t: Tables, channel: nat, actor: nat, user: nat)
    requires UniqueMembers(t.rows) && channel in t.channels
    ensures var checked := Check(t, Add(channel, actor, user));
            && (checked == Ok(InsertMember(channel, user, true))
                <==> Manages(t, channel, actor) && user in t.users && !Belongs(t, channel, user))
            && (checked.Ok? ==> checked == Ok(InsertMember(channel, user, true)))
            && (checked == Err(AccessDenied) <==> !Belongs(t, channel, actor))
            && (checked == Err(MembershipForbidden) <==> Membership(channel, actor, Member) in t.rows)
            && (checked == Err(UserNotFound) <==> Manages(t, channel, actor) && user !in t.users)
  {
    RolesRead(t, channel, actor);
    RolesRead(t, channel, user);
    OneRole(t, channel, actor);
  }

  /** An admin or the owner removes a member who is not the owner. */
  lemma RemoveIff(t: Tables, channel: nat, actor: nat, user: nat)
    requires UniqueMembers(t.rows) && channel in t.channels
    ensures var checked := Check(t, Remove(channel, actor, user));
            && (checked == Ok(DropMember(channel, user))
                <==> Manages(t, channel, actor) && Belongs(t, channel, user) && !Owns(t, channel, user))
            && (checked.Ok? ==> checked == Ok(DropMember(channel, user)))
            && (checked == Err(AccessDenied) <==> !Belongs(t, channel, actor))
            && (checked == Err(MembershipNotFound) <==> Belongs(t, channel, actor) && !Belongs(t, channel, user))
  {
    RolesRead(t, channel, actor);
    RolesRead(t, channel, user);
  }

  /** The owner changes the role of a member who is not the owner. */
  lemma ChangeRoleIff(t: Tables, channel: nat, actor: nat, user: nat, role: Role)
    requires UniqueMembers(t.rows) && channel in t.channels
    ensures var checked := Check(t, ChangeRole(channel, actor, user, role));
            && (checked == Ok(SetRole(channel, user, role))
                <==> Owns(t, channel, actor) && Belongs(t, channel, user) && !Owns(t, channel, user))
            && (checked.Ok? ==> checked == Ok(SetRole(channel, user, role)))
            && (checked == Err(AccessDenied) <==> !Belongs(t, channel, actor))
            && (checked == Err(MembershipNotFound) <==> Belongs(t, channel, actor) && !Belongs(t, channel, user))
  {
    RolesRead(t, channel, actor);
    RolesRead(t, channel, user);
  }

  /** An admin or the owner updates a channel; only the owner sets its privacy. */
  lemma UpdateIff(t: Tables, channel: nat, actor: nat, isPrivate: Option<bool>)
    requires UniqueMembers(t.rows) && channel in t.channels
    ensures var checked := Check(t, Update(channel, actor, isPrivate));
            && (checked == Ok(SetPrivacy(channel, isPrivate))
                <==> Manages(t, channel, actor) && (isPrivate.None? || Owns(t, channel, actor)))
            && (checked.Ok? ==> checked == Ok(SetPrivacy(channel, isPrivate)))
            && (checked == Err(ChannelNotFound) <==> t.channels[channel].isPrivate && !Belongs(t, channel, actor))
            && (checked.Err? ==> checked.error == ChannelNotFound || checked.error == UpdateForbidden)
  {
    RolesRead(t, channel, actor);
  }

  /** Only the owner deletes a channel. */
  lemma DeleteIff(t: Tables, channel: nat, actor: nat)
    requires UniqueMembers(t.rows) && channel in t.channels
    ensures var checked := Check(t, Delete(channel, actor));
            && (checked == Ok(DropChannel(channel)) <==> Owns(t, channel, actor))
            && (checked.Ok? ==> checked == Ok(DropChannel(channel)))
            && (checked == Err(ChannelNotFound) <==> t.channels[channel].isPrivate && !Belongs(t, channel, actor))
            && (checked.Err? ==> checked.error == ChannelNotFound || checked.error == DeleteForbidden)
  {
    RolesRead(t, channel, actor);
  }

  /** Anybody who is not a member joins a public channel. */
  lemma JoinIff(t: Tables, channel: nat, user: nat)
    requires UniqueMembers(t.rows) && channel in t.channels
    ensures var checked := Check(t, Join(channel, user));
            && (checked == Ok(InsertMember(channel, user, false))
                <==> !t.channels[channel].isPrivate && !Belongs(t, channel, user))
            && (checked.Ok? ==> checked == Ok(InsertMember(channel, user, false)))
            && (checked == Err(AccessDenied) <==> t.channels[channel].isPrivate)
            && (checked.Err? ==> checked.error == AccessDenied || checked.error == AlreadyMember)
  {
    RolesRead(t, channel, user);
  }

  /** A member who is not the owner leaves. */
  lemma LeaveIff(t: Tables, channel: nat, user: nat)
    requires UniqueMembers(t.rows) && channel in t.channels
    ensures var checked := Check(t, Leave(channel, user));
            && (checked == Ok(DropMember(channel, user)) <==> Belongs(t, channel, user) && !Owns(t, channel, user))
            && (checked.Ok? ==> checked == Ok(DropMember(channel, user)))
            && (checked == Err(OwnerCannotLeave) <==> Owns(t, channel, user))
            && (checked == Err(AccessDenied) <==> !Belongs(t, channel, user))
  {
    RolesRead(t, channel, user);
  }

  /** A moderator who is permitted to removes a member who is not the owner. */
  lemma ModerateIff(t: Tables, channel: nat, permitted: bool, user: nat)
    requires UniqueMembers(t.rows) && channel in t.channels
    ensures var checked := Check(t, Moderate(channel, permitted, user));
            && (checked == Ok(DropMember(channel, user))
                <==> permitted && Belongs(t, channel, user) && !Owns(t, channel, user))
            && (checked.Ok? ==> checked == Ok(DropMember(channel, user)))
            && (checked == Err(TargetNotFound) <==> !Belongs(t, channel, user))
            && (checked == Err(TargetProtected) <==> permitted && Owns(t, channel, user))
  {
    RolesRead(t, channel, user);
  }

  /** The row m is there after the write is committed. */
  predicate RowAfter(t: Tables, w: Write, m: Membership) {
    match w
    case SetPrivacy(_, _) => m in t.rows
    case DropChannel(channel) => m in t.rows && m.channel != channel
    case InsertMember(channel, user, _) => m in t.rows || m == Membership(channel, user, Member)
    case DropMember(channel, user) => m in t.rows && !(m.channel == channel && m.user == user)
    case SetRole(channel, user, role) =>
      if m.channel == channel && m.user == user then m.role == role && Belongs(t, channel, user) else m in t.rows
  }

  /** A write changes the rows and the channel it names and nothing else. */
  lemma CommitExact(t: Tables, w: Write, m: Membership)
    requires Commit(t, w).Ok?
    ensures m in Commit(t, w).value.rows <==> RowAfter(t, w, m)
    ensures Commit(t, w).value.users == t.users
    ensures Commit(t, w).value.channels
         == match w
            case DropChannel(channel) => t.channels - {channel}
            case SetPrivacy(channel, Some(isPrivate)) =>
              t.channels[channel := Channel(t.channels[channel].owner, isPrivate)]
            case _ => t.channels
  {
    match w
    case SetPrivacy(_, _) =>
    case DropChannel(channel) => KeptRow(t, OutsideChannel(channel), m);
    case InsertMember(_, _, _) =>
    case DropMember(channel, user) => KeptRow(t, OtherRow(channel, user), m);
    case SetRole(channel, user, role) => RoleExact(t, channel, user, role, m);
  }

  lemma RoleExact(t: Tables, channel: nat, user: nat, role: Role, m: Membership)
    ensures m in WithRole(t.rows, channel, user, role) <==> RowAfter(t, SetRole(channel, user, role), m)
  {
    var rows := WithRole(t.rows, channel, user, role);
    if m in rows {
      var i :| 0 <= i < |rows| && rows[i] == m;
      RowBelongs(t, t.rows[i]);
    }
    if RowAfter(t, SetRole(channel, user, role), m) {
      var n := m;
      if IsRow(m, channel, user) { n := RowOf(t, channel, user); }
      var i :| 0 <= i < |t.rows| && t.rows[i] == n;
      assert rows[i] == m;
    }
  }

  /** The database refuses a write whose channel is gone, and a second membership of the same user. */
  lemma CommitIff(t: Tables, w: Write)
    requires UniqueMembers(t.rows)
    ensures Commit(t, w).Ok?
       <==> w.channel in t.channels && (w.InsertMember? ==> !Belongs(t, w.channel, w.user))
  {
    if w.InsertMember? { RolesRead(t, w.channel, w.user); }
  }

  /** Without interruption the call fails like its check, or has the effect of the write that was checked. */
  lemma PerformExact(t: Tables, op: Operation, m: Membership)
    ensures op.channel !in t.channels
        ==> Perform(t, op) == Err(if op.Moderate? then TargetNotFound else ChannelNotFound)
    ensures match Check(t, op)
            case Err(e) => Perform(t, op) == Err(e)
            case Ok(w) =>
              && Perform(t, op).Ok? && Perform(t, op) == Commit(t, w)
              && (m in Perform(t, op).value.rows <==> RowAfter(t, w, m))
  {
    if Check(t, op).Ok? { CommitExact(t, Check(t, op).value, m); }
  }

  /** An uninterrupted call lets somebody into a private channel only at the invitation of its admin or owner. */
  lemma PrivateByInvitation(t: Tables, op: Operation, m: Membership)
    requires Perform(t, op).Ok? && m in Perform(t, op).value.rows && GetMembership(t.rows, m.channel, m.user) == None
    requires m.channel in t.channels && t.channels[m.channel].isPrivate
    ensures op.Add? && op.channel == m.channel && op.user == m.user && m.role == Member
    ensures Manages(t, op.channel, op.actor)
  {
    MembershipFound(t.rows, m.channel, m.user);
    MembershipFound(t.rows, op.channel, if op.Add? then op.actor else m.user);
    assert forall i :: 0 <= i < |t.rows| ==> !IsRow(t.rows[i], m.channel, m.user);
    match Check(t, op).value
    case SetPrivacy(_, _) =>
    case DropChannel(id) => KeptRow(t, OutsideChannel(id), m);
    case InsertMember(id, user, _) =>
    case DropMember(id, user) => KeptRow(t, OtherRow(id, user), m);
    case SetRole(id, user, role) =>
  }

  // --- Who may be in a private channel ---

  /** An admin or owner of the channel invited the user, or it was public when the user asked to join. */
  predicate AdmittedBy(t: Tables, op: Operation, channel: nat, user: nat) {
    && op.channel == channel && channel in t.channels
    && match op
       case Add(_, actor, invited) => invited == user && Manages(t, channel, actor)
       case Join(_, joining) => joining == user && !t.channels[channel].isPrivate
       case _ => false
  }

  predicate Admitted(run: Run, channel: nat, user: nat) {
    && run.Then?
    && (|| Admitted(run.before, channel, user)
        || (run.action.Request? && AdmittedBy(Final(run.before).tables, run.action.op, channel, user)))
  }

  predicate RowAdmitted(run: Run, m: Membership) {
    m.role != Owner ==> Admitted(run, m.channel, m.user)
  }

  predicate WriteAdmitted(run: Run, w: Write) {
    w.InsertMember? ==> Admitted(run, w.channel, w.user)
  }

  ghost predicate AllAdmitted(run: Run) {
    && (forall m :: m in Final(run).tables.rows ==> RowAdmitted(run, m))
    && (forall i :: 0 <= i < |Final(run).pending| ==> WriteAdmitted(run, Final(run).pending[i]))
  }

  /** Where the rows of a committed write come from. */
  lemma CommitRow(t: Tables, w: Write, m: Membership)
    requires Sound(t) && Harmless(t, w) && Commit(t, w).Ok? && m in Commit(t, w).value.rows && m.role != Owner
    ensures || (exists n :: n in t.rows && n.role != Owner && IsRow(n, m.channel, m.user))
            || (w.InsertMember? && w.channel == m.channel && w.user == m.user)
  {
    var t' := Commit(t, w).value;
    match w
    case SetPrivacy(_, _) =>
    case DropChannel(id) => KeptRow(t, OutsideChannel(id), m);
    case InsertMember(_, _, _) =>
    case DropMember(id, user) => KeptRow(t, OtherRow(id, user), m);
    case SetRole(id, user, role) =>
      var i :| 0 <= i < |t'.rows| && t'.rows[i] == m;
      assert t.rows[i] in t.rows && IsRow(t.rows[i], m.channel, m.user) && RightfulRow(t, t.rows[i]);
  }

  lemma FinishRowAdmitted(run: Run, index: nat, committed: bool, m: Membership)
    requires run.Then? && run.action == Finish(index, committed)
    requires Invariant(Final(run.before)) && AllAdmitted(run.before) && m in Final(run).tables.rows
    ensures RowAdmitted(run, m)
  {
    var s := Final(run.before);
    if m in s.tables.rows {
      assert RowAdmitted(run.before, m);
    } else if m.role != Owner {
      var w := s.pending[index];
      assert WriteAdmitted(run.before, w);
      CommitRow(s.tables, w, m);
      if n :| n in s.tables.rows && n.role != Owner && IsRow(n, m.channel, m.user) {
        assert RowAdmitted(run.before, n);
      }
    }
  }

  lemma FinishWriteAdmitted(run: Run, index: nat, committed: bool, i: nat)
    requires run.Then? && run.action == Finish(index, committed)
    requires AllAdmitted(run.before) && i < |Final(run).pending|
    ensures WriteAdmitted(run, Final(run).pending[i])
  {
    var s := Final(run.before);
    var j := if i < index || |s.pending| <= index then i else i + 1;
    assert Final(run).pending[i] == s.pending[j] && WriteAdmitted(run.before, s.pending[j]);
  }

  /** Whoever passes the check of an insertion is admitted by it. */
  lemma InvitedBy(t: Tables, op: Operation)
    requires Check(t, op).Ok? && Check(t, op).value.InsertMember?
    ensures AdmittedBy(t, op, op.channel, Check(t, op).value.user)
  {
    if op.Add? { MembershipFound(t.rows, op.channel, op.actor); }
  }

  lemma RequestAdmitted(run: Run, op: Operation)
    requires run.Then? && run.action == Request(op) && AllAdmitted(run.before)
    ensures AllAdmitted(run)
  {
    var s, s' := Final(run.before), Final(run);
    forall m | m in s'.tables.rows ensures RowAdmitted(run, m) {
      assert RowAdmitted(run.before, m);
    }
    if Check(s.tables, op).Ok? && Check(s.tables, op).value.InsertMember? { InvitedBy(s.tables, op); }
    forall i | 0 <= i < |s'.pending| ensures WriteAdmitted(run, s'.pending[i]) {
      assert i < |s.pending| ==> s'.pending[i] == s.pending[i] && WriteAdmitted(run.before, s.pending[i]);
    }
  }

  lemma AdmittedStep(run: Run)
    requires run.Then? && Invariant(Final(run.before)) && AllAdmitted(run.before)
    ensures AllAdmitted(run)
  {
    match run.action
    case Create(_, _, _) =>
      forall m | m in Final(run).tables.rows ensures RowAdmitted(run, m) {
        assert m in Final(run.before).tables.rows ==> RowAdmitted(run.before, m);
      }
      forall w | w in Final(run).pending ensures WriteAdmitted(run, w) {
        assert w in Final(run.before).pending && WriteAdmitted(run.before, w);
      }
    case Request(op) => RequestAdmitted(run, op);
    case Finish(index, committed) =>
      forall m | m in Final(run).tables.rows ensures RowAdmitted(run, m) {
        FinishRowAdmitted(run, index, committed, m);
      }
      forall i | 0 <= i < |Final(run).pending| ensures WriteAdmitted(run, Final(run).pending[i]) {
        FinishWriteAdmitted(run, index, committed, i);
      }
  }

  /**
   In every interleaving every membership but the owner's goes back to an invitation by an admin or owner,
   or to a request to join made while the channel was public.
   */
  lemma {:induction false} MembersAdmitted(run: Run)
    requires IsRun(run)
    ensures AllAdmitted(run)
  {
    if run.Then? {
      MembersAdmitted(run.before);
      RunInvariant(run.before);
      AdmittedStep(run);
    }
  }

  /** A request to join that was checked and is not committed yet. */
  predicate JoinWaits(s: State, i: nat) {
    i < |s.pending| && s.pending[i].InsertMember? && !s.pending[i].invited
  }

  /** The commit of a join lets somebody into a channel that is private by then. */
  predicate Uninvited(s: State, action: Action) {
    && action.Finish? && action.committed && JoinWaits(s, action.index)
    && Commit(s.tables, s.pending[action.index]).Ok?
    && s.tables.channels[s.pending[action.index].channel].isPrivate
  }

  predicate WaitsOn(s: State, i: nat, channel: nat) {
    JoinWaits(s, i) && s.pending[i].channel == channel
  }

  /** The commit makes a channel private that somebody is just joining. */
  predicate Overtakes(s: State, action: Action) {
    && action.Finish? && action.committed && action.index < |s.pending|
    && s.pending[action.index].SetPrivacy? && s.pending[action.index].isPrivate == Some(true)
    && s.pending[action.index].channel in s.tables.channels
    && exists i: nat :: i < |s.pending| && WaitsOn(s, i, s.pending[action.index].channel)
  }

  predicate JoinSafe(s: State, i: nat) {
    JoinWaits(s, i) && s.pending[i].channel in s.tables.channels ==> !s.tables.channels[s.pending[i].channel].isPrivate
  }

  /** Nobody is just joining a private channel. */
  predicate SafeJoins(s: State) {
    forall i: nat :: i < |s.pending| ==> JoinSafe(s, i)
  }

  lemma FinishKeepsSafe(s: State, action: Action)
    requires SafeJoins(s) && action.Finish? && !Overtakes(s, action)
    ensures SafeJoins(Next(s, action))
  {
    if action.index < |s.pending| {
      var s' := Next(s, action);
      forall i: nat | i < |s'.pending| ensures JoinSafe(s', i) {
        var j := if i < action.index then i else i + 1;
        assert s'.pending[i] == s.pending[j] && JoinSafe(s, j);
        assert JoinWaits(s, j) ==> WaitsOn(s, j, s.pending[j].channel);
      }
    }
  }

  lemma OvertakingUnsafe(s: State, action: Action)
    requires Overtakes(s, action)
    ensures !SafeJoins(Next(s, action))
  {
    var s', channel := Next(s, action), s.pending[action.index].channel;
    var i: nat :| i < |s.pending| && WaitsOn(s, i, channel);
    var j: nat := if i < action.index then i else i - 1;
    assert s'.pending[j] == s.pending[i];
    assert !JoinSafe(s', j);
  }

  /** A step keeps private channels free of waiting joins if and only if it does not overtake one. */
  lemma SafeKeptIff(s: State, action: Action)
    requires Invariant(s) && SafeJoins(s)
    ensures SafeJoins(Next(s, action)) <==> !Overtakes(s, action)
  {
    var s' := Next(s, action);
    if Overtakes(s, action) {
      OvertakingUnsafe(s, action);
    } else if action.Finish? {
      FinishKeepsSafe(s, action);
    } else {
      forall i: nat | i < |s'.pending| ensures JoinSafe(s', i) {
        assert i < |s.pending| ==> JoinSafe(s, i) && s'.pending[i] == s.pending[i] && s.pending[i].channel in s.issued;
      }
    }
  }

  function Steps(run: Run): nat {
    if run.Then? then Steps(run.before) + 1 else 0
  }

  predicate OrderlySince(base: Run, run: Run) {
    run == base
    || (run.Then? && OrderlySince(base, run.before) && !Overtakes(Final(run.before), run.action))
  }

  predicate UninvitedSince(base: Run, run: Run) {
    run != base && run.Then? && (Uninvited(Final(run.before), run.action) || UninvitedSince(base, run.before))
  }

  lemma {:induction false} OrderlyInvites(base: Run, run: Run)
    requires IsRun(run) && OrderlySince(base, run) && SafeJoins(Final(base))
    ensures SafeJoins(Final(run)) && !UninvitedSince(base, run)
  {
    if run != base {
      OrderlyInvites(base, run.before);
      RunInvariant(run.before);
      SafeKeptIff(Final(run.before), run.action);
      assert run.action.Finish? ==> JoinSafe(Final(run.before), run.action.index);
    }
  }

  /**
   From the run on, as long as no channel is made private over a waiting join, only the invited get into
   private ones.
   */
  ghost predicate InvitesHereafter(run: Run) {
    forall later :: IsRun(later) && OrderlySince(run, later) ==> !UninvitedSince(run, later)
  }

  lemma StrangerEnters(run: Run, i: nat)
    requires IsRun(run) && JoinWaits(Final(run), i) && !JoinSafe(Final(run), i)
    requires GetMembership(Final(run).tables.rows, Final(run).pending[i].channel, Final(run).pending[i].user) == None
    ensures Uninvited(Final(run), Finish(i, true)) && !InvitesHereafter(run)
  {
    var later := Then(run, Finish(i, true));
    assert Uninvited(Final(run), Finish(i, true)) && OrderlySince(run, run);
    assert Steps(later) == Steps(run) + 1;
    assert IsRun(later) && OrderlySince(run, later) && UninvitedSince(run, later);
  }

  /** A member leaves; the requests that waited before are as they were. */
  lemma MemberLeaves(run: Run, channel: nat, user: nat) returns (later: Run)
    requires IsRun(run) && channel in Final(run).tables.channels
    requires user != Final(run).tables.channels[channel].owner
    requires GetMembership(Final(run).tables.rows, channel, user).Some?
    ensures IsRun(later) && later.Then? && later.before.Then? && later.before.before == run
    ensures !Overtakes(Final(later.before), later.action) && !Overtakes(Final(run), later.before.action)
    ensures Final(later).pending == Final(run).pending
    ensures Final(later).tables.channels == Final(run).tables.channels
    ensures GetMembership(Final(later).tables.rows, channel, user) == None
  {
    var s := Final(run);
    RunInvariant(run);
    MembershipFound(s.tables.rows, channel, user);
    var m := GetMembership(s.tables.rows, channel, user).value;
    var k :| 0 <= k < |s.tables.rows| && s.tables.rows[k] == m;
    assert RightfulRow(s.tables, s.tables.rows[k]);
    var asked := Then(run, Request(Leave(channel, user)));
    assert Final(asked) == s.(pending := s.pending + [DropMember(channel, user)]);
    later := Then(asked, Finish(|s.pending|, true));
    assert Final(later).pending == s.pending;
    MembershipFound(Final(later).tables.rows, channel, user);
    if found: Membership :| GetMembership(Final(later).tables.rows, channel, user) == Some(found) {
      KeptRow(s.tables, OtherRow(channel, user), found);
    }
  }

  lemma UnsafeHarms(run: Run, i: nat)
    requires IsRun(run) && i < |Final(run).pending| && !JoinSafe(Final(run), i)
    ensures !InvitesHereafter(run)
  {
    var s := Final(run);
    var w := s.pending[i];
    RunInvariant(run);
    assert Harmless(s.tables, w);
    if GetMembership(s.tables.rows, w.channel, w.user).None? {
      StrangerEnters(run, i);
    } else {
      var gone := MemberLeaves(run, w.channel, w.user);
      assert JoinWaits(Final(gone), i) && !JoinSafe(Final(gone), i);
      StrangerEnters(gone, i);
      var later := Then(gone, Finish(i, true));
      assert Steps(later) == Steps(gone) + 1 == Steps(gone.before) + 2 == Steps(run) + 3;
      assert OrderlySince(run, gone.before) && OrderlySince(run, gone) && OrderlySince(run, later);
      assert UninvitedSince(run, later);
    }
  }

  /**
   The exact condition after any run: only the invited get into private channels from now on if and only if
   no join is waiting on a channel that is private already.
   */
  lemma {:induction false} InvitationIff(run: Run)
    requires IsRun(run)
    ensures InvitesHereafter(run) <==> SafeJoins(Final(run))
  {
    if SafeJoins(Final(run)) {
      forall later | IsRun(later) && OrderlySince(run, later) ensures !UninvitedSince(run, later) {
        OrderlyInvites(run, later);
      }
    } else {
      var i: nat :| i < |Final(run).pending| && !JoinSafe(Final(run), i);
      UnsafeHarms(run, i);
    }
  }

  predicate Orderly(run: Run) {
    run.Then? ==> Orderly(run.before) && !Overtakes(Final(run.before), run.action)
  }

  ghost predicate AlwaysInvites(run: Run) {
    InvitesHereafter(run) && (run.Then? ==> AlwaysInvites(run.before))
  }

  /** And on whole runs: it is never in danger if and only if no channel was made private over a waiting join. */
  lemma {:induction false} OrderlyIff(run: Run)
    requires IsRun(run)
    ensures AlwaysInvites(run) <==> Orderly(run)
    ensures Orderly(run) ==> SafeJoins(Final(run))
  {
    InvitationIff(run);
    if run.Then? {
      OrderlyIff(run.before);
      InvitationIff(run.before);
      RunInvariant(run.before);
      if SafeJoins(Final(run.before)) {
        SafeKeptIff(Final(run.before), run.action);
      }
    }
  }

  // A run that fails: a join, checked while the channel is public, is committed after it became private.

  function Room(isPrivate: bool, rows: seq<Membership>): Tables {
    Tables(map[0 := Channel(1, isPrivate)], rows, {})
  }

  const FOUNDER := Membership(0, 1, Owner)

  lemma RoomChecks()
    ensures Check(Room(false, [FOUNDER]), Join(0, 2)) == Ok(InsertMember(0, 2, false))
    ensures Check(Room(false, [FOUNDER]), Update(0, 1, Some(true))) == Ok(SetPrivacy(0, Some(true)))
  {
    assert [FOUNDER][..0] == [];
    MembershipFound([FOUNDER], 0, 2);
    assert GetMembership([FOUNDER], 0, 1) == Some(FOUNDER);
  }

  lemma RoomCommits()
    ensures Commit(Room(false, [FOUNDER]), SetPrivacy(0, Some(true))) == Ok(Room(true, [FOUNDER]))
    ensures Commit(Room(true, [FOUNDER]), InsertMember(0, 2, false))
         == Ok(Room(true, [FOUNDER, Membership(0, 2, Member)]))
  {
    MembershipFound([FOUNDER], 0, 2);
    assert [FOUNDER] + [Membership(0, 2, Member)] == [FOUNDER, Membership(0, 2, Member)];
    assert Room(false, [FOUNDER]).channels[0 := Channel(1, true)] == Room(true, [FOUNDER]).channels;
  }

  const JOINING := InsertMember(0, 2, false)
  const CLOSING := SetPrivacy(0, Some(true))

  lemma LateJoinAsked() returns (run: Run)
    ensures IsRun(run) && Final(run) == State(Room(false, [FOUNDER]), [JOINING], {0})
    ensures run == Then(Then(Initially({}), Create(0, 1, false)), Request(Join(0, 2)))
  {
    RoomChecks();
    var created := Then(Initially({}), Create(0, 1, false));
    assert Final(created) == State(Room(false, [FOUNDER]), [], {0});
    run := Then(created, Request(Join(0, 2)));
  }

  lemma LateJoinClosed(asked: Run) returns (run: Run)
    requires IsRun(asked) && Final(asked) == State(Room(false, [FOUNDER]), [JOINING], {0})
    ensures IsRun(run) && !Orderly(run) && Final(run) == State(Room(true, [FOUNDER]), [JOINING], {0})
    ensures run == Then(Then(asked, Request(Update(0, 1, Some(true)))), Finish(1, true))
  {
    RoomChecks();
    RoomCommits();
    var closing := Then(asked, Request(Update(0, 1, Some(true))));
    assert Final(closing) == State(Room(false, [FOUNDER]), [JOINING, CLOSING], {0});
    assert WaitsOn(Final(closing), 0, 0);
    run := Then(closing, Finish(1, true));
  }

  /** The run, and why it fails: it overtakes the join. */
  lemma LateJoin() returns (run: Run)
    ensures IsRun(run) && !Orderly(run)
    ensures Final(run).tables == Room(true, [FOUNDER, Membership(0, 2, Member)])
    ensures run == Then(Then(Then(Then(Then(Initially({}), Create(0, 1, false)), Request(Join(0, 2))),
                   Request(Update(0, 1, Some(true)))), Finish(1, true)), Finish(0, true))
  {
    var asked := LateJoinAsked();
    var closed := LateJoinClosed(asked);
    RoomCommits();
    run := Then(closed, Finish(0, true));
  }
}
