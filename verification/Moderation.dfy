/**
 Moderation with its audit log: app/services/moderation_service.py under the rules of
 app/permissions/moderation_permissions.py.
 */
module Moderation {
  import opened Common
  import opened Alternation

  datatype Role = Member | Moderator | Admin

  function Level(role: Role): nat {
    match role
    case Member => 1
    case Moderator => 2
    case Admin => 3
  }

  datatype User = User(
    role: Role, isActive: bool, statusActive: bool,
    suspendedAt: Option<int>, suspensionExpiresAt: Option<int>, bannedAt: Option<int>)

  datatype Channel = Channel(lockedAt: Option<int>, lockedBy: Option<nat>)

  datatype Kind =
    | UserWarn | UserSuspend | UserUnsuspend | UserBan | UserUnban
    | ChannelLock | ChannelUnlock | RemoveFromChannel | MessageDelete

  datatype ChannelRole = ChannelMember | ChannelAdmin | ChannelOwner

  /** Of a message only the deletion mark matters here. */
  datatype Message = Message(deletedAt: Option<int>)

  datatype Record = Record(
    action: Kind, moderator: nat, targetUser: Option<nat>, targetChannel: Option<nat>, targetMessage: Option<nat>,
    expiresAt: Option<int>, createdAt: int)

  /** The tables moderation writes; memberships are keyed by (channel, user). */
  datatype State = State(
    users: map<nat, User>, channels: map<nat, Channel>, memberships: map<(nat, nat), ChannelRole>,
    messages: map<nat, Message>, log: seq<Record>)

  datatype Error =
    | TargetNotFound | PermissionDenied | AlreadySuspended | NotSuspended | AlreadyBanned | NotBanned
    | ChannelAlreadyLocked | ChannelNotLocked | TargetProtected | CommitRefused

  /** The clock readings of one operation: the database's, then those of the code, in order. */
  datatype Clock = Clock(transaction: int, authorize: int, check: int, write: int)

  predicate Ordered(clock: Clock) {
    clock.transaction <= clock.authorize <= clock.check <= clock.write
  }

  // --- Permissions ---

  predicate SuspendedAt(user: User, now: int) {
    user.suspendedAt.Some? && (user.suspensionExpiresAt.None? || now < user.suspensionExpiresAt.value)
  }

  predicate IsRestricted(user: User, now: int) {
    !user.isActive || !user.statusActive || user.bannedAt.Some? || SuspendedAt(user, now)
  }

  predicate HasModerationRole(user: User, now: int) {
    !IsRestricted(user, now) && Level(Moderator) <= Level(user.role)
  }

  predicate CanTarget(actor: nat, target: nat, users: map<nat, User>)
    requires actor in users && target in users
  {
    actor != target && Level(users[target].role) < Level(users[actor].role)
  }

  predicate CanModerate(s: State, actor: nat, now: int) {
    actor in s.users && HasModerationRole(s.users[actor], now)
  }

  predicate CanModerateUser(s: State, actor: nat, target: nat, now: int) {
    target in s.users && CanModerate(s, actor, now) && CanTarget(actor, target, s.users)
  }

  // The same rules, role by role and field by field: what the operations' contracts are stated with.

  predicate Outranks(role: Role, other: Role) {
    (role == Admin && other != Admin) || (role == Moderator && other == Member)
  }

  predicate InForce(user: User, now: int) {
    match (user.suspendedAt, user.suspensionExpiresAt)
    case (None, _) => false
    case (_, None) => true
    case (_, Some(expiry)) => now < expiry
  }

  predicate MayModerate(users: map<nat, User>, actor: nat, now: int) {
    && actor in users && users[actor].role in {Moderator, Admin}
    && users[actor].isActive && users[actor].statusActive && users[actor].bannedAt == None
    && !InForce(users[actor], now)
  }

  predicate MayTarget(users: map<nat, User>, actor: nat, target: nat, now: int) {
    target in users && MayModerate(users, actor, now) && Outranks(users[actor].role, users[target].role)
  }

  // --- Operations as functions of the state ---

  datatype Operation =
    | Warn(target: nat)
    | Suspend(target: nat, durationSeconds: Option<int>)
    | Unsuspend(target: nat)
    | Ban(target: nat)
    | Unban(target: nat)
    | SetLock(channel: nat, locked: bool)
    | RemoveMember(target: nat, channel: nat)
    | DeleteMessage(message: nat, accepted: bool)

  const SECOND: int := 1_000_000

  function ExpiryOf(durationSeconds: Option<int>, now: int): Option<int> {
    if durationSeconds.Some? && durationSeconds.value != 0 then Some(now + durationSeconds.value * SECOND) else None
  }

  /** A user operation either is refused or sets the target's fields and adds one record. */
  function OnUser(
    s: State, actor: nat, target: nat, clock: Clock, refusal: Option<Error>, updated: User, record: Record)
    : Result<State, Error>
  {
    if target !in s.users then Err(TargetNotFound)
    else if !CanModerateUser(s, actor, target, clock.authorize) then Err(PermissionDenied)
    else if refusal.Some? then Err(refusal.value)
    else Ok(s.(users := s.users[target := updated], log := s.log + [record]))
  }

  function Apply(s: State, actor: nat, op: Operation, clock: Clock): Result<State, Error> {
    match op
    case Warn(target) =>
      if target !in s.users then Err(TargetNotFound)
      else OnUser(s, actor, target, clock, None, s.users[target],
                  Record(UserWarn, actor, Some(target), None, None, None, clock.transaction))
    case Suspend(target, duration) =>
      if target !in s.users then Err(TargetNotFound)
      else
        var user, expires := s.users[target], ExpiryOf(duration, clock.write);
        OnUser(s, actor, target, clock, if SuspendedAt(user, clock.check) then Some(AlreadySuspended) else None,
               user.(suspendedAt := Some(clock.write), suspensionExpiresAt := expires),
               Record(UserSuspend, actor, Some(target), None, None, expires, clock.transaction))
    case Unsuspend(target) =>
      if target !in s.users then Err(TargetNotFound)
      else
        var user := s.users[target];
        OnUser(s, actor, target, clock, if SuspendedAt(user, clock.check) then None else Some(NotSuspended),
               user.(suspendedAt := None, suspensionExpiresAt := None),
               Record(UserUnsuspend, actor, Some(target), None, None, None, clock.transaction))
    case Ban(target) =>
      if target !in s.users then Err(TargetNotFound)
      else
        var user := s.users[target];
        OnUser(s, actor, target, clock, if user.bannedAt.Some? then Some(AlreadyBanned) else None,
               user.(bannedAt := Some(clock.write)),
               Record(UserBan, actor, Some(target), None, None, None, clock.transaction))
    case Unban(target) =>
      if target !in s.users then Err(TargetNotFound)
      else
        var user := s.users[target];
        OnUser(s, actor, target, clock, if user.bannedAt.Some? then None else Some(NotBanned),
               user.(bannedAt := None),
               Record(UserUnban, actor, Some(target), None, None, None, clock.transaction))
    case SetLock(channel, locked) =>
      if channel !in s.channels then Err(TargetNotFound)
      else if !CanModerate(s, actor, clock.authorize) then Err(PermissionDenied)
      else if s.channels[channel].lockedAt.Some? == locked then
        Err(if locked then ChannelAlreadyLocked else ChannelNotLocked)
      else
        var row := if locked then Channel(Some(clock.write), Some(actor)) else Channel(None, None);
        var kind := if locked then ChannelLock else ChannelUnlock;
        Ok(s.(channels := s.channels[channel := row],
              log := s.log + [Record(kind, actor, None, Some(channel), None, None, clock.transaction)]))
    case RemoveMember(target, channel) =>
      if target !in s.users || channel !in s.channels || (channel, target) !in s.memberships then Err(TargetNotFound)
      else if !CanModerate(s, actor, clock.authorize) then Err(PermissionDenied)
      else if s.memberships[(channel, target)] == ChannelOwner then Err(TargetProtected)
      else Ok(s.(memberships := s.memberships - {(channel, target)},
                 log := s.log + [
                   Record(RemoveFromChannel, actor, Some(target), Some(channel), None, None, clock.transaction)]))
    case DeleteMessage(message, accepted) =>
      if message !in s.messages then Err(TargetNotFound)
      else if !CanModerate(s, actor, clock.authorize) then Err(PermissionDenied)
      else if s.messages[message].deletedAt.None? && !accepted then Err(CommitRefused)
      else
        var row := s.messages[message];
        Ok(s.(messages := s.messages[message := if row.deletedAt.None? then Message(Some(clock.write)) else row],
              log := s.log + [Record(MessageDelete, actor, None, None, Some(message), None, clock.transaction)]))
  }

  function Next(s: State, actor: nat, op: Operation, clock: Clock): State {
    match Apply(s, actor, op, clock)
    case Ok(s') => s'
    case Err(_) => s
  }

  /** What a method call must have done. */
  ghost predicate Performed(
    before: State, actor: nat, op: Operation, clock: Clock, after: State, result: Result<Record, Error>)
  {
    match Apply(before, actor, op, clock)
    case Ok(s) => after == s && result.Ok? && after.log == before.log + [result.value]
    case Err(e) => after == before && result == Err(e)
  }

  class ModerationService {
    var users: map<nat, User>
    var channels: map<nat, Channel>
    var memberships: map<(nat, nat), ChannelRole>
    var messages: map<nat, Message>
    var log: seq<Record>

    ghost function View(): State
      reads this
    {
      State(users, channels, memberships, messages, log)
    }

    constructor (
      users: map<nat, User>, channels: map<nat, Channel>, memberships: map<(nat, nat), ChannelRole>,
      messages: map<nat, Message>)
      ensures View() == State(users, channels, memberships, messages, [])
    {
      this.users, this.channels, this.memberships, this.messages, log := users, channels, memberships, messages, [];
    }

    predicate Authorized(actor: nat, now: int)
      reads this
    {
      actor in users && HasModerationRole(users[actor], now)
    }

    method AddRecord(
      action: Kind, actor: nat, user: Option<nat>, channel: Option<nat>, message: Option<nat>, expires: Option<int>,
      createdAt: int)
      returns (record: Record)
      modifies this`log
      ensures record == Record(action, actor, user, channel, message, expires, createdAt)
      ensures log == old(log) + [record]
    {
      record := Record(action, actor, user, channel, message, expires, createdAt);
      log := log + [record];
    }

    method WarnUser(actor: nat, target: nat, clock: Clock) returns (result: Result<Record, Error>)
      modifies this
      ensures Performed(old(View()), actor, Warn(target), clock, View(), result)
      ensures result == Err(TargetNotFound) <==> target !in old(users)
      ensures result == Err(PermissionDenied)
         <==> target in old(users) && !MayTarget(old(users), actor, target, clock.authorize)
      ensures result.Ok? <==> MayTarget(old(users), actor, target, clock.authorize)
      ensures result.Ok? ==>
                && users == old(users)
                && result.value == Record(UserWarn, actor, Some(target), None, None, None, clock.transaction)
                && log == old(log) + [result.value]
      ensures result.Err? ==> users == old(users) && log == old(log)
    {
      if target !in users {
        return Err(TargetNotFound);
      }
      if !Authorized(actor, clock.authorize) || !CanTarget(actor, target, users) {
        return Err(PermissionDenied);
      }
      assert users == users[target := users[target]];
      var record := AddRecord(UserWarn, actor, Some(target), None, None, None, clock.transaction);
      return Ok(record);
    }

    method SuspendUser(actor: nat, target: nat, durationSeconds: Option<int>, clock: Clock)
      returns (result: Result<Record, Error>)
      modifies this
      ensures Performed(old(View()), actor, Suspend(target, durationSeconds), clock, View(), result)
      ensures result == Err(TargetNotFound) <==> target !in old(users)
      ensures result == Err(PermissionDenied)
         <==> target in old(users) && !MayTarget(old(users), actor, target, clock.authorize)
      ensures result.Ok?
         <==> MayTarget(old(users), actor, target, clock.authorize) && !InForce(old(users)[target], clock.check)
      ensures result.Ok? ==>
                var until := if durationSeconds in {None, Some(0)} then None
                             else Some(clock.write + durationSeconds.value * 1_000_000);
                && users == old(users)[target :=
                     old(users)[target].(suspendedAt := Some(clock.write), suspensionExpiresAt := until)]
                && result.value == Record(UserSuspend, actor, Some(target), None, None, until, clock.transaction)
                && log == old(log) + [result.value]
      ensures result.Err? ==> users == old(users) && log == old(log)
    {
      if target !in users {
        return Err(TargetNotFound);
      }
      if !Authorized(actor, clock.authorize) || !CanTarget(actor, target, users) {
        return Err(PermissionDenied);
      }
      var user := users[target];
      if user.suspendedAt.Some? && (user.suspensionExpiresAt.None? || clock.check < user.suspensionExpiresAt.value) {
        return Err(AlreadySuspended);
      }
      var now := clock.write;
      var expires := if durationSeconds.Some? && durationSeconds.value != 0
                     then Some(now + durationSeconds.value * SECOND) else None;
      users := users[target := user.(suspendedAt := Some(now), suspensionExpiresAt := expires)];
      var record := AddRecord(UserSuspend, actor, Some(target), None, None, expires, clock.transaction);
      return Ok(record);
    }

    method UnsuspendUser(actor: nat, target: nat, clock: Clock) returns (result: Result<Record, Error>)
      modifies this
      ensures Performed(old(View()), actor, Unsuspend(target), clock, View(), result)
      ensures result == Err(TargetNotFound) <==> target !in old(users)
      ensures result == Err(PermissionDenied)
         <==> target in old(users) && !MayTarget(old(users), actor, target, clock.authorize)
      ensures result.Ok?
         <==> MayTarget(old(users), actor, target, clock.authorize) && InForce(old(users)[target], clock.check)
      ensures result.Ok? ==>
                && users == old(users)[target := old(users)[target].(suspendedAt := None, suspensionExpiresAt := None)]
                && result.value == Record(UserUnsuspend, actor, Some(target), None, None, None, clock.transaction)
                && log == old(log) + [result.value]
      ensures result.Err? ==> users == old(users) && log == old(log)
    {
      if target !in users {
        return Err(TargetNotFound);
      }
      if !Authorized(actor, clock.authorize) || !CanTarget(actor, target, users) {
        return Err(PermissionDenied);
      }
      var user := users[target];
      if user.suspendedAt.None? || (user.suspensionExpiresAt.Some? && user.suspensionExpiresAt.value <= clock.check) {
        return Err(NotSuspended);
      }
      users := users[target := user.(suspendedAt := None, suspensionExpiresAt := None)];
      var record := AddRecord(UserUnsuspend, actor, Some(target), None, None, None, clock.transaction);
      return Ok(record);
    }

    /** The duration given to a ban is not used: a ban ends only by unban. */
    method BanUser(actor: nat, target: nat, durationSeconds: Option<int>, clock: Clock)
      returns (result: Result<Record, Error>)
      modifies this
      ensures Performed(old(View()), actor, Ban(target), clock, View(), result)
      ensures result == Err(TargetNotFound) <==> target !in old(users)
      ensures result == Err(PermissionDenied)
         <==> target in old(users) && !MayTarget(old(users), actor, target, clock.authorize)
      ensures result.Ok?
         <==> MayTarget(old(users), actor, target, clock.authorize) && old(users)[target].bannedAt == None
      ensures result.Ok? ==>
                && users == old(users)[target := old(users)[target].(bannedAt := Some(clock.write))]
                && result.value == Record(UserBan, actor, Some(target), None, None, None, clock.transaction)
                && log == old(log) + [result.value]
      ensures result.Err? ==> users == old(users) && log == old(log)
    {
      if target !in users {
        return Err(TargetNotFound);
      }
      if !Authorized(actor, clock.authorize) || !CanTarget(actor, target, users) {
        return Err(PermissionDenied);
      }
      if users[target].bannedAt.Some? {
        return Err(AlreadyBanned);
      }
      users := users[target := users[target].(bannedAt := Some(clock.write))];
      var record := AddRecord(UserBan, actor, Some(target), None, None, None, clock.transaction);
      return Ok(record);
    }

    method UnbanUser(actor: nat, target: nat, clock: Clock) returns (result: Result<Record, Error>)
      modifies this
      ensures Performed(old(View()), actor, Unban(target), clock, View(), result)
      ensures result == Err(TargetNotFound) <==> target !in old(users)
      ensures result == Err(PermissionDenied)
         <==> target in old(users) && !MayTarget(old(users), actor, target, clock.authorize)
      ensures result.Ok?
         <==> MayTarget(old(users), actor, target, clock.authorize) && old(users)[target].bannedAt != None
      ensures result.Ok? ==>
                && users == old(users)[target := old(users)[target].(bannedAt := None)]
                && result.value == Record(UserUnban, actor, Some(target), None, None, None, clock.transaction)
                && log == old(log) + [result.value]
      ensures result.Err? ==> users == old(users) && log == old(log)
    {
      if target !in users {
        return Err(TargetNotFound);
      }
      if !Authorized(actor, clock.authorize) || !CanTarget(actor, target, users) {
        return Err(PermissionDenied);
      }
      if users[target].bannedAt.None? {
        return Err(NotBanned);
      }
      users := users[target := users[target].(bannedAt := None)];
      var record := AddRecord(UserUnban, actor, Some(target), None, None, None, clock.transaction);
      return Ok(record);
    }

    method LockChannel(actor: nat, channel: nat, locked: bool, clock: Clock) returns (result: Result<Record, Error>)
      modifies this
      ensures Performed(old(View()), actor, SetLock(channel, locked), clock, View(), result)
      ensures result == Err(TargetNotFound) <==> channel !in old(channels)
      ensures result == Err(PermissionDenied)
         <==> channel in old(channels) && !MayModerate(old(users), actor, clock.authorize)
      ensures result.Ok?
         <==> && channel in old(channels) && MayModerate(old(users), actor, clock.authorize)
              && (old(channels)[channel].lockedAt == None <==> locked)
      ensures result.Ok? ==>
                && channels == old(channels)[channel :=
                     if locked then Channel(Some(clock.write), Some(actor)) else Channel(None, None)]
                && result.value == Record(if locked then ChannelLock
                  else ChannelUnlock, actor, None, Some(channel), None,
                                          None, clock.transaction)
                && log == old(log) + [result.value]
      ensures result.Err? ==> channels == old(channels) && log == old(log)
    {
      if channel !in channels {
        return Err(TargetNotFound);
      }
      if !Authorized(actor, clock.authorize) {
        return Err(PermissionDenied);
      }
      if channels[channel].lockedAt.Some? == locked {
        return Err(if locked then ChannelAlreadyLocked else ChannelNotLocked);
      }
      channels := channels[channel := Channel(
        if locked then Some(clock.write) else None, if locked then Some(actor) else None)];
      var action := if locked then ChannelLock else ChannelUnlock;
      var record := AddRecord(action, actor, None, Some(channel), None, None, clock.transaction);
      return Ok(record);
    }

    method RemoveChannelMember(actor: nat, channel: nat, target: nat, clock: Clock)
      returns (result: Result<Record, Error>)
      modifies this
      ensures Performed(old(View()), actor, RemoveMember(target, channel), clock, View(), result)
      ensures result == Err(TargetNotFound)
         <==> target !in old(users) || channel !in old(channels) || (channel, target) !in old(memberships)
      ensures result.Ok?
         <==> && target in old(users) && channel in old(channels) && (channel, target) in old(memberships)
              && MayModerate(old(users), actor, clock.authorize)
              && old(memberships)[(channel, target)] in {ChannelMember, ChannelAdmin}
      ensures result == Err(TargetProtected) ==> old(memberships)[(channel, target)] == ChannelOwner
      ensures result.Ok? ==>
                && memberships == old(memberships) - {(channel, target)}
                && result.value
                   == Record(RemoveFromChannel, actor, Some(target), Some(channel), None, None, clock.transaction)
                && log == old(log) + [result.value]
      ensures result.Err? ==> memberships == old(memberships) && log == old(log)
    {
      if target !in users || channel !in channels || (channel, target) !in memberships {
        return Err(TargetNotFound);
      }
      if !Authorized(actor, clock.authorize) {
        return Err(PermissionDenied);
      }
      if memberships[(channel, target)] == ChannelOwner {
        return Err(TargetProtected);
      }
      memberships := memberships - {(channel, target)};
      var record := AddRecord(RemoveFromChannel, actor, Some(target), Some(channel), None, None, clock.transaction);
      return Ok(record);
    }

    /**
     Deleting also asks for an empty text, which the table's check forbids: accepted says whether the
     database takes the row. A refused commit takes the record back with it.
     */
    method DeleteMessage(actor: nat, message: nat, accepted: bool, clock: Clock)
      returns (result: Result<Record, Error>)
      modifies this
      ensures Performed(old(View()), actor, Operation.DeleteMessage(message, accepted), clock, View(), result)
      ensures result == Err(TargetNotFound) <==> message !in old(messages)
      ensures result == Err(PermissionDenied)
         <==> message in old(messages) && !MayModerate(old(users), actor, clock.authorize)
      ensures result.Ok?
         <==> && message in old(messages) && MayModerate(old(users), actor, clock.authorize)
              && (old(messages)[message].deletedAt == None ==> accepted)
      ensures result.Ok? ==>
                && messages == (if old(messages)[message].deletedAt == None
                                then old(messages)[message := Message(Some(clock.write))] else old(messages))
                && result.value == Record(MessageDelete, actor, None, None, Some(message), None, clock.transaction)
                && log == old(log) + [result.value]
      ensures result.Err? ==> messages == old(messages) && log == old(log)
    {
      if message !in messages {
        return Err(TargetNotFound);
      }
      if !Authorized(actor, clock.authorize) {
        return Err(PermissionDenied);
      }
      if messages[message].deletedAt.None? {
        if !accepted {
          return Err(CommitRefused);
        }
        messages := messages[message := Message(Some(clock.write))];
      }
      assert messages == old(messages)[message := messages[message]];
      var record := AddRecord(MessageDelete, actor, None, None, Some(message), None, clock.transaction);
      return Ok(record);
    }
  }

  // --- Replaying the log ---

  function BanEventsOf(r: Record): seq<Event<nat>> {
    if r.targetUser.Some? && r.action in {UserBan, UserUnban} then [Event(r.targetUser.value, r.action == UserBan)]
    else []
  }

  function LockEventsOf(r: Record): seq<Event<nat>> {
    if r.targetChannel.Some? && r.action in {ChannelLock, ChannelUnlock}
    then [Event(r.targetChannel.value, r.action == ChannelLock)]
    else []
  }

  /** The bans and releases of all users, as the log tells them. */
  function BanEvents(log: seq<Record>): seq<Event<nat>> {
    if log == [] then [] else BanEvents(log[..|log| - 1]) + BanEventsOf(log[|log| - 1])
  }

  function LockEvents(log: seq<Record>): seq<Event<nat>> {
    if log == [] then [] else LockEvents(log[..|log| - 1]) + LockEventsOf(log[|log| - 1])
  }

  /** The record of the user's suspension, unless it was lifted since. */
  function StandingSuspension(log: seq<Record>, user: nat): Option<Record> {
    if log == [] then None
    else
      var r := log[|log| - 1];
      if r.targetUser == Some(user) && r.action == UserSuspend then Some(r)
      else if r.targetUser == Some(user) && r.action == UserUnsuspend then None
      else StandingSuspension(log[..|log| - 1], user)
  }

  predicate OnUserKind(kind: Kind) {
    kind in {UserWarn, UserSuspend, UserUnsuspend, UserBan, UserUnban}
  }

  /** A warning, suspension, ban or release was written by somebody of strictly higher rank than its target. */
  predicate RankRespected(users: map<nat, User>, r: Record) {
    OnUserKind(r.action) ==>
      && r.targetUser.Some? && r.targetUser.value in users && r.moderator in users
      && Outranks(users[r.moderator].role, users[r.targetUser.value].role)
  }

  /** The suspension fields against the record that stands; the start was read just after the transaction began. */
  predicate SuspensionMatches(user: User, standing: Option<Record>) {
    match standing
    case None => user.suspendedAt == None && user.suspensionExpiresAt == None
    case Some(r) =>
      && user.suspendedAt.Some? && r.createdAt <= user.suspendedAt.value
      && user.suspensionExpiresAt == r.expiresAt
  }

  ghost predicate BansReplayed(s: State) {
    && AllAlternate(BanEvents(s.log))
    && forall u :: u in s.users ==> IsUp(BanEvents(s.log), u) == s.users[u].bannedAt.Some?
  }

  ghost predicate SuspensionsReplayed(s: State) {
    forall u :: u in s.users ==> SuspensionMatches(s.users[u], StandingSuspension(s.log, u))
  }

  ghost predicate LocksReplayed(s: State) {
    && AllAlternate(LockEvents(s.log))
    && forall c :: c in s.channels ==> IsUp(LockEvents(s.log), c) == s.channels[c].lockedAt.Some?
  }

  ghost predicate Ranked(s: State) {
    forall i :: 0 <= i < |s.log| ==> RankRespected(s.users, s.log[i])
  }

  ghost predicate Replayed(s: State) {
    BansReplayed(s) && SuspensionsReplayed(s) && LocksReplayed(s) && Ranked(s)
  }

  // --- Every run ---

  datatype Run = Initially(s: State) | Then(before: Run, actor: nat, op: Operation, clock: Clock)

  function Final(run: Run): State {
    match run
    case Initially(s) => s
    case Then(before, actor, op, clock) => Next(Final(before), actor, op, clock)
  }

  function First(run: Run): State {
    match run
    case Initially(s) => s
    case Then(before, _, _, _) => First(before)
  }

  ghost predicate IsRun(run: Run) {
    match run
    case Initially(s) =>
      && s.log == []
      && (forall u :: u in s.users ==>
        s.users[u].bannedAt == s.users[u].suspendedAt == s.users[u].suspensionExpiresAt == None)
      && (forall c :: c in s.channels ==> s.channels[c].lockedAt == None)
    case Then(before, actor, op, clock) => IsRun(before) && Ordered(clock)
  }

  /** The one record a successful operation adds. */
  lemma LogAppend(log: seq<Record>, r: Record)
    ensures BanEvents(log + [r]) == BanEvents(log) + BanEventsOf(r)
    ensures LockEvents(log + [r]) == LockEvents(log) + LockEventsOf(r)
    ensures forall u: nat :: StandingSuspension(log + [r], u) ==
              if r.targetUser == Some(u) && r.action == UserSuspend then Some(r)
              else if r.targetUser == Some(u) && r.action == UserUnsuspend then None
              else StandingSuspension(log, u)
  {
    assert (log + [r])[..|log|] == log;
  }

  predicate Targets(r: Record, user: nat, kind: Kind) {
    r.targetUser == Some(user) && r.action == kind
  }

  /** What a record's operation did to the ban of every user. */
  ghost predicate BanEffect(s: State, s': State, r: Record) {
    && s'.log == s.log + [r] && s'.users.Keys == s.users.Keys
    && (r.action in {UserBan, UserUnban} ==>
          r.targetUser.Some? && r.targetUser.value in s.users
          && s.users[r.targetUser.value].bannedAt.Some? == (r.action == UserUnban))
    && forall u :: u in s.users ==>
         (s'.users[u].bannedAt.Some? <==>
            Targets(r, u, UserBan) || (!Targets(r, u, UserUnban) && s.users[u].bannedAt.Some?))
  }

  lemma StepBans(s: State, actor: nat, op: Operation, clock: Clock)
    ensures var s' := Next(s, actor, op, clock);
            s' == s || (|s'.log| == |s.log| + 1 && BanEffect(s, s', s'.log[|s.log|]))
  {
  }

  lemma BanFollows(s: State, s': State, r: Record)
    requires BansReplayed(s) && BanEffect(s, s', r)
    ensures BansReplayed(s')
  {
    LogAppend(s.log, r);
    if r.action in {UserBan, UserUnban} {
      AppendFlip(BanEvents(s.log), Event(r.targetUser.value, r.action == UserBan));
    } else {
      assert BanEvents(s'.log) == BanEvents(s.log);
    }
  }

  lemma {:induction false} BanStep(s: State, actor: nat, op: Operation, clock: Clock)
    requires BansReplayed(s)
    ensures BansReplayed(Next(s, actor, op, clock))
  {
    var s' := Next(s, actor, op, clock);
    StepBans(s, actor, op, clock);
    if s' != s {
      BanFollows(s, s', s'.log[|s.log|]);
    }
  }

  predicate Turns(r: Record, channel: nat, kind: Kind) {
    r.targetChannel == Some(channel) && r.action == kind
  }

  /** What a record's operation did to the lock of every channel. */
  ghost predicate LockEffect(s: State, s': State, r: Record) {
    && s'.log == s.log + [r] && s'.channels.Keys == s.channels.Keys
    && (r.action in {ChannelLock, ChannelUnlock} ==>
          r.targetChannel.Some? && r.targetChannel.value in s.channels
          && s.channels[r.targetChannel.value].lockedAt.Some? == (r.action == ChannelUnlock))
    && forall c :: c in s.channels ==>
         (s'.channels[c].lockedAt.Some? <==>
            Turns(r, c, ChannelLock) || (!Turns(r, c, ChannelUnlock) && s.channels[c].lockedAt.Some?))
  }

  lemma StepLocks(s: State, actor: nat, op: Operation, clock: Clock)
    ensures var s' := Next(s, actor, op, clock);
            s' == s || (|s'.log| == |s.log| + 1 && LockEffect(s, s', s'.log[|s.log|]))
  {
  }

  lemma LockFollows(s: State, s': State, r: Record)
    requires LocksReplayed(s) && LockEffect(s, s', r)
    ensures LocksReplayed(s')
  {
    LogAppend(s.log, r);
    if r.action in {ChannelLock, ChannelUnlock} {
      AppendFlip(LockEvents(s.log), Event(r.targetChannel.value, r.action == ChannelLock));
    } else {
      assert LockEvents(s'.log) == LockEvents(s.log);
    }
  }

  lemma LockStep(s: State, actor: nat, op: Operation, clock: Clock)
    requires LocksReplayed(s)
    ensures LocksReplayed(Next(s, actor, op, clock))
  {
    var s' := Next(s, actor, op, clock);
    StepLocks(s, actor, op, clock);
    if s' != s {
      LockFollows(s, s', s'.log[|s.log|]);
    }
  }

  /** What a record's operation did to the suspension of every user. */
  ghost predicate SuspensionEffect(s: State, s': State, r: Record) {
    && s'.log == s.log + [r] && s'.users.Keys == s.users.Keys
    && forall u :: u in s.users ==>
         if Targets(r, u, UserSuspend) then SuspensionMatches(s'.users[u], Some(r))
         else if Targets(r, u, UserUnsuspend) then SuspensionMatches(s'.users[u], None)
         else
           && s'.users[u].suspendedAt == s.users[u].suspendedAt
           && s'.users[u].suspensionExpiresAt == s.users[u].suspensionExpiresAt
  }

  lemma StepSuspends(s: State, actor: nat, op: Operation, clock: Clock)
    requires Ordered(clock)
    ensures var s' := Next(s, actor, op, clock);
            s' == s || (|s'.log| == |s.log| + 1 && SuspensionEffect(s, s', s'.log[|s.log|]))
  {
  }

  lemma SuspensionFollows(s: State, s': State, r: Record)
    requires SuspensionsReplayed(s) && SuspensionEffect(s, s', r)
    ensures SuspensionsReplayed(s')
  {
    LogAppend(s.log, r);
    forall u | u in s'.users ensures SuspensionMatches(s'.users[u], StandingSuspension(s'.log, u)) {
      assert SuspensionMatches(s.users[u], StandingSuspension(s.log, u));
    }
  }

  lemma SuspensionStep(s: State, actor: nat, op: Operation, clock: Clock)
    requires SuspensionsReplayed(s) && Ordered(clock)
    ensures SuspensionsReplayed(Next(s, actor, op, clock))
  {
    var s' := Next(s, actor, op, clock);
    StepSuspends(s, actor, op, clock);
    if s' != s {
      SuspensionFollows(s, s', s'.log[|s.log|]);
    }
  }

  /** Roles stay, and the record respects them. */
  ghost predicate RankEffect(s: State, s': State, r: Record) {
    && s'.log == s.log + [r] && s'.users.Keys == s.users.Keys
    && (forall u :: u in s.users ==> s'.users[u].role == s.users[u].role)
    && RankRespected(s.users, r)
  }

  lemma StepRanks(s: State, actor: nat, op: Operation, clock: Clock)
    ensures var s' := Next(s, actor, op, clock);
            s' == s || (|s'.log| == |s.log| + 1 && RankEffect(s, s', s'.log[|s.log|]))
  {
  }

  lemma RankFollows(s: State, s': State, r: Record)
    requires Ranked(s) && RankEffect(s, s', r)
    ensures Ranked(s')
  {
    forall i | 0 <= i < |s'.log| ensures RankRespected(s'.users, s'.log[i]) {
      assert i < |s.log| ==> s'.log[i] == s.log[i] && RankRespected(s.users, s.log[i]);
    }
  }

  lemma RankStep(s: State, actor: nat, op: Operation, clock: Clock)
    requires Ranked(s)
    ensures Ranked(Next(s, actor, op, clock))
  {
    var s' := Next(s, actor, op, clock);
    StepRanks(s, actor, op, clock);
    if s' != s {
      RankFollows(s, s', s'.log[|s.log|]);
    }
  }

  lemma {:induction false} RunReplayed(run: Run)
    requires IsRun(run)
    ensures Replayed(Final(run))
  {
    match run
    case Initially(s) =>
    case Then(before, actor, op, clock) =>
      RunReplayed(before);
      BanStep(Final(before), actor, op, clock);
      LockStep(Final(before), actor, op, clock);
      SuspensionStep(Final(before), actor, op, clock);
      RankStep(Final(before), actor, op, clock);
  }

  /**
   After any run the users' bans and suspensions and the channels' locks are what a replay of the
   audit log says; bans and releases of a user alternate, and so do locks and unlocks of a channel.
   */
  lemma {:induction false} LogDeterminesState(run: Run)
    requires IsRun(run)
    ensures var s := Final(run);
            && (forall u :: Alternates(Trace(BanEvents(s.log), u)))
            && (forall c :: Alternates(Trace(LockEvents(s.log), c)))
            && (forall u :: u in s.users ==> (s.users[u].bannedAt.Some? <==> IsUp(BanEvents(s.log), u)))
            && (forall u :: u in s.users ==> SuspensionMatches(s.users[u], StandingSuspension(s.log, u)))
            && (forall c :: c in s.channels ==> (s.channels[c].lockedAt.Some? <==> IsUp(LockEvents(s.log), c)))
  {
    RunReplayed(run);
  }

  lemma UntargetedStep(log: seq<Record>, r: Record, user: nat)
    requires OnUserKind(r.action) ==> r.targetUser != Some(user)
    ensures Trace(BanEvents(log + [r]), user) == Trace(BanEvents(log), user)
    ensures StandingSuspension(log + [r], user) == StandingSuspension(log, user)
  {
    LogAppend(log, r);
    if BanEventsOf(r) == [] {
      assert BanEvents(log + [r]) == BanEvents(log);
    } else {
      TraceAppend(BanEvents(log), BanEventsOf(r)[0], user);
      assert BanEventsOf(r) == [BanEventsOf(r)[0]];
    }
  }

  lemma {:induction false} NeverTargeted(log: seq<Record>, user: nat)
    requires forall i :: 0 <= i < |log| && OnUserKind(log[i].action) ==> log[i].targetUser != Some(user)
    ensures !IsUp(BanEvents(log), user) && Trace(BanEvents(log), user) == []
    ensures StandingSuspension(log, user) == None
  {
    if log != [] {
      var before, r := log[..|log| - 1], log[|log| - 1];
      NeverTargeted(before, user);
      UntargetedStep(before, r, user);
      assert log == before + [r];
    }
  }

  /**
   Warnings, suspensions, bans and releases follow rank, so an administrator is never the target of one.
   Removals from channels do not follow rank and are not meant here.
   */
  lemma {:induction false} AdminsUntouched(run: Run, admin: nat)
    requires IsRun(run) && admin in Final(run).users && Final(run).users[admin].role == Admin
    ensures var s := Final(run);
            && (forall i :: 0 <= i < |s.log| ==> RankRespected(s.users, s.log[i]))
            && (forall i :: 0 <= i < |s.log| && OnUserKind(s.log[i].action) ==> s.log[i].targetUser != Some(admin))
            && s.users[admin].bannedAt == None && s.users[admin].suspendedAt == None
  {
    RunReplayed(run);
    var s := Final(run);
    assert forall i :: 0 <= i < |s.log| ==> RankRespected(s.users, s.log[i]);
    NeverTargeted(s.log, admin);
  }

  // --- Removals from channels ---

  /** Whatever the record is about, the user it names ranks below its author. */
  predicate TargetRanked(users: map<nat, User>, r: Record) {
    r.targetUser.Some? ==>
      && r.targetUser.value in users && r.moderator in users
      && Outranks(users[r.moderator].role, users[r.targetUser.value].role)
  }

  /** A removal that will succeed, of somebody who does not rank below the actor. */
  predicate RemovesUpward(s: State, actor: nat, op: Operation, clock: Clock) {
    && op.RemoveMember? && Apply(s, actor, op, clock).Ok?
    && actor in s.users && op.target in s.users
    && !Outranks(s.users[actor].role, s.users[op.target].role)
  }

  predicate RemovesDownOnly(run: Run) {
    run.Then? ==> RemovesDownOnly(run.before) && !RemovesUpward(Final(run.before), run.actor, run.op, run.clock)
  }

  ghost predicate AllTargetsRanked(s: State) {
    forall i :: 0 <= i < |s.log| ==> TargetRanked(s.users, s.log[i])
  }

  /** What a step does to the roles and which rank its record shows. */
  ghost predicate TargetEffect(s: State, s': State, r: Record, upward: bool) {
    && s'.log == s.log + [r] && s'.users.Keys == s.users.Keys
    && (forall u :: u in s.users ==> s'.users[u].role == s.users[u].role)
    && (TargetRanked(s.users, r) <==> !upward)
  }

  lemma StepTargets(s: State, actor: nat, op: Operation, clock: Clock)
    ensures var s', upward := Next(s, actor, op, clock), RemovesUpward(s, actor, op, clock);
            || (s' == s && !upward)
            || (|s'.log| == |s.log| + 1 && TargetEffect(s, s', s'.log[|s.log|], upward))
  {
  }

  lemma TargetsFollow(s: State, s': State, r: Record, upward: bool)
    requires TargetEffect(s, s', r, upward)
    ensures AllTargetsRanked(s') <==> AllTargetsRanked(s) && !upward
  {
    assert forall i :: 0 <= i < |s.log| ==>
        s'.log[i] == s.log[i] && (TargetRanked(s'.users, s.log[i]) <==> TargetRanked(s.users, s.log[i]));
    assert s'.log[|s.log|] == r && (TargetRanked(s'.users, r) <==> TargetRanked(s.users, r));
  }

  /**
   Every record that names a user was written by somebody of strictly higher rank if and only if no
   successful removal from a channel had a target of the actor's own rank or above.
   */
  lemma {:induction false} TargetsRankedIff(run: Run)
    requires IsRun(run)
    ensures AllTargetsRanked(Final(run)) <==> RemovesDownOnly(run)
  {
    if run.Then? {
      var s, s' := Final(run.before), Final(run);
      TargetsRankedIff(run.before);
      StepTargets(s, run.actor, run.op, run.clock);
      if s' != s {
        TargetsFollow(s, s', s'.log[|s.log|], RemovesUpward(s, run.actor, run.op, run.clock));
      }
    }
  }

  /** A run in which they do not: a moderator removes an administrator from a channel. */
  lemma AdminRemoved() returns (run: Run)
    ensures IsRun(run) && !RemovesDownOnly(run)
    ensures var users := Final(run).users;
            0 in users && users[0].role == Moderator && 1 in users && users[1].role == Admin
    ensures Final(run).log == [Record(RemoveFromChannel, 0, Some(1), Some(7), None, None, 0)]
  {
    var moderator := User(Moderator, true, true, None, None, None);
    var s := State(map[0 := moderator, 1 := moderator.(role := Admin)], map[7 := Channel(None, None)],
                   map[(7, 1) := ChannelMember], map[], []);
    run := Then(Initially(s), 0, RemoveMember(1, 7), Clock(0, 0, 0, 0));
  }

  // --- Restricted actors ---

  /** The author's rights were read at this time when record i was written. */
  function AuthorizedAt(run: Run, i: nat): int
    requires i < |Final(run).log|
  {
    if run.Then? && i < |Final(run.before).log| then AuthorizedAt(run.before, i)
    else if run.Then? then run.clock.authorize
    else 0
  }

  /** By the log up to record i its author was neither banned nor under a suspension that lasts beyond now. */
  predicate ActedFreely(log: seq<Record>, i: nat, now: int)
    requires i < |log|
  {
    && !IsUp(BanEvents(log[..i]), log[i].moderator)
    && (var standing := StandingSuspension(log[..i], log[i].moderator);
        standing.None? || (standing.value.expiresAt.Some? && standing.value.expiresAt.value <= now))
  }

  lemma ActsFreely(s: State, actor: nat, op: Operation, clock: Clock)
    requires BansReplayed(s) && SuspensionsReplayed(s)
    ensures var s' := Next(s, actor, op, clock);
            || s' == s
            || (&& s'.log[..|s.log|] == s.log && |s'.log| == |s.log| + 1
                && ActedFreely(s'.log, |s.log|, clock.authorize))
  {
    var s' := Next(s, actor, op, clock);
    if s' != s {
      assert s'.log[..|s.log|] == s.log;
      assert s'.log[|s.log|].moderator == actor && CanModerate(s, actor, clock.authorize);
      assert SuspensionMatches(s.users[actor], StandingSuspension(s.log, actor));
    }
  }

  /** Nobody moderates while banned or suspended: the log itself shows it. */
  lemma {:induction false} RestrictedNeverAct(run: Run, i: nat)
    requires IsRun(run) && i < |Final(run).log|
    ensures ActedFreely(Final(run).log, i, AuthorizedAt(run, i))
  {
    if run.Then? {
      var s := Final(run.before);
      RunReplayed(run.before);
      ActsFreely(s, run.actor, run.op, run.clock);
      if i < |s.log| {
        RestrictedNeverAct(run.before, i);
        assert Final(run).log[..|s.log|][..i] == Final(run).log[..i];
        assert s.log[i] == Final(run).log[..|s.log|][i];
      }
    }
  }

  // --- Memberships and messages ---

  predicate Removed(log: seq<Record>, channel: nat, user: nat) {
    exists i :: 0 <= i < |log| && Removes(log[i], channel, user)
  }

  predicate Erased(log: seq<Record>, message: nat) {
    exists i :: 0 <= i < |log| && Erases(log[i], message)
  }

  predicate MembershipFollows(first: State, s: State, channel: nat, user: nat) {
    var key := (channel, user);
    if key in first.memberships && !Removed(s.log, channel, user)
    then key in s.memberships && s.memberships[key] == first.memberships[key]
    else key !in s.memberships
  }

  predicate MessageFollows(first: State, s: State, message: nat)
    requires message in first.messages
  {
    && message in s.messages
    && if first.messages[message].deletedAt.None? && Erased(s.log, message)
       then s.messages[message].deletedAt.Some?
       else s.messages[message] == first.messages[message]
  }

  lemma ErasedAppend(log: seq<Record>, r: Record, message: nat)
    ensures Erased(log + [r], message) <==> Erased(log, message) || Erases(r, message)
  {
    var all := log + [r];
    if Erased(log, message) {
      var i :| 0 <= i < |log| && Erases(log[i], message);
      assert all[i] == log[i];
    }
    assert all[|log|] == r;
  }

  lemma RemovedAppend(log: seq<Record>, r: Record, channel: nat, user: nat)
    ensures Removed(log + [r], channel, user)
       <==> Removed(log, channel, user) || Removes(r, channel, user)
  {
    var all := log + [r];
    if Removed(log, channel, user) {
      var i :| 0 <= i < |log| && Removes(log[i], channel, user);
      assert all[i] == log[i];
    }
    assert all[|log|] == r;
  }

  predicate Removes(r: Record, channel: nat, user: nat) {
    r.action == RemoveFromChannel && r.targetChannel == Some(channel) && r.targetUser == Some(user)
  }

  predicate Erases(r: Record, message: nat) {
    r.action == MessageDelete && r.targetMessage == Some(message)
  }

  lemma StepRemoves(s: State, actor: nat, op: Operation, clock: Clock, channel: nat, user: nat)
    ensures var s', key := Next(s, actor, op, clock), (channel, user);
            || s' == s
            || (&& |s'.log| == |s.log| + 1 && s'.log == s.log + [s'.log[|s.log|]]
                && if Removes(s'.log[|s.log|], channel, user)
                   then key in s.memberships && s.memberships[key] != ChannelOwner && key !in s'.memberships
                   else (key in s'.memberships) == (key in s.memberships)
                        && (key in s.memberships ==> s'.memberships[key] == s.memberships[key]))
  {
  }

  lemma StepErases(s: State, actor: nat, op: Operation, clock: Clock, message: nat)
    requires message in s.messages
    ensures var s' := Next(s, actor, op, clock);
            || s' == s
            || (&& |s'.log| == |s.log| + 1 && s'.log == s.log + [s'.log[|s.log|]]
                && message in s'.messages
                && if Erases(s'.log[|s.log|], message) && s.messages[message].deletedAt.None?
                   then s'.messages[message].deletedAt.Some?
                   else s'.messages[message] == s.messages[message])
  {
  }

  /** After any run a membership is gone exactly when the log says it was removed, and an owner's never is. */
  lemma {:induction false} LogDeterminesMembership(run: Run, channel: nat, user: nat)
    requires IsRun(run)
    ensures MembershipFollows(First(run), Final(run), channel, user)
    ensures (channel, user) in First(run).memberships && First(run).memberships[(channel, user)] == ChannelOwner ==>
              !Removed(Final(run).log, channel, user)
  {
    if run.Then? {
      var s, s' := Final(run.before), Final(run);
      LogDeterminesMembership(run.before, channel, user);
      StepRemoves(s, run.actor, run.op, run.clock, channel, user);
      if s' != s {
        RemovedAppend(s.log, s'.log[|s.log|], channel, user);
      }
    }
  }

  /** After any run a message is marked deleted exactly when the log says so; one deleted earlier keeps its time. */
  lemma {:induction false} LogDeterminesMessage(run: Run, message: nat)
    requires IsRun(run) && message in First(run).messages
    ensures MessageFollows(First(run), Final(run), message)
  {
    if run.Then? {
      var s, s' := Final(run.before), Final(run);
      LogDeterminesMessage(run.before, message);
      StepErases(s, run.actor, run.op, run.clock, message);
      if s' != s {
        ErasedAppend(s.log, s'.log[|s.log|], message);
      }
    }
  }
}
