/**
 The typing indicator of app/presence/typing_manager.py: which users are typing where, from which
 sockets, with one timeout per (user, context). Every region under the manager's lock is one step;
 the announcements ("user_typing", "user_stopped_typing") are logged in the order of those regions.
 */
module Typing {
  import opened Common
  import opened Alternation

  datatype ContextType = Channel | Conversation

  datatype Key = Key(user: nat, contextType: ContextType, contextId: nat)

  /** A threading.Timer: once started it is armed until it is cancelled or it fires. */
  datatype TimerStatus = Armed | Cancelled | Fired

  datatype Timer = Timer(key: Key, deadline: int, status: TimerStatus)

  /** An entry of the manager's table; a timer is referred to by its index in the list of timers. */
  datatype TypingState = TypingState(sources: set<string>, timer: Option<nat>)

  datatype State = State(
    timeout: nat,
    states: map<Key, TypingState>,
    timers: seq<Timer>,
    announced: seq<Event<Key>>)

  function Sources(states: map<Key, TypingState>, key: Key): set<string> {
    if key in states then states[key].sources else {}
  }

  predicate IsTyping(s: State, key: Key) {
    Sources(s.states, key) != {}
  }

  // --- Timers ---

  /** Timer.cancel on each of the handles: no effect on a timer that has already fired. */
  function CancelAll(timers: seq<Timer>, handles: set<nat>): (r: seq<Timer>)
    ensures |r| == |timers|
    ensures forall h :: 0 <= h < |r| ==>
              r[h] == if h in handles && timers[h].status == Armed then timers[h].(status := Cancelled) else timers[h]
  {
    seq(|timers|, h requires 0 <= h < |timers| =>
      if h in handles && timers[h].status == Armed then timers[h].(status := Cancelled) else timers[h])
  }

  function HandlesOf(states: map<Key, TypingState>, keys: set<Key>): set<nat> {
    set key | key in keys && key in states && states[key].timer.Some? :: states[key].timer.value
  }

  lemma HandlesOfKey(states: map<Key, TypingState>, key: Key)
    ensures HandlesOf(states, {key})
         == if key in states && states[key].timer.Some? then {states[key].timer.value} else {}
  {
  }

  // --- The four lock regions as functions of the state ---

  function AfterStart(s: State, now: int, key: Key, socket: string): State {
    s.(
    states := s.states[key := TypingState(Sources(s.states, key) + {socket}, Some(|s.timers|))],
    timers := CancelAll(s.timers, HandlesOf(s.states, {key})) + [Timer(key, now + s.timeout, Armed)],
    announced := if IsTyping(s, key) then s.announced else s.announced + [Event(key, true)])
  }

  /** The socket stops being a source of the key. */
  function AfterStop(s: State, key: Key, socket: string): State {
    if key !in s.states then s
    else
      var state := s.states[key].(sources := s.states[key].sources - {socket});
      if state.sources != {} then s.(states := s.states[key := state])
      else s.(
           states := s.states - {key},
           timers := CancelAll(s.timers, HandlesOf(s.states, {key})),
           announced := s.announced + [Event(key, false)])
  }

  /** The keys that lose their last source when the socket is discarded from the given keys. */
  function Emptied(states: map<Key, TypingState>, keys: set<Key>, socket: string): set<Key> {
    set key | key in keys && key in states && states[key].sources - {socket} == {}
  }

  function Discard(states: map<Key, TypingState>, keys: set<Key>, socket: string): map<Key, TypingState> {
    map key | key in states && key !in Emptied(states, keys, socket) ::
      if key in keys then states[key].(sources := states[key].sources - {socket}) else states[key]
  }

  /** The socket leaves all the given keys at once; stopped lists those it was the last source of. */
  function AfterDiscard(s: State, keys: set<Key>, socket: string, stopped: seq<Key>): State {
    s.(
    states := Discard(s.states, keys, socket),
    timers := CancelAll(s.timers, HandlesOf(s.states, Emptied(s.states, keys, socket))),
    announced := s.announced + DownEvents(stopped))
  }

  predicate Lists(stopped: seq<Key>, keys: set<Key>) {
    Distinct(stopped) && Elements(stopped) == keys
  }

  function AfterExpire(s: State, key: Key): State {
    if key !in s.states then s
    else s.(states := s.states - {key}, announced := s.announced + [Event(key, false)])
  }

  lemma DiscardStep(s: State, done: set<Key>, key: Key, socket: string, stopped: seq<Key>)
    requires key in s.states && key !in done
    requires Lists(stopped, Emptied(s.states, done, socket))
    ensures var mid := AfterDiscard(s, done, socket, stopped);
            var emptied := s.states[key].sources - {socket} == {};
            var stopped' := if emptied then stopped + [key] else stopped;
            && key in mid.states && mid.states[key] == s.states[key]
            && Lists(stopped', Emptied(s.states, done + {key}, socket))
            && AfterStop(mid, key, socket) == AfterDiscard(s, done + {key}, socket, stopped')
  {
    var mid := AfterDiscard(s, done, socket, stopped);
    var emptied := s.states[key].sources - {socket} == {};
    var before, after := Emptied(s.states, done, socket), Emptied(s.states, done + {key}, socket);
    assert after == if emptied then before + {key} else before;
    assert AfterStop(mid, key, socket).states == Discard(s.states, done + {key}, socket);
    if emptied {
      assert Elements(stopped + [key]) == Elements(stopped) + {key};
      assert key !in Elements(stopped);
      assert HandlesOf(s.states, after) == HandlesOf(s.states, before) + HandlesOf(mid.states, {key});
      assert DownEvents(stopped + [key]) == DownEvents(stopped) + [Event(key, false)];
    }
  }

  // --- The manager itself ---

  class TypingManager {
    var timeoutSeconds: nat
    var states: map<Key, TypingState>
    /** Every timer the manager has started; the threads that will run _expire. */
    var timers: seq<Timer>
    ghost var announced: seq<Event<Key>>

    ghost function View(): State
      reads this
    {
      State(timeoutSeconds, states, timers, announced)
    }

    /** Handles point at started timers. */
    ghost predicate Valid()
      reads this
    {
      forall key :: key in states && states[key].timer.Some? ==> states[key].timer.value < |timers|
    }

    constructor (timeout: nat)
      ensures Valid() && View() == State(timeout, map[], [], [])
    {
      timeoutSeconds, states, timers := timeout, map[], [];
      announced := [];
    }

    method Cancel(handle: nat)
      requires handle < |timers|
      modifies this`timers
      ensures timers == CancelAll(old(timers), {handle})
    {
      if timers[handle].status == Armed {
        timers := timers[handle := timers[handle].(status := Cancelled)];
      }
    }

    /** The part of start that cancels the entry's timer, if it has one, and starts the next. */
    method ReplaceTimer(key: Key, handle: Option<nat>, deadline: int)
      requires handle.Some? ==> handle.value < |timers|
      modifies this`timers
      ensures timers ==
              CancelAll(old(timers), if handle.Some? then {handle.value} else {}) + [Timer(key, deadline, Armed)]
    {
      if handle.Some? {
        Cancel(handle.value);
      }
      timers := timers + [Timer(key, deadline, Armed)];
    }

    method Start(now: int, user: nat, socket: string, contextType: ContextType, contextId: nat)
      returns (becameTyping: bool)
      requires Valid()
      modifies this
      ensures Valid()
      ensures View() == AfterStart(old(View()), now, Key(user, contextType, contextId), socket)
      ensures becameTyping == !IsTyping(old(View()), Key(user, contextType, contextId))
    {
      var key := Key(user, contextType, contextId);
      var state := if key in states then states[key] else TypingState({}, None);
      becameTyping := state.sources == {};
      HandlesOfKey(states, key);
      ReplaceTimer(key, state.timer, now + timeoutSeconds);
      states := states[key := TypingState(state.sources + {socket}, Some(|timers| - 1))];
      if becameTyping {
        announced := announced + [Event(key, true)];
      }
    }

    method Stop(user: nat, socket: string, contextType: ContextType, contextId: nat) returns (stopped: bool)
      requires Valid()
      modifies this
      ensures Valid()
      ensures stopped == (Key(user, contextType, contextId) in Emptied(old(states), old(states).Keys, socket))
      ensures View() == AfterStop(old(View()), Key(user, contextType, contextId), socket)
    {
      var key := Key(user, contextType, contextId);
      if key !in states {
        return false;
      }
      stopped := DiscardSource(key, socket);
    }

    /** The part of stop and cleanup_socket that handles one entry of the table. */
    method DiscardSource(key: Key, socket: string) returns (emptied: bool)
      requires Valid() && key in states
      modifies this
      ensures Valid()
      ensures emptied == (old(states[key].sources) - {socket} == {})
      ensures View() == AfterStop(old(View()), key, socket)
    {
      var state := states[key].(sources := states[key].sources - {socket});
      if state.sources != {} {
        states := states[key := state];
        return false;
      }
      if state.timer.Some? {
        Cancel(state.timer.value);
        assert HandlesOf(old(states), {key}) == {state.timer.value};
      } else {
        assert HandlesOf(old(states), {key}) == {};
      }
      states := states - {key};
      announced := announced + [Event(key, false)];
      return true;
    }

    /** The loop visits the table's entries in some order; the result lists the keys it emptied. */
    method CleanupSocket(socket: string) returns (stopped: seq<Key>)
      requires Valid()
      modifies this
      ensures Valid()
      ensures Lists(stopped, Emptied(old(states), old(states).Keys, socket))
      ensures View() == AfterDiscard(old(View()), old(states).Keys, socket, stopped)
    {
      stopped := [];
      var pending := states.Keys;
      ghost var done: set<Key> := {};
      while pending != {}
        invariant Valid()
        invariant done !! pending && done + pending == old(states).Keys
        invariant Lists(stopped, Emptied(old(states), done, socket))
        invariant View() == AfterDiscard(old(View()), done, socket, stopped)
        decreases pending
      {
        var key :| key in pending;
        DiscardStep(old(View()), done, key, socket, stopped);
        var emptied := DiscardSource(key, socket);
        pending := pending - {key};
        done := done + {key};
        if emptied {
          stopped := stopped + [key];
        }
      }
    }

    method Expire(key: Key)
      requires Valid()
      modifies this
      ensures Valid()
      ensures View() == AfterExpire(old(View()), key)
      ensures key !in states && forall k :: k != key && k in old(states) ==> k in states && states[k] == old(states)[k]
      ensures announced == if key in old(states) then old(announced) + [Event(key, false)] else old(announced)
    {
      if key !in states {
        return;
      }
      states := states - {key};
      announced := announced + [Event(key, false)];
    }
  }

  // --- Any interleaving, stale expiries included ---

  /**
   One lock region. Expire may come from any timer ever started, also from one that was cancelled
   while its _expire already waited for the lock, so it is allowed at any moment and for any key.
   */
  datatype Action =
    | Start(now: int, key: Key, socket: string)
    | Stop(key: Key, socket: string)
    | Cleanup(socket: string, stopped: seq<Key>)
    | Expire(key: Key)

  ghost predicate Allowed(s: State, a: Action) {
    a.Cleanup? ==> Lists(a.stopped, Emptied(s.states, s.states.Keys, a.socket))
  }

  function Apply(s: State, a: Action): State {
    match a
    case Start(now, key, socket) => AfterStart(s, now, key, socket)
    case Stop(key, socket) => AfterStop(s, key, socket)
    case Cleanup(socket, stopped) => AfterDiscard(s, s.states.Keys, socket, stopped)
    case Expire(key) => AfterExpire(s, key)
  }

  function Fresh(timeout: nat): State {
    State(timeout, map[], [], [])
  }

  ghost predicate Reaches(s: State, run: seq<Action>, s': State)
    decreases |run|
  {
    if run == [] then s == s'
    else Allowed(s, run[0]) && Reaches(Apply(s, run[0]), run[1..], s')
  }

  ghost predicate Coherent(s: State) {
    && AllAlternate(s.announced)
    && (forall key :: IsUp(s.announced, key) == (key in s.states))
    && (forall key :: key in s.states ==> s.states[key].sources != {})
  }

  lemma StepCoherent(s: State, a: Action)
    requires Coherent(s) && Allowed(s, a)
    ensures Coherent(Apply(s, a))
  {
    match a
    case Start(now, key, socket) =>
      if !IsTyping(s, key) { AppendFlip(s.announced, Event(key, true)); }
    case Stop(key, socket) =>
      if key in s.states && s.states[key].sources - {socket} == {} {
        AppendFlip(s.announced, Event(key, false));
      }
    case Cleanup(socket, stopped) =>
      assert forall key :: key in stopped <==> key in Elements(stopped);
      AppendDowns(s.announced, stopped);
    case Expire(key) =>
      if key in s.states { AppendFlip(s.announced, Event(key, false)); }
  }

  lemma {:induction false} RunCoherent(s: State, run: seq<Action>, s': State)
    requires Coherent(s) && Reaches(s, run, s')
    ensures Coherent(s')
    decreases |run|
  {
    if run != [] {
      StepCoherent(s, run[0]);
      RunCoherent(Apply(s, run[0]), run[1..], s');
    }
  }

  /**
   Whatever the interleaving, the announcements about each key are started, stopped, started, ...;
   is_typing answers true exactly when the last one was "started"; no entry is left without sources.
   */
  lemma AnnouncementsAlternate(timeout: nat, run: seq<Action>, s: State)
    requires Reaches(Fresh(timeout), run, s)
    ensures forall key :: Alternates(Trace(s.announced, key))
    ensures forall key :: IsTyping(s, key) <==> IsUp(s.announced, key)
    ensures forall key :: key in s.states ==> s.states[key].sources != {}
  {
    RunCoherent(Fresh(timeout), run, s);
  }

  // --- Who the sources are ---

  /** Whether the socket counts as a source of the key after the action, if was says so before it. */
  predicate StillTyping(was: bool, a: Action, key: Key, socket: string) {
    match a
    case Start(_, k, started) => was || (k == key && started == socket)
    case Stop(k, stopped) => was && !(k == key && stopped == socket)
    case Cleanup(gone, _) => was && gone != socket
    case Expire(k) => was && k != key
  }

  /** The socket started typing at the key and has since been neither stopped, cleaned up nor expired. */
  predicate IsSource(was: bool, run: seq<Action>, key: Key, socket: string)
    decreases |run|
  {
    if run == [] then was else IsSource(StillTyping(was, run[0], key, socket), run[1..], key, socket)
  }

  lemma StepSources(s: State, a: Action, key: Key, socket: string)
    requires Allowed(s, a)
    ensures socket in Sources(Apply(s, a).states, key)
        <==> StillTyping(socket in Sources(s.states, key), a, key, socket)
  {
  }

  lemma {:induction false} RunSources(s: State, run: seq<Action>, s': State, key: Key, socket: string)
    requires Reaches(s, run, s')
    ensures socket in Sources(s'.states, key) <==> IsSource(socket in Sources(s.states, key), run, key, socket)
    decreases |run|
  {
    if run != [] {
      StepSources(s, run[0], key, socket);
      RunSources(Apply(s, run[0]), run[1..], s', key, socket);
    }
  }

  /** The table against the run, for one key. */
  ghost predicate SourcesTold(s: State, run: seq<Action>, key: Key) {
    && (forall socket :: socket in Sources(s.states, key) <==> IsSource(false, run, key, socket))
    && (key in s.states ==> s.states[key].sources != {})
  }

  lemma {:induction false} RunTold(timeout: nat, run: seq<Action>, s: State, key: Key)
    requires Reaches(Fresh(timeout), run, s)
    ensures SourcesTold(s, run, key)
  {
    RunCoherent(Fresh(timeout), run, s);
    forall socket ensures socket in Sources(s.states, key) <==> IsSource(false, run, key, socket) {
      RunSources(Fresh(timeout), run, s, key, socket);
    }
  }

  ghost predicate SomeSource(run: seq<Action>, key: Key) {
    exists socket :: IsSource(false, run, key, socket)
  }

  /** Somebody is typing at the key, and only from this socket. */
  ghost predicate OnlyFrom(run: seq<Action>, key: Key, socket: string) {
    SomeSource(run, key) && forall other :: IsSource(false, run, key, other) ==> other == socket
  }

  lemma SomeSourceIff(s: State, run: seq<Action>, key: Key)
    requires SourcesTold(s, run, key)
    ensures SomeSource(run, key) <==> key in s.states
  {
    if key in s.states {
      var other :| other in Sources(s.states, key);
      assert IsSource(false, run, key, other);
    }
  }

  lemma OnlyFromIff(s: State, run: seq<Action>, key: Key, socket: string)
    requires SourcesTold(s, run, key)
    ensures OnlyFrom(run, key, socket) <==> key in s.states && s.states[key].sources - {socket} == {}
  {
    SomeSourceIff(s, run, key);
    if key in s.states && s.states[key].sources - {socket} == {} {
      forall other | IsSource(false, run, key, other) ensures other == socket {
        assert other in Sources(s.states, key) && other !in s.states[key].sources - {socket};
      }
    }
  }

  /** In every interleaving the sources of a key are the sockets that the run says are typing there. */
  lemma {:induction false} SourcesExact(timeout: nat, run: seq<Action>, s: State, key: Key, socket: string)
    requires Reaches(Fresh(timeout), run, s)
    ensures socket in Sources(s.states, key) <==> IsSource(false, run, key, socket)
    ensures key in s.states <==> SomeSource(run, key)
  {
    RunTold(timeout, run, s, key);
    SomeSourceIff(s, run, key);
  }

  /** A start announces exactly when nobody was typing at the key. */
  lemma {:induction false} StartAnnounces(
    timeout: nat, run: seq<Action>, s: State, now: int, key: Key, socket: string)
    requires Reaches(Fresh(timeout), run, s)
    ensures AfterStart(s, now, key, socket).announced
         == if SomeSource(run, key) then s.announced else s.announced + [Event(key, true)]
  {
    RunTold(timeout, run, s, key);
    SomeSourceIff(s, run, key);
  }

  /** A stop announces exactly when the key was being typed at and no other socket is left. */
  lemma {:induction false} StopAnnounces(timeout: nat, run: seq<Action>, s: State, key: Key, socket: string)
    requires Reaches(Fresh(timeout), run, s)
    ensures AfterStop(s, key, socket).announced
         == if OnlyFrom(run, key, socket) then s.announced + [Event(key, false)] else s.announced
  {
    RunTold(timeout, run, s, key);
    OnlyFromIff(s, run, key, socket);
  }

  /** And the clean-up of a socket announces exactly the keys with no other socket left. */
  lemma {:induction false} CleanupAnnounces(
    timeout: nat, run: seq<Action>, s: State, socket: string, stopped: seq<Key>, key: Key)
    requires Reaches(Fresh(timeout), run, s) && Allowed(s, Cleanup(socket, stopped))
    ensures key in stopped <==> OnlyFrom(run, key, socket)
  {
    RunTold(timeout, run, s, key);
    OnlyFromIff(s, run, key, socket);
    assert key in stopped <==> key in Elements(stopped);
  }

  // --- Deadlines ---

  /**
   The manager with a clock and the history of start calls. A timer that is due runs its _expire at most
   delay later. A timer whose deadline had come when it was cancelled may be waiting for the lock already:
   late lists those, and cancelling does not stop them.
   */
  datatype Clocked = Clocked(core: State, now: int, starts: seq<(Key, int)>, delay: nat, late: set<nat>)

  datatype ClockedAction =
    | Tick(to: int)
    | Typed(key: Key, socket: string)
    | Left(key: Key, socket: string)
    | Dropped(socket: string, stopped: seq<Key>)
    | Fire(handle: nat)
    | Late(handle: nat)

  /** The time of the latest start call for the key, from any source. */
  function LatestStart(starts: seq<(Key, int)>, key: Key): Option<int> {
    if starts == [] then None
    else if starts[|starts| - 1].0 == key then Some(starts[|starts| - 1].1)
    else LatestStart(starts[..|starts| - 1], key)
  }

  /** Time does not pass an armed deadline by more than the delay, and only an armed timer that is due fires. */
  ghost predicate Enabled(c: Clocked, a: ClockedAction) {
    match a
    case Tick(to) => c.now <= to && forall t :: t in c.core.timers && t.status == Armed ==> to <= t.deadline + c.delay
    case Fire(h) => h < |c.core.timers| && c.core.timers[h].status == Armed && c.core.timers[h].deadline <= c.now
    case Late(h) => h in c.late && h < |c.core.timers|
    case Dropped(socket, stopped) => Allowed(c.core, Cleanup(socket, stopped))
    case _ => true
  }

  /** The timer is cancelled by the step to core, although its deadline has come. */
  predicate CancelledLate(c: Clocked, core: State, h: nat) {
    && h < |c.core.timers| && h < |core.timers|
    && c.core.timers[h].status == Armed && core.timers[h].status == Cancelled
    && c.core.timers[h].deadline <= c.now
  }

  function StepTo(c: Clocked, core: State): Clocked {
    c.(core := core, late := c.late + set h: nat | h < |c.core.timers| && CancelledLate(c, core, h))
  }

  function Advance(c: Clocked, a: ClockedAction): Clocked {
    match a
    case Tick(to) => c.(now := to)
    case Typed(key, socket) => StepTo(c, AfterStart(c.core, c.now, key, socket)).(starts := c.starts + [(key, c.now)])
    case Left(key, socket) => StepTo(c, AfterStop(c.core, key, socket))
    case Dropped(socket, stopped) => StepTo(c, AfterDiscard(c.core, c.core.states.Keys, socket, stopped))
    case Fire(h) =>
      if h < |c.core.timers| then
        var timer := c.core.timers[h];
        c.(core := AfterExpire(c.core.(timers := c.core.timers[h := timer.(status := Fired)]), timer.key))
      else c
    case Late(h) =>
      if h < |c.core.timers| then c.(core := AfterExpire(c.core, c.core.timers[h].key), late := c.late - {h})
      else c
  }

  /** Every timer the step cancels is cancelled before its deadline. */
  ghost predicate PromptStep(c: Clocked, a: ClockedAction) {
    forall h: nat :: !CancelledLate(c, Advance(c, a).core, h)
  }

  ghost predicate Prompt(c: Clocked, run: seq<ClockedAction>)
    decreases |run|
  {
    run == [] || (PromptStep(c, run[0]) && Prompt(Advance(c, run[0]), run[1..]))
  }

  ghost predicate Evolves(c: Clocked, run: seq<ClockedAction>, c': Clocked)
    decreases |run|
  {
    if run == [] then c == c'
    else Enabled(c, run[0]) && Evolves(Advance(c, run[0]), run[1..], c')
  }

  /** The timer of a stored key is armed and set from the key's latest start. */
  ghost predicate TimerSet(c: Clocked, key: Key) {
    key in c.core.states ==>
      && c.core.states[key].timer.Some?
      && c.core.states[key].timer.value < |c.core.timers|
      && LatestStart(c.starts, key).Some?
      && c.core.timers[c.core.states[key].timer.value]
         == Timer(key, LatestStart(c.starts, key).value + c.core.timeout, Armed)
  }

  /** An armed timer is the timer of a stored key, and not overdue. */
  ghost predicate TimerOwned(c: Clocked, h: nat) {
    h < |c.core.timers| && c.core.timers[h].status == Armed ==>
      && c.core.timers[h].key in c.core.states
      && c.core.states[c.core.timers[h].key].timer == Some(h)
      && c.now <= c.core.timers[h].deadline + c.delay
  }

  ghost predicate AllSet(c: Clocked) {
    forall key :: TimerSet(c, key)
  }

  ghost predicate Timely(c: Clocked) {
    && AllSet(c)
    && (forall h :: TimerOwned(c, h))
  }

  lemma StartSet(c: Clocked, key: Key, socket: string)
    requires AllSet(c)
    ensures AllSet(Advance(c, Typed(key, socket)))
  {
    var c' := Advance(c, Typed(key, socket));
    assert TimerSet(c, key);
    assert c'.starts[..|c.starts|] == c.starts;
    forall k ensures TimerSet(c', k) {
      assert TimerSet(c, k);
    }
  }

  lemma StopSet(c: Clocked, key: Key, socket: string)
    requires AllSet(c)
    ensures AllSet(Advance(c, Left(key, socket)))
  {
    assert TimerSet(c, key);
    forall k ensures TimerSet(Advance(c, Left(key, socket)), k) {
      assert TimerSet(c, k);
    }
  }

  lemma CleanupSet(c: Clocked, socket: string, stopped: seq<Key>)
    requires AllSet(c)
    ensures AllSet(Advance(c, Dropped(socket, stopped)))
  {
    var c' := Advance(c, Dropped(socket, stopped));
    forall key ensures TimerSet(c', key) {
      assert TimerSet(c, key);
      if key in c'.core.states {
        var h := c.core.states[key].timer.value;
        forall k | k in c.core.states && c.core.states[k].timer == Some(h) ensures k == key {
          assert TimerSet(c, k);
        }
        assert c'.core.timers[h] == c.core.timers[h];
      }
    }
  }

  /** An expiry takes its key's entry away, and no other entry's timer. */
  lemma ExpirySet(c: Clocked, a: ClockedAction)
    requires AllSet(c) && (a.Fire? || a.Late?) && Enabled(c, a)
    ensures AllSet(Advance(c, a))
  {
    forall k ensures TimerSet(Advance(c, a), k) {
      assert TimerSet(c, k);
    }
  }

  lemma StepSet(c: Clocked, a: ClockedAction)
    requires AllSet(c) && Enabled(c, a)
    ensures AllSet(Advance(c, a))
  {
    match a
    case Tick(to) => assert forall k :: TimerSet(c, k) ==> TimerSet(Advance(c, a), k);
    case Typed(key, socket) => StartSet(c, key, socket);
    case Left(key, socket) => StopSet(c, key, socket);
    case Dropped(socket, stopped) => CleanupSet(c, socket, stopped);
    case Fire(h) => ExpirySet(c, a);
    case Late(h) => ExpirySet(c, a);
  }

  /** No armed timer is overdue by more than the delay. */
  ghost predicate Punctual(c: Clocked) {
    forall h :: 0 <= h < |c.core.timers| && c.core.timers[h].status == Armed ==>
      c.now <= c.core.timers[h].deadline + c.delay
  }

  lemma StepPunctual(c: Clocked, a: ClockedAction)
    requires Punctual(c) && Enabled(c, a)
    ensures Punctual(Advance(c, a))
  {
    assert a.Tick? ==> forall h :: 0 <= h < |c.core.timers| ==> c.core.timers[h] in c.core.timers;
  }

  lemma {:induction false} RunPunctual(c: Clocked, run: seq<ClockedAction>, c': Clocked)
    requires AllSet(c) && Punctual(c) && Evolves(c, run, c')
    ensures AllSet(c') && Punctual(c')
    decreases |run|
  {
    if run != [] {
      StepSet(c, run[0]);
      StepPunctual(c, run[0]);
      RunPunctual(Advance(c, run[0]), run[1..], c');
    }
  }

  lemma StartTimely(c: Clocked, key: Key, socket: string)
    requires Timely(c)
    ensures Timely(Advance(c, Typed(key, socket)))
  {
    var c' := Advance(c, Typed(key, socket));
    StartSet(c, key, socket);
    assert TimerSet(c, key);
    forall h ensures TimerOwned(c', h) {
      assert TimerOwned(c, h);
    }
  }

  lemma StopTimely(c: Clocked, key: Key, socket: string)
    requires Timely(c)
    ensures Timely(Advance(c, Left(key, socket)))
  {
    var c' := Advance(c, Left(key, socket));
    StopSet(c, key, socket);
    assert TimerSet(c, key);
    forall h ensures TimerOwned(c', h) {
      assert TimerOwned(c, h);
    }
  }

  lemma CleanupTimely(c: Clocked, socket: string, stopped: seq<Key>)
    requires Timely(c)
    ensures Timely(Advance(c, Dropped(socket, stopped)))
  {
    var c' := Advance(c, Dropped(socket, stopped));
    CleanupSet(c, socket, stopped);
    forall h ensures TimerOwned(c', h) {
      assert TimerOwned(c, h);
    }
  }

  lemma FireTimely(c: Clocked, h: nat)
    requires Timely(c) && Enabled(c, Fire(h))
    ensures Timely(Advance(c, Fire(h)))
  {
    var c' := Advance(c, Fire(h));
    assert TimerOwned(c, h);
    ExpirySet(c, Fire(h));
    forall g: nat ensures TimerOwned(c', g) {
      assert TimerOwned(c, g);
      if g < |c.core.timers| && c.core.timers[g].status == Armed && c.core.timers[g].key == c.core.timers[h].key {
        assert g == h;
      }
    }
  }

  lemma StepTimely(c: Clocked, a: ClockedAction)
    requires Timely(c) && Coherent(c.core) && Enabled(c, a) && !a.Late?
    ensures Timely(Advance(c, a)) && Coherent(Advance(c, a).core)
  {
    match a
    case Tick(to) =>
      assert forall k :: TimerSet(c, k) ==> TimerSet(Advance(c, a), k);
      assert forall h :: TimerOwned(c, h) ==> TimerOwned(Advance(c, a), h);
    case Typed(key, socket) =>
      StepCoherent(c.core, Start(c.now, key, socket));
      StartTimely(c, key, socket);
    case Left(key, socket) =>
      StepCoherent(c.core, Stop(key, socket));
      StopTimely(c, key, socket);
    case Dropped(socket, stopped) =>
      StepCoherent(c.core, Cleanup(socket, stopped));
      CleanupTimely(c, socket, stopped);
    case Fire(h) =>
      StepCoherent(c.core, Expire(c.core.timers[h].key));
      FireTimely(c, h);
  }

  ghost predicate ArmedFor(c: Clocked, h: nat, key: Key) {
    h < |c.core.timers| && c.core.timers[h].status == Armed && c.core.timers[h].key == key
  }

  function Due(c: Clocked, key: Key): int {
    var latest := LatestStart(c.starts, key);
    (if latest.Some? then latest.value else 0) + c.core.timeout
  }

  /**
   A typing key has exactly one armed timer, set to a full timeout after its latest start and overdue by no
   more than the delay; a key that is not typing has none; and a timer that fires ends a key that is
   typing, no earlier than that deadline and no later than the delay after it.
   */
  ghost predicate ExactFor(c: Clocked, key: Key) {
    && (IsTyping(c.core, key) ==>
          && LatestStart(c.starts, key).Some?
          && c.now <= Due(c, key) + c.delay
          && exists h: nat :: ArmedFor(c, h, key) && c.core.timers[h].deadline == Due(c, key))
    && (forall h1: nat, h2: nat :: ArmedFor(c, h1, key) && ArmedFor(c, h2, key) ==> h1 == h2)
    && (!IsTyping(c.core, key) ==> forall h: nat :: !ArmedFor(c, h, key))
    && (forall h: nat :: ArmedFor(c, h, key) && Enabled(c, Fire(h)) ==>
          IsTyping(c.core, key) && Due(c, key) <= c.now && !IsTyping(Advance(c, Fire(h)).core, key))
  }

  lemma TimelyExact(c: Clocked, key: Key)
    requires Timely(c) && Coherent(c.core)
    ensures ExactFor(c, key)
  {
    assert TimerSet(c, key);
    assert forall h: nat :: ArmedFor(c, h, key) ==> TimerOwned(c, h);
    if IsTyping(c.core, key) {
      assert ArmedFor(c, c.core.states[key].timer.value, key);
    }
  }

  function Begin(timeout: nat, delay: nat, begin: int): Clocked {
    Clocked(Fresh(timeout), begin, [], delay, {})
  }

  ghost predicate InOrder(c: Clocked) {
    Timely(c) && Coherent(c.core) && forall h :: h in c.late ==> h < |c.core.timers|
  }

  /** Without late expiries a step keeps order; late cancellations are remembered. */
  lemma StepInOrder(c: Clocked, a: ClockedAction)
    requires InOrder(c) && Enabled(c, a) && !a.Late?
    ensures InOrder(Advance(c, a)) && c.late <= Advance(c, a).late
    ensures PromptStep(c, a) ==> Advance(c, a).late == c.late
    ensures !PromptStep(c, a) ==> Advance(c, a).late != {}
  {
    StepTimely(c, a);
    if !PromptStep(c, a) {
      var h: nat :| CancelledLate(c, Advance(c, a).core, h);
      assert h in Advance(c, a).late;
    }
  }

  lemma {:induction false} PromptInOrder(c: Clocked, run: seq<ClockedAction>, c': Clocked)
    requires InOrder(c) && c.late == {} && Evolves(c, run, c') && Prompt(c, run)
    ensures InOrder(c') && c'.late == {}
    decreases |run|
  {
    if run != [] {
      StepInOrder(c, run[0]);
      PromptInOrder(Advance(c, run[0]), run[1..], c');
    }
  }

  /** Deadlines are exact in every run in which each cancel comes before the deadline of its timer. */
  lemma {:induction false} DeadlinesExact(
    timeout: nat, delay: nat, begin: int, run: seq<ClockedAction>, c: Clocked, key: Key)
    requires Evolves(Begin(timeout, delay, begin), run, c) && Prompt(Begin(timeout, delay, begin), run)
    ensures ExactFor(c, key) && c.core.timeout == timeout && c.delay == delay
  {
    PromptInOrder(Begin(timeout, delay, begin), run, c);
    TimelyExact(c, key);
    TimeoutUnchanged(Begin(timeout, delay, begin), run, c);
  }

  lemma {:induction false} TimeoutUnchanged(c: Clocked, run: seq<ClockedAction>, c': Clocked)
    requires Evolves(c, run, c')
    ensures c'.core.timeout == c.core.timeout && c'.delay == c.delay
    decreases |run|
  {
    if run != [] { TimeoutUnchanged(Advance(c, run[0]), run[1..], c'); }
  }

  /**
   The half that needs no promptness: in every run, late expiries included, a typing key has been started,
   and has not outlived its latest start by more than the timeout and the delay.
   */
  lemma {:induction false} NeverTooLate(
    timeout: nat, delay: nat, begin: int, run: seq<ClockedAction>, c: Clocked, key: Key)
    requires Evolves(Begin(timeout, delay, begin), run, c)
    ensures IsTyping(c.core, key) ==>
              LatestStart(c.starts, key).Some? && c.now <= LatestStart(c.starts, key).value + timeout + delay
  {
    RunPunctual(Begin(timeout, delay, begin), run, c);
    TimeoutUnchanged(Begin(timeout, delay, begin), run, c);
    assert TimerSet(c, key);
  }

  // --- Late expiries ---

  /** A late expiry does no harm exactly when its key is not being typed at. */
  lemma LateKeepsTimelyIff(c: Clocked, h: nat)
    requires InOrder(c) && Enabled(c, Late(h))
    ensures Timely(Advance(c, Late(h))) <==> c.core.timers[h].key !in c.core.states
    ensures c.core.timers[h].key in c.core.states ==> !ExactFor(Advance(c, Late(h)), c.core.timers[h].key)
  {
    var c', key := Advance(c, Late(h)), c.core.timers[h].key;
    assert TimerSet(c, key);
    if key in c.core.states {
      var armed := c.core.states[key].timer.value;
      assert ArmedFor(c', armed, key) && !IsTyping(c'.core, key);
      assert !TimerOwned(c', armed);
    } else {
      assert c'.core == c.core;
      assert forall k :: TimerSet(c, k) ==> TimerSet(c', k);
      assert forall g :: TimerOwned(c, g) ==> TimerOwned(c', g);
    }
  }

  ghost predicate AllExact(c: Clocked) {
    forall key :: ExactFor(c, key)
  }

  /** However the manager is used from here on, with cancels before their deadlines, deadlines are exact. */
  ghost predicate ExactHereafter(c: Clocked) {
    forall run, c' :: Evolves(c, run, c') && Prompt(c, run) ==> AllExact(c')
  }

  lemma OneStep(c: Clocked, a: ClockedAction)
    requires Enabled(c, a) && PromptStep(c, a)
    ensures Evolves(c, [a], Advance(c, a)) && Prompt(c, [a])
  {
    assert [a][1..] == [];
    assert Evolves(Advance(c, a), [], Advance(c, a));
  }

  lemma TwoSteps(c: Clocked, a: ClockedAction, b: ClockedAction)
    requires Enabled(c, a) && PromptStep(c, a) && Enabled(Advance(c, a), b) && PromptStep(Advance(c, a), b)
    ensures Evolves(c, [a, b], Advance(Advance(c, a), b)) && Prompt(c, [a, b])
  {
    OneStep(Advance(c, a), b);
    assert [a, b][1..] == [b];
  }

  /** One outstanding late expiry is enough to end a key too early, after one more start at most. */
  lemma LateHarms(c: Clocked, h: nat)
    requires InOrder(c) && h in c.late
    ensures !ExactHereafter(c)
  {
    var key := c.core.timers[h].key;
    if key in c.core.states {
      LateKeepsTimelyIff(c, h);
      OneStep(c, Late(h));
      assert !AllExact(Advance(c, Late(h)));
    } else {
      var start := Typed(key, "");
      assert HandlesOf(c.core.states, {key}) == {};
      assert PromptStep(c, start);
      StepInOrder(c, start);
      LateKeepsTimelyIff(Advance(c, start), h);
      TwoSteps(c, start, Late(h));
      assert !AllExact(Advance(Advance(c, start), Late(h)));
    }
  }

  /** From a state in order, deadlines stay exact if and only if no late expiry is outstanding. */
  lemma ExactHereafterIff(c: Clocked)
    requires InOrder(c)
    ensures ExactHereafter(c) <==> c.late == {}
  {
    if c.late == {} {
      forall run, c' | Evolves(c, run, c') && Prompt(c, run) ensures AllExact(c') {
        PromptInOrder(c, run, c');
        forall key ensures ExactFor(c', key) {
          TimelyExact(c', key);
        }
      }
    } else {
      var h :| h in c.late;
      LateHarms(c, h);
    }
  }

  predicate NoLate(run: seq<ClockedAction>) {
    forall i :: 0 <= i < |run| ==> !run[i].Late?
  }

  lemma {:induction false} LateCancelsRemembered(c: Clocked, run: seq<ClockedAction>, c': Clocked)
    requires InOrder(c) && Evolves(c, run, c') && NoLate(run)
    ensures InOrder(c') && c.late <= c'.late
    ensures c'.late == {} <==> c.late == {} && Prompt(c, run)
    decreases |run|
  {
    if run != [] {
      StepInOrder(c, run[0]);
      assert forall i :: 0 <= i < |run[1..]| ==> run[1..][i] == run[i + 1];
      LateCancelsRemembered(Advance(c, run[0]), run[1..], c');
    }
  }

  /**
   The exact condition on a run: whatever late expiries and calls may follow it, deadlines are exact if and
   only if each cancel of the run came before the deadline of the timer it cancelled.
   */
  lemma {:induction false} DeadlinesExactIff(timeout: nat, delay: nat, begin: int, run: seq<ClockedAction>, c: Clocked)
    requires Evolves(Begin(timeout, delay, begin), run, c) && NoLate(run)
    ensures ExactHereafter(c) <==> Prompt(Begin(timeout, delay, begin), run)
  {
    LateCancelsRemembered(Begin(timeout, delay, begin), run, c);
    ExactHereafterIff(c);
  }

  lemma PrependStep(c: Clocked, a: ClockedAction, run: seq<ClockedAction>, c': Clocked)
    requires Enabled(c, a) && Evolves(Advance(c, a), run, c')
    ensures Evolves(c, [a] + run, c')
  {
    assert ([a] + run)[1..] == run;
  }

  /** The key's state after a start at 0, and after another one at the timeout. */
  function AfterFirst(timeout: nat, key: Key, socket: string, now: int): Clocked {
    Clocked(
      State(timeout, map[key := TypingState({socket}, Some(0))], [Timer(key, timeout, Armed)], [Event(key, true)]),
      now, [(key, 0)], 0, {})
  }

  function AfterSecond(timeout: nat, key: Key, socket: string): Clocked {
    Clocked(
      State(timeout, map[key := TypingState({socket}, Some(1))],
            [Timer(key, timeout, Cancelled), Timer(key, timeout + timeout, Armed)], [Event(key, true)]),
      timeout, [(key, 0), (key, timeout)], 0, {0})
  }

  lemma FirstStart(timeout: nat, key: Key, socket: string)
    ensures Advance(Begin(timeout, 0, 0), Typed(key, socket)) == AfterFirst(timeout, key, socket, 0)
  {
    var c := Advance(Begin(timeout, 0, 0), Typed(key, socket));
    assert Sources(map[], key) + {socket} == {socket};
    assert c.core.states == map[key := TypingState({socket}, Some(0))];
    assert c.core.timers == [Timer(key, timeout, Armed)];
    assert c.core.announced == [Event(key, true)] && c.starts == [(key, 0)];
    assert c.late == {};
  }

  lemma SecondStart(timeout: nat, key: Key, socket: string)
    ensures Advance(AfterFirst(timeout, key, socket, timeout), Typed(key, socket)) == AfterSecond(timeout, key, socket)
  {
    var before := AfterFirst(timeout, key, socket, timeout);
    var c := Advance(before, Typed(key, socket));
    assert HandlesOf(before.core.states, {key}) == {0};
    assert Sources(before.core.states, key) + {socket} == {socket};
    assert c.core.timers == [Timer(key, timeout, Cancelled), Timer(key, timeout + timeout, Armed)];
    assert c.core.states == map[key := TypingState({socket}, Some(1))];
    assert c.starts == [(key, 0), (key, timeout)];
    assert CancelledLate(before, c.core, 0) && c.late == {0};
  }

  /** A run that fails: a start at the very deadline of the timer before it, whose _expire comes all the same. */
  lemma LateExpiryTooEarly(timeout: nat, key: Key, socket: string) returns (run: seq<ClockedAction>, c: Clocked)
    requires 1 <= timeout
    ensures Evolves(Begin(timeout, 0, 0), run, c)
    ensures run == [Typed(key, socket), Tick(timeout), Typed(key, socket), Late(0)]
    ensures LatestStart(c.starts, key) == Some(timeout) && c.now < Due(c, key) && !IsTyping(c.core, key)
  {
    var c1, c2, c3 := AfterFirst(timeout, key, socket, 0), AfterFirst(timeout, key, socket, timeout),
      AfterSecond(timeout, key, socket);
    FirstStart(timeout, key, socket);
    SecondStart(timeout, key, socket);
    c := Advance(c3, Late(0));
    PrependStep(c3, Late(0), [], c);
    PrependStep(c2, Typed(key, socket), [Late(0)] + [], c);
    PrependStep(c1, Tick(timeout), [Typed(key, socket)] + ([Late(0)] + []), c);
    run := [Tick(timeout)] + ([Typed(key, socket)] + ([Late(0)] + []));
    PrependStep(Begin(timeout, 0, 0), Typed(key, socket), run, c);
    run := [Typed(key, socket)] + run;
  }
}
