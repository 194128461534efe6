/**
 The request limiter of app/security/rate_limiter.py over the bucket table of
 app/repositories/security_repository.py. Times are whole microseconds.
 */
module RateLimit {
  import opened Common

  const SECOND: int := 1_000_000

  /** What identifies a row of rate_limit_buckets. */
  datatype BucketId = BucketId(key: string, scope: string, windowStart: int)

  datatype Bucket = Bucket(requestCount: int, expiresAt: int)

  datatype RateLimitResult = RateLimitResult(allowed: bool, limit: int, remaining: int, resetAt: int, scope: string)

  datatype Limits = Limits(requests: int, windowSeconds: int)

  datatype Config = Config(enabled: bool, auth: Limits, socket: Limits, default: Limits)

  function AllowedLimit(config: Config, scope: string): Limits {
    if scope == "AUTH" then config.auth
    else if scope == "SOCKET" then config.socket
    else config.default
  }

  /** The start of the second that contains now: the configured window plays no part. */
  function WindowStart(now: int, windowSeconds: int): int {
    now - now % SECOND
  }

  /** One call with its limit and window resolved. */
  datatype Call = Call(now: int, key: string, scope: string, limit: int, windowSeconds: int)

  function IdOf(call: Call): BucketId {
    BucketId(call.key, call.scope, WindowStart(call.now, call.windowSeconds))
  }

  function CountAfter(buckets: map<BucketId, Bucket>, call: Call): int {
    if IdOf(call) in buckets then buckets[IdOf(call)].requestCount + 1 else 1
  }

  function ExpiryOf(call: Call): int {
    WindowStart(call.now, call.windowSeconds) + call.windowSeconds * SECOND
  }

  function AfterCheck(buckets: map<BucketId, Bucket>, call: Call): map<BucketId, Bucket> {
    buckets[IdOf(call) := Bucket(CountAfter(buckets, call), ExpiryOf(call))]
  }

  /** The answer to a call that is the count-th of its bucket. */
  function ResultFor(call: Call, count: int): RateLimitResult {
    RateLimitResult(
      count <= call.limit, call.limit, if call.limit < count then 0 else call.limit - count, ExpiryOf(call), call.scope)
  }

  function AfterPrune(buckets: map<BucketId, Bucket>, now: int): map<BucketId, Bucket> {
    map id | id in buckets && !(buckets[id].expiresAt < now) :: buckets[id]
  }

  class RateLimiter {
    const config: Config
    var buckets: map<BucketId, Bucket>

    constructor (config: Config)
      ensures this.config == config && buckets == map[]
    {
      this.config, buckets := config, map[];
    }

    function GetBucket(id: BucketId): Option<Bucket>
      reads this
    {
      if id in buckets then Some(buckets[id]) else None
    }

    method AddRateLimitEvent(id: BucketId, requestCount: int, expiresAt: int)
      modifies this
      ensures buckets == old(buckets)[id := Bucket(requestCount, expiresAt)]
    {
      if id !in buckets {
        buckets := buckets[id := Bucket(requestCount, expiresAt)];
      } else {
        buckets := buckets[id := buckets[id].(requestCount := requestCount)];
        buckets := buckets[id := buckets[id].(expiresAt := expiresAt)];
      }
    }

    method CheckRateLimit(now: int, key: string, scope: string, limit: Option<int>, windowSeconds: Option<int>)
      returns (result: RateLimitResult)
      modifies this
      ensures !config.enabled ==>
                && buckets == old(buckets)
                && var shown := if limit.Some? then limit.value else 0;
                   result == RateLimitResult(true, shown, shown, now, scope)
      ensures config.enabled ==>
                var call := Resolve(config, now, key, scope, limit, windowSeconds);
                && buckets == AfterCheck(old(buckets), call)
                && result == ResultFor(call, CountAfter(old(buckets), call))
      ensures config.enabled && limit.Some? ==> result.limit == limit.value
      ensures config.enabled && limit.None? ==>
                result.limit == if scope == "AUTH" then config.auth.requests
                                else if scope == "SOCKET" then config.socket.requests else config.default.requests
      ensures config.enabled ==>
                var window := if windowSeconds.Some? then windowSeconds.value
                              else if scope == "AUTH" then config.auth.windowSeconds
                              else if scope == "SOCKET" then config.socket.windowSeconds
                              else config.default.windowSeconds;
                result.resetAt == now - now % 1_000_000 + window * 1_000_000
    {
      if !config.enabled {
        var shown := if limit.Some? then limit.value else 0;
        return RateLimitResult(true, shown, shown, now, scope);
      }
      var limitValue := if limit.Some? then limit.value else AllowedLimit(config, scope).requests;
      var windowValue := if windowSeconds.Some? then windowSeconds.value else AllowedLimit(config, scope).windowSeconds;
      var windowStart := WindowStart(now, windowValue);
      var expiresAt := windowStart + windowValue * SECOND;
      var id := BucketId(key, scope, windowStart);
      var bucket := GetBucket(id);
      var count := if bucket.None? then 1 else bucket.value.requestCount + 1;
      var allowed := count <= limitValue;
      if bucket.None? {
        AddRateLimitEvent(id, count, expiresAt);
      } else {
        buckets := buckets[id := bucket.value.(requestCount := count, expiresAt := expiresAt)];
      }
      var remaining := if 0 < limitValue - count then limitValue - count else 0;
      result := RateLimitResult(allowed, limitValue, remaining, expiresAt, scope);
    }

    /** The other way to count a call: the first one of a bucket is always let through. */
    method IncrementBucket(id: BucketId, expiresAt: int, limit: int) returns (allowed: bool, count: int)
      modifies this
      ensures count == if id in old(buckets) then old(buckets[id]).requestCount + 1 else 1
      ensures buckets == old(buckets)[id := Bucket(count, expiresAt)]
      ensures allowed == (count <= limit || id !in old(buckets))
    {
      if id !in buckets {
        buckets := buckets[id := Bucket(1, expiresAt)];
        return true, 1;
      }
      var bucket := buckets[id];
      bucket := bucket.(requestCount := bucket.requestCount + 1, expiresAt := expiresAt);
      buckets := buckets[id := bucket];
      return bucket.requestCount <= limit, bucket.requestCount;
    }

    method PruneExpired(now: int) returns (deleted: int)
      modifies this
      ensures buckets == AfterPrune(old(buckets), now)
      ensures forall id :: id in buckets <==> id in old(buckets) && now <= old(buckets)[id].expiresAt
      ensures forall id :: id in buckets ==> buckets[id] == old(buckets)[id]
      ensures deleted == |old(buckets)| - |buckets|
    {
      var kept := map id | id in buckets && !(buckets[id].expiresAt < now) :: buckets[id];
      deleted := |buckets| - |kept|;
      buckets := kept;
    }
  }

  function Resolve(
    config: Config, now: int, key: string, scope: string, limit: Option<int>, windowSeconds: Option<int>): Call
  {
    Call(now, key, scope,
         if limit.Some? then limit.value else AllowedLimit(config, scope).requests,
         if windowSeconds.Some? then windowSeconds.value else AllowedLimit(config, scope).windowSeconds)
  }

  // --- Serial runs ---

  datatype Step = Check(call: Call) | Prune(now: int)

  function TimeOf(step: Step): int {
    match step
    case Check(call) => call.now
    case Prune(now) => now
  }

  /** The clock never goes back, and windows are at least a second long. */
  ghost predicate Serial(run: seq<Step>) {
    && (forall i, j :: 0 <= i < j < |run| ==> TimeOf(run[i]) <= TimeOf(run[j]))
    && (forall i :: 0 <= i < |run| && run[i].Check? ==> 1 <= run[i].call.windowSeconds)
  }

  function TableAfter(run: seq<Step>): map<BucketId, Bucket> {
    if run == [] then map[]
    else
      var before := TableAfter(run[..|run| - 1]);
      match run[|run| - 1]
      case Check(call) => AfterCheck(before, call)
      case Prune(now) => AfterPrune(before, now)
  }

  /** What a call was told. */
  datatype Answer = Answer(call: Call, result: RateLimitResult)

  /** The calls of the run with their answers, in order. */
  function Results(run: seq<Step>): seq<Answer> {
    if run == [] then []
    else
      var init := run[..|run| - 1];
      match run[|run| - 1]
      case Check(call) => Results(init) + [Answer(call, ResultFor(call, CountAfter(TableAfter(init), call)))]
      case Prune(now) => Results(init)
  }

  /** The reference: how many calls of the run fell into the bucket, counting all of them. */
  function Calls(run: seq<Step>, id: BucketId): nat {
    if run == [] then 0
    else
      var last := run[|run| - 1];
      Calls(run[..|run| - 1], id) + if last.Check? && IdOf(last.call) == id then 1 else 0
  }

  /** While a bucket's second has not passed, its row is there and holds the full count. */
  lemma {:induction false} LiveBucketExact(run: seq<Step>, id: BucketId, now: int)
    requires Serial(run)
    requires forall i :: 0 <= i < |run| ==> TimeOf(run[i]) <= now
    requires now < id.windowStart + SECOND
    ensures id in TableAfter(run) <==> 0 < Calls(run, id)
    ensures id in TableAfter(run) ==>
              && TableAfter(run)[id].requestCount == Calls(run, id)
              && id.windowStart + SECOND <= TableAfter(run)[id].expiresAt
  {
    if run != [] {
      var init, last := run[..|run| - 1], run[|run| - 1];
      LiveBucketExact(init, id, now);
      assert TimeOf(last) <= now;
    }
  }

  /** Every call is answered from the number of calls its second has seen, whatever was pruned before. */
  lemma DecisionExact(run: seq<Step>, call: Call)
    requires Serial(run + [Check(call)])
    ensures CountAfter(TableAfter(run), call) == Calls(run, IdOf(call)) + 1
  {
    var all := run + [Check(call)];
    assert forall i :: 0 <= i < |run| ==> all[i] == run[i];
    forall i | 0 <= i < |run| ensures TimeOf(run[i]) <= call.now {
      assert TimeOf(all[i]) <= TimeOf(all[|run|]);
    }
    LiveBucketExact(run, IdOf(call), call.now);
  }

  predicate IsCheck(step: Step) {
    step.Check?
  }

  /** The same calls on a table that nobody prunes. */
  function Unpruned(run: seq<Step>): seq<Step> {
    Filter(run, IsCheck)
  }

  lemma {:induction false} UnprunedSerial(run: seq<Step>, now: int)
    requires Serial(run)
    requires forall i :: 0 <= i < |run| ==> TimeOf(run[i]) <= now
    ensures Serial(Unpruned(run))
    ensures forall i :: 0 <= i < |Unpruned(run)| ==> TimeOf(Unpruned(run)[i]) <= now
    ensures forall id :: Calls(Unpruned(run), id) == Calls(run, id)
  {
    if run != [] {
      var init, last := run[..|run| - 1], run[|run| - 1];
      UnprunedSerial(init, TimeOf(last));
      if last.Check? {
        assert Unpruned(run) == Unpruned(init) + [last];
        assert Unpruned(run)[..|Unpruned(init)|] == Unpruned(init);
      }
    }
  }

  lemma ResultsAppend(run: seq<Step>, call: Call)
    requires Serial(run + [Check(call)])
    ensures Results(run + [Check(call)]) == Results(run) + [Answer(call, ResultFor(call, Calls(run, IdOf(call)) + 1))]
  {
    assert (run + [Check(call)])[..|run|] == run;
    DecisionExact(run, call);
  }

  lemma SerialPrefix(init: seq<Step>, last: Step)
    requires Serial(init + [last])
    ensures Serial(init) && forall i :: 0 <= i < |init| ==> TimeOf(init[i]) <= TimeOf(last)
  {
    var run := init + [last];
    assert forall i :: 0 <= i < |init| ==> run[i] == init[i];
    assert run[|init|] == last;
  }

  lemma SerialAppend(init: seq<Step>, last: Step)
    requires Serial(init) && forall i :: 0 <= i < |init| ==> TimeOf(init[i]) <= TimeOf(last)
    requires last.Check? ==> 1 <= last.call.windowSeconds
    ensures Serial(init + [last])
  {
  }

  lemma WindowOf(init: seq<Step>, call: Call)
    requires Serial(init + [Check(call)])
    ensures 1 <= call.windowSeconds
  {
    assert (init + [Check(call)])[|init|] == Check(call);
  }

  lemma UnprunedExtends(init: seq<Step>, call: Call)
    requires Serial(init + [Check(call)])
    ensures Unpruned(init + [Check(call)]) == Unpruned(init) + [Check(call)]
    ensures Serial(Unpruned(init) + [Check(call)])
    ensures Calls(Unpruned(init), IdOf(call)) == Calls(init, IdOf(call))
  {
    SerialPrefix(init, Check(call));
    WindowOf(init, call);
    UnprunedSerial(init, call.now);
    SerialAppend(Unpruned(init), Check(call));
    FilterAppend(init, Check(call), IsCheck);
  }

  lemma ChecksAgree(init: seq<Step>, call: Call)
    requires Serial(init + [Check(call)]) && Results(init) == Results(Unpruned(init))
    ensures Results(init + [Check(call)]) == Results(Unpruned(init + [Check(call)]))
  {
    UnprunedExtends(init, call);
    ResultsAppend(init, call);
    ResultsAppend(Unpruned(init), call);
  }

  lemma PruneAgrees(init: seq<Step>, now: int)
    ensures Results(init + [Prune(now)]) == Results(init) && Unpruned(init + [Prune(now)]) == Unpruned(init)
  {
    assert (init + [Prune(now)])[..|init|] == init;
  }

  /** Pruning is invisible: the run gives the answers the never-pruned table would give. */
  lemma {:induction false} PruningInvisible(run: seq<Step>)
    requires Serial(run)
    ensures Results(run) == Results(Unpruned(run))
  {
    if run != [] {
      var init, last := run[..|run| - 1], run[|run| - 1];
      assert run == init + [last];
      SerialPrefix(init, last);
      PruningInvisible(init);
      match last
      case Check(call) => ChecksAgree(init, call);
      case Prune(now) => PruneAgrees(init, now);
    }
  }

  /** So two runs with the same calls get the same answers, wherever either of them prunes. */
  lemma PruningAnywhere(run: seq<Step>, other: seq<Step>)
    requires Serial(run) && Serial(other) && Unpruned(run) == Unpruned(other)
    ensures Results(run) == Results(other)
  {
    PruningInvisible(run);
    PruningInvisible(other);
  }

  // --- How many calls a span of time lets through ---

  predicate Concerns(call: Call, key: string, scope: string, from: int, to: int) {
    call.key == key && call.scope == scope && from <= call.now < to
  }

  /** The answers among these that let a call of the key and scope, made in [from, to), through. */
  function CountAllowed(answers: seq<Answer>, key: string, scope: string, from: int, to: int): nat {
    if answers == [] then 0
    else
      var last := answers[|answers| - 1];
      CountAllowed(answers[..|answers| - 1], key, scope, from, to) +
      if Concerns(last.call, key, scope, from, to) && last.result.allowed then 1 else 0
  }

  /** The calls of one key and scope, made in [from, to), that the run allowed. */
  function AllowedIn(run: seq<Step>, key: string, scope: string, from: int, to: int): nat {
    CountAllowed(Results(run), key, scope, from, to)
  }

  /** All the calls of one key and scope, made in [from, to). */
  function CallsIn(run: seq<Step>, key: string, scope: string, from: int, to: int): nat {
    if run == [] then 0
    else
      var last := run[|run| - 1];
      CallsIn(run[..|run| - 1], key, scope, from, to) +
      if last.Check? && Concerns(last.call, key, scope, from, to) then 1 else 0
  }

  ghost predicate Limited(run: seq<Step>, key: string, scope: string, limit: nat) {
    forall i :: 0 <= i < |run| && run[i].Check? && run[i].call.key == key && run[i].call.scope == scope
      ==> run[i].call.limit == limit
  }

  /** All calls of the key and scope are made with one configured window. */
  ghost predicate Windowed(run: seq<Step>, key: string, scope: string, window: int) {
    forall i :: 0 <= i < |run| && run[i].Check? && run[i].call.key == key && run[i].call.scope == scope
      ==> run[i].call.windowSeconds == window
  }

  /** A call falls into the bucket of its own second. */
  lemma SecondOf(call: Call, key: string, scope: string, second: int)
    requires second % SECOND == 0
    ensures IdOf(call) == BucketId(key, scope, second) <==> Concerns(call, key, scope, second, second + SECOND)
  {
  }

  lemma {:induction false} CallsOfBucket(run: seq<Step>, key: string, scope: string, second: int)
    requires second % SECOND == 0
    ensures Calls(run, BucketId(key, scope, second)) == CallsIn(run, key, scope, second, second + SECOND)
  {
    if run != [] {
      CallsOfBucket(run[..|run| - 1], key, scope, second);
      if run[|run| - 1].Check? {
        SecondOf(run[|run| - 1].call, key, scope, second);
      }
    }
  }

  /**
   The answer to a call, from the earlier calls of its second alone: allowed while they are fewer than the
   limit, with what is then left of it, and to be reset when the configured window after the second is over.
   */
  lemma AnswerExact(run: seq<Step>, call: Call, second: int)
    requires Serial(run + [Check(call)])
    requires second % 1_000_000 == 0 && second <= call.now < second + 1_000_000
    ensures var earlier := CallsIn(run, call.key, call.scope, second, second + 1_000_000);
            var answers := Results(run + [Check(call)]);
            && |answers| == |Results(run)| + 1 && answers[..|Results(run)|] == Results(run)
            && var r := answers[|Results(run)|].result;
               && answers[|Results(run)|].call == call
               && (r.allowed <==> earlier < call.limit)
               && r.remaining == (if earlier < call.limit then call.limit - earlier - 1 else 0)
               && r.resetAt == second + call.windowSeconds * 1_000_000
               && r.limit == call.limit && r.scope == call.scope
  {
    SecondOf(call, call.key, call.scope, second);
    CallsOfBucket(run, call.key, call.scope, second);
    ResultsAppend(run, call);
  }

  lemma CountAllowedAppend(answers: seq<Answer>, a: Answer, key: string, scope: string, from: int, to: int)
    ensures CountAllowed(answers + [a], key, scope, from, to)
         == CountAllowed(answers, key, scope, from, to)
            + if Concerns(a.call, key, scope, from, to) && a.result.allowed then 1 else 0
  {
    assert (answers + [a])[..|answers|] == answers;
  }

  lemma {:induction false} AllowedInBucket(run: seq<Step>, key: string, scope: string, limit: nat, second: int)
    requires Serial(run) && Limited(run, key, scope, limit) && second % SECOND == 0
    ensures AllowedIn(run, key, scope, second, second + SECOND)
         == Min(Calls(run, BucketId(key, scope, second)), limit)
  {
    if run != [] {
      var init, last := run[..|run| - 1], run[|run| - 1];
      assert run == init + [last];
      AllowedInBucket(init, key, scope, limit, second);
      if last.Check? {
        ResultsAppend(init, last.call);
        SecondOf(last.call, key, scope, second);
        CountAllowedAppend(Results(init), Results(run)[|Results(init)|], key, scope, second, second + SECOND);
      }
    }
  }

  /** Of the n calls made in one second, exactly min(n, limit) are answered with allowed. */
  lemma AllowedInSecond(run: seq<Step>, key: string, scope: string, limit: nat, second: int)
    requires Serial(run) && Limited(run, key, scope, limit) && second % SECOND == 0
    ensures AllowedIn(run, key, scope, second, second + SECOND)
         == Min(CallsIn(run, key, scope, second, second + SECOND), limit)
  {
    AllowedInBucket(run, key, scope, limit, second);
    CallsOfBucket(run, key, scope, second);
  }

  lemma {:induction false} CountSplits(
    answers: seq<Answer>, key: string, scope: string, from: int, mid: int, to: int)
    requires from <= mid <= to
    ensures CountAllowed(answers, key, scope, from, to)
         == CountAllowed(answers, key, scope, from, mid) + CountAllowed(answers, key, scope, mid, to)
  {
    if answers != [] { CountSplits(answers[..|answers| - 1], key, scope, from, mid, to); }
  }

  lemma AllowedSplits(run: seq<Step>, key: string, scope: string, from: int, mid: int, to: int)
    requires from <= mid <= to
    ensures AllowedIn(run, key, scope, from, to)
         == AllowedIn(run, key, scope, from, mid) + AllowedIn(run, key, scope, mid, to)
  {
    CountSplits(Results(run), key, scope, from, mid, to);
  }

  /** A span of whole seconds that starts on a second lets at most limit calls per second through. */
  lemma {:induction false} AlignedBound(run: seq<Step>, key: string, scope: string, limit: nat, from: int, seconds: nat)
    requires Serial(run) && Limited(run, key, scope, limit) && from % SECOND == 0
    ensures AllowedIn(run, key, scope, from, from + seconds * SECOND) <= limit * seconds
  {
    if seconds == 0 {
      EmptySpan(Results(run), key, scope, from);
    } else {
      var last := from + (seconds - 1) * SECOND;
      AlignedBound(run, key, scope, limit, from, seconds - 1);
      AllowedInSecond(run, key, scope, limit, last);
      AllowedSplits(run, key, scope, from, last, last + SECOND);
      assert limit * seconds == limit * (seconds - 1) + limit;
    }
  }

  lemma {:induction false} EmptySpan(answers: seq<Answer>, key: string, scope: string, from: int)
    ensures CountAllowed(answers, key, scope, from, from) == 0
  {
    if answers != [] { EmptySpan(answers[..|answers| - 1], key, scope, from); }
  }

  /** Any other span touches one second more. */
  lemma SpanBound(run: seq<Step>, key: string, scope: string, limit: nat, from: int, seconds: nat)
    requires Serial(run) && Limited(run, key, scope, limit)
    ensures AllowedIn(run, key, scope, from, from + seconds * SECOND) <= limit * (seconds + 1)
  {
    var start, to := from - from % SECOND, from + seconds * SECOND;
    AlignedBound(run, key, scope, limit, start, seconds + 1);
    AllowedSplits(run, key, scope, start, from, to);
    AllowedSplits(run, key, scope, start, to, start + (seconds + 1) * SECOND);
  }

  // --- The bound for unaligned spans is reached ---

  function Burst(call: Call, times: nat): (run: seq<Step>)
    ensures |run| == times && forall i :: 0 <= i < times ==> run[i] == Check(call)
  {
    if times == 0 then [] else Burst(call, times - 1) + [Check(call)]
  }

  /** limit calls late in the first second and limit calls at the start of each of the next ones. */
  function Rush(key: string, scope: string, limit: nat, window: int, seconds: nat): seq<Step> {
    if seconds == 0 then Burst(Call(1, key, scope, limit, window), limit)
    else Rush(key, scope, limit, window, seconds - 1)
         + Burst(Call(seconds * SECOND, key, scope, limit, window), limit)
  }

  lemma CallsAppend(run: seq<Step>, call: Call, id: BucketId)
    ensures Calls(run + [Check(call)], id) == Calls(run, id) + if IdOf(call) == id then 1 else 0
  {
    assert (run + [Check(call)])[..|run|] == run;
  }

  lemma {:induction false} CallsInBurst(run: seq<Step>, call: Call, times: nat, id: BucketId)
    ensures Calls(run + Burst(call, times), id) == Calls(run, id) + if IdOf(call) == id then times else 0
  {
    if times == 0 {
      assert run + Burst(call, times) == run;
    } else {
      var before := run + Burst(call, times - 1);
      CallsInBurst(run, call, times - 1, id);
      CallsAppend(before, call, id);
      assert run + Burst(call, times) == before + [Check(call)];
    }
  }

  lemma SerialConcat(a: seq<Step>, b: seq<Step>)
    requires Serial(a) && Serial(b)
    requires forall i, j :: 0 <= i < |a| && 0 <= j < |b| ==> TimeOf(a[i]) <= TimeOf(b[j])
    ensures Serial(a + b)
  {
  }

  lemma AlikeConcat(a: seq<Step>, b: seq<Step>, key: string, scope: string, limit: nat, window: int)
    requires Limited(a, key, scope, limit) && Windowed(a, key, scope, window)
    requires Limited(b, key, scope, limit) && Windowed(b, key, scope, window)
    ensures Limited(a + b, key, scope, limit) && Windowed(a + b, key, scope, window)
  {
  }

  lemma {:induction false} RushSerial(key: string, scope: string, limit: nat, window: int, seconds: nat)
    requires 1 <= window
    ensures var run := Rush(key, scope, limit, window, seconds);
            && Serial(run) && Limited(run, key, scope, limit) && Windowed(run, key, scope, window)
            && forall i :: 0 <= i < |run| ==> TimeOf(run[i]) == 1 || 1 <= TimeOf(run[i]) <= seconds * SECOND
  {
    if seconds != 0 {
      RushSerial(key, scope, limit, window, seconds - 1);
      var before, burst :=
        Rush(key, scope, limit, window, seconds - 1), Burst(Call(seconds * SECOND, key, scope, limit, window), limit);
      SerialConcat(before, burst);
      AlikeConcat(before, burst, key, scope, limit, window);
    }
  }

  lemma BurstBucket(key: string, scope: string, limit: nat, window: int, second: nat, j: nat)
    ensures IdOf(Call(second * SECOND, key, scope, limit, window)) == BucketId(key, scope, j * SECOND) <==> second == j
    ensures IdOf(Call(1, key, scope, limit, window)) == BucketId(key, scope, j * SECOND) <==> j == 0
  {
  }

  lemma {:induction false} RushCalls(key: string, scope: string, limit: nat, window: int, seconds: nat, j: nat)
    ensures Calls(Rush(key, scope, limit, window, seconds), BucketId(key, scope, j * SECOND))
         == if j <= seconds then limit else 0
  {
    var id := BucketId(key, scope, j * SECOND);
    BurstBucket(key, scope, limit, window, seconds, j);
    if seconds == 0 {
      var first := Call(1, key, scope, limit, window);
      CallsInBurst([], first, limit, id);
      assert [] + Burst(first, limit) == Burst(first, limit);
    } else {
      RushCalls(key, scope, limit, window, seconds - 1, j);
      var call := Call(seconds * SECOND, key, scope, limit, window);
      CallsInBurst(Rush(key, scope, limit, window, seconds - 1), call, limit, id);
    }
  }

  /** Widening a span that already holds every call changes nothing. */
  lemma {:induction false} AllowedInWider(
    run: seq<Step>, key: string, scope: string, from: int, to: int, from': int, to': int)
    requires forall i :: 0 <= i < |run| ==> from <= TimeOf(run[i]) < to
    requires from' <= from && to <= to'
    ensures AllowedIn(run, key, scope, from, to) == AllowedIn(run, key, scope, from', to')
  {
    if run != [] {
      var init, last := run[..|run| - 1], run[|run| - 1];
      AllowedInWider(init, key, scope, from, to, from', to');
      assert TimeOf(last) == TimeOf(run[|run| - 1]);
      if last.Check? {
        var a := Answer(last.call, ResultFor(last.call, CountAfter(TableAfter(init), last.call)));
        CountAllowedAppend(Results(init), a, key, scope, from, to);
        CountAllowedAppend(Results(init), a, key, scope, from', to');
      }
    }
  }

  lemma {:induction false} RushAllowed(run: seq<Step>, key: string, scope: string, limit: nat, seconds: nat)
    requires Serial(run) && Limited(run, key, scope, limit)
    requires forall j: nat :: j < seconds ==> Calls(run, BucketId(key, scope, j * SECOND)) == limit
    ensures AllowedIn(run, key, scope, 0, seconds * SECOND) == limit * seconds
  {
    if seconds == 0 {
      EmptySpan(Results(run), key, scope, 0);
    } else {
      var last := (seconds - 1) * SECOND;
      RushAllowed(run, key, scope, limit, seconds - 1);
      AllowedInBucket(run, key, scope, limit, last);
      AllowedSplits(run, key, scope, 0, last, last + SECOND);
      assert limit * seconds == limit * (seconds - 1) + limit;
    }
  }

  /**
   For every limit and window there is a run of calls with that limit and window that lets
   limit * (window + 1) of them through within one window.
   */
  lemma BoundReached(key: string, scope: string, limit: nat, window: nat)
    requires 1 <= window
    ensures exists run ::
              && Serial(run) && Limited(run, key, scope, limit) && Windowed(run, key, scope, window)
              && AllowedIn(run, key, scope, 1, 1 + window * SECOND) == limit * (window + 1)
  {
    var run := Rush(key, scope, limit, window, window);
    RushSerial(key, scope, limit, window, window);
    forall j: nat | j < window + 1 ensures Calls(run, BucketId(key, scope, j * SECOND)) == limit {
      RushCalls(key, scope, limit, window, window, j);
    }
    RushAllowed(run, key, scope, limit, window + 1);
    AllowedInWider(run, key, scope, 1, 1 + window * SECOND, 0, (window + 1) * SECOND);
  }

  predicate WithinLimit(run: seq<Step>, key: string, scope: string, limit: nat, from: int, window: nat) {
    AllowedIn(run, key, scope, from, from + window * SECOND) <= limit
  }

  ghost predicate WindowPromise(key: string, scope: string, limit: nat, window: nat) {
    forall run, from :: Serial(run) && Limited(run, key, scope, limit) && Windowed(run, key, scope, window)
      ==> WithinLimit(run, key, scope, limit, from, window)
  }

  lemma TwiceTooMany(limit: nat, window: nat)
    requires 1 <= limit && 1 <= window
    ensures limit < limit * (window + 1)
  {
    assert limit * (window + 1) == limit * window + limit;
  }

  /** "At most limit calls per configured window" is kept by every run only for a limit that allows nothing. */
  lemma WindowPromiseIff(key: string, scope: string, limit: nat, window: nat)
    requires 1 <= window
    ensures WindowPromise(key, scope, limit, window) <==> limit == 0
  {
    if limit == 0 {
      forall run, from | Serial(run) && Limited(run, key, scope, limit) && Windowed(run, key, scope, window)
        ensures WithinLimit(run, key, scope, limit, from, window)
      {
        SpanBound(run, key, scope, limit, from, window);
      }
    } else {
      BoundReached(key, scope, limit, window);
      var run :| Serial(run) && Limited(run, key, scope, limit) && Windowed(run, key, scope, window)
              && AllowedIn(run, key, scope, 1, 1 + window * SECOND) == limit * (window + 1);
      TwiceTooMany(limit, window);
      assert !WithinLimit(run, key, scope, limit, 1, window);
    }
  }
}
