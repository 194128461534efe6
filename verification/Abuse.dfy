/** The sliding-minute counter of app/security/abuse_detector.py. Times are whole microseconds. */
module Abuse {
  import opened Common

  const MINUTE: int := 60_000_000

  datatype SignalKey = SignalKey(eventType: string, user: Option<string>, ipAddress: Option<string>)

  function Since(window: int): int -> bool {
    (stamp: int) => window <= stamp
  }

  function StampsOf(signals: map<SignalKey, seq<int>>, key: SignalKey): seq<int> {
    if key in signals then signals[key] else []
  }

  /** The clock is read twice: for the window before the old stamps are dropped, then for the new stamp. */
  datatype Recording = Recording(readAt: int, stampedAt: int, key: SignalKey)

  function AfterRecord(signals: map<SignalKey, seq<int>>, r: Recording): map<SignalKey, seq<int>> {
    signals[r.key := Filter(StampsOf(signals, r.key), Since(r.readAt - MINUTE)) + [r.stampedAt]]
  }

  class AbuseDetector {
    var signals: map<SignalKey, seq<int>>

    constructor ()
      ensures signals == map[]
    {
      signals := map[];
    }

    method Record(readAt: int, stampedAt: int, eventType: string, user: Option<string>, ipAddress: Option<string>)
      returns (count: nat)
      modifies this
      ensures var r := Recording(readAt, stampedAt, SignalKey(eventType, user, ipAddress));
              && signals == AfterRecord(old(signals), r)
              && count == |signals[r.key]|
    {
      var window := readAt - MINUTE;
      var key := SignalKey(eventType, user, ipAddress);
      if key !in signals {
        signals := signals[key := []];
      }
      signals := signals[key := Filter(signals[key], Since(window))];
      signals := signals[key := signals[key] + [stampedAt]];
      count := |signals[key]|;
    }
  }

  // --- The dropped stamps are never missed ---

  function SignalsAfter(run: seq<Recording>): map<SignalKey, seq<int>> {
    if run == [] then map[] else AfterRecord(SignalsAfter(run[..|run| - 1]), run[|run| - 1])
  }

  /** Everything ever recorded under the key. */
  function FullLog(run: seq<Recording>, key: SignalKey): seq<int> {
    if run == [] then []
    else
      var last := run[|run| - 1];
      FullLog(run[..|run| - 1], key) + if last.key == key then [last.stampedAt] else []
  }

  ghost predicate Serial(run: seq<Recording>) {
    && (forall i :: 0 <= i < |run| ==> run[i].readAt <= run[i].stampedAt)
    && (forall i, j :: 0 <= i < j < |run| ==> run[i].stampedAt <= run[j].readAt)
  }

  lemma {:induction false} RefilterLater(stamps: seq<int>, earlier: int, later: int)
    requires earlier <= later
    ensures Filter(Filter(stamps, Since(earlier)), Since(later)) == Filter(stamps, Since(later))
  {
    if stamps != [] {
      var init, last := stamps[..|stamps| - 1], stamps[|stamps| - 1];
      RefilterLater(init, earlier, later);
      FilterAppend(Filter(init, Since(earlier)), last, Since(later));
    }
  }

  /** Seen through any window at least as late as the last reading, the table shows the full log. */
  lemma {:induction false} TableShowsLog(run: seq<Recording>, key: SignalKey, window: int)
    requires Serial(run)
    requires forall i :: 0 <= i < |run| ==> run[i].readAt - MINUTE <= window
    ensures Filter(StampsOf(SignalsAfter(run), key), Since(window)) == Filter(FullLog(run, key), Since(window))
  {
    if run != [] {
      var init, last := run[..|run| - 1], run[|run| - 1];
      TableShowsLog(init, key, window);
      if last.key == key {
        var stamps := StampsOf(SignalsAfter(init), key);
        FilterAppend(FullLog(init, key), last.stampedAt, Since(window));
        FilterAppend(Filter(stamps, Since(last.readAt - MINUTE)), last.stampedAt, Since(window));
        RefilterLater(stamps, last.readAt - MINUTE, window);
      } else {
        assert FullLog(run, key) == FullLog(init, key);
      }
    }
  }

  /** What is seen of the full log through a window, counted over the calls themselves. */
  lemma {:induction false} LogCounts(run: seq<Recording>, key: SignalKey, window: int, calls: set<int>)
    requires forall i :: i in calls <==> 0 <= i < |run| && run[i].key == key && window <= run[i].stampedAt
    ensures |Filter(FullLog(run, key), Since(window))| == |calls|
  {
    if run == [] {
      assert forall i :: i !in calls;
      assert calls == {};
    } else {
      var last := |run| - 1;
      LogCounts(run[..last], key, window, calls - {last});
      FilterAppend(FullLog(run[..last], key), run[last].stampedAt, Since(window));
      if run[last].key == key {
        assert FullLog(run, key) == FullLog(run[..last], key) + [run[last].stampedAt];
      } else {
        assert FullLog(run, key) == FullLog(run[..last], key);
      }
      assert calls == if last in calls then calls - {last} + {last} else calls - {last};
    }
  }

  /** The count returned is the new stamp plus every earlier one of the last minute, none forgotten. */
  lemma CountExact(run: seq<Recording>, r: Recording)
    requires Serial(run + [r])
    ensures |AfterRecord(SignalsAfter(run), r)[r.key]|
         == |set i | 0 <= i < |run| && run[i].key == r.key && r.readAt - 60_000_000 <= run[i].stampedAt| + 1
  {
    var all := run + [r];
    assert forall i :: 0 <= i < |run| ==> all[i] == run[i];
    forall i | 0 <= i < |run| ensures run[i].readAt <= r.readAt {
      assert all[i].stampedAt <= all[|run|].readAt;
    }
    TableShowsLog(run, r.key, r.readAt - MINUTE);
    var calls := set i | 0 <= i < |run| && run[i].key == r.key && r.readAt - 60_000_000 <= run[i].stampedAt;
    LogCounts(run, r.key, r.readAt - MINUTE, calls);
  }
}
