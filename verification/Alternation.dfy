/**
 Logs of up/down events about many keys: typing started and stopped, user online and offline,
 user banned and unbanned, channel locked and unlocked.
 */
module Alternation {

  datatype Event<K> = Event(key: K, up: bool)

  /** What the log says about one key, oldest first. */
  function Trace<K(==)>(log: seq<Event<K>>, key: K): seq<bool> {
    if log == [] then []
    else
      var e := log[|log| - 1];
      var rest := Trace(log[..|log| - 1], key);
      if e.key == key then rest + [e.up] else rest
  }

  /** Up, down, up, down, ...: no event repeats its predecessor, and the first is up. */
  predicate Alternates(trace: seq<bool>) {
    forall i :: 0 <= i < |trace| ==> trace[i] == (i % 2 == 0)
  }

  /** Whether the last event about the key is up. */
  predicate IsUp<K(==)>(log: seq<Event<K>>, key: K) {
    var trace := Trace(log, key);
    trace != [] && trace[|trace| - 1]
  }

  ghost predicate AllAlternate<K(!new)>(log: seq<Event<K>>) {
    forall key: K :: Alternates(Trace(log, key))
  }

  lemma TraceAppend<K>(log: seq<Event<K>>, e: Event<K>, key: K)
    ensures Trace(log + [e], key) == if e.key == key then Trace(log, key) + [e.up] else Trace(log, key)
  {
    assert (log + [e])[..|log|] == log;
  }

  /** Appending an event that changes its key's last word keeps every key alternating. */
  lemma AppendFlip<K(!new)>(log: seq<Event<K>>, e: Event<K>)
    requires AllAlternate(log)
    requires e.up != IsUp(log, e.key)
    ensures AllAlternate(log + [e])
    ensures forall key: K :: IsUp(log + [e], key) == if key == e.key then e.up else IsUp(log, key)
  {
    forall key: K
      ensures Alternates(Trace(log + [e], key))
      ensures IsUp(log + [e], key) == if key == e.key then e.up else IsUp(log, key)
    {
      assert (log + [e])[..|log|] == log;
      assert Alternates(Trace(log, key));
    }
  }

  function DownEvents<K>(keys: seq<K>): (events: seq<Event<K>>)
    ensures |events| == |keys|
  {
    seq(|keys|, i requires 0 <= i < |keys| => Event(keys[i], false))
  }

  /** The same for a batch of down events about distinct keys that are all up. */
  lemma {:induction false} AppendDowns<K(!new)>(log: seq<Event<K>>, keys: seq<K>)
    requires AllAlternate(log)
    requires forall i, j :: 0 <= i < j < |keys| ==> keys[i] != keys[j]
    requires forall key :: key in keys ==> IsUp(log, key)
    ensures AllAlternate(log + DownEvents(keys))
    ensures forall key: K :: IsUp(log + DownEvents(keys), key) == (IsUp(log, key) && key !in keys)
  {
    if keys == [] {
      assert log + DownEvents(keys) == log;
    } else {
      var last := |keys| - 1;
      var e := Event(keys[last], false);
      AppendDowns(log, keys[..last]);
      assert keys == keys[..last] + [keys[last]];
      assert log + DownEvents(keys) == log + DownEvents(keys[..last]) + [e];
      AppendFlip(log + DownEvents(keys[..last]), e);
    }
  }
}
