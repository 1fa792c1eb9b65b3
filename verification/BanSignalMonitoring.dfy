/** `BanSignalSpikeMonitor`: a pruned queue and an arming latch per (store, domain, bucket). */
module BanSignalMonitoring {
  import opened Text

  type Key = (string, string, string)

  /** `(s or "unknown").strip().lower() or "unknown"`, for any lower-casing function. */
  function Label(lower: string -> string, s: string): string {
    var t := lower(Strip(if s == "" then "unknown" else s));
    if t == "" then "unknown" else t
  }

  /** Whitespace around a name does not matter, all blank names share the label "unknown", and any other name is
      told apart by its lower-cased text, whatever lower-casing is. */
  lemma LabelMeans(lower: string -> string, left: string, name: string, right: string)
    requires Blank(left) && Blank(right) && Trimmed(name)
    requires lower("") == "" && lower("unknown") == "unknown" && (name != "" ==> lower(name) != "")
    ensures Label(lower, left + name + right) == if name == "" then "unknown" else lower(name)
  {
    StripExactly(left, name, right);
    StripExactly("", "unknown", "");
    assert "" + "unknown" + "" == "unknown";
  }

  /** One key's queue and latch. */
  datatype KeyState = KeyState(queue: seq<real>, armed: bool)

  const FRESH := KeyState([], true)

  function DropBefore(q: seq<real>, cutoff: real): seq<real> {
    if q != [] && q[0] < cutoff then DropBefore(q[1..], cutoff) else q
  }

  /** The effect of one event on its key: the new state and whether the alarm fires. */
  function Record(s: KeyState, threshold: nat, window: real, now: real): (KeyState, bool) {
    var kept := DropBefore(s.queue, now - window);
    var armed := |kept| < threshold || s.armed;
    var fires := |kept| + 1 >= threshold && armed;
    (KeyState(kept + [now], armed && !fires), fires)
  }

  /** The lookups of the two `defaultdict`s. */
  function Entry(events: map<Key, seq<real>>, latches: map<Key, bool>, k: Key): KeyState {
    KeyState(if k in events then events[k] else [], if k in latches then latches[k] else true)
  }

  class BanSignalSpikeMonitor {
    var events: map<Key, seq<real>>
    var latches: map<Key, bool>

    constructor ()
      ensures forall k :: State(k) == FRESH
    {
      events, latches := map[], map[];
    }

    ghost function State(k: Key): KeyState
      reads this
    {
      Entry(events, latches, k)
    }

    method RecordHttpStatus(lower: string -> string, store: string, domain: string, statusBucket: string,
                            threshold: int, windowSeconds: real, now: real)
      returns (triggered: bool, count: nat)
      modifies this
      ensures lower(Strip(statusBucket)) == "" ==>
                !triggered && count == 0 && events == old(events) && latches == old(latches)
      ensures lower(Strip(statusBucket)) != "" ==>
                var key := (Label(lower, store), Label(lower, domain), lower(Strip(statusBucket)));
                var (after, fires) :=
                  Record(old(State(key)), if threshold < 1 then 1 else threshold,
                         if windowSeconds < 1.0 then 1.0 else windowSeconds, now);
                && State(key) == after && triggered == fires && count == |after.queue|
                && forall k :: k != key ==> State(k) == Entry(old(events), old(latches), k)
    {
      var st := Label(lower, store);
      var dm := Label(lower, domain);
      var bucket := lower(Strip(statusBucket));
      if bucket == "" { return false, 0; }
      var th := if threshold < 1 then 1 else threshold;
      var win := if windowSeconds < 1.0 then 1.0 else windowSeconds;
      var cutoff := now - win;
      var key := (st, dm, bucket);
      var q := if key in events then events[key] else [];
      while q != [] && q[0] < cutoff
        invariant DropBefore(q, cutoff) == DropBefore(old(State(key)).queue, cutoff)
        decreases |q|
      {
        q := q[1..];
      }
      if |q| < th {
        latches := latches[key := true];
      }
      q := q + [now];
      events := events[key := q];
      count := |q|;
      if count >= th && (if key in latches then latches[key] else true) {
        latches := latches[key := false];
        return true, count;
      }
      return false, count;
    }

    method Reset()
      modifies this
      ensures forall k :: State(k) == FRESH
    {
      events, latches := map[], map[];
    }
  }

  // ----- one key, its whole history of event times

  ghost predicate NonDecreasing(times: seq<real>) {
    forall i, j :: 0 <= i < j < |times| ==> times[i] <= times[j]
  }

  /** The state after all of `times`, with fixed threshold and window. */
  function Run(times: seq<real>, threshold: nat, window: real): KeyState {
    if times == [] then FRESH
    else Record(Run(times[..|times| - 1], threshold, window), threshold, window, times[|times| - 1]).0
  }

  predicate Fires(times: seq<real>, i: nat, threshold: nat, window: real)
    requires i < |times|
  {
    Record(Run(times[..i], threshold, window), threshold, window, times[i]).1
  }

  /** The events of the whole history that are not older than `cutoff`. */
  function Since(times: seq<real>, cutoff: real): seq<real> {
    if times == [] then []
    else
      var earlier := Since(times[..|times| - 1], cutoff);
      if times[|times| - 1] >= cutoff then earlier + [times[|times| - 1]] else earlier
  }

  lemma {:induction false} SinceOfSorted(times: seq<real>, cutoff: real, k: nat)
    requires NonDecreasing(times) && k <= |times|
    requires (forall j :: 0 <= j < k ==> times[j] < cutoff) && (k < |times| ==> times[k] >= cutoff)
    ensures Since(times, cutoff) == times[k..]
  {
    if times != [] {
      var rest := times[..|times| - 1];
      if k == |times| {
        SinceOfSorted(rest, cutoff, k - 1);
      } else {
        SinceOfSorted(rest, cutoff, k);
        assert times[k..] == rest[k..] + [times[|times| - 1]];
      }
    }
  }

  /** What pruning drops is the prefix before `cutoff`. */
  lemma {:induction false} DropBeforeIsSuffix(q: seq<real>, cutoff: real) returns (k: nat)
    requires NonDecreasing(q)
    ensures k <= |q| && DropBefore(q, cutoff) == q[k..]
    ensures (forall j :: 0 <= j < k ==> q[j] < cutoff) && (k < |q| ==> q[k] >= cutoff)
  {
    if q != [] && q[0] < cutoff {
      var m := DropBeforeIsSuffix(q[1..], cutoff);
      k := m + 1;
      assert q[1..][m..] == q[k..];
      forall j | 0 < j < k ensures q[j] < cutoff { assert q[j] == q[1..][j - 1]; }
    } else {
      k := 0;
      assert q == q[0..];
    }
  }

  lemma DropBeforeOfSorted(q: seq<real>, cutoff: real)
    requires NonDecreasing(q)
    ensures DropBefore(q, cutoff) == Since(q, cutoff)
  {
    var k := DropBeforeIsSuffix(q, cutoff);
    SinceOfSorted(q, cutoff, k);
  }

  lemma {:induction false} SinceTwice(times: seq<real>, a: real, b: real)
    requires a <= b
    ensures Since(Since(times, a), b) == Since(times, b)
  {
    if times != [] {
      var rest := times[..|times| - 1];
      SinceTwice(rest, a, b);
      var last := times[|times| - 1];
      if last >= a {
        assert (Since(rest, a) + [last])[..|Since(rest, a)|] == Since(rest, a);
      }
    }
  }

  lemma {:induction false} SinceNonDecreasing(times: seq<real>, cutoff: real)
    requires NonDecreasing(times)
    ensures NonDecreasing(Since(times, cutoff))
    ensures forall t :: t in Since(times, cutoff) ==> t in times
  {
    if times != [] {
      var rest := times[..|times| - 1];
      SinceNonDecreasing(rest, cutoff);
      var earlier, last := Since(rest, cutoff), times[|times| - 1];
      assert forall t :: t in rest ==> t in times && t <= last;
      forall j | 0 <= j < |earlier| ensures earlier[j] <= last { assert earlier[j] in earlier; }
    }
  }

  ghost predicate WindowFits(times: seq<real>, threshold: nat, window: real) {
    var s := Run(times, threshold, window);
    && s.queue == (if times == [] then [] else Since(times, times[|times| - 1] - window))
    && (s.armed <==> |s.queue| < threshold)
  }

  lemma WindowFitsSnoc(rest: seq<real>, now: real, threshold: nat, window: real)
    requires NonDecreasing(rest + [now]) && WindowFits(rest, threshold, window) && window >= 1.0
    ensures WindowFits(rest + [now], threshold, window)
  {
    PrefixNonDecreasing(rest, now);
    KeptIsWindow(rest, now, threshold, window);
    OneMoreEvent(rest, now, threshold, window);
  }

  lemma {:induction false} WindowAlwaysFits(times: seq<real>, threshold: nat, window: real)
    requires NonDecreasing(times) && threshold >= 1 && window >= 1.0
    ensures WindowFits(times, threshold, window)
  {
    if times != [] {
      var rest, now := times[..|times| - 1], times[|times| - 1];
      assert times == rest + [now];
      PrefixNonDecreasing(rest, now);
      WindowAlwaysFits(rest, threshold, window);
      WindowFitsSnoc(rest, now, threshold, window);
    }
  }

  /** The queue is exactly the window of the full history, and at or above the threshold the
      alarm is disarmed, below it armed. */
  lemma QueueIsWindow(times: seq<real>, threshold: nat, window: real)
    requires NonDecreasing(times) && threshold >= 1 && window >= 1.0
    ensures Run(times, threshold, window).queue ==
            if times == [] then [] else Since(times, times[|times| - 1] - window)
    ensures Run(times, threshold, window).armed <==> |Run(times, threshold, window).queue| < threshold
  {
    WindowAlwaysFits(times, threshold, window);
  }

  lemma PrefixNonDecreasing(rest: seq<real>, now: real)
    requires NonDecreasing(rest + [now])
    ensures NonDecreasing(rest) && (rest != [] ==> rest[|rest| - 1] <= now)
  {
    forall i, j | 0 <= i < j < |rest| ensures rest[i] <= rest[j] {
      assert (rest + [now])[i] <= (rest + [now])[j];
    }
    if rest != [] { assert (rest + [now])[|rest| - 1] <= (rest + [now])[|rest|]; }
  }

  lemma OneMoreEvent(rest: seq<real>, now: real, threshold: nat, window: real)
    requires window >= 0.0
    requires Run(rest, threshold, window).armed <==> |Run(rest, threshold, window).queue| < threshold
    requires DropBefore(Run(rest, threshold, window).queue, now - window) == Since(rest, now - window)
    ensures Run(rest + [now], threshold, window).queue == Since(rest + [now], now - window)
    ensures Run(rest + [now], threshold, window).armed <==>
              |Run(rest + [now], threshold, window).queue| < threshold
  {
    assert (rest + [now])[..|rest|] == rest;
    RecordedState(Run(rest, threshold, window), threshold, window, now);
  }

  lemma RecordedState(s: KeyState, threshold: nat, window: real, now: real)
    requires s.armed <==> |s.queue| < threshold
    ensures var after := Record(s, threshold, window, now).0;
            after.queue == DropBefore(s.queue, now - window) + [now] && (after.armed <==> |after.queue| < threshold)
  {
    DropBeforeShorter(s.queue, now - window);
  }

  /** Pruning the queue for the next event leaves the window of the full history. */
  lemma KeptIsWindow(times: seq<real>, now: real, threshold: nat, window: real)
    requires NonDecreasing(times) && (times != [] ==> times[|times| - 1] <= now)
    requires Run(times, threshold, window).queue == if times == [] then []
             else Since(times, times[|times| - 1] - window)
    ensures DropBefore(Run(times, threshold, window).queue, now - window) == Since(times, now - window)
  {
    if times != [] {
      var before := times[|times| - 1] - window;
      SinceNonDecreasing(times, before);
      DropBeforeOfSorted(Since(times, before), now - window);
      SinceTwice(times, before, now - window);
    }
  }

  /** An alarm fires exactly when the event is the threshold-th inside its window. */
  lemma FiresExactly(times: seq<real>, i: nat, threshold: nat, window: real)
    requires NonDecreasing(times) && i < |times| && threshold >= 1 && window >= 1.0
    ensures Fires(times, i, threshold, window) <==> |Since(times[..i], times[i] - window)| == threshold - 1
  {
    var rest, now := times[..i], times[i];
    forall a, b | 0 <= a < b < |rest| ensures rest[a] <= rest[b] { assert times[a] <= times[b]; }
    if rest != [] { assert rest[|rest| - 1] == times[i - 1] <= now; }
    QueueIsWindow(rest, threshold, window);
    KeptIsWindow(rest, now, threshold, window);
    RecordFires(Run(rest, threshold, window), threshold, window, now);
  }

  lemma RecordFires(s: KeyState, threshold: nat, window: real, now: real)
    requires threshold >= 1 && (s.armed <==> |s.queue| < threshold)
    ensures Record(s, threshold, window, now).1 <==> |DropBefore(s.queue, now - window)| == threshold - 1
  {
    DropBeforeShorter(s.queue, now - window);
  }

  lemma {:induction false} DropBeforeShorter(q: seq<real>, cutoff: real)
    ensures |DropBefore(q, cutoff)| <= |q|
  {
    if q != [] && q[0] < cutoff { DropBeforeShorter(q[1..], cutoff); }
  }

  /** The event `threshold` places before an alarm is already outside its window. */
  lemma AlarmWindowIsShort(times: seq<real>, i: nat, threshold: nat, window: real)
    requires NonDecreasing(times) && i < |times| && threshold >= 1 && window >= 1.0
    requires Fires(times, i, threshold, window) && i >= threshold
    ensures times[i - threshold] < times[i] - window
  {
    FiresExactly(times, i, threshold, window);
    var cutoff := times[i] - window;
    DropBeforeOfSorted(times[..i], cutoff);
    var k := DropBeforeIsSuffix(times[..i], cutoff);
    assert i - k == threshold - 1;
    assert times[..i][i - threshold] < cutoff;
  }

  /** Alarm density: of any `threshold + 1` alarms of a key, the first and the last are strictly
      more than one window apart. */
  lemma AlarmsAreSpaced(times: seq<real>, alarms: seq<nat>, threshold: nat, window: real)
    requires NonDecreasing(times) && threshold >= 1 && window >= 1.0
    requires |alarms| == threshold + 1
    requires forall a, b :: 0 <= a < b < |alarms| ==> alarms[a] < alarms[b]
    requires forall a :: 0 <= a < |alarms| ==> alarms[a] < |times| && Fires(times, alarms[a], threshold, window)
    ensures times[alarms[threshold]] - times[alarms[0]] > window
  {
    IndicesSpread(alarms, threshold);
    AlarmWindowIsShort(times, alarms[threshold], threshold, window);
  }

  lemma {:induction false} IndicesSpread(indices: seq<nat>, n: nat)
    requires n < |indices| && forall a, b :: 0 <= a < b < |indices| ==> indices[a] < indices[b]
    ensures indices[n] >= indices[0] + n
  {
    if n > 0 { IndicesSpread(indices, n - 1); }
  }

  // ----- many keys

  datatype Event = Event(key: Key, time: real)

  function StateOf(states: map<Key, KeyState>, k: Key): KeyState {
    if k in states then states[k] else FRESH
  }

  function RunAll(events: seq<Event>, threshold: nat, window: real): map<Key, KeyState> {
    if events == [] then map[]
    else
      var e := events[|events| - 1];
      var before := RunAll(events[..|events| - 1], threshold, window);
      before[e.key := Record(StateOf(before, e.key), threshold, window, e.time).0]
  }

  function TimesOf(events: seq<Event>, k: Key): seq<real> {
    if events == [] then []
    else
      var e := events[|events| - 1];
      var earlier := TimesOf(events[..|events| - 1], k);
      if e.key == k then earlier + [e.time] else earlier
  }

  /** Keys do not disturb each other: each one's state is that of its own events alone. */
  lemma {:induction false} KeysAreIndependent(events: seq<Event>, k: Key, threshold: nat, window: real)
    ensures StateOf(RunAll(events, threshold, window), k) == Run(TimesOf(events, k), threshold, window)
  {
    if events != [] {
      var rest := events[..|events| - 1];
      KeysAreIndependent(rest, k, threshold, window);
      var e := events[|events| - 1];
      if e.key == k {
        assert (TimesOf(rest, k) + [e.time])[..|TimesOf(rest, k)|] == TimesOf(rest, k);
      }
    }
  }
}
