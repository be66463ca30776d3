/** The latency and throughput diagnostics engine (src/latency-monitor.ts):
    a ping window, intent round-trip time, server durations, a trailing
    byte-rate window and the overlay's visibility flag. `Date.now()` is the
    parameter `now`, in milliseconds. */
module LatencyMonitor {
  import opened Wrappers

  /** Capacity of the ping window. */
  const PingHistorySize: nat := 5
  /** Bytes per second is reported once the window is this old (1 s). */
  const ReportAfterMs: int := 1000
  /** The byte window restarts once it is this old (5 s). */
  const ResetAfterMs: int := 5000

  datatype Monitor = Monitor(
    pingHistory: seq<int>,
    pingRttMs: Option<int>,
    intentRttMs: Option<int>,
    physicsDurationMs: Option<real>,
    physicsMaxMs: Option<real>,
    broadcastDurationMs: Option<real>,
    syncBytesPerFrame: Option<int>,
    byteAccumulator: int,
    byteWindowStart: int,
    visible: bool)

  /** The read-only view handed to the renderer. */
  datatype Snapshot = Snapshot(
    pingRttMs: Option<int>,
    pingRttAvgMs: Option<int>,
    intentRttMs: Option<int>,
    physicsDurationMs: Option<real>,
    physicsMaxMs: Option<real>,
    broadcastDurationMs: Option<real>,
    syncBytesPerFrame: Option<int>,
    syncBytesPerSecond: Option<int>,
    visible: bool)

  /** A monitor created at time `now`: nothing measured, an empty byte
      window starting now, overlay hidden. */
  function Init(now: int): (m: Monitor)
    ensures m.pingHistory == [] && m.byteAccumulator == 0 && m.byteWindowStart == now
    ensures m.pingRttMs.None? && m.intentRttMs.None? && m.syncBytesPerFrame.None?
    ensures m.physicsDurationMs.None? && m.physicsMaxMs.None? && m.broadcastDurationMs.None?
    ensures !m.visible
  {
    Monitor([], None, None, None, None, None, None, 0, now, false)
  }

  // ---------------------------------------------------------------------
  // Rounding

  /** `r` is `s / n` rounded to the nearest integer, halves upwards, as
      `Math.round` does: r - 1/2 <= s/n < r + 1/2. */
  predicate IsRounding(r: int, s: int, n: int)
    requires n > 0
  {
    2 * n * r - n <= 2 * s < 2 * n * r + n
  }

  /** `Math.round(s / n)` for a positive divisor, in integer arithmetic. */
  function RoundDiv(s: int, n: int): (r: int)
    requires n > 0
    ensures IsRounding(r, s, n)
  {
    var q := (2 * s + n) / (2 * n);
    assert 2 * s + n == 2 * n * q + (2 * s + n) % (2 * n);
    q
  }

  lemma MulAtLeastFactor(k: int, d: int)
    requires k > 0 && d >= 1
    ensures k * d >= k
  {
    assert k * d == k + k * (d - 1);
  }

  /** At most one integer is the rounding of a quotient. */
  lemma RoundingIsUnique(r1: int, r2: int, s: int, n: int)
    requires n > 0
    requires IsRounding(r1, s, n) && IsRounding(r2, s, n)
    ensures r1 == r2
  {
    var k := 2 * n;
    if r1 < r2 {
      var d := r2 - r1;
      assert k * r2 == k * r1 + k * d;
      MulAtLeastFactor(k, d);
    } else if r2 < r1 {
      var d := r1 - r2;
      assert k * r1 == k * r2 + k * d;
      MulAtLeastFactor(k, d);
    }
  }

  // ---------------------------------------------------------------------
  // Ping window

  function Sum(s: seq<int>): int {
    if s == [] then 0 else Sum(s[..|s| - 1]) + s[|s| - 1]
  }

  /** The last `min(|s|, n)` elements of `s`, in order. */
  function LastN(s: seq<int>, n: nat): (r: seq<int>)
    ensures |r| <= n && |r| <= |s|
  {
    if |s| <= n then s else s[|s| - n..]
  }

  /** `recordPing`: append to the window, evict the oldest beyond capacity,
      and make `rttMs` the latest ping. */
  function RecordPing(m: Monitor, rttMs: int): (m': Monitor)
    ensures m'.pingRttMs == Some(rttMs)
    ensures |m.pingHistory| <= PingHistorySize ==> m'.pingHistory == LastN(m.pingHistory + [rttMs], PingHistorySize)
    ensures m'.(pingHistory := m.pingHistory, pingRttMs := m.pingRttMs) == m
  {
    var h := m.pingHistory + [rttMs];
    var h' := if |h| > PingHistorySize then h[1..] else h;
    m.(pingHistory := h', pingRttMs := Some(rttMs))
  }

  /** The window's rounded mean, or null while it is empty. */
  function PingAverage(h: seq<int>): (r: Option<int>)
    ensures r.None? <==> |h| == 0
    ensures r.Some? ==> IsRounding(r.value, Sum(h), |h|)
  {
    if |h| > 0 then Some(RoundDiv(Sum(h), |h|)) else None
  }

  // ---------------------------------------------------------------------
  // SYNC measurements

  /** `recordSync`: intent round-trip from the echoed timestamp when there is
      one, the server's durations, the running physics maximum, and the
      frame's size into the byte window. */
  function RecordSync(
    m: Monitor, rawByteLength: int, lastIntentSentAt: Option<int>,
    physicsDurationMs: real, broadcastDurationMs: real, now: int): (m': Monitor)
    ensures lastIntentSentAt.Some? ==> m'.intentRttMs == Some(now - lastIntentSentAt.value)
    ensures lastIntentSentAt.None? ==> m'.intentRttMs == m.intentRttMs
    ensures m'.physicsDurationMs == Some(physicsDurationMs)
    ensures m'.physicsMaxMs.Some? && m'.physicsMaxMs.value >= physicsDurationMs
    ensures m.physicsMaxMs.Some? ==> m'.physicsMaxMs.value >= m.physicsMaxMs.value
    ensures m'.physicsMaxMs == m.physicsMaxMs || m'.physicsMaxMs == Some(physicsDurationMs)
    ensures m'.broadcastDurationMs == Some(broadcastDurationMs)
    ensures m'.syncBytesPerFrame == Some(rawByteLength)
    ensures m'.byteAccumulator == m.byteAccumulator + rawByteLength
    ensures m'.pingHistory == m.pingHistory && m'.pingRttMs == m.pingRttMs
    ensures m'.byteWindowStart == m.byteWindowStart && m'.visible == m.visible
  {
    var intent := if lastIntentSentAt.Some? then Some(now - lastIntentSentAt.value) else m.intentRttMs;
    var maxMs :=
      if m.physicsMaxMs.None? || physicsDurationMs > m.physicsMaxMs.value
      then Some(physicsDurationMs) else m.physicsMaxMs;
    m.(intentRttMs := intent,
       physicsDurationMs := Some(physicsDurationMs),
       physicsMaxMs := maxMs,
       broadcastDurationMs := Some(broadcastDurationMs),
       syncBytesPerFrame := Some(rawByteLength),
       byteAccumulator := m.byteAccumulator + rawByteLength)
  }

  // ---------------------------------------------------------------------
  // Visibility and snapshot

  /** `toggleVisible`: flip the overlay flag and nothing else. */
  function ToggleVisible(m: Monitor): (m': Monitor)
    ensures m'.visible != m.visible
    ensures m'.(visible := m.visible) == m
  {
    m.(visible := !m.visible)
  }

  /** Bytes per second over a window `elapsedMs` old holding `acc` bytes:
      null under one second, otherwise `acc * 1000 / elapsedMs` rounded. */
  function BytesPerSecond(acc: int, elapsedMs: int): (r: Option<int>)
    ensures r.None? <==> elapsedMs < ReportAfterMs
    ensures r.Some? ==> elapsedMs > 0 && IsRounding(r.value, 1000 * acc, elapsedMs)
  {
    if elapsedMs >= ReportAfterMs then Some(RoundDiv(1000 * acc, elapsedMs)) else None
  }

  /** `getSnapshot`: the current view, with the byte rate computed from the
      accumulator before the window is restarted; the window restarts (empty,
      starting `now`) once it is five seconds old. Returns the view and the
      monitor afterwards. */
  function GetSnapshot(m: Monitor, now: int): (r: (Snapshot, Monitor))
    ensures var elapsed := now - m.byteWindowStart;
      && (r.0.syncBytesPerSecond.None? <==> elapsed < ReportAfterMs)
      && (r.0.syncBytesPerSecond.Some? ==> elapsed > 0 && IsRounding(r.0.syncBytesPerSecond.value, 1000 * m.byteAccumulator, elapsed))
      && (elapsed >= ResetAfterMs ==> r.1.byteAccumulator == 0 && r.1.byteWindowStart == now)
      && (elapsed < ResetAfterMs ==> r.1 == m)
    ensures r.1.(byteAccumulator := m.byteAccumulator, byteWindowStart := m.byteWindowStart) == m
    ensures r.0.pingRttAvgMs.None? <==> m.pingHistory == []
    ensures r.0.pingRttAvgMs.Some? ==> IsRounding(r.0.pingRttAvgMs.value, Sum(m.pingHistory), |m.pingHistory|)
    ensures r.0.visible == m.visible
    ensures && r.0.pingRttMs == m.pingRttMs && r.0.intentRttMs == m.intentRttMs
            && r.0.physicsDurationMs == m.physicsDurationMs && r.0.physicsMaxMs == m.physicsMaxMs
            && r.0.broadcastDurationMs == m.broadcastDurationMs
            && r.0.syncBytesPerFrame == m.syncBytesPerFrame
  {
    var elapsed := now - m.byteWindowStart;
    var bps := BytesPerSecond(m.byteAccumulator, elapsed);
    var m' := if elapsed >= ResetAfterMs then m.(byteAccumulator := 0, byteWindowStart := now) else m;
    var snap := Snapshot(
      m.pingRttMs, PingAverage(m.pingHistory), m.intentRttMs,
      m.physicsDurationMs, m.physicsMaxMs, m.broadcastDurationMs,
      m.syncBytesPerFrame, bps, m.visible);
    (snap, m')
  }

  // ---------------------------------------------------------------------
  // Runs of events

  /** One call into the monitor. */
  datatype Event =
    | PingEvent(rttMs: int)
    | SyncEvent(rawByteLength: int, lastIntentSentAt: Option<int>, physicsDurationMs: real, broadcastDurationMs: real, now: int)
    | ToggleEvent
    | SnapshotEvent(now: int)

  function Step(m: Monitor, e: Event): Monitor {
    match e
    case PingEvent(rtt) => RecordPing(m, rtt)
    case SyncEvent(raw, sentAt, phys, bcast, now) => RecordSync(m, raw, sentAt, phys, bcast, now)
    case ToggleEvent => ToggleVisible(m)
    case SnapshotEvent(now) => GetSnapshot(m, now).1
  }

  /** The monitor after the events `es`, in order. */
  function Run(m: Monitor, es: seq<Event>): Monitor {
    if es == [] then m else Step(Run(m, es[..|es| - 1]), es[|es| - 1])
  }

  /** The round-trip values of the ping events of `es`, in order. */
  function Pings(es: seq<Event>): seq<int> {
    if es == [] then []
    else Pings(es[..|es| - 1]) + (if es[|es| - 1].PingEvent? then [es[|es| - 1].rttMs] else [])
  }

  /** The physics durations of the SYNC events of `es`, in order. */
  function PhysicsDurations(es: seq<Event>): seq<real> {
    if es == [] then []
    else PhysicsDurations(es[..|es| - 1])
         + (if es[|es| - 1].SyncEvent? then [es[|es| - 1].physicsDurationMs] else [])
  }

  function MaxOf(s: seq<real>): real
    requires s != []
  {
    if |s| == 1 then s[0]
    else var m := MaxOf(s[..|s| - 1]); if s[|s| - 1] > m then s[|s| - 1] else m
  }

  lemma MaxOfIsMaximum(s: seq<real>)
    requires s != []
    ensures forall i :: 0 <= i < |s| ==> s[i] <= MaxOf(s)
    ensures exists i :: 0 <= i < |s| && s[i] == MaxOf(s)
  {
    if |s| == 1 {
      assert s[0] == MaxOf(s);
    } else {
      var init := s[..|s| - 1];
      MaxOfIsMaximum(init);
      var k :| 0 <= k < |init| && init[k] == MaxOf(init);
      assert s[k] == init[k];
      if s[|s| - 1] > MaxOf(init) {
        assert s[|s| - 1] == MaxOf(s);
      } else {
        assert s[k] == MaxOf(s);
      }
    }
  }

  lemma LastNAppend(s: seq<int>, x: int, n: nat)
    requires n > 0
    ensures var w := LastN(s, n) + [x];
            (if |w| > n then w[1..] else w) == LastN(s + [x], n)
  {
  }

  /** After any run the ping window holds the last (at most five) pings of
      the run, preceded by what is left of the old window, oldest evicted first. */
  lemma {:induction false} PingWindowHoldsLastPings(m: Monitor, es: seq<Event>)
    requires |m.pingHistory| <= PingHistorySize
    ensures Run(m, es).pingHistory == LastN(m.pingHistory + Pings(es), PingHistorySize)
  {
    if es == [] {
      assert m.pingHistory + [] == m.pingHistory;
    } else {
      var init := es[..|es| - 1];
      var e := es[|es| - 1];
      PingWindowHoldsLastPings(m, init);
      var before := Run(m, init);
      if e.PingEvent? {
        LastNAppend(m.pingHistory + Pings(init), e.rttMs, PingHistorySize);
        assert m.pingHistory + Pings(es) == (m.pingHistory + Pings(init)) + [e.rttMs];
      } else {
        assert Pings(es) == Pings(init);
      }
    }
  }

  /** In a run of ping events only, `Pings` lists their round-trip values. */
  lemma {:induction false} PingsOfPingEvents(es: seq<Event>)
    requires forall i :: 0 <= i < |es| ==> es[i].PingEvent?
    ensures |Pings(es)| == |es|
    ensures forall i :: 0 <= i < |es| ==> Pings(es)[i] == es[i].rttMs
  {
    if es != [] {
      PingsOfPingEvents(es[..|es| - 1]);
    }
  }

  lemma AverageOfLastFive()
    ensures PingAverage([20, 30, 40, 50, 60]) == Some(40)
  {
    assert [20, 30][..1] == [20];
    assert Sum([20, 30]) == 50;
    assert [20, 30, 40][..2] == [20, 30];
    assert Sum([20, 30, 40]) == 90;
    assert [20, 30, 40, 50][..3] == [20, 30, 40];
    assert Sum([20, 30, 40, 50]) == 140;
    assert [20, 30, 40, 50, 60][..4] == [20, 30, 40, 50];
    assert Sum([20, 30, 40, 50, 60]) == 200;
  }

  /** Pings 10, 20, 30, 40, 50, 60 from a fresh monitor leave 20..60 in the window and an average of 40. */
  lemma PingAverageExample(now: int)
    ensures var es := [PingEvent(10), PingEvent(20), PingEvent(30), PingEvent(40), PingEvent(50), PingEvent(60)];
            var m := Run(Init(now), es);
            m.pingHistory == [20, 30, 40, 50, 60] && PingAverage(m.pingHistory) == Some(40)
  {
    var es := [PingEvent(10), PingEvent(20), PingEvent(30), PingEvent(40), PingEvent(50), PingEvent(60)];
    PingWindowHoldsLastPings(Init(now), es);
    PingsOfPingEvents(es);
    var ps := Pings(es);
    assert ps == [10, 20, 30, 40, 50, 60];
    assert [] + ps == ps;
    assert LastN(ps, PingHistorySize) == ps[1..] == [20, 30, 40, 50, 60];
    AverageOfLastFive();
  }

  /** The physics maximum never decreases over a run, and once set it bounds
      every physics duration the run recorded. */
  lemma {:induction false} PhysicsMaxNeverDecreases(m: Monitor, es: seq<Event>)
    requires m.physicsMaxMs.Some?
    ensures Run(m, es).physicsMaxMs.Some?
    ensures Run(m, es).physicsMaxMs.value >= m.physicsMaxMs.value
    ensures forall i :: 0 <= i < |PhysicsDurations(es)| ==> PhysicsDurations(es)[i] <= Run(m, es).physicsMaxMs.value
  {
    if es != [] {
      var init := es[..|es| - 1];
      PhysicsMaxNeverDecreases(m, init);
    }
  }

  /** From a monitor that has seen no SYNC, the physics maximum after a run
      is null when the run had no SYNC and otherwise the largest physics
      duration recorded. */
  lemma {:induction false} PhysicsMaxIsLargestDuration(m: Monitor, es: seq<Event>)
    requires m.physicsMaxMs.None?
    ensures PhysicsDurations(es) == [] ==> Run(m, es).physicsMaxMs.None?
    ensures PhysicsDurations(es) != [] ==> Run(m, es).physicsMaxMs == Some(MaxOf(PhysicsDurations(es)))
  {
    if es != [] {
      var init := es[..|es| - 1];
      var e := es[|es| - 1];
      PhysicsMaxIsLargestDuration(m, init);
      if e.SyncEvent? {
        var ds := PhysicsDurations(es);
        assert ds == PhysicsDurations(init) + [e.physicsDurationMs];
        assert ds[..|ds| - 1] == PhysicsDurations(init);
        if PhysicsDurations(init) == [] {
          assert ds == [e.physicsDurationMs];
        } else {
          assert MaxOf(ds) == (if e.physicsDurationMs > MaxOf(PhysicsDurations(init)) then e.physicsDurationMs else MaxOf(PhysicsDurations(init)));
        }
      } else {
        assert PhysicsDurations(es) == PhysicsDurations(init);
      }
    }
  }

  /** Toggling the overlay twice restores the monitor. */
  lemma ToggleTwiceRestores(m: Monitor)
    ensures ToggleVisible(ToggleVisible(m)) == m
  {
  }

  /** A 300-byte SYNC 500 ms into the window reports no rate yet; a second one at 1200 ms reports 500 bytes/s. */
  lemma ThroughputExample(start: int)
    ensures var m1 := RecordSync(Init(start), 300, None, 1.0, 1.0, start + 500);
            var (s1, m1') := GetSnapshot(m1, start + 500);
            var m2 := RecordSync(m1', 300, None, 1.0, 1.0, start + 1200);
            var (s2, _) := GetSnapshot(m2, start + 1200);
            && s1.syncBytesPerFrame == Some(300) && s1.syncBytesPerSecond.None?
            && s2.syncBytesPerSecond == Some(500)
  {
    var m1 := RecordSync(Init(start), 300, None, 1.0, 1.0, start + 500);
    var m1' := GetSnapshot(m1, start + 500).1;
    var m2 := RecordSync(m1', 300, None, 1.0, 1.0, start + 1200);
    assert m2.byteAccumulator == 600 && m2.byteWindowStart == start;
    var r := GetSnapshot(m2, start + 1200).0.syncBytesPerSecond.value;
    RoundingIsUnique(r, 500, 600000, 1200);
  }
}
