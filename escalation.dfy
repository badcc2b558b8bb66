/**
 * The escalation policy of mqtt-watchdog.c on values: what one evaluation
 * pass does to one topic monitor, what a received message does to the
 * table, and how configuration fills the table. The `TopicTable` class in
 * module Topics applies these to its array in place.
 */
module Escalation {
  import opened Wrappers
  import Config
  import Text

  const WarningDefault: int := 60
  const RestartDefault: int := 300

  /** Size of the `subject` buffer in `topic_process`, terminator included. */
  const AlertSubjectBufferSize: nat := 256

  /**
   * A `TopicMonitor`. Timestamps are seconds (`time_t`); the counters are
   * `unsigned long` in the source and unbounded here.
   */
  datatype Monitor = Monitor(
    topic: string,
    service: Option<string>,
    warningSeconds: int,
    restartSeconds: int,
    lastMessage: int,
    warned: bool,
    restarted: bool,
    level1Timeouts: nat,
    level2Timeouts: nat,
    lastLevel1Time: int,
    lastLevel2Time: int)

  /** Which escalation a monitor fires in a pass, if any. */
  datatype Level = Quiet | Level1 | Level2

  function Elapsed(m: Monitor, now: int): int {
    now - m.lastMessage
  }

  /** The level-2 check comes first and, when it fires, the level-1 check is skipped. */
  function FireLevel(m: Monitor, now: int): Level {
    if Elapsed(m, now) >= m.restartSeconds && !m.restarted then Level2
    else if Elapsed(m, now) >= m.warningSeconds && !m.warned then Level1
    else Quiet
  }

  /** A restart is only ever recorded together with a warning. */
  predicate WellFormed(m: Monitor) {
    m.restarted ==> m.warned
  }

  /** What one pass of `topic_process` at time `now` does to one monitor. */
  function Step(m: Monitor, now: int): (r: Monitor)
    ensures r.topic == m.topic && r.service == m.service && r.lastMessage == m.lastMessage
    ensures r.warningSeconds == m.warningSeconds && r.restartSeconds == m.restartSeconds
    ensures FireLevel(m, now) == Level2 ==>
      && r.level2Timeouts == m.level2Timeouts + 1 && r.lastLevel2Time == now
      && r.level1Timeouts == m.level1Timeouts && r.lastLevel1Time == m.lastLevel1Time
    ensures FireLevel(m, now) == Level1 ==>
      && r.level1Timeouts == m.level1Timeouts + 1 && r.lastLevel1Time == now
      && r.level2Timeouts == m.level2Timeouts && r.lastLevel2Time == m.lastLevel2Time
    ensures FireLevel(m, now) == Quiet ==>
      && r.level1Timeouts == m.level1Timeouts && r.lastLevel1Time == m.lastLevel1Time
      && r.level2Timeouts == m.level2Timeouts && r.lastLevel2Time == m.lastLevel2Time
    ensures Elapsed(m, now) < m.warningSeconds ==> !r.warned && !r.restarted
    ensures Elapsed(m, now) >= m.warningSeconds ==>
      && r.warned == (m.warned || FireLevel(m, now) != Quiet)
      && r.restarted == (m.restarted || FireLevel(m, now) == Level2)
    ensures WellFormed(m) ==> WellFormed(r)
  {
    var seconds := now - m.lastMessage;
    var fired :=
      if seconds >= m.restartSeconds && !m.restarted then
        m.(warned := true, restarted := true, level2Timeouts := m.level2Timeouts + 1, lastLevel2Time := now)
      else if seconds >= m.warningSeconds && !m.warned then
        m.(warned := true, level1Timeouts := m.level1Timeouts + 1, lastLevel1Time := now)
      else m;
    if seconds < m.warningSeconds then fired.(warned := false, restarted := false) else fired
  }

  // ---------------------------------------------------------------------------
  // A whole pass over the table

  function Processed(ms: seq<Monitor>, now: int): seq<Monitor> {
    seq(|ms|, i requires 0 <= i < |ms| => Step(ms[i], now))
  }

  /** How many monitors of `ms` fire `level` in a pass at `now`. */
  function Fired(ms: seq<Monitor>, now: int, level: Level): nat {
    if ms == [] then 0
    else Fired(ms[..|ms| - 1], now, level) + (if FireLevel(ms[|ms| - 1], now) == level then 1 else 0)
  }

  function SumLevel1(ms: seq<Monitor>): nat {
    if ms == [] then 0 else SumLevel1(ms[..|ms| - 1]) + ms[|ms| - 1].level1Timeouts
  }

  function SumLevel2(ms: seq<Monitor>): nat {
    if ms == [] then 0 else SumLevel2(ms[..|ms| - 1]) + ms[|ms| - 1].level2Timeouts
  }

  /** The per-monitor counters grow, in total, by exactly the escalations fired in the pass. */
  lemma {:induction false} PassTotals(ms: seq<Monitor>, now: int)
    ensures SumLevel1(Processed(ms, now)) == SumLevel1(ms) + Fired(ms, now, Level1)
    ensures SumLevel2(Processed(ms, now)) == SumLevel2(ms) + Fired(ms, now, Level2)
    decreases |ms|
  {
    if ms != [] {
      var init := ms[..|ms| - 1];
      assert Processed(ms, now)[..|ms| - 1] == Processed(init, now);
      PassTotals(init, now);
    }
  }

  /** Two tables with the same counters, monitor by monitor, have the same totals. */
  lemma {:induction false} SameCountersSameTotals(a: seq<Monitor>, b: seq<Monitor>)
    requires |a| == |b|
    requires forall i :: 0 <= i < |a| ==> a[i].level1Timeouts == b[i].level1Timeouts && a[i].level2Timeouts == b[i].level2Timeouts
    ensures SumLevel1(a) == SumLevel1(b) && SumLevel2(a) == SumLevel2(b)
    decreases |a|
  {
    if a != [] {
      SameCountersSameTotals(a[..|a| - 1], b[..|b| - 1]);
    }
  }

  /** A table whose counters are all zero has zero totals. */
  lemma {:induction false} ZeroCountersZeroTotals(ms: seq<Monitor>)
    requires forall i :: 0 <= i < |ms| ==> ms[i].level1Timeouts == 0 && ms[i].level2Timeouts == 0
    ensures SumLevel1(ms) == 0 && SumLevel2(ms) == 0
    decreases |ms|
  {
    if ms != [] {
      ZeroCountersZeroTotals(ms[..|ms| - 1]);
    }
  }

  /** An escalation fired in a pass, with the topic, silence and service it concerns. */
  datatype Alert = Alert(level: Level, topic: string, elapsed: int, service: Option<string>)

  function AlertOf(m: Monitor, now: int): seq<Alert> {
    if FireLevel(m, now) == Quiet then [] else [Alert(FireLevel(m, now), m.topic, Elapsed(m, now), m.service)]
  }

  /** The escalations of a pass, in table order. */
  function PassAlerts(ms: seq<Monitor>, now: int): seq<Alert> {
    if ms == [] then [] else PassAlerts(ms[..|ms| - 1], now) + AlertOf(ms[|ms| - 1], now)
  }

  /**
   * Every alert dispatched in a pass is one counter increment, and the other
   * way round: the pass alerts level 1 exactly as often as it fires level 1,
   * and likewise for level 2.
   */
  lemma {:induction false} AlertsMatchCounters(ms: seq<Monitor>, now: int)
    ensures |PassAlerts(ms, now)| == Fired(ms, now, Level1) + Fired(ms, now, Level2)
    ensures forall a :: a in PassAlerts(ms, now) ==> a.level != Quiet
    decreases |ms|
  {
    if ms != [] {
      AlertsMatchCounters(ms[..|ms| - 1], now);
    }
  }

  /** The subject `topic_process` formats for an alert, cut to its 256-byte buffer. */
  function AlertSubject(a: Alert): (r: string)
    ensures |r| < AlertSubjectBufferSize
  {
    Text.Fit(
      "Alert '" + a.topic + "' " + (if a.level == Level2 then "level-2" else "level-1") + " timeout ("
      + Text.IntToDecimal(a.elapsed) + " seconds) "
      + (if a.level == Level2 then "[notify+restart]" else "[notify]"),
      AlertSubjectBufferSize)
  }

  // ---------------------------------------------------------------------------
  // Receiving a message

  /** The index of the first monitor, at or after `from`, whose topic is exactly `topic`. */
  function FindTopic(ms: seq<Monitor>, topic: string, from: nat): (r: Option<nat>)
    requires from <= |ms|
    ensures r.Some? ==> from <= r.value < |ms| && ms[r.value].topic == topic
    ensures r.Some? ==> forall j :: from <= j < r.value ==> ms[j].topic != topic
    ensures r.None? ==> forall j :: from <= j < |ms| ==> ms[j].topic != topic
    decreases |ms| - from
  {
    if from == |ms| then None
    else if ms[from].topic == topic then Some(from)
    else FindTopic(ms, topic, from + 1)
  }

  /** The table after a message on `topic` arrives at time `now`. */
  function Received(ms: seq<Monitor>, topic: string, now: int): (r: seq<Monitor>)
    ensures |r| == |ms|
    ensures forall i :: 0 <= i < |ms| ==> r[i] == ms[i].(lastMessage := r[i].lastMessage)
    ensures forall i :: 0 <= i < |ms| && ms[i].topic != topic ==> r[i] == ms[i]
    ensures forall i :: 0 <= i < |ms| && ms[i].topic == topic && (forall j :: 0 <= j < i ==> ms[j].topic != topic)
                ==> r[i].lastMessage == now
    ensures forall i, j :: 0 <= j < i < |ms| && ms[j].topic == topic ==> r[i] == ms[i]
    ensures (forall i :: 0 <= i < |ms| ==> ms[i].topic != topic) ==> r == ms
  {
    match FindTopic(ms, topic, 0)
    case None => ms
    case Some(k) => ms[k := ms[k].(lastMessage := now)]
  }

  /** A received message changes no counter, so it leaves the totals alone. */
  lemma ReceiveKeepsTotals(ms: seq<Monitor>, topic: string, now: int)
    ensures SumLevel1(Received(ms, topic, now)) == SumLevel1(ms)
    ensures SumLevel2(Received(ms, topic, now)) == SumLevel2(ms)
  {
    SameCountersSameTotals(Received(ms, topic, now), ms);
  }

  // ---------------------------------------------------------------------------
  // Building the table from configuration

  /** Whether `topic.<i>.name` is configured. */
  predicate Present(st: Config.Store, i: nat) {
    Config.GetString(st, Config.TopicKey(i, "name")).Some?
  }

  /** The monitor `topic_config` builds for configured index `i` at time `now`. */
  function NewMonitor(st: Config.Store, i: nat, now: int): (m: Monitor)
    requires Present(st, i)
    ensures WellFormed(m) && !m.warned && !m.restarted
    ensures m.level1Timeouts == 0 && m.level2Timeouts == 0 && m.lastLevel1Time == 0 && m.lastLevel2Time == 0
    ensures m.lastMessage == now
    ensures m.warningSeconds > 0 && m.restartSeconds > 0 ==> FireLevel(m, now) == Quiet
  {
    Monitor(
      topic := Config.GetString(st, Config.TopicKey(i, "name")).value,
      service := Config.GetString(st, Config.TopicKey(i, "service")),
      warningSeconds := Config.GetInteger(st, Config.TopicKey(i, "warning"), WarningDefault),
      restartSeconds := Config.GetInteger(st, Config.TopicKey(i, "restart"), RestartDefault),
      lastMessage := now,
      warned := false,
      restarted := false,
      level1Timeouts := 0,
      level2Timeouts := 0,
      lastLevel1Time := 0,
      lastLevel2Time := 0)
  }

  /**
   * The configured indices below `n`, in increasing order: a missing
   * `topic.<i>.name` is skipped and the scan goes on.
   */
  function ConfiguredIndices(st: Config.Store, n: nat): (r: seq<nat>)
    ensures |r| <= n
    ensures forall k :: 0 <= k < |r| ==> r[k] < n && Present(st, r[k])
    ensures forall k, l :: 0 <= k < l < |r| ==> r[k] < r[l]
    ensures forall i :: 0 <= i < n && Present(st, i) ==> i in r
  {
    if n == 0 then []
    else ConfiguredIndices(st, n - 1) + (if Present(st, n - 1) then [n - 1] else [])
  }

  /** The monitors for the configured indices below `n`, in index order. */
  function ConfiguredMonitors(st: Config.Store, n: nat, now: int): (r: seq<Monitor>)
    ensures |r| == |ConfiguredIndices(st, n)| <= n
    ensures forall k :: 0 <= k < |r| ==>
              && WellFormed(r[k]) && !r[k].warned && r[k].lastMessage == now
              && r[k].level1Timeouts == 0 && r[k].level2Timeouts == 0
  {
    var idx := ConfiguredIndices(st, n);
    seq(|idx|, k requires 0 <= k < |idx| => NewMonitor(st, idx[k], now))
  }

  /** Scanning one more index appends its monitor exactly when its name is configured. */
  lemma ConfiguredMonitorsStep(st: Config.Store, n: nat, now: int)
    ensures ConfiguredMonitors(st, n + 1, now)
         == ConfiguredMonitors(st, n, now) + (if Present(st, n) then [NewMonitor(st, n, now)] else [])
  {
    var a, b := ConfiguredIndices(st, n), ConfiguredIndices(st, n + 1);
    assert b == a + (if Present(st, n) then [n] else []);
    assert forall k :: 0 <= k < |a| ==> b[k] == a[k];
  }

  /**
   * A topic with the default thresholds and no service, silent from time 0:
   * the pass at 61 warns once, the pass at 301 escalates to level 2 without
   * counting level 1 again, and after a message at 301 the pass at 302
   * clears both flags and keeps the counters.
   */
  lemma SilenceThenRecovery(topic: string)
    ensures var m0 := Monitor(topic, None, 60, 300, 0, false, false, 0, 0, 0, 0);
            var m1 := Step(m0, 61);
            var m2 := Step(m1, 301);
            var m3 := Step(Received([m2], topic, 301)[0], 302);
            && FireLevel(m0, 61) == Level1 && m1.warned && !m1.restarted
            && m1.level1Timeouts == 1 && m1.level2Timeouts == 0 && m1.lastLevel1Time == 61
            && FireLevel(m1, 301) == Level2 && m2.warned && m2.restarted
            && m2.level1Timeouts == 1 && m2.level2Timeouts == 1 && m2.lastLevel2Time == 301
            && FireLevel(Received([m2], topic, 301)[0], 302) == Quiet
            && !m3.warned && !m3.restarted && m3.level1Timeouts == 1 && m3.level2Timeouts == 1
  {
  }

  // ---------------------------------------------------------------------------
  // Repeated passes

  /** Passes at the given times, one after another, with no message in between. */
  function Passes(m: Monitor, nows: seq<int>): Monitor
    decreases |nows|
  {
    if nows == [] then m else Passes(Step(m, nows[0]), nows[1..])
  }

  predicate Nondecreasing(nows: seq<int>) {
    forall i, j :: 0 <= i < j < |nows| ==> nows[i] <= nows[j]
  }

  /** A monitor that has restarted and stays silent past both thresholds fires nothing more. */
  lemma {:induction false} StaysRestarted(m: Monitor, nows: seq<int>)
    requires m.warned && m.restarted
    requires forall k :: 0 <= k < |nows| ==> Elapsed(m, nows[k]) >= m.restartSeconds && Elapsed(m, nows[k]) >= m.warningSeconds
    ensures Passes(m, nows).level1Timeouts == m.level1Timeouts
    ensures Passes(m, nows).level2Timeouts == m.level2Timeouts
    decreases |nows|
  {
    if nows != [] {
      assert Step(m, nows[0]) == m;
      StaysRestarted(m, nows[1..]);
    }
  }

  /**
   * A warned monitor that stays silent past its warning threshold never
   * fires level 1 again, and fires level 2 at most once.
   */
  lemma {:induction false} StaysWarned(m: Monitor, nows: seq<int>)
    requires m.warned && m.warningSeconds <= m.restartSeconds && Nondecreasing(nows)
    requires forall k :: 0 <= k < |nows| ==> Elapsed(m, nows[k]) >= m.warningSeconds
    ensures Passes(m, nows).level1Timeouts == m.level1Timeouts
    ensures Passes(m, nows).level2Timeouts <= m.level2Timeouts + 1
    decreases |nows|
  {
    if nows != [] {
      var next := Step(m, nows[0]);
      if FireLevel(m, nows[0]) == Level2 {
        StaysRestarted(next, nows[1..]);
      } else {
        assert next == m;
        StaysWarned(m, nows[1..]);
      }
    }
  }

  /**
   * Without an intervening message, and with the warning threshold not above
   * the restart threshold, passes at non-decreasing times fire each level at
   * most once.
   */
  lemma {:induction false} EscalatesAtMostOnce(m: Monitor, nows: seq<int>)
    requires m.warningSeconds <= m.restartSeconds && Nondecreasing(nows)
    ensures Passes(m, nows).level1Timeouts <= m.level1Timeouts + 1
    ensures Passes(m, nows).level2Timeouts <= m.level2Timeouts + 1
    decreases |nows|
  {
    if nows != [] {
      var next := Step(m, nows[0]);
      match FireLevel(m, nows[0])
      case Level2 => StaysRestarted(next, nows[1..]);
      case Level1 => StaysWarned(next, nows[1..]);
      case Quiet => EscalatesAtMostOnce(next, nows[1..]);
    }
  }

  /**
   * With the thresholds inverted, a silence between the restart and the
   * warning threshold fires level 2 on every pass: the same pass's recovery
   * reset clears `restarted` again.
   */
  lemma {:induction false} InvertedThresholdsRefire(m: Monitor, nows: seq<int>)
    requires !m.restarted
    requires forall k :: 0 <= k < |nows| ==> m.restartSeconds <= Elapsed(m, nows[k]) < m.warningSeconds
    ensures Passes(m, nows).level2Timeouts == m.level2Timeouts + |nows|
    decreases |nows|
  {
    if nows != [] {
      var next := Step(m, nows[0]);
      InvertedThresholdsRefire(next, nows[1..]);
    }
  }
}
