/**
 * The topic table of mqtt-watchdog.c: a fixed array of `MAX_TOPICS`
 * monitors, the number in use, and the two process-wide escalation
 * counters. `topic_config` fills the array in place, `topic_receive_message`
 * and `topic_process` update its entries, and `topic_stats_to_string`
 * renders it into a caller buffer. The current time is a parameter; the
 * mail and restart side effects go through the adapters of module Actions.
 */
module Topics {
  import opened Wrappers
  import Config
  import Email
  import Actions
  import Escalation
  import Stats

  const MaxTopics: nat := 32

  /** The mails a pass sends for its alerts: one per alert, unless notification is disabled. */
  function AlertMails(c: Actions.EmailConfig, alerts: seq<Escalation.Alert>): (r: seq<Email.Envelope>)
    ensures !Actions.NotifyEnabled(c) ==> r == []
    ensures Actions.NotifyEnabled(c) ==> |r| == |alerts|
    decreases |alerts|
  {
    if alerts == [] || !Actions.NotifyEnabled(c) then []
    else AlertMails(c, alerts[..|alerts| - 1])
         + [Actions.NotificationEnvelope(c, Escalation.AlertSubject(alerts[|alerts| - 1]), "")]
  }

  /** With notification enabled, the `k`-th mail is the notification of the `k`-th alert. */
  lemma {:induction false} AlertMailsAt(c: Actions.EmailConfig, alerts: seq<Escalation.Alert>, k: nat)
    requires Actions.NotifyEnabled(c) && k < |alerts|
    ensures AlertMails(c, alerts)[k] == Actions.NotificationEnvelope(c, Escalation.AlertSubject(alerts[k]), "")
    decreases |alerts|
  {
    if k < |alerts| - 1 {
      AlertMailsAt(c, alerts[..|alerts| - 1], k);
    }
  }

  /** The units a pass restarts: the named service of every level-2 alert, in order. */
  function AlertRestarts(alerts: seq<Escalation.Alert>): (r: seq<string>)
    ensures |r| <= |alerts|
    decreases |alerts|
  {
    if alerts == [] then []
    else
      var a := alerts[|alerts| - 1];
      AlertRestarts(alerts[..|alerts| - 1])
      + (if a.level == Escalation.Level2 && !Actions.RestartIsNoop(a.service) then [a.service.value] else [])
  }

  /** Every unit the pass restarts has a name: absent and empty services are skipped. */
  lemma {:induction false} RestartsAreNamed(alerts: seq<Escalation.Alert>)
    ensures forall k :: 0 <= k < |AlertRestarts(alerts)| ==> AlertRestarts(alerts)[k] != ""
    decreases |alerts|
  {
    if alerts != [] {
      RestartsAreNamed(alerts[..|alerts| - 1]);
    }
  }

  /** A pass restarts at most one unit per level-2 escalation it fires. */
  lemma {:induction false} RestartsWithinLevel2(ms: seq<Escalation.Monitor>, now: int)
    ensures |AlertRestarts(Escalation.PassAlerts(ms, now))| <= Escalation.Fired(ms, now, Escalation.Level2)
    decreases |ms|
  {
    if ms != [] {
      var init, last := ms[..|ms| - 1], ms[|ms| - 1];
      RestartsWithinLevel2(init, now);
      RestartsAppend(Escalation.PassAlerts(init, now), Escalation.AlertOf(last, now));
    }
  }

  /** `TopicMonitor topic_monitors[MAX_TOPICS]` with `topic_monitor_count` and the global counters. */
  class TopicTable {
    const monitors: array<Escalation.Monitor>
    var count: nat
    var timeoutLevel1: nat
    var timeoutLevel2: nat

    ghost predicate Valid()
      reads this, monitors
    {
      && monitors.Length == MaxTopics
      && count <= MaxTopics
      && forall i :: 0 <= i < count ==> Escalation.WellFormed(monitors[i])
    }

    /** The monitors in use, in table order. */
    function Monitors(): seq<Escalation.Monitor>
      reads this, monitors
      requires count <= monitors.Length
    {
      monitors[..count]
    }

    /** The global counters are the sums of the per-monitor counters. */
    predicate TotalsMatch()
      reads this, monitors
      requires count <= monitors.Length
    {
      timeoutLevel1 == Escalation.SumLevel1(Monitors()) && timeoutLevel2 == Escalation.SumLevel2(Monitors())
    }

    /** The zero-initialised globals: an empty table and zero counters. */
    constructor ()
      ensures Valid() && fresh(monitors)
      ensures count == 0 && timeoutLevel1 == 0 && timeoutLevel2 == 0
      ensures TotalsMatch()
    {
      monitors := new Escalation.Monitor[MaxTopics](_ => Escalation.Monitor("", None, 0, 0, 0, false, false, 0, 0, 0, 0));
      count, timeoutLevel1, timeoutLevel2 := 0, 0, 0;
    }

    /**
     * `topic_config`: scans `topic.0` to `topic.31`, skipping an index without
     * a name, and appends a fresh monitor for each configured one. It fails
     * when nothing is configured and as soon as the table is full, so a 32nd
     * topic already fails. The global counters are left as they are.
     */
    method Configure(st: Config.Store, now: int) returns (ok: bool)
      requires Valid()
      modifies this, monitors
      ensures Valid()
      ensures Monitors() == Escalation.ConfiguredMonitors(st, MaxTopics, now)
      ensures ok <==> 0 < count < MaxTopics
      ensures timeoutLevel1 == old(timeoutLevel1) && timeoutLevel2 == old(timeoutLevel2)
      ensures old(timeoutLevel1) == 0 && old(timeoutLevel2) == 0 ==> TotalsMatch()
    {
      var n := 0;
      for i := 0 to MaxTopics
        invariant n <= i && n < MaxTopics
        invariant monitors[..n] == Escalation.ConfiguredMonitors(st, i, now)
        invariant timeoutLevel1 == old(timeoutLevel1) && timeoutLevel2 == old(timeoutLevel2)
      {
        Escalation.ConfiguredMonitorsStep(st, i, now);
        if !Escalation.Present(st, i) {
          continue;
        }
        ghost var prefix := monitors[..n];
        monitors[n] := Escalation.NewMonitor(st, i, now);
        n := n + 1;
        assert monitors[..n] == prefix + [Escalation.NewMonitor(st, i, now)];
        if n >= MaxTopics {
          assert i + 1 == MaxTopics;
          count := n;
          ConfiguredTable(st, now);
          return false;
        }
      }
      count := n;
      ConfiguredTable(st, now);
      ok := count != 0;
    }

    /** A table holding the configured monitors is valid, and its totals are zero. */
    lemma ConfiguredTable(st: Config.Store, now: int)
      requires monitors.Length == MaxTopics && count <= MaxTopics
      requires Monitors() == Escalation.ConfiguredMonitors(st, MaxTopics, now)
      ensures Valid()
      ensures Escalation.SumLevel1(Monitors()) == 0 && Escalation.SumLevel2(Monitors()) == 0
    {
      Escalation.ZeroCountersZeroTotals(Monitors());
    }

    /**
     * `topic_receive_message`: the first monitor whose topic is exactly
     * `topic` records `now` as its last message; nothing else changes.
     */
    method ReceiveMessage(topic: string, now: int)
      requires Valid()
      modifies monitors
      ensures Valid()
      ensures Monitors() == Escalation.Received(old(Monitors()), topic, now)
      ensures old(TotalsMatch()) ==> TotalsMatch()
    {
      ghost var ms := Monitors();
      for i := 0 to count
        invariant monitors[..count] == ms
        invariant forall j :: 0 <= j < i ==> ms[j].topic != topic
      {
        if monitors[i].topic == topic {
          assert Escalation.FindTopic(ms, topic, 0) == Some(i) by {
            FindFirst(ms, topic, 0, i);
          }
          monitors[i] := monitors[i].(lastMessage := now);
          assert Monitors() == ms[i := ms[i].(lastMessage := now)];
          Escalation.ReceiveKeepsTotals(ms, topic, now);
          return;
        }
      }
      Escalation.ReceiveKeepsTotals(ms, topic, now);
    }

    /**
     * `topic_process` at time `now`: every monitor takes its escalation step
     * in table order; each alert sends its mail (level 1 and 2) and restarts
     * the service (level 2), and the global counter of the level fired goes
     * up by one. The results of the side effects are ignored and the pass
     * always succeeds.
     */
    method Process(now: int, email: Actions.EmailConfig, mail: Email.SmtpTransport, systemd: Actions.ServiceManager)
      returns (ok: bool)
      requires Valid()
      modifies this, monitors, mail, systemd
      ensures Valid() && count == old(count)
      ensures Monitors() == Escalation.Processed(old(Monitors()), now)
      ensures timeoutLevel1 == old(timeoutLevel1) + Escalation.Fired(old(Monitors()), now, Escalation.Level1)
      ensures timeoutLevel2 == old(timeoutLevel2) + Escalation.Fired(old(Monitors()), now, Escalation.Level2)
      ensures Email.Envelopes(mail.attempts)
           == old(Email.Envelopes(mail.attempts)) + AlertMails(email, Escalation.PassAlerts(old(Monitors()), now))
      ensures Actions.RestartedUnits(systemd.attempts)
           == old(Actions.RestartedUnits(systemd.attempts)) + AlertRestarts(Escalation.PassAlerts(old(Monitors()), now))
      ensures old(mail.attempts) <= mail.attempts && old(systemd.attempts) <= systemd.attempts
      ensures ok
      ensures old(TotalsMatch()) ==> TotalsMatch()
    {
      ghost var ms := Monitors();
      ghost var mails := Email.Envelopes(mail.attempts);
      ghost var units := Actions.RestartedUnits(systemd.attempts);
      ghost var alerts: seq<Escalation.Alert> := [];
      for i := 0 to count
        invariant Valid() && count == old(count) && |ms| == count
        invariant monitors[..i] == Escalation.Processed(ms[..i], now) && monitors[i..count] == ms[i..]
        invariant timeoutLevel1 == old(timeoutLevel1) + Escalation.Fired(ms[..i], now, Escalation.Level1)
        invariant timeoutLevel2 == old(timeoutLevel2) + Escalation.Fired(ms[..i], now, Escalation.Level2)
        invariant alerts == Escalation.PassAlerts(ms[..i], now)
        invariant Email.Envelopes(mail.attempts) == mails + AlertMails(email, alerts)
        invariant Actions.RestartedUnits(systemd.attempts) == units + AlertRestarts(alerts)
        invariant old(mail.attempts) <= mail.attempts && old(systemd.attempts) <= systemd.attempts
      {
        alerts := CheckMonitor(i, now, email, mail, systemd, ms, old(timeoutLevel1), old(timeoutLevel2), mails, units, alerts);
      }
      assert ms[..count] == ms;
      Escalation.PassTotals(ms, now);
      ok := true;
    }

    /**
     * The body of the `topic_process` loop for monitor `i` of the table `ms`
     * the pass started from: its alert's side effects, the global counter of
     * the level fired, and its escalation step, taking the pass from the
     * first `i` monitors to the first `i + 1`.
     */
    method CheckMonitor(i: nat, now: int, email: Actions.EmailConfig, mail: Email.SmtpTransport,
                        systemd: Actions.ServiceManager, ghost ms: seq<Escalation.Monitor>, ghost l1: nat, ghost l2: nat,
                        ghost mails: seq<Email.Envelope>, ghost units: seq<string>, ghost alerts: seq<Escalation.Alert>)
      returns (ghost alerts': seq<Escalation.Alert>)
      requires Valid() && i < count == |ms|
      requires monitors[..i] == Escalation.Processed(ms[..i], now) && monitors[i..count] == ms[i..]
      requires timeoutLevel1 == l1 + Escalation.Fired(ms[..i], now, Escalation.Level1)
      requires timeoutLevel2 == l2 + Escalation.Fired(ms[..i], now, Escalation.Level2)
      requires alerts == Escalation.PassAlerts(ms[..i], now)
      requires Email.Envelopes(mail.attempts) == mails + AlertMails(email, alerts)
      requires Actions.RestartedUnits(systemd.attempts) == units + AlertRestarts(alerts)
      modifies this, monitors, mail, systemd
      ensures Valid() && count == old(count)
      ensures monitors[..i + 1] == Escalation.Processed(ms[..i + 1], now) && monitors[i + 1..count] == ms[i + 1..]
      ensures timeoutLevel1 == l1 + Escalation.Fired(ms[..i + 1], now, Escalation.Level1)
      ensures timeoutLevel2 == l2 + Escalation.Fired(ms[..i + 1], now, Escalation.Level2)
      ensures alerts' == Escalation.PassAlerts(ms[..i + 1], now)
      ensures Email.Envelopes(mail.attempts) == mails + AlertMails(email, alerts')
      ensures Actions.RestartedUnits(systemd.attempts) == units + AlertRestarts(alerts')
      ensures old(mail.attempts) <= mail.attempts && old(systemd.attempts) <= systemd.attempts
    {
      ghost var table := monitors[..];
      ghost var sent := Email.Envelopes(mail.attempts);
      ghost var restarted := Actions.RestartedUnits(systemd.attempts);
      var m := monitors[i];
      assert m == ms[i] by {
        assert monitors[i..count][0] == ms[i..][0];
      }
      var level := Dispatch(m, now, email, mail, systemd);
      CountEscalation(level);
      SetMonitor(i, Escalation.Step(m, now));
      TableAdvance(ms, i, now, table, monitors[..]);
      FiredStep(ms, i, now);
      PassStep(ms, i, now);
      ghost var more := Escalation.AlertOf(ms[i], now);
      MailsAdvance(email, alerts, more, mails, sent, Email.Envelopes(mail.attempts));
      UnitsAdvance(alerts, more, units, restarted, Actions.RestartedUnits(systemd.attempts));
      alerts' := alerts + more;
    }

    /** `topic_timeout_level1++` or `topic_timeout_level2++` for the level fired, if any. */
    method CountEscalation(level: Escalation.Level)
      modifies this
      ensures count == old(count)
      ensures timeoutLevel1 == old(timeoutLevel1) + (if level == Escalation.Level1 then 1 else 0)
      ensures timeoutLevel2 == old(timeoutLevel2) + (if level == Escalation.Level2 then 1 else 0)
    {
      if level == Escalation.Level2 {
        timeoutLevel2 := timeoutLevel2 + 1;
      } else if level == Escalation.Level1 {
        timeoutLevel1 := timeoutLevel1 + 1;
      }
    }

    /** Writes back monitor `i` of the table after its step. */
    method SetMonitor(i: nat, m: Escalation.Monitor)
      requires Valid() && i < count && Escalation.WellFormed(m)
      modifies monitors
      ensures Valid()
      ensures monitors[..] == old(monitors[..])[i := m]
    {
      monitors[i] := m;
    }

    /**
     * `topic_stats_to_string`: renders the counters and the monitors into
     * `buffer`, stopping with `false` after the first monitor that reaches
     * the end; the buffer then holds the line cut to `buffer.Length - 1`
     * characters and its terminator.
     */
    method StatsToString(buffer: array<char>, fmt: int -> string) returns (ok: bool)
      requires Valid() && buffer.Length >= 1
      modifies buffer
      ensures ok == Stats.Render(timeoutLevel1, timeoutLevel2, Monitors(), buffer.Length, fmt).1
      ensures Stats.Holds(buffer[..], Stats.Render(timeoutLevel1, timeoutLevel2, Monitors(), buffer.Length, fmt).0)
    {
      ok := Stats.StatsToString(buffer, timeoutLevel1, timeoutLevel2, monitors[..count], fmt);
    }
  }

  /** The scan of `FindTopic` from `from` stops at the first match `i`. */
  lemma {:induction false} FindFirst(ms: seq<Escalation.Monitor>, topic: string, from: nat, i: nat)
    requires from <= i < |ms| && ms[i].topic == topic
    requires forall j :: from <= j < i ==> ms[j].topic != topic
    ensures Escalation.FindTopic(ms, topic, from) == Some(i)
    decreases i - from
  {
    if from < i {
      FindFirst(ms, topic, from + 1, i);
    }
  }

  /**
   * The side effects of one monitor's check in `topic_process`: at level 2
   * a mail and a restart, at level 1 a mail, with the alert subject of the
   * level. Returns the level fired.
   */
  method Dispatch(m: Escalation.Monitor, now: int, email: Actions.EmailConfig, mail: Email.SmtpTransport,
                  systemd: Actions.ServiceManager) returns (level: Escalation.Level)
    modifies mail, systemd
    ensures level == Escalation.FireLevel(m, now)
    ensures Email.Envelopes(mail.attempts)
         == old(Email.Envelopes(mail.attempts)) + AlertMails(email, Escalation.AlertOf(m, now))
    ensures Actions.RestartedUnits(systemd.attempts)
         == old(Actions.RestartedUnits(systemd.attempts)) + AlertRestarts(Escalation.AlertOf(m, now))
    ensures old(mail.attempts) <= mail.attempts && old(systemd.attempts) <= systemd.attempts
  {
    var seconds := now - m.lastMessage;
    ghost var mails, units := mail.attempts, systemd.attempts;
    if seconds >= m.restartSeconds && !m.restarted {
      var a := Escalation.Alert(Escalation.Level2, m.topic, seconds, m.service);
      var sent := Actions.ActionEmailNotification(email, Escalation.AlertSubject(a), "", mail);
      var restarted := Actions.ActionSystemdServiceRestart(m.service, systemd);
      level := Escalation.Level2;
      MailLogged(email, a, mails, mail.attempts, sent);
      RestartLogged(a, units, systemd.attempts, restarted);
    } else if seconds >= m.warningSeconds && !m.warned {
      var a := Escalation.Alert(Escalation.Level1, m.topic, seconds, m.service);
      var sent := Actions.ActionEmailNotification(email, Escalation.AlertSubject(a), "", mail);
      level := Escalation.Level1;
      MailLogged(email, a, mails, mail.attempts, sent);
      assert AlertRestarts([a]) == [];
    } else {
      level := Escalation.Quiet;
    }
  }

  /** The attempt `action_email_notification` logs for an alert is the alert's mail. */
  lemma MailLogged(c: Actions.EmailConfig, a: Escalation.Alert, before: seq<Email.Attempt>, after: seq<Email.Attempt>, ok: bool)
    requires !Actions.NotifyEnabled(c) ==> after == before
    requires Actions.NotifyEnabled(c) ==>
               after == before + [Email.Attempt(Actions.NotificationEnvelope(c, Escalation.AlertSubject(a), ""), ok)]
    ensures Email.Envelopes(after) == Email.Envelopes(before) + AlertMails(c, [a])
  {
    assert [a][..0] == [];
    if Actions.NotifyEnabled(c) {
      Email.EnvelopesAppend(before, Email.Attempt(Actions.NotificationEnvelope(c, Escalation.AlertSubject(a), ""), ok));
    }
  }

  /** The request `action_systemd_service_restart` logs for a level-2 alert is the alert's restart. */
  lemma RestartLogged(a: Escalation.Alert, before: seq<Actions.RestartAttempt>, after: seq<Actions.RestartAttempt>, ok: bool)
    requires a.level == Escalation.Level2
    requires Actions.RestartIsNoop(a.service) ==> after == before
    requires !Actions.RestartIsNoop(a.service) ==> after == before + [Actions.RestartAttempt(a.service.value, ok)]
    ensures Actions.RestartedUnits(after) == Actions.RestartedUnits(before) + AlertRestarts([a])
  {
    assert [a][..0] == [];
    if !Actions.RestartIsNoop(a.service) {
      Actions.RestartedUnitsAppend(before, Actions.RestartAttempt(a.service.value, ok));
    }
  }

  /** The first `i + 1` monitors of a pass: the first `i`, then monitor `i`. */
  lemma PassStep(ms: seq<Escalation.Monitor>, i: nat, now: int)
    requires i < |ms|
    ensures Escalation.PassAlerts(ms[..i + 1], now) == Escalation.PassAlerts(ms[..i], now) + Escalation.AlertOf(ms[i], now)
  {
    assert ms[..i + 1][..i] == ms[..i];
  }

  /** The escalations fired by the first `i + 1` monitors: those of the first `i`, then monitor `i`'s. */
  lemma FiredStep(ms: seq<Escalation.Monitor>, i: nat, now: int)
    requires i < |ms|
    ensures Escalation.Fired(ms[..i + 1], now, Escalation.Level1)
         == Escalation.Fired(ms[..i], now, Escalation.Level1) + (if Escalation.FireLevel(ms[i], now) == Escalation.Level1 then 1 else 0)
    ensures Escalation.Fired(ms[..i + 1], now, Escalation.Level2)
         == Escalation.Fired(ms[..i], now, Escalation.Level2) + (if Escalation.FireLevel(ms[i], now) == Escalation.Level2 then 1 else 0)
  {
    assert ms[..i + 1][..i] == ms[..i];
  }

  /** Stepping entry `i` of a table whose first `i` entries are processed processes the first `i + 1`. */
  lemma TableAdvance(ms: seq<Escalation.Monitor>, i: nat, now: int, before: seq<Escalation.Monitor>, after: seq<Escalation.Monitor>)
    requires i < |ms| <= |before|
    requires before[..i] == Escalation.Processed(ms[..i], now) && before[i..|ms|] == ms[i..]
    requires after == before[i := Escalation.Step(before[i], now)]
    ensures after[..i + 1] == Escalation.Processed(ms[..i + 1], now) && after[i + 1..|ms|] == ms[i + 1..]
  {
    assert before[i] == ms[i];
    assert after[..i + 1] == before[..i] + [Escalation.Step(ms[i], now)];
  }

  /** A log holding the mails of `before`, extended by those of `more`, holds the mails of `before + more`. */
  lemma MailsAdvance(email: Actions.EmailConfig, before: seq<Escalation.Alert>, more: seq<Escalation.Alert>,
                     mails: seq<Email.Envelope>, sent: seq<Email.Envelope>, sent': seq<Email.Envelope>)
    requires |more| <= 1
    requires sent == mails + AlertMails(email, before)
    requires sent' == sent + AlertMails(email, more)
    ensures sent' == mails + AlertMails(email, before + more)
  {
    MailsAppend(email, before, more);
    var m0, m1 := AlertMails(email, before), AlertMails(email, more);
    assert (mails + m0) + m1 == mails + (m0 + m1);
  }

  /** A log holding the restarts of `before`, extended by those of `more`, holds the restarts of `before + more`. */
  lemma UnitsAdvance(before: seq<Escalation.Alert>, more: seq<Escalation.Alert>,
                     units: seq<string>, restarted: seq<string>, restarted': seq<string>)
    requires |more| <= 1
    requires restarted == units + AlertRestarts(before)
    requires restarted' == restarted + AlertRestarts(more)
    ensures restarted' == units + AlertRestarts(before + more)
  {
    RestartsAppend(before, more);
    var r0, r1 := AlertRestarts(before), AlertRestarts(more);
    assert (units + r0) + r1 == units + (r0 + r1);
  }

  /** At most one more alert adds its mail. */
  lemma MailsAppend(c: Actions.EmailConfig, before: seq<Escalation.Alert>, more: seq<Escalation.Alert>)
    requires |more| <= 1
    ensures AlertMails(c, before + more) == AlertMails(c, before) + AlertMails(c, more)
  {
    if more == [] {
      assert before + more == before;
    } else {
      assert (before + more)[..|before|] == before;
      assert more[..0] == [];
    }
  }

  /** At most one more alert adds its unit when it is a level-2 restart. */
  lemma RestartsAppend(before: seq<Escalation.Alert>, more: seq<Escalation.Alert>)
    requires |more| <= 1
    ensures AlertRestarts(before + more) == AlertRestarts(before) + AlertRestarts(more)
  {
    if more == [] {
      assert before + more == before;
    } else {
      assert (before + more)[..|before|] == before;
      assert more[..0] == [];
    }
  }

  /**
   * A counterexample: a topic configured with a name and no service. Its
   * monitor has no service (`service_name` is NULL) and reaches level 2 once
   * the default restart timeout has passed, so the pass calls the restart
   * action with it, and `strlen(NULL)` there is undefined: the precondition
   * of `ActionSystemdServiceRestartAsWritten` does not hold.
   */
  lemma UnsetServiceReachesRestart(now: int)
    ensures var st := Config.Store(map[Config.TopicKey(0, "name") := "sensors"], map[], map[]);
            Escalation.Present(st, 0) &&
            var m := Escalation.NewMonitor(st, 0, now);
            m.service.None? && Escalation.FireLevel(m, now + Escalation.RestartDefault) == Escalation.Level2
  {
    var st := Config.Store(map[Config.TopicKey(0, "name") := "sensors"], map[], map[]);
    assert Config.TopicKey(0, "service") != Config.TopicKey(0, "name") by {
      assert Config.TopicKey(0, "service")[8] == 's' != 'n' == Config.TopicKey(0, "name")[8];
    }
  }
}
