/** The memory monitor itself: start-up (defaults and the capability guard),
    the sampling tick that drives the hysteresis flag, and the teardown report.
    The host's timer and unload signal are modelled as a sequence of events fed
    to the monitor in order; a report is the event "reportToServer was called
    with these values". */
module MemoryMonitor {
  import opened MonitorConfig
  import opened Hysteresis

  /** What the host delivers to the monitor: a sampling tick with the current
      reading, or the page's "about to unload" signal. */
  datatype Event = TickEvent(sample: Sample) | Unload

  /** One call of reportToServer: the endpoint and the two values it sends. */
  datatype Report = Report(url: string, usedMB: real, totalMB: real)

  /** What handling one event produces: the report sent (if any), the used
      megabytes shown in a user alert (if any), and the new flag. */
  datatype StepOutcome = StepOutcome(report: Option<Report>, alert: Option<real>, hasReported: bool)

  /** All reports and alerts of a run of events, in order, and the final flag. */
  datatype SessionResult = SessionResult(reports: seq<Report>, alerts: seq<real>, hasReported: bool)

  /** The report sent on unload carries the sentinel values -1 and -1. */
  function UnloadReport(c: Config): Report {
    Report(c.reportUrl, -1.0, -1.0)
  }

  /** Handling of one event by a running monitor with configuration `c`. */
  function Step(c: Config, hasReported: bool, e: Event): (o: StepOutcome)
    ensures e.TickEvent? ==> (o.report.Some? <==> e.sample.usedMB >= c.thresholdMB && !hasReported)
    ensures e.TickEvent? && o.report.Some? ==>
              o.report.value == Report(c.reportUrl, e.sample.usedMB, e.sample.totalMB)
    ensures o.alert.Some? <==> e.TickEvent? && o.report.Some? && c.warnUser
    ensures o.alert.Some? ==> o.alert.value == e.sample.usedMB
    ensures e.TickEvent? && hasReported ==>
              (o.hasReported <==> e.sample.usedMB >= RearmLevel(c.thresholdMB))
    ensures e.TickEvent? && !hasReported ==>
              (o.hasReported <==> o.report.Some? && e.sample.usedMB >= RearmLevel(c.thresholdMB))
    ensures e.Unload? ==> o == StepOutcome(Some(UnloadReport(c)), None, hasReported)
  {
    match e
    case TickEvent(s) =>
      var t := Tick(c.thresholdMB, hasReported, s.usedMB);
      StepOutcome(
        if t.fires then Some(Report(c.reportUrl, s.usedMB, s.totalMB)) else None,
        if t.fires && c.warnUser then Some(s.usedMB) else None,
        t.hasReported)
    case Unload =>
      StepOutcome(Some(UnloadReport(c)), None, hasReported)
  }

  function OptionSeq<T>(o: Option<T>): seq<T> {
    match o
    case Some(v) => [v]
    case None => []
  }

  /** The events handled in order, starting from the flag `init`. */
  function Session(c: Config, init: bool, events: seq<Event>): (r: SessionResult)
    decreases |events|
  {
    if events == [] then SessionResult([], [], init)
    else
      var before := Session(c, init, events[..|events| - 1]);
      var o := Step(c, before.hasReported, events[|events| - 1]);
      SessionResult(before.reports + OptionSeq(o.report), before.alerts + OptionSeq(o.alert), o.hasReported)
  }

  /** Handling one more event extends the session by that event's outcome. */
  lemma SessionSnoc(c: Config, init: bool, events: seq<Event>, e: Event)
    ensures var before := Session(c, init, events);
            var o := Step(c, before.hasReported, e);
            Session(c, init, events + [e])
            == SessionResult(before.reports + OptionSeq(o.report), before.alerts + OptionSeq(o.alert), o.hasReported)
  {
    assert (events + [e])[..|events|] == events;
  }

  /** The readings carried by the tick events, in order. */
  function Ticks(events: seq<Event>): seq<Sample>
    decreases |events|
  {
    if events == [] then []
    else
      var e := events[|events| - 1];
      Ticks(events[..|events| - 1]) + (if e.TickEvent? then [e.sample] else [])
  }

  /** The number of unload signals among the events. */
  function Unloads(events: seq<Event>): nat
    decreases |events|
  {
    if events == [] then 0
    else Unloads(events[..|events| - 1]) + (if events[|events| - 1].Unload? then 1 else 0)
  }

  /** The used megabytes of each sample, in order. */
  function UsedOf(s: seq<Sample>): seq<real> {
    seq(|s|, i requires 0 <= i < |s| => s[i].usedMB)
  }

  lemma UsedOfSnoc(s: seq<Sample>, x: Sample)
    ensures UsedOf(s + [x]) == UsedOf(s) + [x.usedMB]
  {
    assert forall i :: 0 <= i < |s| ==> UsedOf(s + [x])[i] == UsedOf(s)[i];
  }

  /** The sample that handling `e` adds to the threshold reports, if any. */
  function AddedReports(c: Config, hasReported: bool, e: Event): seq<Sample> {
    if e.TickEvent? && Tick(c.thresholdMB, hasReported, e.sample.usedMB).fires then [e.sample] else []
  }

  /** One more event extends the trace of the tick samples by that event's
      tick, or leaves it as it was for an unload. */
  lemma TicksTraceSnoc(c: Config, init: bool, events: seq<Event>, e: Event)
    ensures var tp := Trace(c.thresholdMB, init, Ticks(events));
            Trace(c.thresholdMB, init, Ticks(events + [e]))
            == TraceResult(tp.reports + AddedReports(c, tp.hasReported, e),
                           Step(c, tp.hasReported, e).hasReported)
  {
    var tp := Trace(c.thresholdMB, init, Ticks(events));
    assert (events + [e])[..|events|] == events;
    if e.TickEvent? {
      assert Ticks(events + [e]) == Ticks(events) + [e.sample];
      TraceSnoc(c.thresholdMB, init, Ticks(events), e.sample);
    } else {
      assert Ticks(events + [e]) == Ticks(events);
      assert tp.reports + AddedReports(c, tp.hasReported, e) == tp.reports;
    }
  }

  /** Unload signals are transparent to the hysteresis: the flag after a run of
      events is the flag after its ticks alone. */
  lemma {:induction false} SessionFlagFollowsTrace(c: Config, init: bool, events: seq<Event>)
    ensures Session(c, init, events).hasReported == Trace(c.thresholdMB, init, Ticks(events)).hasReported
    decreases |events|
  {
    if events != [] {
      var p, e := events[..|events| - 1], events[|events| - 1];
      assert events == p + [e];
      SessionFlagFollowsTrace(c, init, p);
      SessionSnoc(c, init, p, e);
      TicksTraceSnoc(c, init, p, e);
    }
  }

  /** There is one report per threshold report of the ticks alone plus one
      per unload signal. */
  lemma {:induction false} SessionReportCount(c: Config, init: bool, events: seq<Event>)
    ensures |Session(c, init, events).reports|
            == |Trace(c.thresholdMB, init, Ticks(events)).reports| + Unloads(events)
    decreases |events|
  {
    if events != [] {
      var p, e := events[..|events| - 1], events[|events| - 1];
      assert events == p + [e];
      SessionReportCount(c, init, p);
      SessionFlagFollowsTrace(c, init, p);
      SessionSnoc(c, init, p, e);
      TicksTraceSnoc(c, init, p, e);
    }
  }

  /** The alerts are exactly the used values of the threshold reports when
      warnUser is set, and there are none otherwise. */
  lemma {:induction false} SessionAlerts(c: Config, init: bool, events: seq<Event>)
    ensures Session(c, init, events).alerts
            == if c.warnUser then UsedOf(Trace(c.thresholdMB, init, Ticks(events)).reports) else []
    decreases |events|
  {
    if events != [] {
      var p, e := events[..|events| - 1], events[|events| - 1];
      assert events == p + [e];
      SessionAlerts(c, init, p);
      SessionFlagFollowsTrace(c, init, p);
      SessionSnoc(c, init, p, e);
      TicksTraceSnoc(c, init, p, e);
      var before := Session(c, init, p);
      AlertsStep(c, before.hasReported, Trace(c.thresholdMB, init, Ticks(p)).reports, before.alerts, e);
    }
  }

  /** One event keeps the alerts equal to the used values of the threshold
      reports (when warnUser is set) or empty (when it is not). */
  lemma AlertsStep(c: Config, hasReported: bool, reports: seq<Sample>, alerts: seq<real>, e: Event)
    requires alerts == if c.warnUser then UsedOf(reports) else []
    ensures alerts + OptionSeq(Step(c, hasReported, e).alert)
            == if c.warnUser then UsedOf(reports + AddedReports(c, hasReported, e)) else []
  {
    var added := AddedReports(c, hasReported, e);
    if added == [] {
      assert reports + added == reports;
    } else {
      UsedOfSnoc(reports, e.sample);
    }
  }

  /** The reports a run of threshold reports sends, one per reported sample. */
  function AsReports(c: Config, s: seq<Sample>): (r: seq<Report>)
    decreases |s|
  {
    if s == [] then []
    else AsReports(c, s[..|s| - 1]) + [Report(c.reportUrl, s[|s| - 1].usedMB, s[|s| - 1].totalMB)]
  }

  lemma AsReportsSnoc(c: Config, s: seq<Sample>, x: Sample)
    ensures AsReports(c, s + [x]) == AsReports(c, s) + [Report(c.reportUrl, x.usedMB, x.totalMB)]
  {
    assert (s + [x])[..|s|] == s;
  }

  /** The reports whose used value is not the unload sentinel -1. */
  function WithoutSentinel(reports: seq<Report>): seq<Report>
    decreases |reports|
  {
    if reports == [] then []
    else
      var r := reports[|reports| - 1];
      WithoutSentinel(reports[..|reports| - 1]) + (if r.usedMB != -1.0 then [r] else [])
  }

  lemma WithoutSentinelSnoc(reports: seq<Report>, r: Report)
    ensures WithoutSentinel(reports + [r]) == WithoutSentinel(reports) + (if r.usedMB != -1.0 then [r] else [])
  {
    assert (reports + [r])[..|reports|] == reports;
  }

  /** One event keeps the non-sentinel reports equal to the threshold reports
      as sent, when the threshold lies above the sentinel. */
  lemma ReportsStep(c: Config, hasReported: bool, samples: seq<Sample>, reports: seq<Report>, e: Event)
    requires c.thresholdMB > -1.0
    requires WithoutSentinel(reports) == AsReports(c, samples)
    ensures WithoutSentinel(reports + OptionSeq(Step(c, hasReported, e).report))
            == AsReports(c, samples + AddedReports(c, hasReported, e))
  {
    var o := Step(c, hasReported, e);
    var added := AddedReports(c, hasReported, e);
    if o.report.None? {
      assert reports + OptionSeq(o.report) == reports;
      assert samples + added == samples;
    } else {
      WithoutSentinelSnoc(reports, o.report.value);
      if added == [] {
        assert samples + added == samples;
      } else {
        AsReportsSnoc(c, samples, e.sample);
      }
    }
  }

  /** When the threshold lies above the sentinel -1, the reports that do not
      carry the sentinel are exactly the threshold reports of the ticks alone,
      in order, each sent with its reading: the sentinel tells unload reports
      apart from threshold reports. */
  lemma {:induction false} SessionThresholdReports(c: Config, init: bool, events: seq<Event>)
    requires c.thresholdMB > -1.0
    ensures WithoutSentinel(Session(c, init, events).reports)
            == AsReports(c, Trace(c.thresholdMB, init, Ticks(events)).reports)
    decreases |events|
  {
    if events != [] {
      var p, e := events[..|events| - 1], events[|events| - 1];
      assert events == p + [e];
      SessionThresholdReports(c, init, p);
      SessionFlagFollowsTrace(c, init, p);
      SessionSnoc(c, init, p, e);
      TicksTraceSnoc(c, init, p, e);
      var before := Session(c, init, p);
      ReportsStep(c, before.hasReported, Trace(c.thresholdMB, init, Ticks(p)).reports, before.reports, e);
    }
  }

  /** Teardown always adds exactly one report, with the sentinel values, and
      leaves the flag and the alerts as they were, whatever came before. */
  lemma TeardownAlwaysReports(c: Config, init: bool, events: seq<Event>)
    ensures var before := Session(c, init, events);
            Session(c, init, events + [Unload])
            == SessionResult(before.reports + [Report(c.reportUrl, -1.0, -1.0)], before.alerts, before.hasReported)
  {
    SessionSnoc(c, init, events, Unload);
  }

  /** The start-up path: defaults are applied first, then the monitor refuses to
      start when the host has no memory introspection facility. */
  function Boot(arg: ConfigArg, memorySupported: bool): (r: Option<Config>)
    ensures r.None? <==> !memorySupported
    ensures r.Some? ==> r.value == Effective(arg)
  {
    if memorySupported then Some(Effective(arg)) else None
  }

  /** Everything the monitor sends over the life of the page: a monitor that did
      not start never reports and never alerts, for any events. */
  function Lifetime(arg: ConfigArg, memorySupported: bool, events: seq<Event>): (r: SessionResult)
    ensures !memorySupported ==> r.reports == [] && r.alerts == []
    ensures memorySupported ==> r == Session(Effective(arg), false, events)
  {
    match Boot(arg, memorySupported)
    case None => SessionResult([], [], false)
    case Some(c) => Session(c, false, events)
  }

  /** With threshold 400 the readings 390 and 405 send one report, at 405,
      with an alert showing 405 when warnUser is set. */
  lemma CrossingAt405(c: Config, totalMB: real)
    requires c.thresholdMB == 400.0
    ensures Session(c, false, [TickEvent(Sample(390.0, totalMB)), TickEvent(Sample(405.0, totalMB))])
            == SessionResult([Report(c.reportUrl, 405.0, totalMB)], if c.warnUser then [405.0] else [], true)
  {
    var a, b := TickEvent(Sample(390.0, totalMB)), TickEvent(Sample(405.0, totalMB));
    assert Session(c, false, []) == SessionResult([], [], false);
    SessionSnoc(c, false, [], a);
    assert [] + [a] == [a];
    assert Session(c, false, [a]) == SessionResult([], [], false);
    SessionSnoc(c, false, [a], b);
    assert [a] + [b] == [a, b];
  }

  /** With threshold 400, the readings 402, 398 and 410 after that report stay
      inside the band and send nothing more. */
  lemma OscillationAfter405(c: Config, totalMB: real)
    requires c.thresholdMB == 400.0
    ensures Session(c, false, [TickEvent(Sample(390.0, totalMB)), TickEvent(Sample(405.0, totalMB)),
                               TickEvent(Sample(402.0, totalMB)), TickEvent(Sample(398.0, totalMB)),
                               TickEvent(Sample(410.0, totalMB))])
            == SessionResult([Report(c.reportUrl, 405.0, totalMB)], if c.warnUser then [405.0] else [], true)
  {
    var a, b := TickEvent(Sample(390.0, totalMB)), TickEvent(Sample(405.0, totalMB));
    var d, e, f := TickEvent(Sample(402.0, totalMB)), TickEvent(Sample(398.0, totalMB)), TickEvent(Sample(410.0, totalMB));
    CrossingAt405(c, totalMB);
    SessionSnoc(c, false, [a, b], d);
    assert [a, b] + [d] == [a, b, d];
    SessionSnoc(c, false, [a, b, d], e);
    assert [a, b, d] + [e] == [a, b, d, e];
    SessionSnoc(c, false, [a, b, d, e], f);
    assert [a, b, d, e] + [f] == [a, b, d, e, f];
  }

  /** With no configuration and the default threshold of 400, the oscillating
      readings [390, 405, 402, 398, 410] followed by unload yield one threshold
      report, at 405, and the unload report. */
  lemma DefaultOscillationSession(totalMB: real)
    ensures var events := [TickEvent(Sample(390.0, totalMB)), TickEvent(Sample(405.0, totalMB)),
                           TickEvent(Sample(402.0, totalMB)), TickEvent(Sample(398.0, totalMB)),
                           TickEvent(Sample(410.0, totalMB)), Unload];
            var r := Lifetime(Falsy, true, events);
            r.reports == [Report("/api/memory-report", 405.0, totalMB), Report("/api/memory-report", -1.0, -1.0)]
            && r.alerts == []
  {
    var c := Effective(Falsy);
    var ticks := [TickEvent(Sample(390.0, totalMB)), TickEvent(Sample(405.0, totalMB)),
                  TickEvent(Sample(402.0, totalMB)), TickEvent(Sample(398.0, totalMB)),
                  TickEvent(Sample(410.0, totalMB))];
    OscillationAfter405(c, totalMB);
    TeardownAlwaysReports(c, false, ticks);
    assert ticks + [Unload] == [TickEvent(Sample(390.0, totalMB)), TickEvent(Sample(405.0, totalMB)),
                                TickEvent(Sample(402.0, totalMB)), TickEvent(Sample(398.0, totalMB)),
                                TickEvent(Sample(410.0, totalMB)), Unload];
  }

  /** The running monitor: its configuration and the flag `hasReported`, which
      only the sampling tick changes. */
  class Monitor {
    const config: Config
    var hasReported: bool

    constructor (config: Config)
      ensures this.config == config && !hasReported
    {
      this.config := config;
      hasReported := false;
    }

    /** One sampling tick: report and possibly alert on an upward crossing from
        the armed state, then re-arm below the band. */
    method Tick(sample: Sample) returns (report: Option<Report>, alert: Option<real>)
      modifies this
      ensures StepOutcome(report, alert, hasReported) == Step(config, old(hasReported), TickEvent(sample))
    {
      report, alert := None, None;
      if sample.usedMB >= config.thresholdMB && !hasReported {
        hasReported := true;
        report := Some(Report(config.reportUrl, sample.usedMB, sample.totalMB));
        if config.warnUser {
          alert := Some(sample.usedMB);
        }
      }
      if hasReported && sample.usedMB < config.thresholdMB * 0.8 {
        hasReported := false;
      }
    }

    /** The unload handler: one report with the sentinel values; the flag is
        not touched. */
    method Teardown() returns (report: Report)
      ensures report == Report(config.reportUrl, -1.0, -1.0)
    {
      report := Report(config.reportUrl, -1.0, -1.0);
    }
  }

  /** Dispatches one host event to the monitor's tick or unload handler. */
  method Handle(m: Monitor, e: Event) returns (report: Option<Report>, alert: Option<real>)
    modifies m
    ensures StepOutcome(report, alert, m.hasReported) == Step(m.config, old(m.hasReported), e)
  {
    match e {
      case TickEvent(s) =>
        report, alert := m.Tick(s);
      case Unload =>
        var r := m.Teardown();
        report, alert := Some(r), None;
    }
  }

  /** The session after one more event, from the session before it and that
      event's outcome. */
  lemma SessionExtends(c: Config, init: bool, events: seq<Event>, e: Event, before: SessionResult, o: StepOutcome)
    requires Session(c, init, events) == before
    requires o == Step(c, before.hasReported, e)
    ensures Session(c, init, events + [e])
            == SessionResult(before.reports + OptionSeq(o.report), before.alerts + OptionSeq(o.alert), o.hasReported)
  {
    SessionSnoc(c, init, events, e);
  }

  /** The host's event loop: feeds the events to the monitor in order and
      collects every report and alert. */
  method Drive(m: Monitor, events: seq<Event>) returns (reports: seq<Report>, alerts: seq<real>)
    modifies m
    ensures SessionResult(reports, alerts, m.hasReported) == Session(m.config, old(m.hasReported), events)
  {
    ghost var init := m.hasReported;
    reports, alerts := [], [];
    var i := 0;
    while i < |events|
      invariant 0 <= i <= |events|
      invariant Session(m.config, init, events[..i]) == SessionResult(reports, alerts, m.hasReported)
    {
      var e := events[i];
      assert events[..i + 1] == events[..i] + [e];
      ghost var flag := m.hasReported;
      var report, alert := Handle(m, e);
      SessionExtends(m.config, init, events[..i], e, SessionResult(reports, alerts, flag),
                     StepOutcome(report, alert, m.hasReported));
      reports, alerts := reports + OptionSeq(report), alerts + OptionSeq(alert);
      i := i + 1;
    }
    assert events[..i] == events;
  }

  /** Starts the monitor and lets the host drive it. When the capability is
      missing it returns before any monitor exists, so no event is handled. */
  method Start(arg: ConfigArg, memorySupported: bool, events: seq<Event>)
    returns (started: bool, reports: seq<Report>, alerts: seq<real>)
    ensures started == memorySupported
    ensures reports == Lifetime(arg, memorySupported, events).reports
    ensures alerts == Lifetime(arg, memorySupported, events).alerts
  {
    var config := Effective(arg);
    if !memorySupported {
      return false, [], [];
    }
    var m := new Monitor(config);
    reports, alerts := Drive(m, events);
    started := true;
  }
}
