/** Start-up configuration of the memory monitor: the options it recognises and
    the defaults that fill in the ones the caller leaves out. */
module MonitorConfig {

  datatype Option<+T> = None | Some(value: T)

  /** The effective configuration the monitor runs with. Numbers are exact reals. */
  datatype Config = Config(
    thresholdMB: real,
    reportUrl: string,
    intervalMs: real,
    warnUser: bool,
    verbose: bool)

  /** What the page hands over as configuration: either a falsy value (undefined,
      null, false, ...), which stands for the empty object, or an object whose
      recognised keys are each present (Some) or undefined (None). */
  datatype ConfigArg =
    | Falsy
    | Object(
        thresholdMB: Option<real>,
        reportUrl: Option<string>,
        intervalMs: Option<real>,
        warnUser: Option<bool>,
        verbose: Option<bool>)

  /** The object that names every option explicitly. */
  function Explicit(c: Config): ConfigArg {
    Object(Some(c.thresholdMB), Some(c.reportUrl), Some(c.intervalMs), Some(c.warnUser), Some(c.verbose))
  }

  function OrElse<T>(o: Option<T>, default: T): T {
    match o
    case Some(v) => v
    case None => default
  }

  /** Applies the destructuring defaults: an option that is undefined takes its
      default, a present option is kept as given. */
  function Effective(arg: ConfigArg): (c: Config)
    ensures arg.Falsy? ==> c == Config(400.0, "/api/memory-report", 5000.0, false, false)
    ensures arg.Object? && arg.thresholdMB.Some? ==> c.thresholdMB == arg.thresholdMB.value
    ensures arg.Object? && arg.reportUrl.Some? ==> c.reportUrl == arg.reportUrl.value
    ensures arg.Object? && arg.intervalMs.Some? ==> c.intervalMs == arg.intervalMs.value
    ensures arg.Object? && arg.warnUser.Some? ==> c.warnUser == arg.warnUser.value
    ensures arg.Object? && arg.verbose.Some? ==> c.verbose == arg.verbose.value
    ensures arg.Object? && arg.thresholdMB.None? ==> c.thresholdMB == 400.0
    ensures arg.Object? && arg.reportUrl.None? ==> c.reportUrl == "/api/memory-report"
    ensures arg.Object? && arg.intervalMs.None? ==> c.intervalMs == 5000.0
    ensures arg.Object? && arg.warnUser.None? ==> c.warnUser == false
    ensures arg.Object? && arg.verbose.None? ==> c.verbose == false
  {
    var obj := if arg.Falsy? then Object(None, None, None, None, None) else arg;
    Config(
      OrElse(obj.thresholdMB, 400.0),
      OrElse(obj.reportUrl, "/api/memory-report"),
      OrElse(obj.intervalMs, 5000.0),
      OrElse(obj.warnUser, false),
      OrElse(obj.verbose, false))
  }

  /** An empty object and a falsy configuration start the monitor identically. */
  lemma EmptyObjectIsFalsy()
    ensures Effective(Object(None, None, None, None, None)) == Effective(Falsy)
  {
  }

  /** Naming every option explicitly reproduces exactly that configuration, so
      applying the defaults to an effective configuration changes nothing. */
  lemma ExplicitRoundTrip(c: Config)
    ensures Effective(Explicit(c)) == c
  {
  }
}
