/**
 * The earlier version of the sampler, `prg.c`: a data pin and a wait that
 * `-p` and `-w` set to any `int`, labels checked as in the current
 * version, a tick that prints the temperature block before the humidity
 * block with an epoch-millisecond timestamp on both data lines, and a
 * `while (true)` loop that reads the sensor once and then sleeps with
 * `usleep`.
 */
module Prg {
  import opened CLib
  import opened Convert
  import opened Prometheus

  const DEFAULT_DHTPIN: int := 7
  const DEFAULT_WAIT_SECONDS: int := 60

  /** `struct configuration_settings` of this version: no unit, no range limits. */
  datatype Settings = Settings(dataPin: int, waitSeconds: int, labels: seq<string>)

  /** The initialiser of `actual_config` in `main`. */
  function Defaults(): Settings {
    Settings(DEFAULT_DHTPIN, DEFAULT_WAIT_SECONDS, [])
  }

  /** One result of `getopt(argc, argv, "hp:w:")`; `Invalid` is its `?`. */
  datatype Opt = Help | Pin(arg: string) | Wait(arg: string) | Invalid(c: char)

  datatype Parsed = Run(settings: Settings) | Exit(code: int)

  /** The `getopt` loop, option by option, `errno` carried along. */
  function ApplyOptions(s: Settings, opts: seq<Opt>, errno: int, dm: DataModel): Parsed
    decreases |opts|
  {
    if opts == [] then Run(s)
    else match opts[0]
      case Help => Exit(0)
      case Pin(arg) =>
        (match ConvertStrToInt(arg, errno, dm)
         case ConversionFailed(code) => Exit(code)
         case Converted(v, e) => ApplyOptions(s.(dataPin := v), opts[1..], e, dm))
      case Wait(arg) =>
        (match ConvertStrToInt(arg, errno, dm)
         case ConversionFailed(code) => Exit(code)
         case Converted(v, e) => ApplyOptions(s.(waitSeconds := v), opts[1..], e, dm))
      case Invalid(_) => ApplyOptions(s, opts[1..], errno, dm)
  }

  /** `parse_command_line`: the options, then every operand as a label token. */
  function Parse(start: Settings, opts: seq<Opt>, operands: seq<string>, errno: int, dm: DataModel): Parsed {
    match ApplyOptions(start, opts, errno, dm)
    case Exit(code) => Exit(code)
    case Run(s) =>
      match AcceptAll(s.labels, operands)
      case Rejected(code) => Exit(code)
      case AllAccepted(ls) => Run(s.(labels := ls))
  }

  /** Both numbers are values of a C `int`. */
  predicate IntSettings(s: Settings) {
    INT_MIN <= s.dataPin <= INT_MAX && INT_MIN <= s.waitSeconds <= INT_MAX
  }

  /**
   * The option loop keeps the numbers within `int`, leaves the labels
   * alone, never lets a run go on after `-h`, and exits only with the
   * codes of `-h` and of `convert_str_to_int`.
   */
  lemma {:induction false} ApplyOptionsKeeps(s: Settings, opts: seq<Opt>, errno: int, dm: DataModel)
    ensures ApplyOptions(s, opts, errno, dm).Run? ==>
      var r := ApplyOptions(s, opts, errno, dm).settings;
      && (IntSettings(s) ==> IntSettings(r))
      && r.labels == s.labels
      && Help !in opts
    ensures ApplyOptions(s, opts, errno, dm).Exit? ==>
      ApplyOptions(s, opts, errno, dm).code in {0, 1, 2, 3}
    decreases |opts|
  {
    if opts != [] {
      assert opts == [opts[0]] + opts[1..];
      match opts[0]
      case Help =>
      case Pin(arg) =>
        var c := ConvertStrToInt(arg, errno, dm);
        if c.Converted? {
          ApplyOptionsKeeps(s.(dataPin := c.value), opts[1..], c.errno, dm);
        }
      case Wait(arg) =>
        var c := ConvertStrToInt(arg, errno, dm);
        if c.Converted? {
          ApplyOptionsKeeps(s.(waitSeconds := c.value), opts[1..], c.errno, dm);
        }
      case Invalid(_) =>
        ApplyOptionsKeeps(s, opts[1..], errno, dm);
    }
  }

  /**
   * A run from the defaults has `int` pin and wait, no `-h`, and all the
   * operands, in order, as its labels, each a valid label. Every other
   * outcome is one of the source's exit codes.
   */
  lemma ParseMeaning(opts: seq<Opt>, operands: seq<string>, errno: int, dm: DataModel)
    ensures Parse(Defaults(), opts, operands, errno, dm).Run? ==>
      var r := Parse(Defaults(), opts, operands, errno, dm).settings;
      && IntSettings(r)
      && Help !in opts
      && r.labels == operands
      && forall k :: 0 <= k < |r.labels| ==> CheckLabel(r.labels[k]) == Accepted
    ensures Parse(Defaults(), opts, operands, errno, dm).Exit? ==>
      Parse(Defaults(), opts, operands, errno, dm).code in {0, 1, 2, 3, 4, 6, 8}
  {
    ApplyOptionsKeeps(Defaults(), opts, errno, dm);
    match ApplyOptions(Defaults(), opts, errno, dm)
    case Exit(_) =>
    case Run(s) =>
      AcceptAllOutcome(s.labels, operands);
      assert s.labels == [];
      assert [] + operands == operands;
  }

  /** `-h` ends the process with code 0, whatever follows it. */
  lemma HelpExits(opts: seq<Opt>, operands: seq<string>, errno: int, dm: DataModel)
    ensures Parse(Defaults(), [Help] + opts, operands, errno, dm) == Exit(0)
  {
    assert ([Help] + opts)[0] == Help;
  }

  /**
   * `-p p -w w` runs with exactly those numbers for every pair of `int`s:
   * a negative pin, a zero or negative wait are all let through.
   */
  lemma ParseAnyPinAndWait(p: int, w: int, errno: int, dm: DataModel)
    requires INT_MIN <= p <= INT_MAX && INT_MIN <= w <= INT_MAX
    requires errno != EINVAL
    ensures Parse(Defaults(), [Pin(IntText(p)), Wait(IntText(w))], [], errno, dm) == Run(Settings(p, w, []))
  {
    var opts := [Pin(IntText(p)), Wait(IntText(w))];
    var s1 := Defaults().(dataPin := p);
    assert ApplyOptions(Defaults(), opts, errno, dm) == ApplyOptions(s1, [Wait(IntText(w))], errno, dm) by {
      ConvertReadsIntText(p, errno, dm);
      assert opts[0] == Pin(IntText(p)) && opts[1..] == [Wait(IntText(w))];
    }
    assert ApplyOptions(s1, [Wait(IntText(w))], errno, dm) == Run(s1.(waitSeconds := w)) by {
      ConvertReadsIntText(w, errno, dm);
      assert [Wait(IntText(w))][1..] == [];
    }
  }

  // ---------------------------------------------------------------------
  // The configuration, as main and parse_command_line update it

  class Configuration {
    var dataPin: int
    var waitSeconds: int
    const labels: LabelSet

    /** `actual_config` as `main` initialises it. */
    constructor ()
      ensures Value() == Defaults()
    {
      dataPin := DEFAULT_DHTPIN;
      waitSeconds := DEFAULT_WAIT_SECONDS;
      labels := new LabelSet();
    }

    function Value(): Settings
      reads this, labels
    {
      Settings(dataPin, waitSeconds, labels.labels)
    }

    /**
     * `parse_command_line`: the option loop, then the operand loop. The
     * result is None when the program goes on to sample, or the code the
     * process exits with.
     */
    method ParseCommandLine(opts: seq<Opt>, operands: seq<string>, errno: int, dm: DataModel)
      returns (exit: Option<int>)
      modifies this, labels
      ensures var p := Parse(old(Value()), opts, operands, errno, dm);
        && (exit.None? <==> p.Run?)
        && (p.Run? ==> Value() == p.settings)
        && (p.Exit? ==> exit == Some(p.code))
    {
      exit := ParseOptions(opts, errno, dm);
      if exit.Some? {
        return;
      }
      ghost var afterOptions := Value();
      exit := SaveLabels(operands);
      assert Value() == afterOptions.(labels := labels.labels);
    }

    /** The `getopt` loop of `parse_command_line`; the labels are not touched. */
    method ParseOptions(opts: seq<Opt>, errno: int, dm: DataModel) returns (exit: Option<int>)
      modifies this
      ensures var p := ApplyOptions(old(Value()), opts, errno, dm);
        && (exit.None? <==> p.Run?)
        && (p.Run? ==> Value() == p.settings)
        && (p.Exit? ==> exit == Some(p.code))
    {
      var i, e := 0, errno;
      while i < |opts|
        invariant 0 <= i <= |opts|
        invariant ApplyOptions(Value(), opts[i..], e, dm) == ApplyOptions(old(Value()), opts, errno, dm)
      {
        assert opts[i..][0] == opts[i] && opts[i..][1..] == opts[i + 1..];
        match opts[i] {
          case Help =>
            return Some(0);
          case Pin(arg) =>
            var c := ConvertStrToInt(arg, e, dm);
            if c.ConversionFailed? {
              return Some(c.code);
            }
            dataPin := c.value;
            e := c.errno;
          case Wait(arg) =>
            var c := ConvertStrToInt(arg, e, dm);
            if c.ConversionFailed? {
              return Some(c.code);
            }
            waitSeconds := c.value;
            e := c.errno;
          case Invalid(_) =>
        }
        i := i + 1;
      }
      return None;
    }

    /**
     * The operand loop of `parse_command_line`: each operand is checked
     * and saved in turn; an invalid one ends the process with its code.
     */
    method SaveLabels(operands: seq<string>) returns (exit: Option<int>)
      modifies labels
      ensures var a := AcceptAll(old(labels.labels), operands);
        && (exit.None? <==> a.AllAccepted?)
        && (a.AllAccepted? ==> labels.labels == a.labels)
        && (a.Rejected? ==> exit == Some(a.code))
    {
      var j := 0;
      while j < |operands|
        invariant 0 <= j <= |operands|
        invariant AcceptAll(labels.labels, operands[j..]) == AcceptAll(old(labels.labels), operands)
      {
        assert operands[j..][1..] == operands[j + 1..];
        var code := labels.CheckAndSave(operands[j]);
        if code != 0 {
          return Some(code);
        }
        j := j + 1;
      }
      assert operands[j..] == [];
      return None;
    }
  }

  // ---------------------------------------------------------------------
  // One tick of metric text

  const TEMPERATURE_METRIC: string := "dht22_temperature"
  const TEMPERATURE_HELP: string := "Temperature in the " + "RHT03/DHT22 sensor"
  const HUMIDITY_METRIC: string := "dht22_relat_humidity"
  const HUMIDITY_HELP: string := "Relative humidity " + "in the RHT03/DHT22 " + "sensor"

  /**
   * The epoch-millisecond stamp of `dht22_values_to_prometheus`, computed
   * in `unsigned long long`: seconds times 1000 plus whole milliseconds of
   * the nanoseconds, each step modulo 2^64.
   */
  function EpochMillis(t: Timespec): nat {
    U64(U64(U64(t.sec) * 1000) + U64(t.nsec) / 1000000)
  }

  /**
   * For a clock reading after the epoch, with nanoseconds below one second
   * and no wrap-around, the stamp counts the milliseconds since the epoch:
   * its thousands are the seconds, its remainder the whole milliseconds.
   */
  lemma EpochMillisMeaning(t: Timespec)
    requires 0 <= t.sec && 0 <= t.nsec < 1000000000
    requires t.sec * 1000 + 999 < TWO_TO_64
    ensures EpochMillis(t) == t.sec * 1000 + t.nsec / 1000000
    ensures EpochMillis(t) / 1000 == t.sec && EpochMillis(t) % 1000 == t.nsec / 1000000
  {
    var ms := t.nsec / 1000000;
    assert 0 <= ms < 1000;
    assert U64(t.sec) == t.sec && U64(t.nsec) == t.nsec;
    assert U64(t.sec * 1000) == t.sec * 1000;
    assert U64(t.sec * 1000 + ms) == t.sec * 1000 + ms;
    DivPlusMultiple(t.sec, ms, 1000);
  }

  /**
   * `dht22_values_to_prometheus` of this version: the temperature block,
   * then the humidity block, both data lines stamped with the same `ms`.
   */
  function TickText(s: Settings, temperature: string, humidity: string, ms: nat): string {
    MetricBlock(TEMPERATURE_METRIC, TEMPERATURE_HELP, s.labels, temperature, Some(ms))
    + MetricBlock(HUMIDITY_METRIC, HUMIDITY_HELP, s.labels, humidity, Some(ms))
  }

  /** Standard output after the temperature block and then the humidity block holds the tick. */
  lemma {:induction false} TickTextBlocks(s: Settings, temperature: string, humidity: string, ms: nat,
                                          t0: string, t1: string, t2: string)
    requires t1 == t0 + MetricBlock(TEMPERATURE_METRIC, TEMPERATURE_HELP, s.labels, temperature, Some(ms))
    requires t2 == t1 + MetricBlock(HUMIDITY_METRIC, HUMIDITY_HELP, s.labels, humidity, Some(ms))
    ensures t2 == t0 + TickText(s, temperature, humidity, ms)
  {
    var m1 := MetricBlock(TEMPERATURE_METRIC, TEMPERATURE_HELP, s.labels, temperature, Some(ms));
    var m2 := MetricBlock(HUMIDITY_METRIC, HUMIDITY_HELP, s.labels, humidity, Some(ms));
    assert TickText(s, temperature, humidity, ms) == m1 + m2;
    Associative(t0, m1, m2);
  }

  /**
   * A tick is six lines: TYPE, HELP and data line of `dht22_temperature`,
   * then the same three of `dht22_relat_humidity`; both data lines end
   * with the value and the one stamp `ms`.
   */
  lemma TickTextLines(s: Settings, temperature: string, humidity: string, ms: nat)
    requires NoNewline(temperature) && NoNewline(humidity)
    requires forall k :: 0 <= k < |s.labels| ==> NoNewline(s.labels[k])
    ensures var ls := [TypeLine(TEMPERATURE_METRIC), HelpLine(TEMPERATURE_METRIC, TEMPERATURE_HELP),
                       DataLine(TEMPERATURE_METRIC, s.labels, temperature, Some(ms)),
                       TypeLine(HUMIDITY_METRIC), HelpLine(HUMIDITY_METRIC, HUMIDITY_HELP),
                       DataLine(HUMIDITY_METRIC, s.labels, humidity, Some(ms))];
      && TickText(s, temperature, humidity, ms) == Unlines(ls)
      && forall k :: 0 <= k < |ls| ==> NoNewline(ls[k])
  {
    MetricTextsAreOneLine();
    TwoBlockLines(TEMPERATURE_METRIC, TEMPERATURE_HELP, temperature, HUMIDITY_METRIC, HUMIDITY_HELP, humidity,
                  s.labels, Some(ms));
  }

  /** The metric names and help texts hold no line break. */
  lemma MetricTextsAreOneLine()
    ensures NoNewline(TEMPERATURE_METRIC) && NoNewline(TEMPERATURE_HELP)
    ensures NoNewline(HUMIDITY_METRIC) && NoNewline(HUMIDITY_HELP)
  {
    NoNewlineByChars(TEMPERATURE_METRIC);
    NoNewlineByChars(HUMIDITY_METRIC);
    assert NoNewline(TEMPERATURE_HELP) by {
      NoNewlineByChars("Temperature in the ");
      NoNewlineByChars("RHT03/DHT22 sensor");
    }
    assert NoNewline(HUMIDITY_HELP) by {
      NoNewlineByChars("Relative humidity ");
      NoNewlineByChars("in the RHT03/DHT22 ");
      NoNewlineByChars("sensor");
    }
  }

  /** The `fprintf`/`print_prometheus_labels`/`fprintf` steps of one stamped metric. */
  method WriteMetric(config: Configuration, out: OutputStream, name: string, help: string, value: string, ms: nat)
    modifies out
    ensures out.text == old(out.text) + MetricBlock(name, help, config.Value().labels, value, Some(ms))
  {
    ghost var t0 := out.text;
    var head := TypeLine(name) + "\n" + HelpLine(name, help) + "\n" + name;
    var tail := " " + value + " " + DecimalText(ms) + "\n";
    out.Write(head);
    config.labels.PrintLabels(out);
    out.Write(tail);
    ghost var r := RenderLabels(config.labels.labels);
    assert out.text == t0 + (head + r + tail) by {
      Associative(t0 + head, r, tail);
      Associative(t0, head + r, tail);
      Associative(t0, head, r);
    }
    MetricBlockStampedPieces(name, help, config.labels.labels, value, ms);
  }

  /**
   * `dht22_values_to_prometheus`: `clock` is what `clock_gettime` returns;
   * one stamp serves both metrics.
   */
  method Dht22ValuesToPrometheus(config: Configuration, out: OutputStream, temperature: string, humidity: string,
                                 clock: Timespec)
    modifies out
    ensures out.text == old(out.text) + TickText(config.Value(), temperature, humidity, EpochMillis(clock))
  {
    var ms := EpochMillis(clock);
    ghost var t0 := out.text;
    WriteMetric(config, out, TEMPERATURE_METRIC, TEMPERATURE_HELP, temperature, ms);
    ghost var t1 := out.text;
    WriteMetric(config, out, HUMIDITY_METRIC, HUMIDITY_HELP, humidity, ms);
    TickTextBlocks(config.Value(), temperature, humidity, ms, t0, t1, out.text);
  }

  // ---------------------------------------------------------------------
  // The read-then-sleep loop of main

  /**
   * The argument `usleep` gets: `wait_seconds * 1000 * 1000` is computed in
   * `int`, where it overflows once the wait exceeds 2147 seconds (modelled
   * as the usual two's-complement wrap), and is then converted to the
   * 32-bit unsigned `useconds_t`.
   */
  function UsleepArgument(waitSeconds: int): (micros: nat)
    ensures micros < TWO_TO_32
  {
    (waitSeconds * 1000 * 1000) % TWO_TO_32
  }

  /** The sleep the option promises: the wait, in microseconds, exactly. */
  function IntendedSleepMicros(waitSeconds: nat): (micros: nat)
    ensures micros / 1000000 == waitSeconds && micros % 1000000 == 0
  {
    waitSeconds * 1000000
  }

  /** The product stays within `int` exactly for waits in [-2147, 2147]. */
  lemma UsleepProductFitsInt(waitSeconds: int)
    ensures INT_MIN <= waitSeconds * 1000 * 1000 <= INT_MAX <==> -2147 <= waitSeconds <= 2147
  {
    if waitSeconds > 2147 {
      assert waitSeconds * 1000 * 1000 >= 2148 * 1000 * 1000;
    } else if waitSeconds < -2147 {
      assert waitSeconds * 1000 * 1000 <= -2148 * 1000 * 1000;
    }
  }

  /** Up to 4294 seconds the sleep is the intended one. */
  lemma UsleepArgumentExact(waitSeconds: int)
    requires 0 <= waitSeconds <= 4294
    ensures UsleepArgument(waitSeconds) == IntendedSleepMicros(waitSeconds)
  {
    assert waitSeconds * 1000 * 1000 <= 4294 * 1000000 < TWO_TO_32;
  }

  /** From 4295 seconds on the sleep is always shorter than intended. */
  lemma UsleepArgumentShort(waitSeconds: int)
    requires waitSeconds >= 4295
    ensures UsleepArgument(waitSeconds) < IntendedSleepMicros(waitSeconds)
  {
    assert waitSeconds * 1000 * 1000 >= 4295 * 1000000 > TWO_TO_32;
  }

  /** `-w 5000` sleeps 705.032704 seconds between samples, not 5000. */
  lemma UsleepFiveThousand()
    ensures UsleepArgument(5000) == 705032704
    ensures IntendedSleepMicros(5000) == 5000000000
  {
    assert 5000 * 1000 * 1000 == 1 * TWO_TO_32 + 705032704;
  }

  /** One pass of the loop: what `pi_2_dht_read` returns, and the clock if it is read. */
  datatype Pass = Pass(sensor: DhtRead, clock: Timespec)

  /** One sensor read (printing its metrics on success), or one `usleep`. */
  datatype Event = Sample(read: DhtRead, clock: Timespec) | Sleep(micros: nat)

  /** The first passes of `while (true)`: each a sample, then the sleep. */
  function LoopTrace(s: Settings, passes: seq<Pass>): seq<Event>
    decreases |passes|
  {
    if passes == [] then []
    else
      var p := passes[|passes| - 1];
      LoopTrace(s, passes[..|passes| - 1]) + [Sample(p.sensor, p.clock), Sleep(UsleepArgument(s.waitSeconds))]
  }

  /**
   * Every pass reads the sensor exactly once and then always sleeps the
   * same time, whatever the read returned: the trace alternates samples,
   * in the order of the passes, and sleeps of `UsleepArgument(wait)`.
   */
  lemma {:induction false} LoopTraceShape(s: Settings, passes: seq<Pass>)
    ensures |LoopTrace(s, passes)| == 2 * |passes|
    ensures forall k :: 0 <= k < |passes| ==>
      LoopTrace(s, passes)[2 * k] == Sample(passes[k].sensor, passes[k].clock)
      && LoopTrace(s, passes)[2 * k + 1] == Sleep(UsleepArgument(s.waitSeconds))
    decreases |passes|
  {
    if passes != [] {
      var n := |passes| - 1;
      LoopTraceShape(s, passes[..n]);
      assert forall k :: 0 <= k < n ==> passes[..n][k] == passes[k];
    }
  }

  /** What one pass prints on standard output: nothing when the read failed. */
  function SampleText(s: Settings, read: DhtRead, clock: Timespec): string {
    match read
    case DhtSuccess(h, t) => TickText(s, t, h, EpochMillis(clock))
    case DhtFailure(_) => ""
  }

  function Printer(s: Settings): (DhtRead, Timespec) -> string {
    (read, clock) => SampleText(s, read, clock)
  }

  /** The metric text a trace leaves on standard output. */
  function TraceText(show: (DhtRead, Timespec) -> string, trace: seq<Event>): string
    decreases |trace|
  {
    if trace == [] then ""
    else TraceText(show, trace[..|trace| - 1]) + EventText(show, trace[|trace| - 1])
  }

  /** A sleep prints nothing. */
  function EventText(show: (DhtRead, Timespec) -> string, e: Event): string {
    if e.Sample? then show(e.read, e.clock) else ""
  }

  /** The output of the first passes, pass by pass. */
  function PassesText(s: Settings, passes: seq<Pass>): string
    decreases |passes|
  {
    if passes == [] then ""
    else
      var p := passes[|passes| - 1];
      PassesText(s, passes[..|passes| - 1]) + SampleText(s, p.sensor, p.clock)
  }

  /** The text of the loop's trace is the text of its passes, in order. */
  lemma {:induction false} LoopTextIsPassesText(s: Settings, passes: seq<Pass>)
    ensures TraceText(Printer(s), LoopTrace(s, passes)) == PassesText(s, passes)
    decreases |passes|
  {
    if passes != [] {
      var n := |passes| - 1;
      var p := passes[n];
      LoopTextIsPassesText(s, passes[..n]);
      var before := LoopTrace(s, passes[..n]);
      var e1 := Sample(p.sensor, p.clock);
      var e2 := Sleep(UsleepArgument(s.waitSeconds));
      assert LoopTrace(s, passes) == (before + [e1]) + [e2];
      TraceSnoc(Printer(s), before + [e1], e2);
      TraceSnoc(Printer(s), before, e1);
    }
  }

  lemma TraceSnoc(show: (DhtRead, Timespec) -> string, trace: seq<Event>, e: Event)
    ensures TraceText(show, trace + [e]) == TraceText(show, trace) + EventText(show, e)
  {
    assert (trace + [e])[..|trace|] == trace;
  }

  /** Passes whose reads all failed leave standard output untouched. */
  lemma {:induction false} FailedPassesPrintNothing(s: Settings, passes: seq<Pass>)
    requires forall k :: 0 <= k < |passes| ==> passes[k].sensor.DhtFailure?
    ensures PassesText(s, passes) == ""
    decreases |passes|
  {
    if passes != [] {
      var n := |passes| - 1;
      assert forall k :: 0 <= k < n ==> passes[..n][k] == passes[k];
      FailedPassesPrintNothing(s, passes[..n]);
    }
  }

  /** A longer run of passes only extends the trace: the first passes fix its beginning. */
  lemma {:induction false} LoopTracePrefix(s: Settings, passes: seq<Pass>, n: nat)
    requires n <= |passes|
    ensures LoopTrace(s, passes[..n]) <= LoopTrace(s, passes)
    decreases |passes|
  {
    if n < |passes| {
      var m := |passes| - 1;
      LoopTracePrefix(s, passes[..m], n);
      assert passes[..m][..n] == passes[..n];
    } else {
      assert passes[..n] == passes;
    }
  }

  lemma LoopTraceStep(s: Settings, passes: seq<Pass>, i: nat)
    requires i < |passes|
    ensures LoopTrace(s, passes[..i + 1])
         == LoopTrace(s, passes[..i]) + [Sample(passes[i].sensor, passes[i].clock), Sleep(UsleepArgument(s.waitSeconds))]
  {
    assert passes[..i + 1][..i] == passes[..i];
  }

  /** One pass's read: the tick on success; an error goes to standard error only. */
  method SamplePass(config: Configuration, out: OutputStream, p: Pass)
    modifies out
    ensures out.text == old(out.text) + Printer(config.Value())(p.sensor, p.clock)
  {
    if p.sensor.DhtSuccess? {
      Dht22ValuesToPrometheus(config, out, p.sensor.temperature, p.sensor.humidity, p.clock);
    }
  }

  /** Standard output after one more pass holds the text of the longer trace. */
  lemma {:induction false} PassTextStep(o: string, show: (DhtRead, Timespec) -> string, trace: seq<Event>,
                                        p: Pass, micros: nat, now: string)
    requires now == o + TraceText(show, trace) + show(p.sensor, p.clock)
    ensures now == o + TraceText(show, trace + [Sample(p.sensor, p.clock), Sleep(micros)])
  {
    var e1 := Sample(p.sensor, p.clock);
    var t1 := trace + [e1];
    assert trace + [e1, Sleep(micros)] == t1 + [Sleep(micros)];
    TraceSnoc(show, t1, Sleep(micros));
    TraceSnoc(show, trace, e1);
    Associative(o, TraceText(show, trace), show(p.sensor, p.clock));
  }

  /**
   * `main` after `parse_command_line`, over the first `|passes|` passes of
   * `while (true)`: read the sensor, print the tick on success (the error
   * goes to standard error), then sleep.
   */
  method MainLoop(config: Configuration, out: OutputStream, passes: seq<Pass>) returns (trace: seq<Event>)
    modifies out
    ensures trace == LoopTrace(config.Value(), passes)
    ensures out.text == old(out.text) + TraceText(Printer(config.Value()), trace)
  {
    trace := [];
    ghost var v := config.Value();
    var i := 0;
    while i < |passes|
      invariant 0 <= i <= |passes|
      invariant config.Value() == v
      invariant trace == LoopTrace(v, passes[..i])
      invariant out.text == old(out.text) + TraceText(Printer(v), trace)
    {
      var p := passes[i];
      ghost var before := trace;
      SamplePass(config, out, p);
      var micros := UsleepArgument(config.waitSeconds);
      trace := trace + [Sample(p.sensor, p.clock), Sleep(micros)];
      PassTextStep(old(out.text), Printer(v), before, p, micros, out.text);
      LoopTraceStep(v, passes, i);
      i := i + 1;
    }
    assert passes[..i] == passes;
  }
}
