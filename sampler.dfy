/**
 * The current version of the sampler, `rasppi_dht22_sampler.c`: its
 * settings and their defaults, the checks `parse_command_line` applies to
 * the options and then to the label operands, the two metric blocks of one
 * tick, one sample (a failed read prints nothing), and the timer-wake loop
 * of `do_main_loop`.
 */
module Sampler {
  import opened CLib
  import opened Convert
  import opened Prometheus

  const DEFAULT_DHT_GPIO_IDX: int := 17
  const DEFAULT_WAIT_SECONDS: int := 60
  const MIN_GPIO_INDEX: int := 0
  const MAX_GPIO_INDEX: int := 27
  /** The DHT22 can be sampled at most once every 2 seconds. */
  const MIN_WAIT_SECONDS: int := 2

  /** `struct configuration_settings`, the label array and its count being one sequence. */
  datatype Settings = Settings(gpioIdx: int, fahrenheit: bool, waitSeconds: int, labels: seq<string>)

  /** The initialiser of `actual_config` in `main`. */
  function Defaults(): Settings {
    Settings(DEFAULT_DHT_GPIO_IDX, false, DEFAULT_WAIT_SECONDS, [])
  }

  /**
   * One result of `getopt(argc, argv, "hfg:w:")`, with the option argument
   * where there is one. `Invalid` is the `?` that getopt returns for an
   * unknown option or a missing argument.
   */
  datatype Opt = Help | Fahrenheit | Gpio(arg: string) | Wait(arg: string) | Invalid(c: char)

  /** Parsing either leaves settings to run with, or ends the process with an exit code. */
  datatype Parsed = Run(settings: Settings) | Exit(code: int)

  /**
   * The `getopt` loop, option by option. `errno` is carried from one
   * conversion to the next, as the source never resets it.
   */
  function ApplyOptions(s: Settings, opts: seq<Opt>, errno: int, dm: DataModel): Parsed
    decreases |opts|
  {
    if opts == [] then Run(s)
    else match opts[0]
      case Help => Exit(0)
      case Fahrenheit => ApplyOptions(s.(fahrenheit := true), opts[1..], errno, dm)
      case Gpio(arg) =>
        (match ConvertStrToInt(arg, errno, dm)
         case ConversionFailed(code) => Exit(code)
         case Converted(v, e) =>
           if v < MIN_GPIO_INDEX || v > MAX_GPIO_INDEX then Exit(10)
           else ApplyOptions(s.(gpioIdx := v), opts[1..], e, dm))
      case Wait(arg) =>
        (match ConvertStrToInt(arg, errno, dm)
         case ConversionFailed(code) => Exit(code)
         case Converted(v, e) =>
           if v < MIN_WAIT_SECONDS then Exit(11)
           else ApplyOptions(s.(waitSeconds := v), opts[1..], e, dm))
      case Invalid(_) => ApplyOptions(s, opts[1..], errno, dm)
  }

  /** `parse_command_line`: the options first, then every operand as a label token. */
  function Parse(start: Settings, opts: seq<Opt>, operands: seq<string>, errno: int, dm: DataModel): Parsed {
    match ApplyOptions(start, opts, errno, dm)
    case Exit(code) => Exit(code)
    case Run(s) =>
      match AcceptAll(s.labels, operands)
      case Rejected(code) => Exit(code)
      case AllAccepted(ls) => Run(s.(labels := ls))
  }

  /** The settings a run may use: a GPIO index in range, a wait no shorter than the sensor allows. */
  predicate InRange(s: Settings) {
    MIN_GPIO_INDEX <= s.gpioIdx <= MAX_GPIO_INDEX && s.waitSeconds >= MIN_WAIT_SECONDS
  }

  /**
   * What the option loop preserves and what it changes: the range
   * invariant is kept, the labels are untouched, the unit is Fahrenheit
   * exactly when it was or `-f` occurs, and `-h` never lets the run go on.
   */
  lemma {:induction false} ApplyOptionsKeeps(s: Settings, opts: seq<Opt>, errno: int, dm: DataModel)
    ensures ApplyOptions(s, opts, errno, dm).Run? ==>
      var r := ApplyOptions(s, opts, errno, dm).settings;
      && (InRange(s) ==> InRange(r))
      && r.labels == s.labels
      && (r.fahrenheit <==> s.fahrenheit || Fahrenheit in opts)
      && Help !in opts
    ensures ApplyOptions(s, opts, errno, dm).Exit? ==>
      ApplyOptions(s, opts, errno, dm).code in {0, 1, 2, 3, 10, 11}
    decreases |opts|
  {
    if opts != [] {
      assert opts == [opts[0]] + opts[1..];
      match opts[0]
      case Help =>
      case Fahrenheit =>
        ApplyOptionsKeeps(s.(fahrenheit := true), opts[1..], errno, dm);
      case Gpio(arg) =>
        var c := ConvertStrToInt(arg, errno, dm);
        if c.Converted? {
          ApplyOptionsKeeps(s.(gpioIdx := c.value), opts[1..], c.errno, dm);
        }
      case Wait(arg) =>
        var c := ConvertStrToInt(arg, errno, dm);
        if c.Converted? {
          ApplyOptionsKeeps(s.(waitSeconds := c.value), opts[1..], c.errno, dm);
        }
      case Invalid(_) =>
        ApplyOptionsKeeps(s, opts[1..], errno, dm);
    }
  }

  /**
   * A run that starts from the defaults has a GPIO index in [0, 27], a wait
   * of at least 2 seconds, Fahrenheit exactly when `-f` was given, no `-h`,
   * and as its labels all the operands, in order, each a valid label.
   * Every other outcome is one of the source's exit codes.
   */
  lemma ParseMeaning(opts: seq<Opt>, operands: seq<string>, errno: int, dm: DataModel)
    ensures Parse(Defaults(), opts, operands, errno, dm).Run? ==>
      var r := Parse(Defaults(), opts, operands, errno, dm).settings;
      && InRange(r)
      && (r.fahrenheit <==> Fahrenheit in opts)
      && Help !in opts
      && r.labels == operands
      && forall k :: 0 <= k < |r.labels| ==> CheckLabel(r.labels[k]) == Accepted
    ensures Parse(Defaults(), opts, operands, errno, dm).Exit? ==>
      Parse(Defaults(), opts, operands, errno, dm).code in {0, 1, 2, 3, 4, 6, 8, 10, 11}
  {
    ApplyOptionsKeeps(Defaults(), opts, errno, dm);
    match ApplyOptions(Defaults(), opts, errno, dm)
    case Exit(_) =>
    case Run(s) =>
      AcceptAllOutcome(s.labels, operands);
      assert s.labels == [];
      assert [] + operands == operands;
  }

  /** `-h` ends the process with code 0, whatever follows it. */
  lemma HelpExits(opts: seq<Opt>, operands: seq<string>, errno: int, dm: DataModel)
    ensures Parse(Defaults(), [Help] + opts, operands, errno, dm) == Exit(0)
  {
    assert ([Help] + opts)[0] == Help;
  }

  /**
   * A GPIO index that converts but lies outside [0, 27] ends the process
   * with code 10, whatever settings earlier options left and whatever
   * options and operands follow.
   */
  lemma GpioOutOfRangeExits(s: Settings, v: int, rest: seq<Opt>, operands: seq<string>, errno: int, dm: DataModel)
    requires INT_MIN <= v <= INT_MAX && (v < MIN_GPIO_INDEX || v > MAX_GPIO_INDEX)
    requires errno != EINVAL
    ensures ApplyOptions(s, [Gpio(IntText(v))] + rest, errno, dm) == Exit(10)
    ensures Parse(s, [Gpio(IntText(v))] + rest, operands, errno, dm) == Exit(10)
  {
    ConvertReadsIntText(v, errno, dm);
    assert ([Gpio(IntText(v))] + rest)[0] == Gpio(IntText(v));
  }

  /**
   * A wait below 2 seconds (`-w 1`, `-w 0`, a negative one) ends the
   * process with code 11, whatever settings earlier options left and
   * whatever options and operands follow.
   */
  lemma WaitBelowMinimumExits(s: Settings, v: int, rest: seq<Opt>, operands: seq<string>, errno: int, dm: DataModel)
    requires INT_MIN <= v < MIN_WAIT_SECONDS
    requires errno != EINVAL
    ensures ApplyOptions(s, [Wait(IntText(v))] + rest, errno, dm) == Exit(11)
    ensures Parse(s, [Wait(IntText(v))] + rest, operands, errno, dm) == Exit(11)
  {
    ConvertReadsIntText(v, errno, dm);
    assert ([Wait(IntText(v))] + rest)[0] == Wait(IntText(v));
  }

  /**
   * `-g g -w w token` with both numbers in range and a valid token runs
   * with exactly those settings, in Celsius.
   */
  lemma ParseGpioWaitLabel(g: int, w: int, token: string, errno: int, dm: DataModel)
    requires MIN_GPIO_INDEX <= g <= MAX_GPIO_INDEX && MIN_WAIT_SECONDS <= w <= INT_MAX
    requires CheckLabel(token) == Accepted && errno != EINVAL
    ensures Parse(Defaults(), [Gpio(IntText(g)), Wait(IntText(w))], [token], errno, dm)
         == Run(Settings(g, false, w, [token]))
  {
    var opts := [Gpio(IntText(g)), Wait(IntText(w))];
    var s1 := Defaults().(gpioIdx := g);
    var s2 := s1.(waitSeconds := w);
    assert ApplyOptions(Defaults(), opts, errno, dm) == Run(s2) by {
      GpioStep(Defaults(), g, [Wait(IntText(w))], errno, dm);
      assert [Gpio(IntText(g))] + [Wait(IntText(w))] == opts;
      WaitStep(s1, w, [], errno, dm);
      assert [Wait(IntText(w))] + [] == [Wait(IntText(w))];
    }
    assert AcceptAll([], [token]) == AllAccepted([token]) by {
      assert [token][1..] == [];
    }
  }

  /** `-g` with an index in range sets it and goes on with the next option. */
  lemma GpioStep(s: Settings, g: int, rest: seq<Opt>, errno: int, dm: DataModel)
    requires MIN_GPIO_INDEX <= g <= MAX_GPIO_INDEX && errno != EINVAL
    ensures ApplyOptions(s, [Gpio(IntText(g))] + rest, errno, dm) == ApplyOptions(s.(gpioIdx := g), rest, errno, dm)
  {
    ConvertReadsIntText(g, errno, dm);
    assert ([Gpio(IntText(g))] + rest)[1..] == rest;
  }

  /** `-w` with a wait of at least 2 seconds sets it and goes on with the next option. */
  lemma WaitStep(s: Settings, w: int, rest: seq<Opt>, errno: int, dm: DataModel)
    requires MIN_WAIT_SECONDS <= w <= INT_MAX && errno != EINVAL
    ensures ApplyOptions(s, [Wait(IntText(w))] + rest, errno, dm) == ApplyOptions(s.(waitSeconds := w), rest, errno, dm)
  {
    ConvertReadsIntText(w, errno, dm);
    assert ([Wait(IntText(w))] + rest)[1..] == rest;
  }

  /**
   * With a 32-bit `long`, a wait too large for an `int` is not refused:
   * `strtol` clamps it to INT_MAX, which passes every check.
   */
  lemma Ilp32HugeWaitRuns(n: nat, errno: int)
    requires n > INT_MAX
    ensures Parse(Defaults(), [Wait(DecimalText(n))], [], errno, ILP32)
         == Run(Defaults().(waitSeconds := INT_MAX))
  {
    Ilp32ClampsOverflow(n, errno);
    var opts := [Wait(DecimalText(n))];
    assert opts[0] == Wait(DecimalText(n)) && opts[1..] == [];
    assert ApplyOptions(Defaults(), opts, errno, ILP32)
        == ApplyOptions(Defaults().(waitSeconds := INT_MAX), [], ERANGE, ILP32);
  }

  /** With a 64-bit `long`, the same wait ends the process with code 3, as long as `long` holds it. */
  lemma Lp64HugeWaitExits(n: nat, errno: int)
    requires INT_MAX < n <= LongMax(LP64) && errno != EINVAL
    ensures Parse(Defaults(), [Wait(DecimalText(n))], [], errno, LP64) == Exit(3)
  {
    ConvertRejectsOutOfRange(n, errno);
    assert IntText(n) == DecimalText(n);
  }

  // ---------------------------------------------------------------------
  // The configuration, as main and parse_command_line update it

  class Configuration {
    var dht22GpioIdx: int
    var temperatureInFahrenheit: bool
    var waitSeconds: int
    const labels: LabelSet

    /** `actual_config` as `main` initialises it. */
    constructor ()
      ensures Value() == Defaults()
    {
      dht22GpioIdx := DEFAULT_DHT_GPIO_IDX;
      temperatureInFahrenheit := false;
      waitSeconds := DEFAULT_WAIT_SECONDS;
      labels := new LabelSet();
    }

    function Value(): Settings
      reads this, labels
    {
      Settings(dht22GpioIdx, temperatureInFahrenheit, waitSeconds, labels.labels)
    }

    /**
     * `parse_command_line`: the option loop, then the operand loop. The
     * result is None when the program goes on to sample, or the code the
     * process exits with; after an exit the settings no longer matter.
     */
    method ParseCommandLine(opts: seq<Opt>, operands: seq<string>, errno: int, dm: DataModel)
      returns (exit: Option<int>)
      modifies this, labels
      ensures var p := Parse(old(Value()), opts, operands, errno, dm);
        && (exit.None? <==> p.Run?)
        && (p.Run? ==> Value() == p.settings)
        && (p.Exit? ==> exit == Some(p.code))
    {
      exit := ParseOptions(opts, errno, dm);
      if exit.Some? {
        return;
      }
      ghost var afterOptions := Value();
      exit := SaveLabels(operands);
      assert Value() == afterOptions.(labels := labels.labels);
    }

    /** The `getopt` loop of `parse_command_line`; the labels are not touched. */
    method ParseOptions(opts: seq<Opt>, errno: int, dm: DataModel) returns (exit: Option<int>)
      modifies this
      ensures var p := ApplyOptions(old(Value()), opts, errno, dm);
        && (exit.None? <==> p.Run?)
        && (p.Run? ==> Value() == p.settings)
        && (p.Exit? ==> exit == Some(p.code))
    {
      var i, e := 0, errno;
      while i < |opts|
        invariant 0 <= i <= |opts|
        invariant ApplyOptions(Value(), opts[i..], e, dm) == ApplyOptions(old(Value()), opts, errno, dm)
      {
        assert opts[i..][0] == opts[i] && opts[i..][1..] == opts[i + 1..];
        match opts[i] {
          case Help =>
            return Some(0);
          case Fahrenheit =>
            temperatureInFahrenheit := true;
          case Gpio(arg) =>
            var c := ConvertStrToInt(arg, e, dm);
            if c.ConversionFailed? {
              return Some(c.code);
            }
            dht22GpioIdx := c.value;
            if dht22GpioIdx < MIN_GPIO_INDEX || dht22GpioIdx > MAX_GPIO_INDEX {
              return Some(10);
            }
            e := c.errno;
          case Wait(arg) =>
            var c := ConvertStrToInt(arg, e, dm);
            if c.ConversionFailed? {
              return Some(c.code);
            }
            waitSeconds := c.value;
            if waitSeconds < MIN_WAIT_SECONDS {
              return Some(11);
            }
            e := c.errno;
          case Invalid(_) =>
        }
        i := i + 1;
      }
      return None;
    }

    /**
     * The operand loop of `parse_command_line`: each operand is checked
     * and saved in turn; an invalid one ends the process with its code.
     */
    method SaveLabels(operands: seq<string>) returns (exit: Option<int>)
      modifies labels
      ensures var a := AcceptAll(old(labels.labels), operands);
        && (exit.None? <==> a.AllAccepted?)
        && (a.AllAccepted? ==> labels.labels == a.labels)
        && (a.Rejected? ==> exit == Some(a.code))
    {
      var j := 0;
      while j < |operands|
        invariant 0 <= j <= |operands|
        invariant AcceptAll(labels.labels, operands[j..]) == AcceptAll(old(labels.labels), operands)
      {
        assert operands[j..][1..] == operands[j + 1..];
        var code := labels.CheckAndSave(operands[j]);
        if code != 0 {
          return Some(code);
        }
        j := j + 1;
      }
      assert operands[j..] == [];
      return None;
    }
  }

  // ---------------------------------------------------------------------
  // One tick of metric text

  const HUMIDITY_METRIC: string := "dht22_relat_humidity"
  const HUMIDITY_HELP: string := "Relative humidity " + "percentage in the " + "RHT03/DHT22 sensor"
  const TEMPERATURE_HELP: string := "Temperature in the " + "RHT03/DHT22 sensor"

  /**
   * The temperature metric is named after the unit it is reported in (the
   * conversion of the value itself is floating point and not modelled).
   */
  function TemperatureMetricName(fahrenheit: bool): string {
    if fahrenheit then "dht22_temperature_farenheit" else "dht22_temperature_celsius"
  }

  /**
   * `dht22_values_to_prometheus`: the humidity block, then the temperature
   * block. The build leaves out timestamps (`PRINT_PROMETHEUS_TIMESTAMPS`
   * is false), so the data lines end with the value.
   */
  function TickText(s: Settings, humidity: string, temperature: string): string {
    MetricBlock(HUMIDITY_METRIC, HUMIDITY_HELP, s.labels, humidity, None)
    + MetricBlock(TemperatureMetricName(s.fahrenheit), TEMPERATURE_HELP, s.labels, temperature, None)
  }

  /** Standard output after the humidity block and then the temperature block holds the tick. */
  lemma {:induction false} TickTextBlocks(s: Settings, humidity: string, temperature: string, t0: string, t1: string, t2: string)
    requires t1 == t0 + MetricBlock(HUMIDITY_METRIC, HUMIDITY_HELP, s.labels, humidity, None)
    requires t2 == t1 + MetricBlock(TemperatureMetricName(s.fahrenheit), TEMPERATURE_HELP, s.labels, temperature, None)
    ensures t2 == t0 + TickText(s, humidity, temperature)
  {
    var m1 := MetricBlock(HUMIDITY_METRIC, HUMIDITY_HELP, s.labels, humidity, None);
    var m2 := MetricBlock(TemperatureMetricName(s.fahrenheit), TEMPERATURE_HELP, s.labels, temperature, None);
    assert TickText(s, humidity, temperature) == m1 + m2;
    Associative(t0, m1, m2);
  }

  /**
   * A tick is six lines: TYPE, HELP and data line of the humidity, then the
   * same three for the temperature, named after the unit; each data line is
   * the metric name, the rendered labels, a space and the value, with no
   * timestamp after it.
   */
  lemma TickTextLines(s: Settings, humidity: string, temperature: string)
    requires NoNewline(humidity) && NoNewline(temperature)
    requires forall k :: 0 <= k < |s.labels| ==> NoNewline(s.labels[k])
    ensures var t := TemperatureMetricName(s.fahrenheit);
      var ls := [TypeLine(HUMIDITY_METRIC), HelpLine(HUMIDITY_METRIC, HUMIDITY_HELP),
                 DataLine(HUMIDITY_METRIC, s.labels, humidity, None),
                 TypeLine(t), HelpLine(t, TEMPERATURE_HELP), DataLine(t, s.labels, temperature, None)];
      && TickText(s, humidity, temperature) == Unlines(ls)
      && forall k :: 0 <= k < |ls| ==> NoNewline(ls[k])
  {
    var t := TemperatureMetricName(s.fahrenheit);
    MetricNamesAreOneLine();
    TwoBlockLines(HUMIDITY_METRIC, HUMIDITY_HELP, humidity, t, TEMPERATURE_HELP, temperature, s.labels, None);
  }

  /** The metric names and help texts hold no line break. */
  lemma MetricNamesAreOneLine()
    ensures NoNewline(HUMIDITY_METRIC) && NoNewline(HUMIDITY_HELP)
    ensures NoNewline(TemperatureMetricName(false)) && NoNewline(TemperatureMetricName(true))
    ensures NoNewline(TEMPERATURE_HELP)
  {
    assert NoNewline(HUMIDITY_METRIC) by { NoNewlineByChars(HUMIDITY_METRIC); }
    assert NoNewline(HUMIDITY_HELP) by {
      NoNewlineByChars("Relative humidity ");
      NoNewlineByChars("percentage in the ");
      NoNewlineByChars("RHT03/DHT22 sensor");
    }
    assert NoNewline(TEMPERATURE_HELP) by {
      NoNewlineByChars("Temperature in the ");
      NoNewlineByChars("RHT03/DHT22 sensor");
    }
    NoNewlineByChars(TemperatureMetricName(false));
    NoNewlineByChars(TemperatureMetricName(true));
  }

  /**
   * `get_curr_epoch_microsec`: seconds times 10^6 plus whole microseconds
   * of the nanoseconds, each step modulo 2^64 as in `unsigned long long`.
   */
  function EpochMicros(t: Timespec): nat {
    U64(U64(U64(t.sec) * 1000000) + U64(t.nsec) / 1000)
  }

  /**
   * For a clock reading after the epoch, with nanoseconds below one second
   * and no wrap-around, the result counts the microseconds since the epoch.
   */
  lemma EpochMicrosMeaning(t: Timespec)
    requires 0 <= t.sec && 0 <= t.nsec < 1000000000
    requires t.sec * 1000000 + 999999 < TWO_TO_64
    ensures EpochMicros(t) == t.sec * 1000000 + t.nsec / 1000
    ensures EpochMicros(t) / 1000000 == t.sec && EpochMicros(t) % 1000000 == t.nsec / 1000
  {
    var us := t.nsec / 1000;
    assert 0 <= us < 1000000;
    assert U64(t.sec) == t.sec && U64(t.nsec) == t.nsec;
    assert U64(t.sec * 1000000) == t.sec * 1000000;
    assert U64(t.sec * 1000000 + us) == t.sec * 1000000 + us;
    DivPlusMultiple(t.sec, us, 1000000);
  }

  /**
   * The stamp a build with `PRINT_PROMETHEUS_TIMESTAMPS` would print:
   * epoch microseconds divided by 1000. This build prints none.
   */
  function StampMillis(t: Timespec): nat {
    EpochMicros(t) / 1000
  }

  /** What one pass of `sample_dht22_sensor_to_prometheus` prints: nothing when the read failed. */
  function SampleText(s: Settings, read: DhtRead): string {
    match read
    case DhtSuccess(h, t) => TickText(s, h, t)
    case DhtFailure(_) => ""
  }

  /**
   * The three `fprintf`/`print_prometheus_labels` steps of one metric: the
   * TYPE and HELP lines and the metric name, the labels, then the value.
   */
  method WriteMetric(config: Configuration, out: OutputStream, name: string, help: string, value: string)
    modifies out
    ensures out.text == old(out.text) + MetricBlock(name, help, config.Value().labels, value, None)
  {
    ghost var t0 := out.text;
    var head := TypeLine(name) + "\n" + HelpLine(name, help) + "\n" + name;
    var tail := " " + value + "\n";
    out.Write(head);
    config.labels.PrintLabels(out);
    out.Write(tail);
    ghost var r := RenderLabels(config.labels.labels);
    assert out.text == t0 + (head + r + tail) by {
      Associative(t0 + head, r, tail);
      Associative(t0, head + r, tail);
      Associative(t0, head, r);
    }
    MetricBlockPieces(name, help, config.labels.labels, value);
  }

  /** `dht22_values_to_prometheus`: the humidity metric, then the temperature metric. */
  method Dht22ValuesToPrometheus(config: Configuration, out: OutputStream, temperature: string, humidity: string)
    modifies out
    ensures out.text == old(out.text) + TickText(config.Value(), humidity, temperature)
  {
    ghost var t0 := out.text;
    WriteMetric(config, out, HUMIDITY_METRIC, HUMIDITY_HELP, humidity);
    ghost var t1 := out.text;
    var name := TemperatureMetricName(config.temperatureInFahrenheit);
    WriteMetric(config, out, name, TEMPERATURE_HELP, temperature);
    TickTextBlocks(config.Value(), humidity, temperature, t0, t1, out.text);
  }

  /** `sample_dht22_sensor_to_prometheus`: a failed read only reports its code on standard error. */
  method SampleDht22SensorToPrometheus(config: Configuration, out: OutputStream, read: DhtRead)
    modifies out
    ensures out.text == old(out.text) + SampleText(config.Value(), read)
  {
    if read.DhtFailure? {
      return;
    }
    Dht22ValuesToPrometheus(config, out, read.temperature, read.humidity);
  }

  // ---------------------------------------------------------------------
  // The timer-wake loop

  /** What one `read` on the timer descriptor returns: an error, or the number of expirations. */
  datatype TimerRead = ReadFailed | Expired(missed: nat)

  /** One wake of the loop: the timer read, and what the sensor read would return. */
  datatype Wake = Wake(timer: TimerRead, sensor: DhtRead)

  /** A warning on standard error about missed samples, or one sampling pass. */
  datatype Event = Warn(missed: nat) | Sample(read: DhtRead)

  /** Whether the loop condition lets this wake through. */
  predicate Serves(w: Wake) {
    w.timer.Expired? && w.timer.missed > 0
  }

  /**
   * `do_main_loop` over a finite run of wakes: each wake the loop condition
   * lets through adds a warning when more than one expiration was counted,
   * then a sample; the first read error or zero count ends the loop.
   */
  function WakeTrace(wakes: seq<Wake>): seq<Event>
    decreases |wakes|
  {
    if wakes == [] || !Serves(wakes[0]) then []
    else WakeEvents(wakes[0]) + WakeTrace(wakes[1..])
  }

  /**
   * How many wakes the loop serves: every one of them lets the loop
   * condition through, and the next one, if any, stops the loop.
   */
  function ServedCount(wakes: seq<Wake>): (n: nat)
    ensures n <= |wakes|
    ensures forall k :: 0 <= k < n ==> Serves(wakes[k])
    ensures n < |wakes| ==> !Serves(wakes[n])
    decreases |wakes|
  {
    if wakes == [] || !Serves(wakes[0]) then 0 else 1 + ServedCount(wakes[1..])
  }

  /** The sensor reads of a trace's samples, in order. */
  function SampledReads(trace: seq<Event>): seq<DhtRead>
    decreases |trace|
  {
    if trace == [] then []
    else (if trace[0].Sample? then [trace[0].read] else []) + SampledReads(trace[1..])
  }

  function Sensors(wakes: seq<Wake>): (rs: seq<DhtRead>)
    ensures |rs| == |wakes| && forall k :: 0 <= k < |wakes| ==> rs[k] == wakes[k].sensor
  {
    seq(|wakes|, k requires 0 <= k < |wakes| => wakes[k].sensor)
  }

  lemma SampledReadsAppend(a: seq<Event>, b: seq<Event>)
    ensures SampledReads(a + b) == SampledReads(a) + SampledReads(b)
    decreases |a|
  {
    if a != [] {
      assert (a + b)[1..] == a[1..] + b;
      SampledReadsAppend(a[1..], b);
    } else {
      assert a + b == b;
    }
  }

  /**
   * The loop samples the sensor exactly once per served wake, in order,
   * and never after the first wake that stops it.
   */
  lemma {:induction false} WakeTraceSamples(wakes: seq<Wake>)
    ensures SampledReads(WakeTrace(wakes)) == Sensors(wakes[..ServedCount(wakes)])
    decreases |wakes|
  {
    if wakes != [] && Serves(wakes[0]) {
      var w := wakes[0];
      WakeTraceSamples(wakes[1..]);
      SampledReadsAppend(WakeEvents(w), WakeTrace(wakes[1..]));
      var ws := WakeEvents(w);
      if w.timer.missed > 1 {
        assert ws[1..] == [Sample(w.sensor)];
      }
      assert SampledReads(ws) == [w.sensor];
      var n := ServedCount(wakes[1..]);
      assert wakes[..1 + n] == [w] + wakes[1..][..n];
    }
  }

  /** The expiration counts of a trace's warnings, in order. */
  function Warnings(trace: seq<Event>): seq<nat>
    decreases |trace|
  {
    if trace == [] then []
    else (if trace[0].Warn? then [trace[0].missed] else []) + Warnings(trace[1..])
  }

  /** The counts of the wakes that found more than one expiration, in order. */
  function MultipleExpirations(wakes: seq<Wake>): seq<nat>
    decreases |wakes|
  {
    if wakes == [] then []
    else
      var w := wakes[0];
      (if w.timer.Expired? && w.timer.missed > 1 then [w.timer.missed] else []) + MultipleExpirations(wakes[1..])
  }

  lemma WarningsAppend(a: seq<Event>, b: seq<Event>)
    ensures Warnings(a + b) == Warnings(a) + Warnings(b)
    decreases |a|
  {
    if a != [] {
      assert (a + b)[1..] == a[1..] + b;
      WarningsAppend(a[1..], b);
    } else {
      assert a + b == b;
    }
  }

  /**
   * The loop warns once for every served wake that counted more than one
   * expiration, with that count, and for no other wake.
   */
  lemma {:induction false} WakeTraceWarnings(wakes: seq<Wake>)
    ensures Warnings(WakeTrace(wakes)) == MultipleExpirations(wakes[..ServedCount(wakes)])
    decreases |wakes|
  {
    if wakes != [] && Serves(wakes[0]) {
      var w := wakes[0];
      WakeTraceWarnings(wakes[1..]);
      WarningsAppend(WakeEvents(w), WakeTrace(wakes[1..]));
      var ws := WakeEvents(w);
      if w.timer.missed > 1 {
        assert ws[1..] == [Sample(w.sensor)];
      }
      var n := ServedCount(wakes[1..]);
      var served := wakes[..1 + n];
      assert served[0] == w && served[1..] == wakes[1..][..n];
    } else {
      assert wakes[..0] == [];
    }
  }

  /** Each warning reports more than one expiration and comes right before a sample. */
  predicate WarningsBeforeSamples(t: seq<Event>) {
    forall k :: 0 <= k < |t| && t[k].Warn? ==> t[k].missed > 1 && k + 1 < |t| && t[k + 1].Sample?
  }

  /**
   * A warning is written exactly for a served wake that counted more than
   * one expiration, and it is followed at once by the sample of that wake.
   */
  lemma {:induction false} WarningsPrecedeSamples(wakes: seq<Wake>)
    ensures WarningsBeforeSamples(WakeTrace(wakes))
    decreases |wakes|
  {
    if wakes != [] && Serves(wakes[0]) {
      WarningsPrecedeSamples(wakes[1..]);
      var ws := WakeEvents(wakes[0]);
      var rest := WakeTrace(wakes[1..]);
      var t := ws + rest;
      assert WakeTrace(wakes) == t;
      forall k | 0 <= k < |t| && t[k].Warn?
        ensures t[k].missed > 1 && k + 1 < |t| && t[k + 1].Sample?
      {
        if k >= |ws| {
          var j := k - |ws|;
          assert t[k] == rest[j];
          assert rest[j].Warn?;
          assert t[k + 1] == rest[j + 1];
        } else {
          assert ws == [Warn(wakes[0].timer.missed), Sample(wakes[0].sensor)] && k == 0;
          assert t[1] == ws[1];
        }
      }
    }
  }

  /**
   * Each warning belongs to the wake that counted it: that wake is served,
   * counted the reported number of expirations, and its own sample comes
   * right after the warning.
   */
  lemma {:induction false} WarningBelongsToWake(wakes: seq<Wake>, k: nat) returns (j: nat)
    requires k < |WakeTrace(wakes)| && WakeTrace(wakes)[k].Warn?
    ensures j < ServedCount(wakes)
    ensures wakes[j].timer == Expired(WakeTrace(wakes)[k].missed)
    ensures k + 1 < |WakeTrace(wakes)| && WakeTrace(wakes)[k + 1] == Sample(wakes[j].sensor)
    decreases |wakes|
  {
    var w := wakes[0];
    var ws := WakeEvents(w);
    var rest := WakeTrace(wakes[1..]);
    assert WakeTrace(wakes) == ws + rest;
    if k < |ws| {
      assert ws == [Warn(w.timer.missed), Sample(w.sensor)] && k == 0;
      j := 0;
    } else {
      var i := WarningBelongsToWake(wakes[1..], k - |ws|);
      assert WakeTrace(wakes)[k] == rest[k - |ws|];
      assert WakeTrace(wakes)[k + 1] == rest[k - |ws| + 1];
      assert wakes[1..][i] == wakes[i + 1];
      j := i + 1;
    }
  }

  /** A longer run of wakes only extends the trace: the first wakes fix its beginning. */
  lemma {:induction false} WakeTracePrefix(wakes: seq<Wake>, n: nat)
    requires n <= |wakes|
    ensures WakeTrace(wakes[..n]) <= WakeTrace(wakes)
    decreases n
  {
    if n > 0 && Serves(wakes[0]) {
      WakeTracePrefix(wakes[1..], n - 1);
      assert wakes[..n][0] == wakes[0];
      assert wakes[..n][1..] == wakes[1..][..n - 1];
    }
  }

  /** The events of one served wake. */
  function WakeEvents(w: Wake): seq<Event>
    requires Serves(w)
  {
    (if w.timer.missed > 1 then [Warn(w.timer.missed)] else []) + [Sample(w.sensor)]
  }

  /** What each sampling pass prints under settings `s`. */
  function Printer(s: Settings): DhtRead -> string {
    read => SampleText(s, read)
  }

  /**
   * The metric text a trace leaves on standard output, `show` giving
   * the text of one sampling pass.
   */
  function TraceText(show: DhtRead -> string, trace: seq<Event>): string
    decreases |trace|
  {
    if trace == [] then ""
    else TraceText(show, trace[..|trace| - 1]) + EventText(show, trace[|trace| - 1])
  }

  /** Warnings go to standard error; a sample prints its metric text. */
  function EventText(show: DhtRead -> string, e: Event): string {
    if e.Sample? then show(e.read) else ""
  }

  lemma TraceTextSnoc(show: DhtRead -> string, trace: seq<Event>, e: Event)
    ensures TraceText(show, trace + [e]) == TraceText(show, trace) + EventText(show, e)
  {
    assert (trace + [e])[..|trace|] == trace;
  }

  /**
   * `do_main_loop` after the timer is set up. `wakes` are the successive
   * outcomes of the timer and sensor reads; the result is the events of the
   * loop, and standard output gets the metric text of each sample.
   */
  method DoMainLoop(config: Configuration, out: OutputStream, wakes: seq<Wake>) returns (trace: seq<Event>)
    modifies out
    ensures trace == WakeTrace(wakes)
    ensures out.text == old(out.text) + TraceText(Printer(config.Value()), trace)
  {
    trace := [];
    var i := 0;
    ghost var v := config.Value();
    while i < |wakes| && wakes[i].timer.Expired? && wakes[i].timer.missed > 0
      invariant 0 <= i <= |wakes|
      invariant trace + WakeTrace(wakes[i..]) == WakeTrace(wakes)
      invariant config.Value() == v
      invariant out.text == old(out.text) + TraceText(Printer(v), trace)
    {
      ghost var before := trace;
      var events := ServeWake(config, out, wakes[i]);
      WakeTextStep(old(out.text), Printer(v), trace, wakes[i], out.text);
      trace := trace + events;
      WakeTraceStep(wakes, i, before, trace);
      i := i + 1;
    }
    assert trace + WakeTrace(wakes[i..]) == trace;
  }

  /**
   * The body of the loop for a wake it lets through: the warning when
   * samples were missed, then one sampling pass.
   */
  method ServeWake(config: Configuration, out: OutputStream, w: Wake) returns (events: seq<Event>)
    requires Serves(w)
    modifies out
    ensures events == WakeEvents(w)
    ensures out.text == old(out.text) + Printer(config.Value())(w.sensor)
  {
    events := [];
    var missed := w.timer.missed;
    if missed > 1 {
      events := [Warn(missed)];
    }
    SampleDht22SensorToPrometheus(config, out, w.sensor);
    events := events + [Sample(w.sensor)];
  }

  /** Standard output after one more served wake holds the text of the longer trace. */
  lemma {:induction false} WakeTextStep(o: string, show: DhtRead -> string, trace: seq<Event>, w: Wake, now: string)
    requires Serves(w)
    requires now == o + TraceText(show, trace) + show(w.sensor)
    ensures now == o + TraceText(show, trace + WakeEvents(w))
  {
    var m := w.timer.missed;
    var smp := Sample(w.sensor);
    if m > 1 {
      var t1 := trace + [Warn(m)];
      assert trace + WakeEvents(w) == t1 + [smp];
      TraceTextSnoc(show, t1, smp);
      TraceTextSnoc(show, trace, Warn(m));
    } else {
      assert trace + WakeEvents(w) == trace + [smp];
      TraceTextSnoc(show, trace, smp);
    }
    Associative(o, TraceText(show, trace), show(w.sensor));
  }

  lemma WakeTraceStep(wakes: seq<Wake>, i: nat, before: seq<Event>, after: seq<Event>)
    requires i < |wakes| && Serves(wakes[i])
    requires after == before + WakeEvents(wakes[i])
    ensures after + WakeTrace(wakes[i + 1..]) == before + WakeTrace(wakes[i..])
  {
    assert wakes[i..][1..] == wakes[i + 1..];
  }
}
