# DHT22 Prometheus sampler, modelled in Dafny

The sampler runs on a Raspberry Pi. It reads an RHT03/DHT22 humidity and
temperature sensor periodically and writes each reading on standard output
in the Prometheus text exposition format, for a text-file collector to pick
up. This project models two versions of the program:

- `rasppi_dht22_sampler.c`, the current version. It has a GPIO index (`-g`,
  range [0, 27], default 17), an optional Fahrenheit unit (`-f`), and a
  sampling wait (`-w`, at least 2 seconds, default 60). A periodic
  `timerfd` timer drives its loop.
- `prg.c`, an earlier version. It has a data pin (`-p`, default 7), a wait
  (`-w`, default 60) with no range checks, and a timestamp on every data
  line. Its loop sleeps with `usleep`.

Both versions take `name="value"` Prometheus labels as trailing operands.

The files:

- `clib.dfy` (module `CLib`): the C library the sampler relies on.
  - `strtol` in base 0, as glibc implements it. The width of `long` is a
    parameter: `ILP32` or `LP64`.
  - `errno` is threaded through explicitly.
  - `unsigned long long` arithmetic is modulo 2^64.
  - `printf` is modelled for a format string given no arguments.
  - Standard output is an `OutputStream` object whose text grows with
    every write.
- `conversion.dfy` (module `Convert`): `convert_str_to_int`, which both
  versions share. Every `exit(n)` becomes a `ConversionFailed(n)` value.
- `prometheus.dfy` (module `Prometheus`), shared by both versions:
  - label validation against the two POSIX regular expressions the source
    compiles, with exit codes 4, 6 and 8;
  - the label set (a class whose `seq` field grows);
  - printing the labels as `{l1, l2}`;
  - the TYPE / HELP / data-line layout of a metric block.
- `sampler.dfy` (module `Sampler`): the current version.
  - `parse_command_line` as a function on values and as a method on the
    `Configuration` object.
  - `dht22_values_to_prometheus` and `sample_dht22_sensor_to_prometheus`.
  - `get_curr_epoch_microsec`.
  - The `do_main_loop` timer loop, over a finite sequence of timer wakes.
- `prg.dfy` (module `Prg`): the earlier version, with the same structure
  plus the millisecond timestamp and the `usleep` loop.
- `versions.dfy` (module `Versions`): relates the two versions' timestamp
  arithmetic.

The hardware, the clock and the timer become parameters:

- A sensor read is a `DhtRead`: either the two values as the text
  `%.2f` prints, or an error code.
- A clock reading is a `Timespec`.
- A timer wake is a `Wake`: the result of `read` on the timer descriptor,
  plus the sensor read that follows it.
- Each main loop runs over a finite sequence of these. A longer sequence
  only extends the trace of a shorter one (`Sampler.WakeTracePrefix`,
  `Prg.LoopTracePrefix`).

Texts written to standard error are not modelled. The one diagnostic kept
as an event is the current version's missed-samples warning (`Warn`); the
conversion, label and sensor errors leave no trace in the model beyond
their exit codes or the missing sample.

Where the program's own text and its code disagree, the model follows the
code:

- **The label value.** The comment before the value check asks for "a
  non-empty '"..*"'" (`rasppi_dht22_sampler.c:149`), and the help text says
  "the value of the label needs to be quoted" between double quotes (lines
  71-75). The code's regex `"..*"$` has no start anchor, so text before the
  first quote is accepted (`Prometheus.ValueRegexExamples`). Without
  REG_NEWLINE a `.` also matches a line break, so a value may span lines
  (`Prometheus.NewlineLabelAccepted`). See Findings.
- **The loop.** The current version serves one sampling pass per timer
  wake. It warns when the wake counted more than one expiration, and ends
  at the first failed `read` or zero count (`Sampler.WakeTraceSamples`,
  `Sampler.WakeTraceWarnings`, `Sampler.WarningBelongsToWake`).
- **The timestamp.** The current build omits it: `PRINT_PROMETHEUS_TIMESTAMPS`
  is false. `prg.c` always prints it.

## Model

| member | source | states |
|---|---|---|
| CLib.U64 | rasppi_dht22_sampler.c:278-281 | the `unsigned long long` cast and arithmetic: the result lies in [0, 2^64) and is the input itself when that is in range |
| CLib.IndexOf | rasppi_dht22_sampler.c:117 | `index(s, c)`: None exactly when `c` does not occur; otherwise the first position holding `c` |
| CLib.Strtol | rasppi_dht22_sampler.c:87 | `strtol(str, &end, 0)`: `end` lies within the string, the value lies within `long`, and an ERANGE result is clamped to LONG_MIN or LONG_MAX |
| CLib.StrtolReadsIntText | rasppi_dht22_sampler.c:87 | the decimal text of an integer, followed by a character that cannot continue it, is read back as that integer (clamped to `long`), and `end` stops right after its digits |
| CLib.StrtolReadsZero | rasppi_dht22_sampler.c:87 | a leading `0` that is not followed by a digit or an `x` reads as 0 and ends after that one character |
| CLib.DecimalTextValue | prg.c:227 | the decimal digits `%llu` prints for `n` have the value `n` |
| CLib.DecimalText | prg.c:227 | the digits `%llu` prints for `n`: at least one, all decimal, with no leading zero unless `n` is 0 |
| CLib.IntText | rasppi_dht22_sampler.c:87 | the decimal text of an `int`, with a `-` before a negative one; `strtol` reads it back (`CLib.StrtolReadsIntText`) |
| CLib.DigitsValue | rasppi_dht22_sampler.c:87 | definition: the value of a run of digits in a base, most significant first; `CLib.DecimalTextValue` is proved about it |
| CLib.Clamped | rasppi_dht22_sampler.c:87 | `strtol`'s overflow rule: the signed magnitude when `long` holds it, otherwise LONG_MIN or LONG_MAX with ERANGE |
| CLib.PrintfNoArgs | rasppi_dht22_sampler.c:266 | `printf(label)`: a format string with no `%` prints unchanged |
| CLib.PrintfHalvesPercent | rasppi_dht22_sampler.c:266 | in a format with no arguments, `%%` prints as one `%` |
| CLib.PrintfOtherConversion | rasppi_dht22_sampler.c:266 | any other conversion after `%` has no argument to consume: the behaviour is undefined in ISO C (None) |
| CLib.OutputStream.Write | rasppi_dht22_sampler.c:262-270 | a write to standard output appends its text and changes nothing else |
| Convert.ConvertStrToInt | rasppi_dht22_sampler.c:84-103 | the exit code is 1, 2 or 3; a converted value fits in an `int`, is what `strtol` read, uses up the whole string, and leaves errno other than EINVAL |
| Convert.ConvertReadsIntText | rasppi_dht22_sampler.c:84-103 | every `int` written in decimal converts back to itself, with errno unchanged |
| Convert.ConvertRejectsTrailing | rasppi_dht22_sampler.c:93-95 | a number followed by a character that cannot continue it exits with code 2 |
| Convert.ConvertRejectsOutOfRange | rasppi_dht22_sampler.c:96-99 | with a 64-bit `long`, a number that fits in `long` but not in `int` exits with code 3 |
| Convert.Ilp32ClampsOverflow | rasppi_dht22_sampler.c:87-102 | with a 32-bit `long`, every number above INT_MAX converts to INT_MAX with errno ERANGE: code 3 cannot occur |
| Convert.ConvertStaleEinval | rasppi_dht22_sampler.c:89-92 | an EINVAL left in errno before the call fails every conversion that does not overflow with code 1 |
| Convert.ConvertEmptyIsZero | rasppi_dht22_sampler.c:87-102 | the empty argument converts to 0 |
| Prometheus.ValueAcceptedIsMatch | rasppi_dht22_sampler.c:149-166 | the leftmost-match test of the value is exactly "the regex `"..*"$` matches somewhere in the value" |
| Prometheus.NameMatches | rasppi_dht22_sampler.c:131-146 | definition: `^[a-zA-Z_][a-zA-Z0-9_]*$` matches the whole name; used by `Prometheus.CheckLabelSplit` |
| Prometheus.ValueMatches | rasppi_dht22_sampler.c:151-165 | definition: `"..*"$` matches somewhere in the value, as `regexec` searches; used by `Prometheus.CheckLabelSplit` |
| Prometheus.ValueAccepted | rasppi_dht22_sampler.c:151-165 | definition: the value check computed as a leftmost search; `Prometheus.ValueAcceptedIsMatch` proves it equal to `ValueMatches` |
| Prometheus.ValueRegexExamples | rasppi_dht22_sampler.c:151 | the unanchored regex accepts `x"a"`, `"""` and `"a=b"`, and rejects `""` and `"abc` |
| Prometheus.CheckLabel | rasppi_dht22_sampler.c:117-166 | the result is MissingSeparator exactly when the token holds no `=`; an accepted token has at least five characters |
| Prometheus.SplitAtFirstEquals | rasppi_dht22_sampler.c:117-128 | a token with an `=` is a name free of `=`, that `=`, and the rest |
| Prometheus.CheckLabelSplit | rasppi_dht22_sampler.c:117-166 | for `name=value` with no `=` in the name: InvalidName when the name fails `^[a-zA-Z_][a-zA-Z0-9_]*$`, otherwise InvalidValue when the value fails `"..*"$`, otherwise Accepted |
| Prometheus.CheckLabelAcceptsExamples | rasppi_dht22_sampler.c:117-166 | `zone="eu"` is accepted, and so is `a="b=c"`, whose value holds more `=` signs |
| Prometheus.CheckLabelNameExamples | rasppi_dht22_sampler.c:130-146 | an empty name and a name starting with a digit are InvalidName, exit code 6 |
| Prometheus.CheckLabelValueExamples | rasppi_dht22_sampler.c:148-166 | an empty quoted value and an unquoted value are InvalidValue, exit code 8 |
| Prometheus.CheckLabelIntended | rasppi_dht22_sampler.c:148-166 | the check as its comment describes it, the value anchored at both ends, and on one line as the exposition format requires: MissingSeparator exactly when the token holds no `=` |
| Prometheus.CheckLabelIntendedSplit | rasppi_dht22_sampler.c:148-166 | the intended check accepts `name=value` exactly when the name is valid and the value starts and ends with a quote, has something between them, and holds no line break |
| Prometheus.IntendedNarrows | rasppi_dht22_sampler.c:148-166 | every token the intended check accepts, the source accepts; every token the source rejects, the intended check rejects with the same code |
| Prometheus.IntendedLabelIsOneLine | rasppi_dht22_sampler.c:148-166 | a token the intended check accepts holds no line break, so it meets the premise of the tick layout lemmas |
| Prometheus.UnquotedPrefixAccepted | rasppi_dht22_sampler.c:151 | `zone=x"a"` passes the source's check but not the intended one |
| Prometheus.NewlineLabelAccepted | rasppi_dht22_sampler.c:151 | `a="x` newline `y"` passes the source's check, fails the intended one, and puts a line break into every data line that carries it |
| Prometheus.AcceptAllMeaning | rasppi_dht22_sampler.c:248-249 | when every operand is valid, all are appended in order after the labels already there; otherwise the exit code is that of the first invalid operand, whatever follows it |
| Prometheus.AcceptAllOutcome | rasppi_dht22_sampler.c:248-249 | conversely, a run that goes on has appended every operand and each one is valid; a rejection carries code 4, 6 or 8 |
| Prometheus.AcceptAll | rasppi_dht22_sampler.c:248-249 | definition: the operand loop on values, checking tokens in order and stopping at the first rejection; `AcceptAllMeaning` and `AcceptAllOutcome` state what it does |
| Prometheus.LabelSet.constructor | rasppi_dht22_sampler.c:399-400 | the label set starts empty |
| Prometheus.LabelSet.CheckAndSave | rasppi_dht22_sampler.c:114-190 | the code is the check's exit code, and the token is appended exactly when it is accepted |
| Prometheus.LabelSet.PrintLabels | rasppi_dht22_sampler.c:253-271 | standard output grows by the rendered labels: nothing for an empty set, otherwise `{`, the labels verbatim joined by `, `, then `}` |
| Prometheus.RenderNeverEmptyBraces | rasppi_dht22_sampler.c:258-259 | for valid labels the rendering is empty exactly when there are none, and it is never `{}` |
| Prometheus.RenderLayout | rasppi_dht22_sampler.c:262-270 | the rendering opens with `{` and closes with `}`; each label appears unchanged at its offset, followed by `, ` unless it is the last, which ends right before the `}` |
| Prometheus.Join | rasppi_dht22_sampler.c:263-269 | definition: the labels with `, ` between consecutive ones and none after the last; `Prometheus.JoinLayout` gives its layout |
| Prometheus.RenderLabels | rasppi_dht22_sampler.c:253-271 | definition: nothing for no labels, otherwise `{`, the join, `}`; `Prometheus.RenderLayout` and `Prometheus.LabelSet.PrintLabels` are proved about it |
| Prometheus.JoinLayout | rasppi_dht22_sampler.c:263-269 | each element of a join sits at its offset, followed by the separator, with none after the last |
| Prometheus.JoinAvoids | rasppi_dht22_sampler.c:263-269 | a character in no element and not in the separator does not occur in the join |
| Prometheus.PercentLabelMisprinted | rasppi_dht22_sampler.c:266 | a label whose quoted value holds `%%` passes validation and is printed with a single `%` |
| Prometheus.PercentConversionUndefined | rasppi_dht22_sampler.c:266 | a label holding any other `%` conversion passes validation, and printing it is undefined |
| Prometheus.PrintEachAsFormat | rasppi_dht22_sampler.c:262-270 | each label as `printf(label)` prints it: when defined, one printed text per label, in order; undefined exactly when some label's printing is; the labels themselves when none holds `%` |
| Prometheus.RenderLabelsAsWritten | rasppi_dht22_sampler.c:253-271 | the label block as the source prints it: undefined exactly when some label's `printf` is, and equal to the corrected `RenderLabels` when no label holds `%` |
| Prometheus.PercentLabelRendered | rasppi_dht22_sampler.c:266 | for the label `name="u%%w"` the source prints `{name="u%w"}`, while the corrected rendering prints the label verbatim |
| Prometheus.TypeLine | rasppi_dht22_sampler.c:311 | the `# TYPE <name> gauge` line holds no newline when the name holds none |
| Prometheus.HelpLine | rasppi_dht22_sampler.c:312-313 | the `# HELP <name> <help>` line holds no newline when its parts hold none |
| Prometheus.DataLine | rasppi_dht22_sampler.c:314-316 | definition: metric name, rendered labels, a space, the value, and ` ms` when a stamp is printed; `Prometheus.DataLineIsOneLine` |
| Prometheus.MetricBlock | rasppi_dht22_sampler.c:311-316 | definition: the three lines of one metric; `Prometheus.MetricBlockLines` and `Prometheus.MetricBlockPieces` |
| Prometheus.DataLineIsOneLine | rasppi_dht22_sampler.c:314-316 | the data line (name, labels, a space, the value, the optional stamp) is one line when its parts hold no newline |
| Prometheus.MetricBlockLines | rasppi_dht22_sampler.c:311-316 | a metric block is its TYPE line, its HELP line and its data line, each ended by a newline |
| Prometheus.MetricBlockPieces | rasppi_dht22_sampler.c:311-316 | the block without a stamp is the text of the first `fprintf`, then the labels, then ` value\n` |
| Prometheus.MetricBlockStampedPieces | prg.c:223-227 | the stamped block is the text of the first `fprintf`, then the labels, then ` value ms\n` |
| Prometheus.MetricLinesAreOneLine | rasppi_dht22_sampler.c:311-316 | the three lines of a block are newline-free when its parts are |
| Prometheus.TwoBlockLines | rasppi_dht22_sampler.c:310-331 | two consecutive blocks are exactly six newline-free lines, in order |
| Prometheus.UnlinesInjective | rasppi_dht22_sampler.c:310-331 | newline-free lines can be read back from the output: equal texts mean equal lines |
| Prometheus.UnlinesAppend | rasppi_dht22_sampler.c:310-331 | the text of two runs of lines is the text of the first then the text of the second |
| Sampler.ApplyOptionsKeeps | rasppi_dht22_sampler.c:197-246 | the option loop keeps the settings in range and leaves the labels alone; Fahrenheit is on exactly when it was before or `-f` occurs; a run never saw `-h`; every exit code is 0, 1, 2, 3, 10 or 11 |
| Sampler.Defaults | rasppi_dht22_sampler.c:395-401 | definition: GPIO 17, Celsius, 60 seconds, no labels |
| Sampler.ApplyOptions | rasppi_dht22_sampler.c:197-246 | definition: the option loop on values, errno carried along; `Sampler.ApplyOptionsKeeps` states what it keeps |
| Sampler.Parse | rasppi_dht22_sampler.c:192-251 | definition: the options, then the operands as labels; `Sampler.ParseMeaning` states its outcome |
| Sampler.ParseMeaning | rasppi_dht22_sampler.c:192-251 | from the defaults, a run has a GPIO index in [0, 27], a wait of at least 2, Fahrenheit exactly when `-f` was given, and all operands as labels, in order, each valid; every exit has one of the source's codes |
| Sampler.HelpExits | rasppi_dht22_sampler.c:200-202 | `-h` exits with code 0 whatever follows |
| Sampler.GpioOutOfRangeExits | rasppi_dht22_sampler.c:206-216 | `-g` with an index outside [0, 27] exits with code 10 from whatever settings the earlier options left, whatever options or operands follow (errno not already EINVAL) |
| Sampler.WaitBelowMinimumExits | rasppi_dht22_sampler.c:218-227 | `-w` with a wait below 2 seconds exits with code 11 from whatever settings the earlier options left, whatever options or operands follow (errno not already EINVAL) |
| Sampler.ParseGpioWaitLabel | rasppi_dht22_sampler.c:192-251 | `-g g -w w label` with values in range and a valid label runs with exactly those settings, in Celsius |
| Sampler.GpioStep | rasppi_dht22_sampler.c:206-217 | `-g` with an index in range sets it, and the loop goes on with the next option |
| Sampler.WaitStep | rasppi_dht22_sampler.c:218-228 | `-w` with a wait of at least 2 sets it, and the loop goes on |
| Sampler.Ilp32HugeWaitRuns | rasppi_dht22_sampler.c:218-227 | with a 32-bit `long`, a wait too large for `int` is not refused: it runs with INT_MAX seconds |
| Sampler.Lp64HugeWaitExits | rasppi_dht22_sampler.c:218-227 | with a 64-bit `long`, the same wait exits with code 3 |
| Sampler.Configuration.constructor | rasppi_dht22_sampler.c:395-401 | the configuration starts as GPIO 17, Celsius, 60 seconds, no labels |
| Sampler.Configuration.ParseCommandLine | rasppi_dht22_sampler.c:192-251 | the method exits exactly when the parse function says so, with its code; otherwise the configuration becomes the parsed settings |
| Sampler.Configuration.ParseOptions | rasppi_dht22_sampler.c:197-246 | the `getopt` loop updates the fields as the option function does, leaving the labels alone, and exits with its code |
| Sampler.Configuration.SaveLabels | rasppi_dht22_sampler.c:248-249 | the operand loop appends the operands as the label function does, and exits with the first rejection's code |
| Sampler.TickTextBlocks | rasppi_dht22_sampler.c:310-331 | the humidity block, then the temperature block, make one tick's text |
| Sampler.TickTextLines | rasppi_dht22_sampler.c:310-331 | when the values and every label hold no line break, a tick is six lines: TYPE, HELP and data for `dht22_relat_humidity`, then the same for the temperature, named `_celsius` or `_farenheit` by the unit; no data line carries a timestamp. The source's label check does not guarantee that premise (`Prometheus.NewlineLabelAccepted`) |
| Sampler.MetricNamesAreOneLine | rasppi_dht22_sampler.c:311-327 | the metric names and help texts hold no newline |
| Sampler.TemperatureMetricName | rasppi_dht22_sampler.c:321-324 | definition: `dht22_temperature_farenheit` under `-f`, otherwise `dht22_temperature_celsius` |
| Sampler.TickText | rasppi_dht22_sampler.c:310-331 | definition: the humidity block, then the temperature block, with no stamp; `Sampler.TickTextLines` |
| Sampler.EpochMicros | rasppi_dht22_sampler.c:273-284 | definition: the two casts, the product and the sum modulo 2^64; `Sampler.EpochMicrosMeaning` |
| Sampler.StampMillis | rasppi_dht22_sampler.c:299-301 | definition: epoch microseconds divided by 1000; `Versions.SameStamp` |
| Sampler.SampleText | rasppi_dht22_sampler.c:346-355 | definition: the tick on a successful read, nothing on a failed one; `Sampler.SampleDht22SensorToPrometheus` |
| Sampler.EpochMicrosMeaning | rasppi_dht22_sampler.c:273-284 | for a time after the epoch with no wrap-around, the value is seconds times 10^6 plus the whole microseconds, so it splits back into seconds and microseconds |
| Sampler.WriteMetric | rasppi_dht22_sampler.c:311-316 | the three writes of one metric append exactly its block |
| Sampler.Dht22ValuesToPrometheus | rasppi_dht22_sampler.c:286-332 | standard output grows by the tick text for the configuration's settings |
| Sampler.SampleDht22SensorToPrometheus | rasppi_dht22_sampler.c:335-356 | a failed read prints nothing on standard output; a successful one prints the tick |
| Sampler.ServedCount | rasppi_dht22_sampler.c:380 | every wake before the count passes the loop condition, and the wake at the count, if any, stops the loop |
| Sampler.WakeTraceSamples | rasppi_dht22_sampler.c:380-388 | the loop samples the sensor exactly once per served wake, in order, and never after the first wake that stops it |
| Sampler.WakeTraceWarnings | rasppi_dht22_sampler.c:380-388 | the loop warns, with the count, exactly for the served wakes that counted more than one expiration |
| Sampler.WarningsPrecedeSamples | rasppi_dht22_sampler.c:380-388 | each warning reports more than one expiration and is followed at once by a sample |
| Sampler.WarningBelongsToWake | rasppi_dht22_sampler.c:380-388 | each warning comes from a served wake that counted that many expirations, and that wake's own sample follows it at once |
| Sampler.WakeTracePrefix | rasppi_dht22_sampler.c:380-388 | the trace of the first wakes is a prefix of the trace of more wakes |
| Sampler.WakeTrace | rasppi_dht22_sampler.c:380-388 | definition: the events of each wake the loop condition lets through, up to the first that stops it; the lemmas above state its properties |
| Sampler.WakeEvents | rasppi_dht22_sampler.c:381-387 | definition: the warning when more than one expiration was counted, then the sample |
| Sampler.ServeWake | rasppi_dht22_sampler.c:381-387 | one wake's body: the warning when samples were missed, then one sampling pass and its text |
| Sampler.DoMainLoop | rasppi_dht22_sampler.c:378-388 | the loop's events are the wake trace, and standard output holds the text of each sample in order |
| Prg.ApplyOptionsKeeps | prg.c:153-182 | the option loop leaves the labels alone; a run never saw `-h`; every exit code is 0, 1, 2 or 3 |
| Prg.ParseMeaning | prg.c:148-187 | a run's labels are all operands, in order, each valid; every exit code is 0, 1, 2, 3, 4, 6 or 8 |
| Prg.HelpExits | prg.c:156-158 | `-h` exits with code 0 whatever follows |
| Prg.ParseAnyPinAndWait | prg.c:159-164 | any `int` pin and wait are taken as given, with no range check: negative and zero waits included |
| Prg.Defaults | prg.c:239-244 | definition: pin 7, 60 seconds, no labels |
| Prg.ApplyOptions | prg.c:153-182 | definition: the option loop on values, with no range checks; `Prg.ApplyOptionsKeeps` |
| Prg.Parse | prg.c:148-187 | definition: the options, then the operands as labels; `Prg.ParseMeaning` |
| Prg.Configuration.constructor | prg.c:239-244 | the configuration starts as pin 7, 60 seconds, no labels |
| Prg.Configuration.ParseCommandLine | prg.c:148-187 | the method exits exactly when the parse function says so, with its code; otherwise the configuration becomes the parsed settings |
| Prg.Configuration.ParseOptions | prg.c:153-182 | the `getopt` loop updates the fields as the option function does, and exits with its code |
| Prg.Configuration.SaveLabels | prg.c:184-185 | the operand loop appends the operands as the label function does, and exits with the first rejection's code |
| Prg.EpochMillisMeaning | prg.c:218-221 | for a time after the epoch with no wrap-around, the value is seconds times 1000 plus the whole milliseconds |
| Prg.EpochMillis | prg.c:218-221 | definition: the two casts, the product and the sum modulo 2^64; `Prg.EpochMillisMeaning` |
| Prg.TickText | prg.c:223-233 | definition: the temperature block, then the humidity block, both stamped; `Prg.TickTextLines` |
| Prg.SampleText | prg.c:255-265 | definition: the stamped tick on a successful read, nothing on a failed one; `Prg.SamplePass` |
| Prg.TickTextBlocks | prg.c:223-233 | the temperature block, then the humidity block, make one tick's text |
| Prg.TickTextLines | prg.c:223-233 | when the values and every label hold no line break, a tick is six lines: TYPE, HELP and data for `dht22_temperature`, then the same for `dht22_relat_humidity`; both data lines end with the same millisecond stamp. The source's label check does not guarantee that premise |
| Prg.MetricTextsAreOneLine | prg.c:223-231 | the metric names and help texts hold no newline |
| Prg.WriteMetric | prg.c:223-227 | the three writes of one metric append exactly its stamped block |
| Prg.Dht22ValuesToPrometheus | prg.c:209-234 | standard output grows by the tick text, stamped with the clock's epoch milliseconds |
| Prg.UsleepArgument | prg.c:267 | the `usleep` argument is the `int` product `wait * 1000 * 1000` reduced modulo 2^32, always below 2^32 |
| Prg.IntendedSleepMicros | prg.c:267 | the intended sleep is a whole number of seconds, `wait` of them |
| Prg.UsleepProductFitsInt | prg.c:267 | the product fits in an `int` exactly for waits in [-2147, 2147] |
| Prg.UsleepArgumentExact | prg.c:267 | for waits in [0, 4294] the argument is the intended sleep |
| Prg.UsleepArgumentShort | prg.c:267 | for waits of 4295 or more, the process sleeps less than intended |
| Prg.UsleepFiveThousand | prg.c:267 | `-w 5000` sleeps 705032704 microseconds instead of 5 * 10^9 |
| Prg.LoopTraceShape | prg.c:248-268 | n passes make 2n events, alternating a sample (with that pass's read and clock) and the `usleep` of the configured wait |
| Prg.LoopTrace | prg.c:248-268 | definition: for each pass, its sample and then its sleep; `Prg.LoopTraceShape` |
| Prg.LoopTracePrefix | prg.c:248-268 | the trace of the first passes is a prefix of the trace of more passes |
| Prg.LoopTextIsPassesText | prg.c:248-268 | the loop's standard output is the ticks of the successful passes, in order |
| Prg.FailedPassesPrintNothing | prg.c:258-260 | passes whose reads all fail print nothing on standard output |
| Prg.SamplePass | prg.c:255-265 | one pass prints the stamped tick when the read succeeds, and nothing otherwise |
| Prg.MainLoop | prg.c:248-268 | the loop's events are the loop trace, and standard output holds each sample's text in order |
| Versions.SameStamp | rasppi_dht22_sampler.c:299-301 | the stamp the current version would print, microseconds divided by 1000, equals prg.c's epoch milliseconds |

## Left out

- `getopt` itself. Options arrive already split into `Opt` values and operands.
  - Missing arguments and unknown options (`?`) only print a diagnostic on standard error, so they are kept as options with no effect.
  - The `default: abort()` branch cannot be reached with these option strings.
- `show_help_and_exit`: only its exit code 0 is modelled, not the usage text.
- All texts written to standard error: conversion errors, label errors, sensor errors, the missed-samples warning.
- Exit codes 5 and 7 are not modelled. They fire when `regcomp` fails to compile a constant regex, which the model treats as compiled.
- Exit code 9 in `rasppi_dht22_sampler.c` is not modelled. It fires when `malloc` or `realloc` fails, and the label set is an unbounded sequence. `prg.c` checks neither call (prg.c:134-143), so a failed allocation there writes through a null pointer; that is not modelled either.
- Exit codes 12 and 13 (`timerfd_create`, `timerfd_settime`) are not modelled. The timer is set up before the modelled loop, and only the results of its reads are modelled.
- The values are floating point, so they are not modelled as numbers.
  - A sensor value is the text `%.2f` prints.
  - The conversion to Fahrenheit, `t * 9 / 5 + 32`, is left out; only the metric name change is modelled.
- `pi_2_dht_read`, `clock_gettime`, `read` on the timer and `usleep` are not modelled as operations. They are the parameters of each pass (`DhtRead`, `Timespec`, `Wake`), and the time actually slept is not modelled.
- The endless loops are modelled over finite sequences of wakes or passes, not as non-terminating processes.
- The `PRINT_PROMETHEUS_TIMESTAMPS` build of the current version is not modelled as a whole. Only its stamp arithmetic is (`Sampler.StampMillis`, `Versions.SameStamp`).
- The `close` of the timer descriptor after the loop is not modelled.
- The label set keeps the tokens; the `char *` aliasing into `argv` and the `'='` written back in place are not modelled.
- Prg.UsleepArgument: takes signed `int` overflow as a wrap modulo 2^32, then the conversion to `useconds_t`. In C this overflow is undefined behaviour, and this is only what common compilers produce.
- Prometheus.LabelSet.PrintLabels: writes each label verbatim. For a label holding `%` the program prints `CLib.PrintfNoArgs(label)` instead, or its behaviour is undefined (`Prometheus.RenderLabelsAsWritten`); the main loops of both versions use the verbatim printing.
- CLib.PrintfNoArgs: glibc's `%m` extension, which prints the text of `errno` and takes no argument, is treated as undefined like every other conversion.
- Convert.ConvertStrToInt: `strtol` is glibc's, in the C locale. Other C libraries may differ on inputs such as `0x` with no hexadecimal digits.

## Findings

| source | as written | input that shows it | evidently intended | confidence | as-written member | corrected member |
|---|---|---|---|---|---|---|
| rasppi_dht22_sampler.c:266 (and prg.c:202) | each label is passed to `printf` as its format string | the label `a="50%%"` is accepted and printed as `a="50%"`; `a="%s"` is accepted, and printing it reads an argument that was never passed | print each label verbatim, `printf("%s", label)` | high; not executed | Prometheus.PercentLabelMisprinted, Prometheus.PercentConversionUndefined, Prometheus.RenderLabelsAsWritten, Prometheus.PercentLabelRendered | Prometheus.LabelSet.PrintLabels (its output is `RenderLabels`, with each label verbatim, `Prometheus.RenderLayout`) |
| prg.c:267 | `usleep(wait_seconds * 1000 * 1000)` in `int` arithmetic | `-w 5000`: the product overflows `int` and the process sleeps 705032704 microseconds, about 705 seconds, instead of 5000 seconds | sleep `wait_seconds` whole seconds | high; not executed | Prg.UsleepArgument, Prg.UsleepFiveThousand, Prg.UsleepArgumentShort | Prg.IntendedSleepMicros (agrees with the argument for waits up to 4294 seconds, Prg.UsleepArgumentExact) |
| rasppi_dht22_sampler.c:151 (and prg.c:111) | the label value regex is `"..*"$`, with no `^` | `zone=x"a"` is accepted and printed as `{zone=x"a"}`, which is not a quoted value | a non-empty value wrapped in quotes, as the comment at line 149 and the help text at lines 71-75 say | medium; not executed | Prometheus.CheckLabel, Prometheus.UnquotedPrefixAccepted | Prometheus.CheckLabelIntended (Prometheus.CheckLabelIntendedSplit, Prometheus.IntendedNarrows) |
| rasppi_dht22_sampler.c:151 (and prg.c:111) | the value regex is compiled without REG_NEWLINE, so `.` matches a line break | the operand `a="x` newline `y"` is accepted, and each data line that carries it is split in two, so the exposition text gains a line that is not a metric line | a label value on one line (the exposition format writes a line break in a value as `\n`) | medium; not executed | Prometheus.CheckLabel, Prometheus.NewlineLabelAccepted | Prometheus.CheckLabelIntended (Prometheus.IntendedLabelIsOneLine, which meets the premise of Sampler.TickTextLines) |

The parsing and loop models keep the code's behaviour as written: the
value check of the source and the `usleep` argument. The one exception is
label printing: the loops print through `Prometheus.LabelSet.PrintLabels`,
the corrected `printf("%s", label)`, and the source's own printing is
`Prometheus.RenderLabelsAsWritten`, which agrees with it on every label
set free of `%`. They describe what the
program does, and the corrected definitions sit beside them, related by
the lemmas named above. The current version has no `usleep` problem: its
timer takes whole seconds.
