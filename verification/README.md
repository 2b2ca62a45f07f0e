# Print-period resolver and deprecated flags of the classifier-compression example

This project models the two pieces of logic in
`examples/classifier_compression/parser.py` of the Distiller
model-compression toolkit:

- `getPrintPeriod`: the resolver that turns the user's `--print-period` or
  `--print-frequency` choice, the number of training samples and the
  mini-batch size into the number of mini-batches between two progress
  prints. With neither option set it uses 10 prints per epoch
  (`DEFAULT_PRINT_FREQUENCY`).
- `deprecation_warning`: the "type converter" bound to the three deprecated
  flags (`--valid-size`/`--validation-size`, `--print-freq`/`-p`,
  `-j`/`--workers`). It picks one of three warning texts and returns `None`,
  so the value typed after a deprecated flag is discarded.

Files:

- `wrappers.dfy` (module `Wrappers`): `Option` for Python's "value or
  `None`" and `Result` for "value or raised exception".
- `python_int.dfy` (module `PyInt`): Python's `//` and `math.ceil(a / b)` for
  every sign of the operands. Dafny's own `/` is Euclidean, so it is not used
  directly.
- `print_period.dfy` (module `PrintPeriod`): the resolver and its properties.
- `deprecation.dfy` (module `Deprecation`): the message choice, the three
  deprecated flags and their converter.

The resolver's outcomes are `Success(period)` or one of three errors. Each
error stands for an exception the Python code raises:

- `BatchSizeZero`: the `ZeroDivisionError` of `samples_number / batch_size`
  (line 177). That division sits outside the `contextlib.suppress` block.
- `PeriodUnset`: the `TypeError` of `None < 1` (line 182). It happens when a
  `--print-frequency 0` made `batches // 0` raise inside the suppress block,
  which leaves `print_period` as `None`.
- `PeriodBelowOne`: the `ValueError` of line 187. The user set an option and
  it resolved to a period below 1.

A zero batch size is an error outcome, not a precondition. With an explicit
`--print-period` the division is never reached, and the call returns that
period when it is at least 1, so a precondition would exclude inputs the code
accepts. Negative batch sizes,
frequencies and periods are accepted by the `int` options and are modelled
with Python's rounding rules.

Two behaviours of the code are easy to misread:

- A zero batch size is not suppressed. The true division at line 177 sits
  outside the `contextlib.suppress` block and raises, so when no
  `--print-period` is set the call fails with `BatchSizeZero`. Only the floor division at line 179 is guarded.
- The `int` options accept any integer, including zero and negative values.
  The model covers them all.

## Model

| member | source | states |
|---|---|---|
| `PyInt.FloorDiv` | examples/classifier_compression/parser.py:179 | Python's `batches // prints_per_epoch` is the greatest integer not above the rational quotient, for either sign of the divisor |
| `PyInt.FloorDivUnique` | examples/classifier_compression/parser.py:179 | any integer inside the floor bracket equals `a // b`, so the bracket fully characterises Python's floor division |
| `PyInt.CeilDiv` | examples/classifier_compression/parser.py:177 | `math.ceil(samples_number / batch_size)` is the least integer not below the rational quotient, for either sign of the batch size |
| `PyInt.CeilDivUnique` | examples/classifier_compression/parser.py:177 | any integer inside the ceiling bracket equals the ceiling, so the bracket fully characterises it |
| `PrintPeriod.Candidate` | examples/classifier_compression/parser.py:173-179 | an explicit period is taken as it is; the only exception before the lower-bound test is the unguarded true division by a zero batch size; the period stays unset exactly when the suppressed division by a zero prints-per-epoch happened |
| `PrintPeriod.GetPrintPeriod` | examples/classifier_compression/parser.py:167-189 | every successful period is at least 1; an explicit period of at least 1 is returned unchanged whatever the sample count and batch size; an explicit period below 1 raises and is never raised to 1; with no explicit period a zero batch size raises `ZeroDivisionError`; a zero frequency leaves the period unset and the comparison raises |
| `PrintPeriod.QuotientAtLeastOne` | examples/classifier_compression/parser.py:179-182 | the derived period `batches // f` passes the `>= 1` test exactly when `batches / f >= 1` over the rationals |
| `PrintPeriod.DefaultNeverFails` | examples/classifier_compression/parser.py:175-185 | with neither option set and a non-zero batch size the call always succeeds: with 10 prints per epoch it gives the largest `k` with `10 * k` batches in an epoch, or 1 when an epoch has fewer than 10 batches |
| `PrintPeriod.FrequencyOnly` | examples/classifier_compression/parser.py:175-187 | with only a non-zero frequency `f` set, the call succeeds exactly when `ceil(samples / batch) / f >= 1`; it then returns `ceil(samples / batch) // f` and otherwise raises `ValueError`, with no fallback to 1 |
| `PrintPeriod.SucceedsIff` | examples/classifier_compression/parser.py:173-189 | for every input, the exact condition under which the resolver returns normally rather than raising |
| `PrintPeriod.FallbackOnlyWhenUnset` | examples/classifier_compression/parser.py:181-189 | a successful result differs from the candidate period only when the user set neither option, the candidate was below 1 and the result is 1; when the user set either option the result is the candidate itself |
| `PrintPeriod.PeriodsPerEpoch` | examples/classifier_compression/parser.py:177-179 | a period of `k = n // f` (with `n >= f > 0`) splits an epoch of `n` batches into at least `f` and fewer than `2 * f` full periods |
| `PrintPeriod.PeriodsIsFloorDiv` | examples/classifier_compression/parser.py:179 | for a non-negative batch count `n` and a positive divisor `k`, Python's `n // k` equals the number of full groups of `k` batches in `n`, counted one group at a time |
| `PrintPeriod.PrintsPerEpochBounds` | examples/classifier_compression/parser.py:175-189 | when the period `k` is derived from a positive prints-per-epoch target `f`, an epoch of `n` batches holds at least `f` full periods of `k` batches (all `n` when `n < f`) and fewer than `2 * f` |
| `PrintPeriod.PeriodCount` | examples/classifier_compression/parser.py:177-185 | the period chosen from `n` batches and a positive target `f` (`n // f`, or the fallback 1 when `n < f`) gives at least `f` full periods (all `n` when `n < f`) and fewer than `2 * f` |
| `PrintPeriod.Examples` | examples/classifier_compression/parser.py:167-189 | worked cases: 1000 samples of batch 100 give 1; 95 samples give the fallback 1; frequency 20 on 95 samples raises `ValueError`; an explicit 5 is returned even with batch size 0; frequency 0 raises `TypeError` |
| `Deprecation.DeprecationWarning` | examples/classifier_compression/parser.py:134-141 | the "try … instead" text is chosen exactly when both key lists are truthy, the plain "deprecated" text when only the old keys are, the generic text exactly when the old keys are `None` or empty; the old keys fill the "have been deprecated" slot and the new keys the "Try … instead" slot; the message names the old keys whenever they are truthy, names the new keys only when the old keys are truthy too, and names no other flag |
| `Deprecation.ConvertDeprecated` | examples/classifier_compression/parser.py:143-157 | a deprecated flag's converter returns no value, so the supplied text never reaches the configuration; its warning names the flag's own option strings as deprecated and suggests its replacements when it has any (the plain "deprecated" text when it has none, the generic text for a flag with no keys) |
| `Deprecation.DeprecatedFlagsWarnAndDiscard` | examples/classifier_compression/parser.py:143-157 | each of the three deprecated flags warns with the "try … instead" text naming itself and its replacement, and discards its value whatever the user typed |
| `Deprecation.ReplacementsNotDeprecated` | examples/classifier_compression/parser.py:143-157 | a sanity property of the three declared flags: no replacement their warnings suggest is itself one of the deprecated option strings |

## Left out

- The argument schema built by `get_parser` (parser.py:36-131): declarative option wiring. Mutual exclusion of `--print-frequency` and `--print-period`, `choices` checks and lower-casing are enforced by argparse, which is not part of this model. The resolver is modelled on any combination of the two options, as the code accepts.
- The external argument contributors for distillation, post-training quantization, greedy filter pruning and AutoML (parser.py:160-163): their bodies are not part of this model.
- The float-valued options declared in `get_parser` (learning rate, momentum and weight decay at parser.py:53-57, the sensitivity range at parser.py:92, the validation split and effective-size fractions at parser.py:108-119, the early-exit lists at parser.py:122-125): they belong to the schema left out above and hold floats. Their range validator `float_range_argparse_checker` (imported at parser.py:26) lives in `distiller.utils`, which is not part of this model.
- `PyInt.CeilDiv`: `samples_number / batch_size` is a floating-point division in Python. The model takes the exact rational ceiling, which agrees with the code while both operands are below 2^53 in magnitude. The `OverflowError` of very large integers is not modelled.
- The text of the warnings and the logging call itself (`msglogger.warning`): the model records which of the three messages is chosen and which flags it names, not the rendered string with its list formatting.
- The training loop that consumes the period: it is not part of this model. `PrintPeriod.PrintsPerEpochBounds` counts the full periods of `k` batches in an epoch, not the prints the loop actually makes.
