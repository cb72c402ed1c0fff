# Hierarchy-learning run bookkeeping and sample-space size, in Dafny

This project models the integer rules in the training driver of the Random
Hierarchy Model experiments (`main.py`). It also models the sample-space size
formula of the debugging script (`debug.py`). It proves what these rules
guarantee.

- `elapsed_time.dfy` (module `ElapsedTime`): the whole-second branch of
  `print_time`. Two `divmod`s split a duration into hours, minutes and seconds.
  The output string is built from an optional `<h>h`, an optional two-digit
  `<mm>m` and a mandatory two-digit `<ss>s`. The method `PrintTime` keeps the
  source's list of segments, appended one at a time and then joined. It is
  proved equal to `FormatElapsed`. A parser `ParseElapsed` reads a formatted
  duration back, and the round trip `ParseElapsed(FormatElapsed(n)) == Some(n)`
  is proved.
- `run_config.dfy` (module `RunConfig`): the `args` object as a class `Args`.
  Its method `ApplySentinelDefaults` is the "special value -1" block of `main`.
  Its method `ScaleBatchSize` is the batch-size scaling at the start of `run`.
  Both are specified by value-level functions (`WithSentinelDefaults`,
  `ScaledBatchSize`), and the properties are proved about those functions.
- `training_loop.dfy` (module `TrainingLoop`): the layer-wise schedule of
  `train`, modelled as the list of `init_layerwise_` calls made by the epoch
  loop. Also the zero-loss early stop of `run`, modelled as a loop over the
  checkpoints that `train` produces. The counter `trloss_flag` is specified by
  `ZeroLossCount`.
- `dataset_size.dfy` (module `DatasetSize`): `Pmax = m ** ((s ** num_layers - 1) // (s - 1)) * num_classes`.
  The exponent is proved to be the number of internal nodes of a full s-ary
  tree of depth `num_layers`, which is also the sum of `s ** d` for `d < num_layers`.
  Python's `ZeroDivisionError` for `s == 1` is modelled as `None`.
- `arith.dfy` (module `Arith`): the nonlinear integer facts both the training
  loop and the sample-space size need (cancelling a positive factor, exact
  division).
- `options.dfy` (module `Options`): the `Option` type used for error results.

Python's `//` is written as Dafny's `/` only where the two agree: a positive
divisor (`// 2`, `// 60`, `// period`), or an exact division (the `Pmax`
exponent). Loss values and epochs are `real`, because the modelled code only
compares them, or tests an epoch for being a whole multiple of ten.

The sample-space formula on its own states that a sample is one class plus an
independent choice of one of `m` rules at every internal node of the tree.
That reading is proved here as `PmaxPerClassRecurrence` and `TreeCounts`. The
generator that builds the rules and maps indices to such choices,
`rhm/datasets/hierarchical.py`, is not part of this model. `debug.py`
evaluates the formula with no check on `s`: `s == 1` raises
`ZeroDivisionError`, modelled as `None`, and `s == 0` follows Python's
arithmetic (exponent 1, or 0 when `num_layers == 0`).

## Model

| member | source | states |
|---|---|---|
| `ElapsedTime.DivMod` | main.py:254-255 | `divmod(a, b)` for `b > 0` gives quotient and remainder with `a == b*q + r` and `0 <= r < b` |
| `ElapsedTime.DecompositionAgrees` | main.py:252-255 | the two divmods give `h*3600 + m*60 + s == n` with `0 <= m < 60` and `0 <= s < 60`, where `h = n/3600` |
| `ElapsedTime.Decimal` | main.py:259 | `str(h)` is a non-empty string of digits with no leading zero, and it denotes `h` |
| `ElapsedTime.Pad2` | main.py:261-262 | `f"{v:02}"` is all digits, denotes `v`, has at least two characters, and has exactly two when `v < 100` |
| `ElapsedTime.Join` | main.py:264 | `"".join` of one, two or three parts is their concatenation in order, and of no parts the empty string |
| `ElapsedTime.FormatElapsed` | main.py:257-264 | the printed duration always ends in `s`; it has 3 characters below a minute, 6 below an hour, and 7 plus the digits of the hours otherwise |
| `ElapsedTime.PrintTime` | main.py:252-264 | the step-by-step list building and join returns exactly `FormatElapsed(n)` |
| `ElapsedTime.FormatElapsedShape` | main.py:257-264 | the result is `<ss>s` below a minute, `<mm>m<ss>s` below an hour, and `<h>h<mm>m<ss>s` otherwise, with no separators |
| `ElapsedTime.FormatElapsedSegments` | main.py:257-264 | `h` appears iff `h > 0`; `m` appears iff `h > 0` or `m > 0`; the string always ends with the two-digit seconds and `s` |
| `ElapsedTime.FormatElapsedRoundTrip` | main.py:252-264 | parsing the printed duration gives back the number of seconds |
| `ElapsedTime.FormatElapsedInjective` | main.py:252-264 | two durations print the same iff they are equal |
| `RunConfig.WithSentinelDefaults` | main.py:367-377 | each of seed_trainset, seed_net, num_classes, net_layers and m takes seed_init, seed_init, num_features, num_layers and num_features iff it held -1; otherwise it and every other field are unchanged |
| `RunConfig.SentinelDefaultsIdempotent` | main.py:368-377 | applying the sentinel block twice equals applying it once |
| `RunConfig.NoSentinelSurvives` | main.py:368-377 | if seed_init, num_features and num_layers are not -1, no defaulted field is -1 afterwards |
| `RunConfig.Args.ApplySentinelDefaults` | main.py:368-377 | in place on `args`: the new field values are `WithSentinelDefaults` of the old ones, and batch_size, ptr and scale_batch_size are untouched |
| `RunConfig.ScaledBatchSize` | main.py:33-35 | the batch size is unchanged unless scaling is on and `batch_size >= ptr`, in which case it is the floor of `ptr/2`; with scaling on it is below `ptr` whenever `ptr >= 1`; it is positive iff `ptr >= 2` |
| `RunConfig.ScaledBatchSizeIdempotent` | main.py:34-35 | scaling a second time changes nothing |
| `RunConfig.Args.ScaleBatchSize` | main.py:34-35 | in place on `args.batch_size`: the new value is `ScaledBatchSize` of the old one |
| `TrainingLoop.LayerPeriod` | main.py:174 | the period `epochs // net_layers + 1` is at least 1, and it is the least `p` with `epochs < net_layers * p` |
| `TrainingLoop.ActiveLayer` | main.py:174-176 | the layer trained at an epoch is the `l` with `l * period <= epoch < (l + 1) * period` |
| `TrainingLoop.ActiveLayerMonotone` | main.py:174-176 | the layer is 0 at epoch 0 and never decreases as the epoch grows |
| `TrainingLoop.ActiveLayerInRange` | main.py:171-176 | for every epoch that is run, the layer `epoch // period` is below `net_layers` |
| `TrainingLoop.LastLayerReachedIff` | main.py:171-176 | some epoch of the run trains the last layer iff `(net_layers - 1) * period < epochs` |
| `TrainingLoop.ShortRunSkipsLastLayer` | main.py:174-176 | with 6 epochs and 3 layers the period is 3 and the last epoch trains layer 1, so layer 2 is never reached |
| `TrainingLoop.LayerwiseSchedule` | main.py:171-178 | `init_layerwise_` is called only for layer-wise nets, with layers 0, 1, 2, ... in order, the k-th call at epoch `k*period`; every call is for an epoch that is run and a layer below `net_layers`; the calls cover all epochs |
| `TrainingLoop.RunUntilZeroLoss` | main.py:50-118 | `trloss_flag` counts the evaluated zero-loss checkpoints consumed; the loop breaks at the first checkpoint where the count reaches `zero_loss_epochs`, and otherwise consumes every checkpoint |
| `TrainingLoop.Evaluated` | main.py:74 | with `save_dynamics` every checkpoint is evaluated; without it a checkpoint is evaluated iff its epoch is `10 * k` for some integer `k`, so a fractional epoch never is |
| `TrainingLoop.ZeroLoss` | main.py:115 | a loss other than hinge or cross-entropy never counts as zero; for hinge only an exact 0 counts; for cross-entropy a non-positive threshold never triggers on a non-negative loss |
| `TrainingLoop.ZeroLossCount` | main.py:115-116 | the counter never exceeds the number of checkpoints, and it is 0 iff no checkpoint so far is evaluated with zero loss |
| `TrainingLoop.CounterAtBreak` | main.py:115-118 | at the break the counter equals `zero_loss_epochs` exactly, or 1 when `zero_loss_epochs <= 0` |
| `TrainingLoop.ZeroLossCountMonotone` | main.py:115-116 | the counter is never reset: it does not decrease along the checkpoints, and it never exceeds their number |
| `TrainingLoop.ZeroLossCountStep` | main.py:115-116 | one more checkpoint raises the counter by at most one and never lowers it |
| `TrainingLoop.SingleZeroLossStops` | main.py:115-118 | with `zero_loss_epochs <= 1` (the default is 0) the run stops at the first evaluated checkpoint that meets the zero-loss condition |
| `DatasetSize.TreeCounts` | debug.py:13 | `s**L - 1 == (s - 1) * sum(s**d, d < L)`, and the internal nodes of a full s-ary tree of depth L number `sum(s**d, d < L)` |
| `DatasetSize.PmaxExponent` | debug.py:13 | the exponent is undefined (division by zero) iff `s == 1`; otherwise the division is exact and the exponent is the internal-node count |
| `DatasetSize.Pmax` | debug.py:13 | undefined iff `s == 1`; otherwise `m ** (internal nodes) * num_classes` |
| `DatasetSize.PmaxMultipleOfClasses` | debug.py:13 | Pmax is a multiple of num_classes |
| `DatasetSize.PmaxAtLeastClasses` | debug.py:13 | Pmax is at least num_classes when `m >= 1` |
| `DatasetSize.PmaxSingleRule` | debug.py:13 | Pmax equals num_classes when `m == 1` |
| `DatasetSize.PmaxPerClassRecurrence` | debug.py:13 | per class, one more layer gives `m * (previous per-class count) ** s` |
| `DatasetSize.DebugPmax` | debug.py:5-13 | with m=3, s=2, num_layers=4 and num_classes=1 the exponent is 15 and Pmax is 3**15 = 14348907, which is at least max_dataset_size |

## Left out

- The rule-tree builder and index-to-path sampler (`sample_hierarchical_rules`, `sample_data_from_paths`, debug.py:2, 16-46): rhm/datasets/hierarchical.py is not part of this model.
- `torch.randperm` sampling of indices (debug.py:32-34): a foreign random number generator.
- The millisecond branch of `print_time` and `round()` on the float (main.py:249-252): float formatting. The model takes an already-rounded natural number of seconds.
- `train`'s forward and backward passes, optimizer and scheduler steps, and accuracy (main.py:180-214), and `test` (main.py:217-242): tensors and floating point.
- `num_batches = ceil(ptr / batch_size)` and the `torch.linspace` checkpoint batches (main.py:168-169, 199): float division and a foreign call. The checkpoints of `train` are an input of `RunUntilZeroLoss`.
- `weights_evolution` (main.py:267-274): floating-point tensor norms.
- Locality, stability and clustering observables, `init_fun`, `args2train_test_sizes`, `opt_algo`, `measure_accuracy`, `loss_func`, `regularize`: foreign modules.
- Argument parsing, the pickle/output default, pickle persistence, `os.remove` and printing (main.py:277-392): I/O.
- setup.py: packaging metadata.
- TrainingLoop.RunUntilZeroLoss: models only the checkpoints consumed, the counter and the break. It leaves out the loss, epoch, error and observable lists, the test call, best-accuracy tracking and the yielded result dictionaries (main.py:55-113). The `assert` that the loss is not NaN (main.py:54) is also left out, because real numbers have no NaN.
- TrainingLoop.LayerwiseSchedule: takes `net_layers >= 1`. Python raises `ZeroDivisionError` for 0, and a negative depth is not modelled. The layer-wise network's `init_layerwise_` itself is foreign.
- RunConfig.ScaledBatchSize: `ptr` is taken as the integer training-set size that `args2train_test_sizes` returns. A float `ptr` is not modelled.
- DatasetSize.Pmax: `s`, `num_layers` and the exponent are natural numbers. A negative `s` is not modelled: Python then gives an int when the exponent comes out non-negative (for example `s = -1`, or `s = -2` with `num_layers = 3`) and a float otherwise. A negative `num_layers` is not modelled either: it gives a float, or `ZeroDivisionError` when `s == 0`.
