/**
 * Two pieces of integer bookkeeping in main.py's training loop: the
 * layer-wise schedule of `train` (which layer a layer-wise network trains up
 * to, epoch by epoch) and the zero-loss early stop of `run` (how many
 * checkpoints with zero training loss end the run).
 */
module TrainingLoop {
  import opened Arith

  /** `args.epochs // args.net_layers + 1`: the number of epochs each layer is
      trained for. It is the least period p with epochs < net_layers * p, so
      net_layers stages of p epochs always cover every epoch. */
  function LayerPeriod(epochs: nat, netLayers: nat): (p: nat)
    requires netLayers >= 1
    ensures p >= 1
    ensures epochs < netLayers * p
    ensures (p - 1) * netLayers <= epochs
  {
    epochs / netLayers + 1
  }

  /** The layer `l = epoch // period` in force during an epoch: the value of the
      last `init_layerwise_` call at or before it. */
  function ActiveLayer(epoch: nat, epochs: nat, netLayers: nat): (l: nat)
    requires netLayers >= 1
    ensures l * LayerPeriod(epochs, netLayers) <= epoch < (l + 1) * LayerPeriod(epochs, netLayers)
  {
    epoch / LayerPeriod(epochs, netLayers)
  }

  lemma DivisionMonotone(a: nat, b: nat, p: nat)
    requires a <= b && p >= 1
    ensures a / p <= b / p
  {
    assert p * (a / p) <= a <= b < p * (b / p + 1);
    CancelFactor(p, a / p, b / p + 1);
  }

  /** Training starts at layer 0 and the layer never decreases. */
  lemma ActiveLayerMonotone(e1: nat, e2: nat, epochs: nat, netLayers: nat)
    requires netLayers >= 1 && e1 <= e2
    ensures ActiveLayer(0, epochs, netLayers) == 0
    ensures ActiveLayer(e1, epochs, netLayers) <= ActiveLayer(e2, epochs, netLayers)
  {
    DivisionMonotone(e1, e2, LayerPeriod(epochs, netLayers));
  }

  /** Every epoch that is run trains a layer that exists: l < net_layers. */
  lemma ActiveLayerInRange(epoch: nat, epochs: nat, netLayers: nat)
    requires netLayers >= 1 && epoch < epochs
    ensures ActiveLayer(epoch, epochs, netLayers) < netLayers
  {
    var p := LayerPeriod(epochs, netLayers);
    assert p * (epoch / p) <= epoch < epochs < p * netLayers;
    CancelFactor(p, epoch / p, netLayers);
  }

  /** The last layer is trained in some epoch exactly when the stage that
      starts it, at epoch (net_layers - 1) * period, is still within the run. */
  lemma LastLayerReachedIff(epochs: nat, netLayers: nat)
    requires netLayers >= 1
    ensures (exists e :: 0 <= e < epochs && ActiveLayer(e, epochs, netLayers) == netLayers - 1)
        <==> (netLayers - 1) * LayerPeriod(epochs, netLayers) < epochs
  {
    var p := LayerPeriod(epochs, netLayers);
    if (netLayers - 1) * p < epochs {
      var e := (netLayers - 1) * p;
      ExactDivision(p, netLayers - 1);
      assert ActiveLayer(e, epochs, netLayers) == netLayers - 1;
    }
    if exists e :: 0 <= e < epochs && ActiveLayer(e, epochs, netLayers) == netLayers - 1 {
      var e :| 0 <= e < epochs && ActiveLayer(e, epochs, netLayers) == netLayers - 1;
      assert p * (e / p) <= e;
    }
  }

  /** With 6 epochs and 3 layers the period is 3, so the last layer is never
      reached: epochs 0-2 train layer 0 and epochs 3-5 layer 1. */
  lemma ShortRunSkipsLastLayer()
    ensures LayerPeriod(6, 3) == 3
    ensures ActiveLayer(5, 6, 3) == 1
    ensures !exists e :: 0 <= e < 6 && ActiveLayer(e, 6, 3) == 2
  {
    LastLayerReachedIff(6, 3);
  }

  /** One call of `net.init_layerwise_(layer)`, made at the start of `epoch`. */
  datatype Stage = Stage(epoch: nat, layer: nat)

  /** The layer-wise part of `train`'s epoch loop: the calls to
      `init_layerwise_` it makes, in order. When the network is not
      layer-wise no call is made. */
  method LayerwiseSchedule(epochs: nat, netLayers: nat, layerwise: bool) returns (stages: seq<Stage>)
    requires netLayers >= 1
    ensures !layerwise ==> stages == []
    ensures forall k :: 0 <= k < |stages| ==>
              stages[k] == Stage(k * LayerPeriod(epochs, netLayers), k)
    ensures forall k :: 0 <= k < |stages| ==> stages[k].epoch < epochs && stages[k].layer < netLayers
    ensures layerwise ==> epochs <= |stages| * LayerPeriod(epochs, netLayers)
    ensures layerwise && epochs > 0 ==> (|stages| - 1) * LayerPeriod(epochs, netLayers) < epochs
  {
    stages := [];
    var p := LayerPeriod(epochs, netLayers);
    for epoch := 0 to epochs
      invariant !layerwise ==> stages == []
      invariant epoch == 0 ==> stages == []
      invariant forall k :: 0 <= k < |stages| ==> stages[k] == Stage(k * p, k)
      invariant forall k :: 0 <= k < |stages| ==> stages[k].epoch < epoch && stages[k].layer < netLayers
      invariant layerwise ==> epoch <= |stages| * p
      invariant layerwise && epoch > 0 ==> (|stages| - 1) * p < epoch
    {
      ghost var count := |stages|;
      if epoch % p == 0 {
        if layerwise {
          var l := epoch / p;
          NextStage(epoch, count, p);
          ActiveLayerInRange(epoch, epochs, netLayers);
          stages := stages + [Stage(epoch, l)];
          assert (count + 1) * p == count * p + p;
        }
      } else if layerwise {
        ExactDivision(p, count);
        assert epoch != count * p;
      }
    }
  }

  /** Between the epochs of consecutive stages no multiple of the period
      occurs, so the next stage is numbered by how many came before it. */
  lemma NextStage(epoch: nat, count: nat, p: nat)
    requires p >= 1 && epoch % p == 0
    requires epoch <= count * p
    requires epoch == 0 ==> count == 0
    requires epoch > 0 ==> (count - 1) * p < epoch
    ensures epoch / p == count && epoch == count * p
  {
    var q := epoch / p;
    assert epoch == p * q;
    if epoch > 0 {
      assert p * q < p * (count + 1);
      CancelFactor(p, q, count + 1);
      assert p * (count - 1) < p * q;
      CancelFactor(p, count - 1, q);
    }
  }

  /** How the run's loss is computed; only these two are tested for zero loss. */
  datatype LossKind = Hinge | CrossEntropy | OtherLoss

  /** The arguments `run` consults for the early stop. */
  datatype StopConfig = StopConfig(
    loss: LossKind,
    zeroLossThreshold: real,
    zeroLossEpochs: int,
    saveDynamics: bool)

  /** One value produced by `train`: the (possibly fractional) epoch reached
      and the average training loss. */
  datatype Checkpoint = Checkpoint(epoch: real, trainLoss: real)

  predicate IsMultipleOfTen(e: real)
  {
    e == e.Floor as real && e.Floor % 10 == 0
  }

  /** A checkpoint survives the `continue` of `run` (every tenth epoch, or
      every checkpoint when dynamics are saved). */
  predicate Evaluated(cp: Checkpoint, cfg: StopConfig)
    ensures cfg.saveDynamics ==> Evaluated(cp, cfg)
    ensures !cfg.saveDynamics && cp.epoch != cp.epoch.Floor as real ==> !Evaluated(cp, cfg)
    ensures !cfg.saveDynamics ==> (Evaluated(cp, cfg) <==> exists k: int :: cp.epoch == (10 * k) as real)
  {
    MultipleOfTenWitness(cp.epoch);
    cfg.saveDynamics || IsMultipleOfTen(cp.epoch)
  }

  /** The floor-based test agrees with "ten times some integer". */
  lemma MultipleOfTenWitness(e: real)
    ensures IsMultipleOfTen(e) <==> exists k: int :: e == (10 * k) as real
  {
    if IsMultipleOfTen(e) {
      var k := e.Floor / 10;
      assert e == (10 * k) as real;
    }
    if exists k: int :: e == (10 * k) as real {
      var k: int :| e == (10 * k) as real;
      assert e.Floor == 10 * k;
    }
  }

  /** The zero-loss condition: exactly zero for the hinge loss, below the
      threshold for cross-entropy. */
  predicate ZeroLoss(cp: Checkpoint, cfg: StopConfig)
    ensures cfg.loss == OtherLoss ==> !ZeroLoss(cp, cfg)
    ensures cfg.loss == Hinge && ZeroLoss(cp, cfg) ==> cp.trainLoss == 0.0
    ensures cfg.loss == CrossEntropy && cp.trainLoss >= 0.0 && cfg.zeroLossThreshold <= 0.0 ==> !ZeroLoss(cp, cfg)
  {
    (cp.trainLoss == 0.0 && cfg.loss == Hinge)
    || (cp.trainLoss < cfg.zeroLossThreshold && cfg.loss == CrossEntropy)
  }

  /** A checkpoint that increments `trloss_flag`. */
  predicate Counted(cp: Checkpoint, cfg: StopConfig)
  {
    Evaluated(cp, cfg) && ZeroLoss(cp, cfg)
  }

  /** The value of `trloss_flag` after a run of checkpoints: it is never reset. */
  function ZeroLossCount(cps: seq<Checkpoint>, cfg: StopConfig): (r: nat)
    ensures r <= |cps|
    ensures r == 0 <==> forall i :: 0 <= i < |cps| ==> !Counted(cps[i], cfg)
    decreases |cps|
  {
    if cps == [] then 0
    else ZeroLossCount(cps[..|cps| - 1], cfg) + (if Counted(cps[|cps| - 1], cfg) then 1 else 0)
  }

  /** `run` leaves its loop right after checkpoint i. */
  predicate BreaksAt(cps: seq<Checkpoint>, cfg: StopConfig, i: nat)
    requires i < |cps|
  {
    Counted(cps[i], cfg) && ZeroLossCount(cps[..i + 1], cfg) >= cfg.zeroLossEpochs
  }

  /** The early-stop bookkeeping of `run`'s loop over the checkpoints of
      `train`: how many checkpoints it consumes, the final `trloss_flag`, and
      whether it left the loop by `break`. */
  method RunUntilZeroLoss(cps: seq<Checkpoint>, cfg: StopConfig)
    returns (consumed: nat, trlossFlag: nat, stopped: bool)
    ensures consumed <= |cps|
    ensures trlossFlag == ZeroLossCount(cps[..consumed], cfg)
    ensures stopped ==> 1 <= consumed && BreaksAt(cps, cfg, consumed - 1)
    ensures stopped ==> forall i :: 0 <= i < consumed - 1 ==> !BreaksAt(cps, cfg, i)
    ensures !stopped ==> consumed == |cps| && forall i :: 0 <= i < |cps| ==> !BreaksAt(cps, cfg, i)
  {
    trlossFlag := 0;
    consumed := 0;
    stopped := false;
    while consumed < |cps|
      invariant consumed <= |cps|
      invariant trlossFlag == ZeroLossCount(cps[..consumed], cfg)
      invariant forall i :: 0 <= i < consumed ==> !BreaksAt(cps, cfg, i)
    {
      var cp := cps[consumed];
      consumed := consumed + 1;
      assert cps[..consumed][..consumed - 1] == cps[..consumed - 1];
      if !Evaluated(cp, cfg) {
        continue;
      }
      if ZeroLoss(cp, cfg) {
        trlossFlag := trlossFlag + 1;
        if trlossFlag >= cfg.zeroLossEpochs {
          stopped := true;
          return;
        }
      }
    }
  }

  lemma PrefixOfPrefix(cps: seq<Checkpoint>, j: nat)
    requires 1 <= j <= |cps|
    ensures cps[..j][..j - 1] == cps[..j - 1]
  {
  }

  /** Before the first break the counter stays below max(zero_loss_epochs, 1). */
  lemma {:induction false} CountBelowTarget(cps: seq<Checkpoint>, cfg: StopConfig, j: nat)
    requires j <= |cps|
    requires forall i :: 0 <= i < j ==> !BreaksAt(cps, cfg, i)
    ensures ZeroLossCount(cps[..j], cfg) < Max1(cfg.zeroLossEpochs)
    decreases j
  {
    if j > 0 {
      CountBelowTarget(cps, cfg, j - 1);
      PrefixOfPrefix(cps, j);
      assert !BreaksAt(cps, cfg, j - 1);
    }
  }

  function Max1(x: int): int { if x < 1 then 1 else x }

  /** When `run` breaks, `trloss_flag` equals zero_loss_epochs exactly, or 1
      when zero_loss_epochs is not positive (the default 0 stops at the first
      zero-loss checkpoint). */
  lemma CounterAtBreak(cps: seq<Checkpoint>, cfg: StopConfig, i: nat)
    requires i < |cps| && BreaksAt(cps, cfg, i)
    requires forall j :: 0 <= j < i ==> !BreaksAt(cps, cfg, j)
    ensures ZeroLossCount(cps[..i + 1], cfg) == Max1(cfg.zeroLossEpochs)
  {
    CountBelowTarget(cps, cfg, i);
    PrefixOfPrefix(cps, i + 1);
  }

  /** The counter grows by one on each counted checkpoint and never falls:
      it is monotone along the checkpoints and bounded by their number. */
  lemma {:induction false} ZeroLossCountMonotone(cps: seq<Checkpoint>, cfg: StopConfig, i: nat, j: nat)
    requires i <= j <= |cps|
    ensures ZeroLossCount(cps[..i], cfg) <= ZeroLossCount(cps[..j], cfg) <= j
    decreases j
  {
    if i < j {
      ZeroLossCountMonotone(cps, cfg, i, j - 1);
      ZeroLossCountStep(cps, cfg, j);
    }
  }

  /** One more checkpoint adds at most one to the counter and never lowers it. */
  lemma ZeroLossCountStep(cps: seq<Checkpoint>, cfg: StopConfig, j: nat)
    requires 1 <= j <= |cps|
    ensures ZeroLossCount(cps[..j - 1], cfg) <= ZeroLossCount(cps[..j], cfg) <= ZeroLossCount(cps[..j - 1], cfg) + 1
  {
    PrefixOfPrefix(cps, j);
  }

  /** With zero_loss_epochs at most 1 the run stops at the first checkpoint
      that meets the zero-loss condition and is evaluated. */
  lemma SingleZeroLossStops(cps: seq<Checkpoint>, cfg: StopConfig, i: nat)
    requires i < |cps| && cfg.zeroLossEpochs <= 1
    ensures BreaksAt(cps, cfg, i) <==> Counted(cps[i], cfg)
  {
    PrefixOfPrefix(cps, i + 1);
  }
}
