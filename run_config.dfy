/**
 * The run configuration of main.py, as far as the code rewrites it in place:
 * the "-1 means same as" defaults applied in `main` after argument parsing,
 * and the batch-size scaling at the start of `run`.
 */
module RunConfig {

  /** The value main.py's argument parser uses for "take the related argument". */
  const Sentinel: int := -1

  /** The arguments the sentinel block reads or writes. */
  datatype Hyper = Hyper(
    seedInit: int,
    seedNet: int,
    seedTrainset: int,
    numFeatures: int,
    numClasses: int,
    numLayers: int,
    netLayers: int,
    m: int)

  /** The effect of main.py's sentinel block: each of seed_trainset, seed_net,
      num_classes, net_layers and m that holds -1 takes the value of
      seed_init, seed_init, num_features, num_layers and num_features
      respectively; every other argument is left as it is. */
  function WithSentinelDefaults(a: Hyper): (r: Hyper)
    ensures r.seedInit == a.seedInit && r.numFeatures == a.numFeatures && r.numLayers == a.numLayers
    ensures a.seedTrainset == Sentinel ==> r.seedTrainset == a.seedInit
    ensures a.seedNet == Sentinel ==> r.seedNet == a.seedInit
    ensures a.numClasses == Sentinel ==> r.numClasses == a.numFeatures
    ensures a.netLayers == Sentinel ==> r.netLayers == a.numLayers
    ensures a.m == Sentinel ==> r.m == a.numFeatures
    ensures a.seedTrainset != Sentinel ==> r.seedTrainset == a.seedTrainset
    ensures a.seedNet != Sentinel ==> r.seedNet == a.seedNet
    ensures a.numClasses != Sentinel ==> r.numClasses == a.numClasses
    ensures a.netLayers != Sentinel ==> r.netLayers == a.netLayers
    ensures a.m != Sentinel ==> r.m == a.m
  {
    a.(seedTrainset := if a.seedTrainset == Sentinel then a.seedInit else a.seedTrainset,
       seedNet := if a.seedNet == Sentinel then a.seedInit else a.seedNet,
       numClasses := if a.numClasses == Sentinel then a.numFeatures else a.numClasses,
       netLayers := if a.netLayers == Sentinel then a.numLayers else a.netLayers,
       m := if a.m == Sentinel then a.numFeatures else a.m)
  }

  /** Applying the defaults a second time changes nothing: no default is
      taken from an argument the block itself rewrites. */
  lemma SentinelDefaultsIdempotent(a: Hyper)
    ensures WithSentinelDefaults(WithSentinelDefaults(a)) == WithSentinelDefaults(a)
  {
  }

  /** When seed_init, num_features and num_layers are real values, no
      sentinel survives the block. */
  lemma NoSentinelSurvives(a: Hyper)
    requires a.seedInit != Sentinel && a.numFeatures != Sentinel && a.numLayers != Sentinel
    ensures var r := WithSentinelDefaults(a);
            r.seedTrainset != Sentinel && r.seedNet != Sentinel && r.numClasses != Sentinel
            && r.netLayers != Sentinel && r.m != Sentinel
  {
  }

  /** The batch size `run` trains with: when scaling is requested and the
      batch would hold the whole training set, it becomes half the training
      set (Python's `ptr // 2`; Dafny's `/` agrees for the divisor 2). */
  function ScaledBatchSize(batchSize: int, ptr: int, scale: bool): (r: int)
    ensures !(scale && batchSize >= ptr) ==> r == batchSize
    ensures scale && batchSize >= ptr ==> 2 * r <= ptr < 2 * r + 2
    ensures scale && ptr >= 1 ==> r < ptr
    ensures ptr >= 0 ==> r <= batchSize
    ensures scale && batchSize >= ptr ==> (r >= 1 <==> ptr >= 2)
  {
    if batchSize >= ptr && scale then ptr / 2 else batchSize
  }

  /** Scaling is stable: a second application leaves the batch size as is. */
  lemma ScaledBatchSizeIdempotent(batchSize: int, ptr: int, scale: bool)
    ensures ScaledBatchSize(ScaledBatchSize(batchSize, ptr, scale), ptr, scale)
         == ScaledBatchSize(batchSize, ptr, scale)
  {
  }

  /** The `args` namespace of main.py, restricted to the fields the modelled
      code reads or writes. */
  class Args {
    var seedInit: int
    var seedNet: int
    var seedTrainset: int
    var numFeatures: int
    var numClasses: int
    var numLayers: int
    var netLayers: int
    var m: int
    var batchSize: int
    var ptr: int
    var scaleBatchSize: int

    function Hyperparameters(): Hyper
      reads this
    {
      Hyper(seedInit, seedNet, seedTrainset, numFeatures, numClasses, numLayers, netLayers, m)
    }

    constructor (h: Hyper, batchSize: int, ptr: int, scaleBatchSize: int)
      ensures Hyperparameters() == h
      ensures this.batchSize == batchSize && this.ptr == ptr && this.scaleBatchSize == scaleBatchSize
    {
      seedInit, seedNet, seedTrainset := h.seedInit, h.seedNet, h.seedTrainset;
      numFeatures, numClasses, numLayers := h.numFeatures, h.numClasses, h.numLayers;
      netLayers, m := h.netLayers, h.m;
      this.batchSize, this.ptr, this.scaleBatchSize := batchSize, ptr, scaleBatchSize;
    }

    /** main.py's "special value -1" block, one field at a time. */
    method ApplySentinelDefaults()
      modifies this
      ensures Hyperparameters() == WithSentinelDefaults(old(Hyperparameters()))
      ensures batchSize == old(batchSize) && ptr == old(ptr) && scaleBatchSize == old(scaleBatchSize)
    {
      if seedTrainset == Sentinel {
        seedTrainset := seedInit;
      }
      if seedNet == Sentinel {
        seedNet := seedInit;
      }
      if numClasses == Sentinel {
        numClasses := numFeatures;
      }
      if netLayers == Sentinel {
        netLayers := numLayers;
      }
      if m == Sentinel {
        m := numFeatures;
      }
    }

    /** The batch-size scaling at the top of `run`; `scale_batch_size` is an
        int flag, true when non-zero. */
    method ScaleBatchSize()
      modifies this`batchSize
      ensures batchSize == ScaledBatchSize(old(batchSize), ptr, scaleBatchSize != 0)
    {
      if batchSize >= ptr && scaleBatchSize != 0 {
        batchSize := ptr / 2;
      }
    }
  }
}
