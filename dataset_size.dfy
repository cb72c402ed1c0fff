/**
 * The size of the Random Hierarchy Model's sample space, as debug.py computes
 * it: m raised to (s to the num_layers, minus one, floor-divided by s minus
 * one), times num_classes.
 *
 * Every internal node of the full s-ary tree of depth num_layers picks one of m
 * production rules, and the root picks one of num_classes classes.
 */
module DatasetSize {
  import opened Options
  import opened Arith

  /** b ** e for a non-negative exponent. */
  function Pow(b: int, e: nat): int
    decreases e
  {
    if e == 0 then 1 else b * Pow(b, e - 1)
  }

  /** The sum of s ** d for d in [0, levels). */
  function GeometricSum(s: int, levels: nat): int
    decreases levels
  {
    if levels == 0 then 0 else GeometricSum(s, levels - 1) + Pow(s, levels - 1)
  }

  /** The internal nodes of a full s-ary tree whose leaves sit at depth `depth`:
      a root above s subtrees of depth `depth - 1`. */
  function InternalNodes(s: nat, depth: nat): nat
    decreases depth
  {
    if depth == 0 then 0 else 1 + s * InternalNodes(s, depth - 1)
  }

  lemma {:induction false} PowAdd(b: int, x: nat, y: nat)
    ensures Pow(b, x + y) == Pow(b, x) * Pow(b, y)
    decreases y
  {
    if y > 0 {
      PowAdd(b, x, y - 1);
      calc {
        Pow(b, x + y);
        b * Pow(b, x + y - 1);
        b * (Pow(b, x) * Pow(b, y - 1));
        Pow(b, x) * (b * Pow(b, y - 1));
      }
    }
  }

  lemma {:induction false} PowMul(b: int, x: nat, y: nat)
    ensures Pow(b, x * y) == Pow(Pow(b, x), y)
    decreases y
  {
    if y > 0 {
      PowMul(b, x, y - 1);
      PowAdd(b, x, x * (y - 1));
      assert x + x * (y - 1) == x * y;
    }
  }

  lemma {:induction false} PowPositive(b: int, e: nat)
    requires b >= 1
    ensures Pow(b, e) >= 1
    decreases e
  {
    if e > 0 {
      PowPositive(b, e - 1);
    }
  }

  lemma {:induction false} PowOfOne(e: nat)
    ensures Pow(1, e) == 1
    decreases e
  {
    if e > 0 {
      PowOfOne(e - 1);
    }
  }

  /** A full s-ary tree of depth L has s ** L leaves, and (s - 1) times its
      internal node count plus one; the internal nodes number sum s ** d, d < L. */
  lemma {:induction false} TreeCounts(s: nat, depth: nat)
    ensures Pow(s, depth) - 1 == (s - 1) * GeometricSum(s, depth)
    ensures InternalNodes(s, depth) == GeometricSum(s, depth)
    decreases depth
  {
    if depth > 0 {
      TreeCounts(s, depth - 1);
      var g, p := GeometricSum(s, depth - 1), Pow(s, depth - 1);
      calc {
        (s - 1) * GeometricSum(s, depth);
        (s - 1) * g + (s - 1) * p;
        p - 1 + s * p - p;
        Pow(s, depth) - 1;
      }
      calc {
        InternalNodes(s, depth);
        1 + s * g;
        1 + (s - 1) * g + g;
        g + p;
      }
    }
  }

  /** The exponent of Pmax, `(s ** num_layers - 1) // (s - 1)`; Python raises
      ZeroDivisionError for s == 1, modelled as None. For every other s the
      floor division is exact, so Dafny's division agrees with Python's, and the
      exponent is the number of internal nodes of the tree. */
  function PmaxExponent(s: nat, numLayers: nat): (e: Option<nat>)
    ensures e.None? <==> s == 1
    ensures e.Some? ==> e.value == InternalNodes(s, numLayers) == GeometricSum(s, numLayers)
    ensures s >= 2 ==> (Pow(s, numLayers) - 1) % (s - 1) == 0
  {
    if s == 1 then None
    else
      TreeCounts(s, numLayers);
      ExactDivision(s - 1, GeometricSum(s, numLayers));
      Some((Pow(s, numLayers) - 1) / (s - 1))
  }

  /** Pmax as debug.py writes it; None where Python raises ZeroDivisionError. */
  function Pmax(m: int, s: nat, numLayers: nat, numClasses: int): (r: Option<int>)
    ensures r.None? <==> s == 1
    ensures r.Some? ==> r.value == Pow(m, InternalNodes(s, numLayers)) * numClasses
  {
    match PmaxExponent(s, numLayers)
    case None => None
    case Some(e) => Some(Pow(m, e) * numClasses)
  }

  /** Pmax is a whole number of samples per class. */
  lemma PmaxMultipleOfClasses(m: int, s: nat, numLayers: nat, numClasses: int)
    requires s != 1 && numClasses != 0
    ensures Pmax(m, s, numLayers, numClasses).Some?
    ensures Pmax(m, s, numLayers, numClasses).value % numClasses == 0
  {
    var k := Pow(m, InternalNodes(s, numLayers));
    assert k * numClasses == numClasses * k;
    ExactDivision(numClasses, k);
  }

  /** With at least one rule per symbol there is at least one sample per class. */
  lemma PmaxAtLeastClasses(m: int, s: nat, numLayers: nat, numClasses: int)
    requires s != 1 && m >= 1 && numClasses >= 0
    ensures Pmax(m, s, numLayers, numClasses).Some?
    ensures Pmax(m, s, numLayers, numClasses).value >= numClasses
  {
    PowPositive(m, InternalNodes(s, numLayers));
  }

  /** With a single rule per symbol each class has exactly one realization. */
  lemma PmaxSingleRule(s: nat, numLayers: nat, numClasses: int)
    requires s != 1
    ensures Pmax(1, s, numLayers, numClasses) == Some(numClasses)
  {
    PowOfOne(InternalNodes(s, numLayers));
  }

  /** One more layer: the root picks one of m rules, then each of its s
      children roots an independent tree of the old depth. */
  lemma PmaxPerClassRecurrence(m: int, s: nat, numLayers: nat)
    requires s != 1
    ensures Pmax(m, s, numLayers + 1, 1).Some? && Pmax(m, s, numLayers, 1).Some?
    ensures Pmax(m, s, numLayers + 1, 1).value == m * Pow(Pmax(m, s, numLayers, 1).value, s)
  {
    var i := InternalNodes(s, numLayers);
    assert InternalNodes(s, numLayers + 1) == 1 + i * s;
    PowAdd(m, 1, i * s);
    PowMul(m, i, s);
  }

  // The configuration at the top of debug.py (lines 5-12).
  const DebugM: nat := 3
  const DebugNumClasses: nat := 1
  const DebugNumLayers: nat := 4
  const DebugS: nat := 2
  const MaxDatasetSize: nat := 10

  /** For debug.py's constants the exponent is 2 ** 4 - 1 = 15 and
      Pmax = 3 ** 15, which leaves room for max_dataset_size distinct indices. */
  lemma DebugPmax()
    ensures PmaxExponent(DebugS, DebugNumLayers) == Some(15)
    ensures Pmax(DebugM, DebugS, DebugNumLayers, DebugNumClasses) == Some(14348907)
    ensures MaxDatasetSize <= 14348907
  {
    assert InternalNodes(2, 4) == 15;
    assert Pow(3, 15) == 14348907;
  }
}
