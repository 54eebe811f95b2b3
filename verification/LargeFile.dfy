/** The levels of bundles above the chunk vectors of a large file. */
module LargeFile {
  import opened Bytes

  type Bundle = (SparseVec, SparseVec) -> SparseVec

  /** One group, bundled from left to right. */
  function BundleGroup(bundle: Bundle, group: seq<SparseVec>): SparseVec
    requires group != []
  {
    var n := |group| - 1;
    if n == 0 then group[0] else bundle(BundleGroup(bundle, group[..n]), group[n])
  }

  /** One bundle for every started group of `b` vectors. */
  function NextLevel(bundle: Bundle, level: seq<SparseVec>, b: nat): seq<SparseVec>
    requires b > 0
  {
    if level == [] then []
    else if |level| <= b then [BundleGroup(bundle, level)]
    else [BundleGroup(bundle, level[..b])] + NextLevel(bundle, level[b..], b)
  }

  /** The level reached after `k` rounds. */
  function Round(bundle: Bundle, level: seq<SparseVec>, b: nat, k: nat): seq<SparseVec>
    requires b > 0
  {
    if k == 0 then level else NextLevel(bundle, Round(bundle, level, b, k - 1), b)
  }

  function Power(b: nat, k: nat): nat
  {
    if k == 0 then 1 else b * Power(b, k - 1)
  }

  // Rounded-up quotients

  lemma CeilDivLeast(n: nat, d: nat, m: nat)
    requires d > 0
    ensures CeilDiv(n, d) <= m <==> n <= d * m
  {
    var q := CeilDiv(n, d);
    assert d * q - d < n <= d * q;
    if q <= m {
      MulMono(d, q, m);
    } else {
      MulMono(d, m, q - 1);
      MulPred(d, q);
    }
  }

  lemma MulAssoc(b: int, c: int, m: int)
    ensures b * (c * m) == b * c * m
  {
  }

  lemma TwiceLeast(n: nat, b: nat, c: nat, bc: nat, m: nat)
    requires b > 0 && c > 0 && bc == b * c && bc > 0
    ensures CeilDiv(CeilDiv(n, b), c) <= m <==> CeilDiv(n, bc) <= m
  {
    hide CeilDiv;
    CeilDivLeast(CeilDiv(n, b), c, m);
    MulMono(c, 0, m);
    CeilDivLeast(n, b, c * m);
    CeilDivLeast(n, bc, m);
    MulAssoc(b, c, m);
  }

  /** Rounding up twice is rounding up once. */
  lemma CeilDivTwice(n: nat, b: nat, c: nat, bc: nat)
    requires b > 0 && c > 0 && bc == b * c && bc > 0
    ensures CeilDiv(CeilDiv(n, b), c) == CeilDiv(n, bc)
  {
    TwiceLeast(n, b, c, bc, CeilDiv(CeilDiv(n, b), c));
    TwiceLeast(n, b, c, bc, CeilDiv(n, bc));
  }

  lemma {:induction false} PowerPositive(b: nat, k: nat)
    requires b > 0
    ensures Power(b, k) > 0
  {
    if k > 0 {
      PowerPositive(b, k - 1);
      MulMono(b, 1, Power(b, k - 1));
    }
  }

  lemma {:induction false} NextLevelSize(bundle: Bundle, level: seq<SparseVec>, b: nat)
    requires b > 0
    ensures |NextLevel(bundle, level, b)| == CeilDiv(|level|, b)
    decreases |level|
  {
    var n, k := |level|, |NextLevel(bundle, level, b)|;
    if n > b {
      NextLevelSize(bundle, level[b..], b);
      CeilDivBounds(n - b, b);
      MulPred(b, k);
    } else if n > 0 {
      assert b * 1 == b;
    } else {
      assert b * 0 == 0;
    }
    CeilDivUnique(n, b, k);
  }

  lemma CeilDivBounds(n: nat, d: nat)
    requires d > 0
    ensures d * CeilDiv(n, d) - d < n <= d * CeilDiv(n, d)
  {
  }

  lemma PowerStep(b: nat, k: nat)
    requires k > 0
    ensures Power(b, k) == Power(b, k - 1) * b
  {
  }

  /** After `k` rounds there is one bundle for every started `b^k` vectors. */
  lemma {:induction false} RoundSize(bundle: Bundle, level: seq<SparseVec>, b: nat, k: nat)
    requires b > 0
    ensures Power(b, k) > 0 && |Round(bundle, level, b, k)| == CeilDiv(|level|, Power(b, k))
  {
    hide CeilDiv, NextLevel, Power;
    PowerPositive(b, k);
    if k > 0 {
      PowerPositive(b, k - 1);
      PowerStep(b, k);
      RoundSize(bundle, level, b, k - 1);
      NextLevelSize(bundle, Round(bundle, level, b, k - 1), b);
      CeilDivTwice(|level|, Power(b, k - 1), b, Power(b, k));
    } else {
      NoRounds(|level|, b);
    }
  }

  lemma NoRounds(n: nat, b: nat)
    ensures Power(b, 0) == 1 && CeilDiv(n, 1) == n
  {
  }

  /** After `k` rounds at most `b` bundles are left exactly when `b^(k+1)` vectors were enough room. */
  lemma RoundFits(bundle: Bundle, level: seq<SparseVec>, b: nat, k: nat)
    requires b > 0
    ensures |Round(bundle, level, b, k)| <= b <==> |level| <= Power(b, k + 1)
  {
    RoundSize(bundle, level, b, k);
    CeilDivLeast(|level|, Power(b, k), b);
    assert Power(b, k) * b == Power(b, k + 1);
  }

  lemma {:induction false} PowerGrows(b: nat, k: nat)
    requires b >= 2
    ensures Power(b, k) > k
  {
    if k > 0 {
      PowerGrows(b, k - 1);
      MulMono(Power(b, k - 1), 2, b);
      assert Power(b, k - 1) * b == Power(b, k);
    }
  }

  lemma {:induction false} RoundOfOne(bundle: Bundle, level: seq<SparseVec>)
    ensures NextLevel(bundle, level, 1) == level
    decreases |level|
  {
    if |level| > 1 {
      RoundOfOne(bundle, level[1..]);
      assert BundleGroup(bundle, level[..1]) == level[0];
      assert level == [level[0]] + level[1..];
    } else if |level| == 1 {
      assert level == [level[0]];
    }
  }

  lemma {:induction false} RoundsOfOne(bundle: Bundle, level: seq<SparseVec>, k: nat)
    ensures Round(bundle, level, 1, k) == level
  {
    if k > 0 {
      RoundsOfOne(bundle, level, k - 1);
      RoundOfOne(bundle, level);
    }
  }

  ghost predicate Stops(bundle: Bundle, level: seq<SparseVec>, b: nat)
    requires b > 0
  {
    exists k: nat :: |Round(bundle, level, b, k)| <= b
  }

  /** The loop ends exactly when groups have at least two members or there is nothing to do: groups of one change nothing. */
  lemma StopsWhen(bundle: Bundle, level: seq<SparseVec>, b: nat)
    requires b > 0
    ensures Stops(bundle, level, b) <==> b >= 2 || |level| <= b
  {
    if b >= 2 {
      PowerGrows(b, |level| + 1);
      RoundFits(bundle, level, b, |level|);
    } else if |level| <= b {
      assert |Round(bundle, level, b, 0)| <= b;
    } else {
      forall k: nat ensures |Round(bundle, level, b, k)| > b {
        RoundsOfOne(bundle, level, k);
      }
    }
  }

  // Nothing is lost

  /** The leaves of all vectors of a level, in order. */
  ghost function LeavesOf<L>(leaves: SparseVec -> seq<L>, level: seq<SparseVec>): seq<L>
  {
    if level == [] then [] else LeavesOf(leaves, level[..|level| - 1]) + leaves(level[|level| - 1])
  }

  /** A reading of vectors as lists of leaves under which bundling is concatenation. */
  ghost predicate Reads<L(!new)>(leaves: SparseVec -> seq<L>, bundle: Bundle)
  {
    forall x, y :: leaves(bundle(x, y)) == leaves(x) + leaves(y)
  }

  lemma {:induction false} LeavesAppend<L>(leaves: SparseVec -> seq<L>, x: seq<SparseVec>, y: seq<SparseVec>)
    ensures LeavesOf(leaves, x + y) == LeavesOf(leaves, x) + LeavesOf(leaves, y)
    decreases |y|
  {
    if y == [] {
      assert x + y == x;
    } else {
      var n := |y| - 1;
      LeavesAppend(leaves, x, y[..n]);
      assert (x + y)[..|x + y| - 1] == x + y[..n];
    }
  }

  lemma {:induction false} GroupLeaves<L(!new)>(leaves: SparseVec -> seq<L>, bundle: Bundle, group: seq<SparseVec>)
    requires Reads(leaves, bundle) && group != []
    ensures leaves(BundleGroup(bundle, group)) == LeavesOf(leaves, group)
    decreases |group|
  {
    var n := |group| - 1;
    if n > 0 {
      GroupLeaves(leaves, bundle, group[..n]);
    } else {
      assert LeavesOf(leaves, group[..0]) == [];
    }
  }

  lemma {:induction false} LevelLeaves<L(!new)>(leaves: SparseVec -> seq<L>, bundle: Bundle, level: seq<SparseVec>, b: nat)
    requires Reads(leaves, bundle) && b > 0
    ensures LeavesOf(leaves, NextLevel(bundle, level, b)) == LeavesOf(leaves, level)
    decreases |level|
  {
    if level != [] {
      var head := if |level| <= b then level else level[..b];
      var x := BundleGroup(bundle, head);
      GroupLeaves(leaves, bundle, head);
      assert [x][..0] == [] && LeavesOf(leaves, [x]) == leaves(x);
      if |level| > b {
        LevelLeaves(leaves, bundle, level[b..], b);
        LeavesAppend(leaves, [x], NextLevel(bundle, level[b..], b));
        LeavesAppend(leaves, level[..b], level[b..]);
        assert level == level[..b] + level[b..];
      }
    }
  }

  /** Every chunk vector goes into exactly one bundle of each level, in order: rounds keep the list of leaves. */
  lemma {:induction false} RoundLeaves<L(!new)>(leaves: SparseVec -> seq<L>, bundle: Bundle, level: seq<SparseVec>, b: nat, k: nat)
    requires Reads(leaves, bundle) && b > 0
    ensures LeavesOf(leaves, Round(bundle, level, b, k)) == LeavesOf(leaves, level)
  {
    if k > 0 {
      RoundLeaves(leaves, bundle, level, b, k - 1);
      LevelLeaves(leaves, bundle, Round(bundle, level, b, k - 1), b);
    }
  }

  // The loop

  method BundleInOrder(bundle: Bundle, group: seq<SparseVec>) returns (root: SparseVec)
    requires group != []
    ensures root == BundleGroup(bundle, group)
  {
    root := group[0];
    for i := 1 to |group|
      invariant root == BundleGroup(bundle, group[..i])
    {
      assert group[..i + 1][..i] == group[..i];
      root := bundle(root, group[i]);
    }
    assert group[..|group|] == group;
  }

  method BundleLevel(bundle: Bundle, level: seq<SparseVec>, b: nat) returns (next: seq<SparseVec>)
    requires b > 0
    ensures next == NextLevel(bundle, level, b)
  {
    next := [];
    var rest := level;
    while rest != []
      invariant next + NextLevel(bundle, rest, b) == NextLevel(bundle, level, b)
      decreases |rest|
    {
      var size := Min(b, |rest|);
      var root := BundleInOrder(bundle, rest[..size]);
      assert |rest| <= b ==> rest[..size] == rest;
      next, rest := next + [root], rest[size..];
    }
  }

  /**
    * Bundles level after level until at most `b` vectors are left. The number of levels is the least `L >= 1` with
    * `n <= b^L`, and one bundle is left for every started `b^(L-1)` chunks.
    */
  method BundleLevels(bundle: Bundle, chunks: seq<SparseVec>, b: nat) returns (top: seq<SparseVec>, hierarchyLevels: nat)
    requires b >= 2 || |chunks| <= b
    ensures hierarchyLevels >= 1 && |top| <= b
    ensures |chunks| <= Power(b, hierarchyLevels)
    ensures forall l :: 1 <= l < hierarchyLevels ==> |chunks| > Power(b, l)
    ensures b > 0 ==> top == Round(bundle, chunks, b, hierarchyLevels - 1)
    ensures Power(b, hierarchyLevels - 1) > 0 && |top| == CeilDiv(|chunks|, Power(b, hierarchyLevels - 1))
  {
    hide CeilDiv, NextLevel;
    top, hierarchyLevels := chunks, 1;
    while |top| > b
      invariant hierarchyLevels >= 1 && (b < 2 ==> top == chunks && hierarchyLevels == 1)
      invariant b > 0 ==> top == Round(bundle, chunks, b, hierarchyLevels - 1)
      invariant forall l :: 1 <= l < hierarchyLevels ==> |chunks| > Power(b, l)
      decreases |top|
    {
      RoundFits(bundle, chunks, b, hierarchyLevels - 1);
      NextLevelSize(bundle, top, b);
      Smaller(|top|, b);
      top := BundleLevel(bundle, top, b);
      hierarchyLevels := hierarchyLevels + 1;
    }
    if b > 0 {
      RoundFits(bundle, chunks, b, hierarchyLevels - 1);
      RoundSize(bundle, chunks, b, hierarchyLevels - 1);
    } else {
      CeilDivLeast(0, 1, 0);
    }
  }

  lemma Smaller(n: nat, b: nat)
    requires n > b >= 2
    ensures CeilDiv(n, b) < n
  {
    CeilDivLeast(n, b, n - 1);
    MulMono(n - 1, 2, b);
    assert (n - 1) * b == b * (n - 1);
  }
}
