/** How many levels and nodes the built tree has (src/manifest.rs:77-141). */
module Levels {
  import opened Sorting
  import opened HashTree
  import opened TreeLaws
  import opened TreeReader

  function Power(k: nat): nat {
    if k == 0 then 1 else 174 * Power(k - 1)
  }

  lemma PowerStep(k: nat)
    ensures Power(k) == if k == 0 then 1 else MAX_LINKS * Power(k - 1)
  {
  }

  lemma {:induction false} PowerPositive(k: nat)
    ensures Power(k) >= 1
  {
    if k > 0 {
      PowerPositive(k - 1);
    }
  }

  /** `q` is `n / d` rounded up. */
  ghost predicate IsCeil(n: nat, d: nat, q: int) {
    d * (q - 1) < n <= d * q
  }

  lemma CeilDivIsCeil(n: nat, d: nat)
    requires n > 0 && d > 0
    ensures IsCeil(n, d, CeilDiv(n, d))
  {
    var q := (n + d - 1) / d;
    assert n + d - 1 == d * q + (n + d - 1) % d;
    assert d * (q - 1) == d * q - d;
  }

  lemma CeilUnique(n: nat, d: nat, p: int, q: int)
    requires d > 0 && IsCeil(n, d, p) && IsCeil(n, d, q)
    ensures p == q
  {
    assert p < q ==> d * p <= d * (q - 1);
    assert q < p ==> d * q <= d * (p - 1);
  }

  lemma CeilOfCeil(n: nat, c: nat, d: nat, q: int)
    requires d > 0 && IsCeil(n, MAX_LINKS, c) && IsCeil(c, d, q)
    ensures IsCeil(n, MAX_LINKS * d, q)
  {
    assert n <= MAX_LINKS * c <= MAX_LINKS * (d * q) == (MAX_LINKS * d) * q;
    assert d * (q - 1) <= c - 1;
    assert MAX_LINKS * (d * (q - 1)) == (MAX_LINKS * d) * (q - 1);
  }

  lemma {:induction false} LevelCeil(level: seq<Tree>, k: nat)
    requires level != []
    ensures LevelAt(level, k) != [] && IsCeil(|level|, Power(k), |LevelAt(level, k)|)
    decreases k
  {
    hide ParentLevel, IsCeil, Power, CeilDiv;
    PowerStep(k);
    if k == 0 {
      CeilByOne(|level|);
    } else {
      var parents := ParentLevel(level);
      CeilDivIsCeil(|level|, MAX_LINKS);
      CeilPositive(|level|, MAX_LINKS);
      LevelCeil(parents, k - 1);
      PowerPositive(k - 1);
      CeilOfCeil(|level|, |parents|, Power(k - 1), |LevelAt(parents, k - 1)|);
    }
  }

  lemma CeilByOne(n: nat)
    requires n > 0
    ensures IsCeil(n, 1, n)
  {
  }

  lemma CeilPositive(n: nat, d: nat)
    requires n > 0 && d > 0
    ensures CeilDiv(n, d) > 0
  {
    CeilDivIsCeil(n, d);
  }

  /** Level `k` has exactly `n / 174^(k+1)` nodes, rounded up. */
  lemma LevelSize(sorted: seq<DirEntry>, k: nat)
    requires sorted != []
    ensures Power(k + 1) > 0
    ensures |LevelAt(LeafLevel(sorted), k)| == CeilDiv(|sorted|, Power(k + 1))
  {
    var level := LeafLevel(sorted);
    LevelCeil(level, k);
    PowerPositive(k);
    CeilDivIsCeil(|sorted|, MAX_LINKS);
    CeilOfCeil(|sorted|, |level|, Power(k), |LevelAt(level, k)|);
    CeilDivIsCeil(|sorted|, Power(k + 1));
    CeilUnique(|sorted|, Power(k + 1), |LevelAt(level, k)|, CeilDiv(|sorted|, Power(k + 1)));
  }

  /** The number of levels the builder's loop makes. */
  function LevelCount(level: seq<Tree>): (h: nat)
    requires level != []
    ensures h >= 1
    decreases |level|
  {
    if |level| == 1 then 1 else 1 + LevelCount(ParentLevel(level))
  }

  lemma {:induction false} LevelCountStops(level: seq<Tree>)
    requires level != []
    ensures |LevelAt(level, LevelCount(level) - 1)| == 1
    ensures forall j :: 0 <= j < LevelCount(level) - 1 ==> |LevelAt(level, j)| > 1
    decreases |level|
  {
    if |level| > 1 {
      var parents := ParentLevel(level);
      LevelCountStops(parents);
      forall j | 0 <= j < LevelCount(level) - 1
        ensures |LevelAt(level, j)| > 1
      {
        if j > 0 {
          assert LevelAt(level, j) == LevelAt(parents, j - 1);
        }
      }
    }
  }

  lemma {:induction false} PowerMonotone(j: nat, k: nat)
    requires j <= k
    ensures Power(j) <= Power(k)
  {
    if j < k {
      PowerMonotone(j, k - 1);
      PowerPositive(k - 1);
    }
  }

  /** The tree is as low as it can be: its height is the least `h >= 1` with `n <= 174^h`. */
  lemma HeightIsLeast(sorted: seq<DirEntry>, h: nat)
    requires sorted != [] && h >= 1
    ensures LevelCount(LeafLevel(sorted)) <= h <==> |sorted| <= Power(h)
  {
    hide Power, LeafLevel, LevelCount, LevelAt;
    var level := LeafLevel(sorted);
    var count := LevelCount(level);
    LevelCountStops(level);
    if count <= h {
      LevelSize(sorted, count - 1);
      CeilDivIsCeil(|sorted|, Power(count));
      PowerMonotone(count, h);
    } else {
      LevelSize(sorted, h - 1);
      AboveOne(|sorted|, Power(h));
    }
  }

  lemma AboveOne(n: nat, d: nat)
    requires n > 0 && d > 0 && CeilDiv(n, d) > 1
    ensures n > d
  {
    var q := CeilDiv(n, d);
    CeilDivIsCeil(n, d);
    assert d * (q - 1) >= d;
  }

  lemma {:induction false} NodeBoundFrom(level: seq<Tree>)
    requires level != []
    ensures 173 * |NodesFrom(level)| <= 174 * |level| - 1 + 173 * (LevelCount(level) - 1)
    decreases |level|
  {
    if |level| > 1 {
      NodeBoundFrom(ParentLevel(level));
    }
  }

  /** The total node count is below n/173 plus the height. */
  lemma NodeBound(sorted: seq<DirEntry>)
    requires sorted != []
    ensures 173 * |NodeList(sorted)| < |sorted| + 173 * LevelCount(LeafLevel(sorted))
  {
    NodeBoundFrom(LeafLevel(sorted));
  }

  lemma {:induction false} MaxOfEqual(ts: seq<Tree>, h: nat)
    requires ts != [] && forall i :: 0 <= i < |ts| ==> Height(ts[i]) == h
    ensures MaxHeight(ts) == h
  {
    if |ts| > 1 {
      MaxOfEqual(ts[1..], h);
    }
  }

  lemma {:induction false} RootHeight(level: seq<Tree>, h: nat)
    requires level != [] && forall i :: 0 <= i < |level| ==> Height(level[i]) == h
    ensures Height(RootFrom(level)) == h + LevelCount(level) - 1
    decreases |level|
  {
    if |level| > 1 {
      var parents := ParentLevel(level);
      forall i | 0 <= i < |parents|
        ensures Height(parents[i]) == h + 1
      {
        MaxOfEqual(parents[i].kids, h);
      }
      RootHeight(parents, h + 1);
    }
  }

  /** A reader has to go exactly as deep as there are levels. */
  lemma ReaderDepth(sorted: seq<DirEntry>)
    requires sorted != []
    ensures Height(TreeOf(sorted)) == LevelCount(LeafLevel(sorted))
  {
    RootHeight(LeafLevel(sorted), 1);
  }
}
