/** Order-preserving filtering and pandas' row-count rolling sums
    (`rolling(window=w, min_periods=1).sum()`) over 0/1 flags. */
module Windows {

  /** Keeps, in order, the elements that satisfy `p` (a boolean mask). */
  function Filter<T>(xs: seq<T>, p: T -> bool): (r: seq<T>)
    ensures |r| <= |xs|
    ensures forall k :: 0 <= k < |r| ==> r[k] in xs && p(r[k])
    ensures forall k :: 0 <= k < |xs| && p(xs[k]) ==> xs[k] in r
  {
    if |xs| == 0 then []
    else
      var prev := Filter(xs[..|xs| - 1], p);
      var x := xs[|xs| - 1];
      assert xs == xs[..|xs| - 1] + [x];
      if p(x) then prev + [x] else prev
  }

  /** Filtering distributes over concatenation, so the kept elements keep
      their relative order. */
  lemma {:induction false} FilterAppend<T>(a: seq<T>, b: seq<T>, p: T -> bool)
    ensures Filter(a + b, p) == Filter(a, p) + Filter(b, p)
    decreases |b|
  {
    if |b| == 0 {
      assert a + b == a;
    } else {
      var b' := b[..|b| - 1];
      assert (a + b)[..|a + b| - 1] == a + b';
      FilterAppend(a, b', p);
    }
  }

  /** Keeps, in order, the elements of `xs` whose mark is set. */
  function Pick<T>(xs: seq<T>, marks: seq<bool>): (r: seq<T>)
    requires |xs| == |marks|
    ensures |r| <= |xs|
  {
    if |xs| == 0 then []
    else
      var n := |xs| - 1;
      var prev := Pick(xs[..n], marks[..n]);
      if marks[n] then prev + [xs[n]] else prev
  }

  /** Picking from one more row appends that row when its mark is set. */
  lemma PickExtend<T>(xs: seq<T>, marks: seq<bool>, i: nat)
    requires |xs| == |marks| && i < |xs|
    ensures Pick(xs[..i + 1], marks[..i + 1]) == Pick(xs[..i], marks[..i]) + (if marks[i] then [xs[i]] else [])
  {
    assert xs[..i + 1][..i] == xs[..i] && marks[..i + 1][..i] == marks[..i];
  }

  /** Everything picked is an element of `xs`. */
  lemma {:induction false} PickFrom<T>(xs: seq<T>, marks: seq<bool>)
    requires |xs| == |marks|
    ensures forall k :: 0 <= k < |Pick(xs, marks)| ==> Pick(xs, marks)[k] in xs
  {
    if |xs| > 0 {
      var n := |xs| - 1;
      PickFrom(xs[..n], marks[..n]);
      assert forall k :: 0 <= k < n ==> xs[..n][k] == xs[k];
    }
  }

  /** The number of set flags. */
  function Count(flags: seq<bool>): (n: nat)
    ensures n <= |flags|
    ensures n == |flags| <==> forall i :: 0 <= i < |flags| ==> flags[i]
  {
    if |flags| == 0 then 0
    else
      var p := flags[..|flags| - 1];
      var c := Count(p);
      assert forall i :: 0 <= i < |p| ==> p[i] == flags[i];
      c + if flags[|flags| - 1] then 1 else 0
  }

  function Bit(b: bool): nat {
    if b then 1 else 0
  }

  /** Counting the flags of a slice one past its end. */
  lemma CountExtend(flags: seq<bool>, a: nat, b: nat)
    requires a <= b < |flags|
    ensures Count(flags[a..b + 1]) == Count(flags[a..b]) + Bit(flags[b])
  {
    assert flags[a..b + 1][..b - a] == flags[a..b];
  }

  /** Counting from the front: the first flag plus the count of the rest. */
  lemma {:induction false} CountFront(flags: seq<bool>)
    requires |flags| > 0
    ensures Count(flags) == Bit(flags[0]) + Count(flags[1..])
  {
    if |flags| > 1 {
      var p := flags[..|flags| - 1];
      CountFront(p);
      assert p[1..] == flags[1..][..|flags| - 2];
    } else {
      assert flags[1..] == [];
    }
  }

  /** At least two flags are set iff two distinct positions hold set flags. */
  lemma {:induction false} CountAtLeastTwo(flags: seq<bool>)
    ensures Count(flags) >= 2 <==> exists j, k :: 0 <= j < k < |flags| && flags[j] && flags[k]
  {
    if |flags| > 0 {
      var n := |flags| - 1;
      var p := flags[..n];
      CountAtLeastTwo(p);
      CountAtLeastOne(p);
      if Count(flags) >= 2 {
        if Count(p) >= 2 {
          var j, k :| 0 <= j < k < |p| && p[j] && p[k];
          assert flags[j] && flags[k];
        } else {
          var j :| 0 <= j < |p| && p[j];
          assert flags[j] && flags[n];
        }
      }
      if exists j, k :: 0 <= j < k < |flags| && flags[j] && flags[k] {
        var j, k :| 0 <= j < k < |flags| && flags[j] && flags[k];
        if k < n {
          assert p[j] && p[k];
        } else {
          assert p[j];
        }
      }
    }
  }

  /** At least one flag is set iff some position holds a set flag. */
  lemma {:induction false} CountAtLeastOne(flags: seq<bool>)
    ensures Count(flags) >= 1 <==> exists j :: 0 <= j < |flags| && flags[j]
  {
    if |flags| > 0 {
      var n := |flags| - 1;
      var p := flags[..n];
      CountAtLeastOne(p);
      if Count(p) >= 1 {
        var j :| 0 <= j < |p| && p[j];
        assert flags[j];
      }
      if exists j :: 0 <= j < |flags| && flags[j] {
        var j :| 0 <= j < |flags| && flags[j];
        if j < n {
          assert p[j];
        }
      }
    }
  }

  /** The first row of the window of `w` rows that ends at row `i`
      (fewer rows near the start, as with `min_periods=1`). */
  function WindowStart(i: nat, w: nat): nat {
    if i + 1 >= w then i + 1 - w else 0
  }

  /** The rolling sum of the flags at row `i`: set flags among the trailing
      `w` rows that end at row `i`. */
  function TrailingCount(flags: seq<bool>, i: nat, w: nat): nat
    requires i < |flags| && w >= 1
  {
    Count(flags[WindowStart(i, w)..i + 1])
  }

  /** The rolling sum reaches the window length exactly when a full window
      of `w` rows ends at `i` and every row in it is set. */
  lemma TrailingCountFull(flags: seq<bool>, i: nat, w: nat)
    requires i < |flags| && w >= 1
    ensures TrailingCount(flags, i, w) >= w <==>
      i + 1 >= w && forall k :: i + 1 - w <= k <= i ==> flags[k]
  {
    var s := flags[WindowStart(i, w)..i + 1];
    if i + 1 >= w && forall k :: i + 1 - w <= k <= i ==> flags[k] {
      assert forall k :: 0 <= k < |s| ==> s[k] == flags[i + 1 - w + k];
    }
    if TrailingCount(flags, i, w) >= w {
      assert forall k :: 0 <= k < |s| ==> s[k] == flags[WindowStart(i, w) + k];
      assert forall k :: WindowStart(i, w) <= k <= i ==> flags[k] == s[k - WindowStart(i, w)];
    }
  }

  /** The rolling sum reaches two exactly when two distinct rows of the
      window ending at `i` are set. */
  lemma TrailingCountTwo(flags: seq<bool>, i: nat, w: nat)
    requires i < |flags| && w >= 1
    ensures TrailingCount(flags, i, w) >= 2 <==>
      exists j, k :: WindowStart(i, w) <= j < k <= i && flags[j] && flags[k]
  {
    var a := WindowStart(i, w);
    var s := flags[a..i + 1];
    CountAtLeastTwo(s);
    if TrailingCount(flags, i, w) >= 2 {
      var j, k :| 0 <= j < k < |s| && s[j] && s[k];
      assert flags[a + j] && flags[a + k];
    }
    if exists j, k :: a <= j < k <= i && flags[j] && flags[k] {
      var j, k :| a <= j < k <= i && flags[j] && flags[k];
      assert s[j - a] && s[k - a];
    }
  }

  /** The rolling sums of every row. */
  function Rolling(flags: seq<bool>, w: nat): (r: seq<nat>)
    requires w >= 1
    ensures |r| == |flags|
    ensures forall i :: 0 <= i < |flags| ==> r[i] == TrailingCount(flags, i, w)
  {
    seq(|flags|, i requires 0 <= i < |flags| => TrailingCount(flags, i, w))
  }

  /** One row of the incremental rolling sum: adding row `i` gives its
      rolling sum, and dropping the row that leaves the window gives the
      count the next row starts from. */
  lemma RollingStep(flags: seq<bool>, w: nat, i: nat, c: nat)
    requires w >= 1 && i < |flags|
    requires c == Count(flags[WindowStart(i, w)..i])
    ensures c + Bit(flags[i]) == TrailingCount(flags, i, w)
    ensures i + 1 >= w ==> c + Bit(flags[i]) >= Bit(flags[i + 1 - w])
    ensures i + 1 >= w ==>
      c + Bit(flags[i]) - Bit(flags[i + 1 - w]) == Count(flags[WindowStart(i + 1, w)..i + 1])
    ensures i + 1 < w ==> c + Bit(flags[i]) == Count(flags[WindowStart(i + 1, w)..i + 1])
  {
    CountExtend(flags, WindowStart(i, w), i);
    if i + 1 >= w {
      var a := i + 1 - w;
      CountFront(flags[a..i + 1]);
      assert flags[a..i + 1][1..] == flags[a + 1..i + 1];
    }
  }

  /** The rolling sums computed the way a rolling window does it: add the
      row entering the window, subtract the row leaving it. */
  method RollingCounts(flags: seq<bool>, w: nat) returns (sums: seq<nat>)
    requires w >= 1
    ensures |sums| == |flags|
    ensures forall i :: 0 <= i < |flags| ==> sums[i] == TrailingCount(flags, i, w)
  {
    sums := [];
    var c: nat := 0;
    var i := 0;
    while i < |flags|
      invariant 0 <= i <= |flags|
      invariant |sums| == i
      invariant forall k :: 0 <= k < i ==> sums[k] == TrailingCount(flags, k, w)
      invariant c == Count(flags[WindowStart(i, w)..i])
    {
      RollingStep(flags, w, i, c);
      c := c + Bit(flags[i]);
      sums := sums + [c];
      if i + 1 >= w {
        c := c - Bit(flags[i + 1 - w]);
      }
      i := i + 1;
    }
  }
}
