/**
 BlockAverage of selfdrive/locationd/lagd.py: the running averages of the last blocks of lag
 estimates, kept in a circular array.
 */
module LagBlocks {
  import opened Arith
  import opened Reals
  import opened Lagd

  /** A mean and a standard deviation, or neither. */
  datatype Stats = NoData | Stats(mean: real, std: real)

  datatype Readout = IndexError | Read(valid: Stats, current: Stats)

  // ---------------------------------------------------------------- what the values average

  /** The complete blocks of a history, oldest first. */
  function Blocks(h: seq<real>, size: nat): (r: seq<seq<real>>)
    requires size > 0
    ensures forall b | b in r :: |b| == size
  {
    if |h| < size then [] else [h[..size]] + Blocks(h[size..], size)
  }

  /** What follows them. */
  function Rest(h: seq<real>, size: nat): (r: seq<real>)
    requires size > 0
    ensures |r| < size
  {
    if |h| < size then h else Rest(h[size..], size)
  }

  /** One more value goes to the last block, and completes it when it is full. */
  lemma {:induction false} Pushed(h: seq<real>, size: nat, x: real)
    requires size > 0
    ensures var r := Rest(h, size) + [x];
            && Blocks(h + [x], size) == (if |r| == size then Blocks(h, size) + [r] else Blocks(h, size))
            && Rest(h + [x], size) == (if |r| == size then [] else r)
  {
    if |h| < size {
      if |h| + 1 == size {
        assert (h + [x])[..size] == h + [x];
        assert (h + [x])[size..] == [];
      }
    } else {
      assert (h + [x])[..size] == h[..size];
      assert (h + [x])[size..] == h[size..] + [x];
      Pushed(h[size..], size, x);
      var r := Rest(h, size) + [x];
      assert |r| == size ==> [h[..size]] + (Blocks(h[size..], size) + [r]) == Blocks(h, size) + [r];
    }
  }

  /** A history of full blocks of one value. */
  function Constant(blocks: nat, size: nat, x: real): seq<real>
  {
    if blocks == 0 then [] else seq(size, _ => x) + Constant(blocks - 1, size, x)
  }

  lemma {:induction false} ConstantBlocks(blocks: nat, size: nat, x: real)
    requires size > 0
    ensures var h := Constant(blocks, size, x);
            && |Blocks(h, size)| == blocks && Rest(h, size) == []
            && forall b | 0 <= b < blocks :: Mean(Blocks(h, size)[b]) == x
  {
    if blocks > 0 {
      ConstantBlocks(blocks - 1, size, x);
      var c, t := seq(size, _ => x), Constant(blocks - 1, size, x);
      assert (c + t)[..size] == c && (c + t)[size..] == t;
      ConstantMean(c, x);
    }
  }

  lemma ConstantMean(s: seq<real>, x: real)
    requires s != [] && forall i | 0 <= i < |s| :: s[i] == x
    ensures Mean(s) == x
  {
    ConstantTotal(s, x);
    DivIs(|s| as real * x, |s| as real, x);
  }

  lemma {:induction false} ConstantTotal(s: seq<real>, x: real)
    requires forall i | 0 <= i < |s| :: s[i] == x
    ensures Total(s) == |s| as real * x
  {
    if s != [] {
      ConstantTotal(s[..|s| - 1], x);
    }
  }

  /** The running mean after one more value. */
  function Blend(count: nat, mean: real, x: real): real { (count as real * mean + x) / (count + 1) as real }

  lemma MeanPush(s: seq<real>, x: real)
    ensures Mean(s + [x]) == Blend(|s|, Mean(s), x)
  {
    TotalPush(s, x);
    if s != [] {
      assert |s| as real * Mean(s) == Total(s);
    }
  }

  lemma {:induction false} TotalConcat(s: seq<real>, t: seq<real>)
    ensures Total(s + t) == Total(s) + Total(t)
  {
    if t == [] {
      assert s + t == s;
    } else {
      var n := |t| - 1;
      assert (s + t)[..|s + t| - 1] == s + t[..n];
      TotalConcat(s, t[..n]);
    }
  }

  lemma {:induction false} DotConcat(s: seq<real>, t: seq<real>)
    ensures Dot(s + t, s + t) == Dot(s, s) + Dot(t, t)
  {
    if t == [] {
      assert s + t == s;
    } else {
      var n := |t| - 1;
      assert (s + t)[..|s + t| - 1] == s + t[..n];
      DotConcat(s, t[..n]);
    }
  }

  /** The mean of some values, if there are any, and the root of the mean of their squared deviations
      from it. */
  function StatsOf(s: seq<real>, root: real -> real): Stats
  {
    if s == [] then NoData else Stats(Mean(s), root(Div(Covariance(s, s), |s| as real)))
  }

  /** The sum of the squared distances from m. */
  function Deviations(s: seq<real>, m: real): real
  {
    if s == [] then 0.0 else Deviations(s[..|s| - 1], m) + (s[|s| - 1] - m) * (s[|s| - 1] - m)
  }

  /** What a reading says of the values it is over: their mean and standard deviation, if there are any. */
  ghost predicate Averages(r: Stats, s: seq<real>, root: real -> real)
  {
    && (r.NoData? <==> s == [])
    && (s != [] ==>
          && r.mean * |s| as real == Total(s)
          && var v := Deviations(s, r.mean) / |s| as real;
             r.std == root(v) && (IsRoot(root(v), v) ==>
                                    r.std >= 0.0 && r.std * r.std * |s| as real == Deviations(s, r.mean)))
  }

  lemma StatsAverage(s: seq<real>, root: real -> real)
    ensures Averages(StatsOf(s, root), s, root)
  {
    hide Covariance;
    hide Deviations;
    if s != [] {
      DeviationsIs(s);
      var v := Deviations(s, Mean(s)) / |s| as real;
      assert v * |s| as real == Deviations(s, Mean(s));
    }
  }

  lemma {:induction false} DeviationsShift(s: seq<real>, m: real)
    ensures Dot(Shift(s, m), Shift(s, m)) == Deviations(s, m)
  {
    if s != [] {
      var n := |s| - 1;
      DeviationsShift(s[..n], m);
      assert Shift(s, m)[..n] == Shift(s[..n], m);
    }
  }

  lemma DeviationsIs(s: seq<real>)
    ensures Covariance(s, s) == Deviations(s, Mean(s))
  {
    DeviationsShift(s, Mean(s));
  }

  /** Equal values read back, without deviation. */
  lemma EqualValues(r: Stats, s: seq<real>, x: real, root: real -> real)
    requires s != [] && (forall i | 0 <= i < |s| :: s[i] == x) && Averages(r, s, root)
    ensures r == Stats(x, root(0.0))
  {
    ConstantTotal(s, x);
    SameMean(r.mean, x, |s| as real);
    NoDeviations(s, x);
  }

  lemma SameMean(m: real, x: real, n: real)
    requires n > 0.0 && m * n == n * x
    ensures m == x
  {
    assert (m - x) * n == 0.0;
  }

  lemma {:induction false} NoDeviations(s: seq<real>, x: real)
    requires forall i | 0 <= i < |s| :: s[i] == x
    ensures Deviations(s, x) == 0.0
  {
    if s != [] {
      NoDeviations(s[..|s| - 1], x);
    }
  }

  /** They do not depend on more than these three numbers, hence not on the order. */
  lemma StatsFrom(s: seq<real>, t: seq<real>, root: real -> real)
    requires |s| == |t| && Total(s) == Total(t) && Dot(s, s) == Dot(t, t)
    ensures StatsOf(s, root) == StatsOf(t, root)
  {
    hide Covariance;
    hide Total;
    hide Dot;
    hide Centred;
    hide Div;
    if s != [] {
      VarianceIs(s);
      VarianceIs(t);
    }
  }

  function Centred(squares: real, total: real, count: nat): real
    requires count > 0
  {
    squares - total * total / count as real
  }

  lemma VarianceIs(s: seq<real>)
    requires s != []
    ensures Covariance(s, s) == Centred(Dot(s, s), Total(s), |s|)
  {
    hide Covariance;
    hide Dot;
    hide Total;
    CovarianceIs(s, s);
  }

  function Means(blocks: seq<seq<real>>): (r: seq<real>)
    ensures |r| == |blocks|
  {
    seq(|blocks|, i requires 0 <= i < |blocks| => Mean(blocks[i]))
  }

  /** At most the last n of the blocks. */
  function LastOf(blocks: seq<seq<real>>, n: nat): seq<seq<real>>
  {
    if |blocks| <= n then blocks else blocks[|blocks| - n..]
  }

  // ---------------------------------------------------------------- the circular array

  /** The slot of block number `count`. */
  function Slot(count: nat, slots: nat): (r: nat)
    requires slots > 0
    ensures r < slots
  {
    count % slots
  }

  /** The number of the latest complete block that slot i had, when `count` blocks are complete; the
      slot after the latest complete block has none. */
  function BlockOf(count: nat, slots: nat, i: int): int
    requires slots > 0
  {
    var next := Slot(count, slots);
    if i < next then count - next + i else count - next - slots + i
  }

  lemma NextSlot(count: nat, slots: nat)
    requires slots > 0
    ensures Slot(count + 1, slots) == if Slot(count, slots) + 1 == slots then 0 else Slot(count, slots) + 1
  {
    var q, r := count / slots, count % slots;
    assert count == q * slots + r;
    if r + 1 == slots {
      MulAdd(slots, q, 1);
      ModIs(count + 1, slots, q + 1, 0);
    } else {
      ModIs(count + 1, slots, q, r + 1);
    }
  }

  /** What the fields of the circular array say about the history. */
  ghost predicate Holds(values: seq<real>, h: seq<real>, size: nat, blockIdx: nat, idx: nat, validBlocks: nat)
    requires values != [] && size > 0
  {
    var blocks, rest := Blocks(h, size), Rest(h, size);
    && idx == |rest| && blockIdx == Slot(|blocks|, |values|)
    && (validBlocks == (if |blocks| < |values| then |blocks| else |values|) || validBlocks == |blocks|)
    && SlotsHold(values, blocks)
    && (idx > 0 ==> values[blockIdx] == Mean(rest))
  }

  lemma HoldsBounds(values: seq<real>, h: seq<real>, size: nat, blockIdx: nat, idx: nat, validBlocks: nat)
    requires values != [] && size > 0 && Holds(values, h, size, blockIdx, idx, validBlocks)
    ensures idx < size && blockIdx < |values| && (idx == 0 <==> Rest(h, size) == [])
  {
  }

  /** A value added to the current slot keeps its block open, or completes it and moves on to the
      next slot. */
  lemma UpdateHolds(values: seq<real>, after: seq<real>, h: seq<real>, size: nat, blockIdx: nat, idx: nat,
                    validBlocks: nat, x: real)
    requires values != [] && size > 0 && Holds(values, h, size, blockIdx, idx, validBlocks) && blockIdx < |values|
    requires after == values[blockIdx := Blend(idx, values[blockIdx], x)]
    ensures idx + 1 < size ==> Holds(after, h + [x], size, blockIdx, idx + 1, validBlocks)
    ensures idx + 1 == size ==>
              Holds(after, h + [x], size, if blockIdx + 1 == |values| then 0 else blockIdx + 1, 0,
                    if validBlocks + 1 < |values| then validBlocks + 1 else |values|)
  {
    hide SlotsHold;
    hide Blocks;
    hide Rest;
    hide Mean;
    hide Blend;
    hide Slot;
    var blocks, rest := Blocks(h, size), Rest(h, size);
    Pushed(h, size, x);
    NextMean(rest, x, values[blockIdx]);
    RestIsShort(h, size);
    NextSlot(|blocks|, |values|);
    if idx + 1 == size {
      HoldsNext(values, after, blocks, rest + [x]);
    } else {
      HoldsSame(values, after, blocks);
    }
  }

  lemma RestIsShort(h: seq<real>, size: nat)
    requires size > 0
    ensures |Rest(h, size)| < size
  {
  }

  lemma NextIndex(idx: nat, size: nat)
    requires idx < size
    ensures (idx + 1) % size == if idx + 1 == size then 0 else idx + 1
  {
    if idx + 1 == size {
      ModIs(idx + 1, size, 1, 0);
    } else {
      ModIs(idx + 1, size, 0, idx + 1);
    }
  }

  lemma NextMean(rest: seq<real>, x: real, v: real)
    requires rest != [] ==> v == Mean(rest)
    ensures Blend(|rest|, v, x) == Mean(rest + [x])
  {
    MeanPush(rest, x);
    if rest == [] {
      assert 0.0 * v == 0.0 * Mean(rest);
    }
  }

  class BlockAverage {
    const numBlocks: nat
    const blockSize: nat
    var blockIdx: nat
    var idx: nat
    var validBlocks: nat
    const values: array<real>
    /** Every value so far, preceded by full blocks of the initial value that count as valid. */
    ghost var history: seq<real>

    ghost function Complete(): seq<seq<real>>
      reads this
      requires blockSize > 0
    {
      Blocks(history, blockSize)
    }

    ghost predicate Valid()
      reads this, values
    {
      numBlocks > 0 && blockSize > 0 && values.Length == numBlocks
      && Holds(values[..], history, blockSize, blockIdx, idx, validBlocks)
    }

    constructor (numBlocks: nat, blockSize: nat, validBlocks: nat, initial: real)
      requires numBlocks > 0 && blockSize > 0
      ensures Valid() && fresh(values) && this.numBlocks == numBlocks && this.blockSize == blockSize
      ensures history == Constant(validBlocks, blockSize, initial) && this.validBlocks == validBlocks
    {
      this.numBlocks := numBlocks;
      this.blockSize := blockSize;
      this.blockIdx := validBlocks % numBlocks;
      this.idx := 0;
      this.values := new real[numBlocks](_ => initial);
      this.validBlocks := validBlocks;
      this.history := Constant(validBlocks, blockSize, initial);
      new;
      ConstantBlocks(validBlocks, blockSize, initial);
    }

    method Update(value: real)
      requires Valid()
      modifies this, values
      ensures Valid() && history == old(history) + [value]
      ensures validBlocks <= numBlocks || validBlocks == old(validBlocks)
      ensures Rest(history, blockSize) == [] ==> validBlocks <= numBlocks
    {
      hide Holds;
      hide Blend;
      ghost var before := values[..];
      HoldsBounds(before, history, blockSize, blockIdx, idx, validBlocks);
      values[blockIdx] := Blend(idx, values[blockIdx], value);
      idx := (idx + 1) % blockSize;
      if idx == 0 {
        blockIdx := (blockIdx + 1) % numBlocks;
        validBlocks := if validBlocks + 1 < numBlocks then validBlocks + 1 else numBlocks;
      }
      NextIndex(old(idx), blockSize);
      NextIndex(old(blockIdx), numBlocks);
      UpdateHolds(before, values[..], history, blockSize, old(blockIdx), old(idx), old(validBlocks), value);
      history := history + [value];
      HoldsBounds(values[..], history, blockSize, blockIdx, idx, validBlocks);
    }

    /** Mean and standard deviation over the valid blocks, and those that count the current block too,
        given the square root. It fails only while a count of valid blocks that was too large from the
        start is not corrected. */
    method Get(root: real -> real) returns (r: Readout)
      requires Valid()
      ensures r.IndexError? <==> validBlocks > numBlocks
      ensures r.Read? ==>
                var last, rest := Means(LastOf(Complete(), numBlocks - 1)), Rest(history, blockSize);
                && Averages(r.valid, last, root)
                && Averages(r.current, if rest == [] then last else last + [Mean(rest)], root)
    {
      hide Holds;
      hide Blocks;
      hide Rest;
      hide Mean;
      hide Means;
      hide LastOf;
      hide StatsOf;
      hide Averages;
      HoldsBounds(values[..], history, blockSize, blockIdx, idx, validBlocks);
      if validBlocks <= numBlocks {
        HoldsStats(values[..], history, blockSize, blockIdx, idx, validBlocks, root);
      }
      var picked: seq<real> := [];
      var i := 0;
      while i < validBlocks
        invariant i <= validBlocks && i <= numBlocks
        invariant picked == Picked(values[..], i, blockIdx)
      {
        if i >= numBlocks {
          return IndexError;
        }
        if i != blockIdx {
          picked := picked + [values[i]];
        }
        i := i + 1;
      }
      ghost var last, rest := Means(LastOf(Complete(), numBlocks - 1)), Rest(history, blockSize);
      StatsAverage(last, root);
      StatsAverage(last + [Mean(rest)], root);
      var valid := StatsOf(picked, root);
      if idx > 0 {
        picked := picked + [values[blockIdx]];
      }
      return Read(valid, StatsOf(picked, root));
    }
  }

  /** Every slot but the current one holds the mean of its latest complete block, if it has one. */
  ghost predicate SlotsHold(values: seq<real>, blocks: seq<seq<real>>)
    requires values != []
  {
    forall i | 0 <= i < |values| && i != Slot(|blocks|, |values|) && BlockOf(|blocks|, |values|, i) >= 0 ::
      0 <= BlockOf(|blocks|, |values|, i) < |blocks| && values[i] == Mean(blocks[BlockOf(|blocks|, |values|, i)])
  }

  lemma HoldsSame(before: seq<real>, after: seq<real>, blocks: seq<seq<real>>)
    requires |before| == |after| > 0 && SlotsHold(before, blocks)
    requires forall i | 0 <= i < |before| && i != Slot(|blocks|, |before|) :: after[i] == before[i]
    ensures SlotsHold(after, blocks)
  {
  }

  lemma HoldsNext(before: seq<real>, after: seq<real>, blocks: seq<seq<real>>, block: seq<real>)
    requires |before| == |after| > 0 && SlotsHold(before, blocks)
    requires forall i | 0 <= i < |before| && i != Slot(|blocks|, |before|) :: after[i] == before[i]
    requires after[Slot(|blocks|, |before|)] == Mean(block)
    ensures SlotsHold(after, blocks + [block])
  {
    NextSlot(|blocks|, |before|);
  }

  /** The values of the first n slots, without the current one. */
  function Picked(values: seq<real>, n: nat, skip: nat): seq<real>
    requires n <= |values|
  {
    if n == 0 then [] else Picked(values, n - 1, skip) + if n - 1 != skip then [values[n - 1]] else []
  }

  lemma {:induction false} PickedIs(values: seq<real>, n: nat, skip: nat)
    requires n <= |values|
    ensures Picked(values, n, skip) == if n <= skip then values[..n] else values[..skip] + values[skip + 1..n]
  {
    if n > 0 {
      PickedIs(values, n - 1, skip);
      if n <= skip {
        assert values[..n] == values[..n - 1] + [values[n - 1]];
      } else if n - 1 == skip {
        assert values[..skip] + [] == values[..skip];
      } else {
        assert values[skip + 1..n] == values[skip + 1..n - 1] + [values[n - 1]];
      }
    }
  }

  /** The slots that count as valid hold the means of the last complete blocks, in rotated order. */
  lemma PickedAreLast(values: seq<real>, blocks: seq<seq<real>>)
    requires values != [] && SlotsHold(values, blocks)
    ensures var n, m := |values|, |blocks|;
            var picked := Picked(values, if m < n then m else n, Slot(m, n));
            var last := Means(LastOf(blocks, n - 1));
            |picked| == |last| && Total(picked) == Total(last) && Dot(picked, picked) == Dot(last, last)
  {
    hide Picked;
    hide Total;
    hide Dot;
    var n, m := |values|, |blocks|;
    var r := Slot(m, n);
    var last := Means(LastOf(blocks, n - 1));
    PickedIs(values, if m < n then m else n, r);
    if m < n {
      FewBlocks(values, blocks);
    } else {
      ManyBlocks(values, blocks);
      assert values[r + 1..n] == values[r + 1..];
      TotalConcat(values[..r], values[r + 1..]);
      TotalConcat(values[r + 1..], values[..r]);
      DotConcat(values[..r], values[r + 1..]);
      DotConcat(values[r + 1..], values[..r]);
    }
  }

  lemma FewBlocks(values: seq<real>, blocks: seq<seq<real>>)
    requires |blocks| < |values| && SlotsHold(values, blocks)
    ensures Means(LastOf(blocks, |values| - 1)) == values[..|blocks|] && Slot(|blocks|, |values|) == |blocks|
  {
    forall i | 0 <= i < |blocks|
      ensures values[i] == Mean(blocks[i])
    {
      assert BlockOf(|blocks|, |values|, i) == i;
    }
  }

  lemma ManyBlocks(values: seq<real>, blocks: seq<seq<real>>)
    requires 0 < |values| <= |blocks| && SlotsHold(values, blocks)
    ensures var r := Slot(|blocks|, |values|); Means(LastOf(blocks, |values| - 1)) == values[r + 1..] + values[..r]
  {
    var n, m := |values|, |blocks|;
    var r := Slot(m, n);
    var last := Means(LastOf(blocks, n - 1));
    forall j | 0 <= j < n - 1
      ensures last[j] == (values[r + 1..] + values[..r])[j]
    {
      var i := if j < n - 1 - r then r + 1 + j else j - (n - 1 - r);
      assert BlockOf(m, n, i) == m - (n - 1) + j;
    }
  }

  /** The two readings, from the fields. */
  lemma HoldsStats(values: seq<real>, h: seq<real>, size: nat, blockIdx: nat, idx: nat, validBlocks: nat,
                   root: real -> real)
    requires values != [] && size > 0 && Holds(values, h, size, blockIdx, idx, validBlocks)
    requires validBlocks <= |values|
    ensures blockIdx < |values|
    ensures var picked, last := Picked(values, validBlocks, blockIdx), Means(LastOf(Blocks(h, size), |values| - 1));
            && StatsOf(picked, root) == StatsOf(last, root) && (idx == 0 <==> Rest(h, size) == [])
            && (idx > 0 ==> StatsOf(picked + [values[blockIdx]], root) == StatsOf(last + [Mean(Rest(h, size))], root))
  {
    hide Blocks;
    hide Rest;
    hide Mean;
    hide Means;
    hide LastOf;
    hide SlotsHold;
    hide StatsOf;
    var picked, last := Picked(values, validBlocks, blockIdx), Means(LastOf(Blocks(h, size), |values| - 1));
    PickedAreLast(values, Blocks(h, size));
    StatsFrom(picked, last, root);
    StatsAfter(picked, last, values[blockIdx], root);
  }

  lemma StatsAfter(s: seq<real>, t: seq<real>, x: real, root: real -> real)
    requires |s| == |t| && Total(s) == Total(t) && Dot(s, s) == Dot(t, t)
    ensures StatsOf(s + [x], root) == StatsOf(t + [x], root)
  {
    hide StatsOf;
    TotalPush(s, x);
    TotalPush(t, x);
    DotPush(s, s, x, x);
    DotPush(t, t, x, x);
    StatsFrom(s + [x], t + [x], root);
  }
}
