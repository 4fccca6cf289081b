/**
  Sequence facts behind the merge of worker partitions into one output
  buffer: partition sizes, their prefix sums (the placement offsets), the
  concatenation the merge is meant to produce, and the two buffer updates
  the merge uses (growing or shrinking a vector, copying a block into it).
*/
module Placement {

  /** Sum of a sequence of sizes. */
  function Sum(s: seq<nat>): nat
  {
    if |s| == 0 then 0 else Sum(s[..|s| - 1]) + s[|s| - 1]
  }

  /** The size of every partition, in index order. */
  function Sizes<T>(vs: seq<seq<T>>): (r: seq<nat>)
    ensures |r| == |vs|
    ensures forall i :: 0 <= i < |vs| ==> r[i] == |vs[i]|
  {
    seq(|vs|, i requires 0 <= i < |vs| => |vs[i]|)
  }

  /** The partitions laid end to end in index order. */
  function Concat<T>(vs: seq<seq<T>>): seq<T>
  {
    if |vs| == 0 then [] else Concat(vs[..|vs| - 1]) + vs[|vs| - 1]
  }

  /** Where block i starts: the total size of all blocks with a smaller index. */
  function Offsets(s: seq<nat>): (r: seq<nat>)
    ensures |r| == |s|
  {
    seq(|s|, i requires 0 <= i < |s| => Sum(s[..i]))
  }

  /** `std::vector::resize`: keeps the first `n` existing elements and pads with `fill`. */
  function Resize<A>(s: seq<A>, n: nat, fill: A): (r: seq<A>)
    ensures |r| == n
    ensures forall j :: 0 <= j < n ==> r[j] == if j < |s| then s[j] else fill
  {
    if n <= |s| then s[..n] else s + seq(n - |s|, _ => fill)
  }

  /** Copy of `part` into `buf` starting at position `at`; the length of `buf` is kept. */
  function Overwrite<T>(buf: seq<T>, at: nat, part: seq<T>): (r: seq<T>)
    requires at + |part| <= |buf|
    ensures |r| == |buf|
    ensures forall j :: 0 <= j < |buf| ==>
      r[j] == if at <= j < at + |part| then part[j - at] else buf[j]
  {
    buf[..at] + part + buf[at + |part|..]
  }

  lemma SumSnoc(s: seq<nat>, i: nat)
    requires i < |s|
    ensures Sum(s[..i + 1]) == Sum(s[..i]) + s[i]
  {
    assert s[..i + 1][..i] == s[..i];
  }

  lemma {:induction false} SumPrefixMonotone(s: seq<nat>, i: nat, j: nat)
    requires i <= j <= |s|
    ensures Sum(s[..i]) <= Sum(s[..j])
  {
    if i < j {
      SumPrefixMonotone(s, i, j - 1);
      SumSnoc(s, j - 1);
    }
  }

  /** The offsets are the running sums the leader computes: the first block starts
      at 0, each block starts where the previous one ends, and the last one ends
      at the total size. */
  lemma OffsetsAreRunningSums(s: seq<nat>)
    ensures |s| > 0 ==> Offsets(s)[0] == 0
    ensures forall i :: 0 <= i < |s| - 1 ==> Offsets(s)[i + 1] == Offsets(s)[i] + s[i]
    ensures |s| > 0 ==> Offsets(s)[|s| - 1] + s[|s| - 1] == Sum(s)
  {
    forall i | 0 <= i < |s| - 1
      ensures Offsets(s)[i + 1] == Offsets(s)[i] + s[i]
    {
      SumSnoc(s, i);
    }
    if |s| > 0 {
      assert s[..|s|] == s;
      SumSnoc(s, |s| - 1);
    }
  }

  /** Every block lies inside a buffer of the total size. */
  lemma OffsetsFit(s: seq<nat>, i: nat)
    requires i < |s|
    ensures Offsets(s)[i] + s[i] <= Sum(s)
  {
    SumSnoc(s, i);
    SumPrefixMonotone(s, i + 1, |s|);
    assert s[..|s|] == s;
  }

  /** Blocks with different indices do not overlap: an earlier block ends no later
      than a later block starts. */
  lemma OffsetsDisjoint(s: seq<nat>, i: nat, j: nat)
    requires i < j < |s|
    ensures Offsets(s)[i] + s[i] <= Offsets(s)[j]
  {
    SumSnoc(s, i);
    SumPrefixMonotone(s, i + 1, j);
  }

  /** Every position of a buffer of the total size belongs to some block. */
  lemma {:induction false} BlockCover(s: seq<nat>, p: nat) returns (i: nat)
    requires p < Sum(s)
    ensures i < |s| && Offsets(s)[i] <= p < Offsets(s)[i] + s[i]
  {
    var n := |s|;
    var init := s[..n - 1];
    if p < Sum(init) {
      i := BlockCover(init, p);
      assert init[..i] == s[..i];
    } else {
      i := n - 1;
    }
  }

  lemma SizesPrefix<T>(vs: seq<seq<T>>, k: nat)
    requires k <= |vs|
    ensures Sizes(vs[..k]) == Sizes(vs)[..k]
  {
  }

  /** The merged length is the sum of the partition sizes. */
  lemma {:induction false} ConcatLength<T>(vs: seq<seq<T>>)
    ensures |Concat(vs)| == Sum(Sizes(vs))
  {
    if |vs| > 0 {
      var n := |vs|;
      ConcatLength(vs[..n - 1]);
      SizesPrefix(vs, n - 1);
    }
  }

  /** Element k of partition i sits at offset i plus k in the concatenation. */
  lemma {:induction false} ConcatBlock<T>(vs: seq<seq<T>>, i: nat, k: nat)
    requires i < |vs| && k < |vs[i]|
    ensures Offsets(Sizes(vs))[i] + k < |Concat(vs)|
    ensures Concat(vs)[Offsets(Sizes(vs))[i] + k] == vs[i][k]
  {
    var n := |vs|;
    var init := vs[..n - 1];
    ConcatLength(vs);
    ConcatLength(init);
    SizesPrefix(vs, n - 1);
    OffsetsFit(Sizes(vs), i);
    if i < n - 1 {
      ConcatBlock(init, i, k);
      SizesPrefix(vs, i);
      SizesPrefix(init, i);
      assert init[..i] == vs[..i];
    }
  }

  /** The positions past `at + |part|` and before `at` keep their contents. */
  lemma OverwriteOutside<T>(buf: seq<T>, at: nat, part: seq<T>, lo: nat, hi: nat)
    requires at + |part| <= |buf| && lo <= hi <= |buf|
    requires hi <= at || at + |part| <= lo
    ensures Overwrite(buf, at, part)[lo..hi] == buf[lo..hi]
  {
  }

  /** The copied positions hold `part`. */
  lemma OverwriteInside<T>(buf: seq<T>, at: nat, part: seq<T>)
    requires at + |part| <= |buf|
    ensures Overwrite(buf, at, part)[at..at + |part|] == part
  {
  }

  /** Block i of the buffer holds partition i. */
  ghost predicate BlockHolds<T>(buf: seq<T>, vs: seq<seq<T>>, i: nat)
  {
    && i < |vs|
    && Offsets(Sizes(vs))[i] + |vs[i]| <= |buf|
    && buf[Offsets(Sizes(vs))[i]..Offsets(Sizes(vs))[i] + |vs[i]|] == vs[i]
  }

  /** The blocks of the partitions listed in `done` hold those partitions, in a
      buffer of the total size. */
  ghost predicate Placed<T>(buf: seq<T>, vs: seq<seq<T>>, done: seq<nat>)
  {
    && |buf| == Sum(Sizes(vs))
    && forall i :: i in done && i < |vs| ==> BlockHolds(buf, vs, i)
  }

  /** Copying partition `ind` into its block keeps every other placed block. */
  lemma PlacedStep<T>(buf: seq<T>, vs: seq<seq<T>>, done: seq<nat>, ind: nat)
    requires Placed(buf, vs, done) && ind < |vs|
    ensures Offsets(Sizes(vs))[ind] + |vs[ind]| <= |buf|
    ensures Placed(Overwrite(buf, Offsets(Sizes(vs))[ind], vs[ind]), vs, done + [ind])
  {
    var s := Sizes(vs);
    var off := Offsets(s);
    OffsetsFit(s, ind);
    var buf' := Overwrite(buf, off[ind], vs[ind]);
    OverwriteInside(buf, off[ind], vs[ind]);
    forall i | i in done + [ind] && i < |vs|
      ensures BlockHolds(buf', vs, i)
    {
      OffsetsFit(s, i);
      if i < ind {
        OffsetsDisjoint(s, i, ind);
        OverwriteOutside(buf, off[ind], vs[ind], off[i], off[i] + |vs[i]|);
      } else if ind < i {
        OffsetsDisjoint(s, ind, i);
        OverwriteOutside(buf, off[ind], vs[ind], off[i], off[i] + |vs[i]|);
      }
    }
  }

  /** An empty partition has nothing to place. */
  lemma PlacedSkip<T>(buf: seq<T>, vs: seq<seq<T>>, done: seq<nat>, ind: nat)
    requires Placed(buf, vs, done) && ind < |vs| && vs[ind] == []
    ensures Placed(buf, vs, done + [ind])
  {
    assert BlockHolds(buf, vs, ind) by {
      OffsetsFit(Sizes(vs), ind);
    }
  }

  lemma BlockAt<T>(buf: seq<T>, vs: seq<seq<T>>, i: nat, k: nat)
    requires BlockHolds(buf, vs, i) && k < |vs[i]|
    ensures buf[Offsets(Sizes(vs))[i] + k] == vs[i][k]
  {
  }

  /** A position of a placed buffer is position k of some placed block i. */
  lemma Locate<T>(buf: seq<T>, vs: seq<seq<T>>, done: seq<nat>, p: nat) returns (i: nat, k: nat)
    requires Placed(buf, vs, done)
    requires forall i :: 0 <= i < |vs| ==> i in done
    requires p < |buf|
    ensures BlockHolds(buf, vs, i) && k < |vs[i]| && p == Offsets(Sizes(vs))[i] + k
  {
    i := BlockCover(Sizes(vs), p);
    k := p - Offsets(Sizes(vs))[i];
    assert i in done;
  }

  /** Once every partition is placed, the buffer is exactly their concatenation. */
  lemma PlacedAll<T>(buf: seq<T>, vs: seq<seq<T>>, done: seq<nat>)
    requires Placed(buf, vs, done)
    requires forall i :: 0 <= i < |vs| ==> i in done
    ensures buf == Concat(vs)
  {
    var c := Concat(vs);
    ConcatLength(vs);
    forall p | 0 <= p < |buf|
      ensures buf[p] == c[p]
    {
      var i, k := Locate(buf, vs, done, p);
      BlockAt(buf, vs, i, k);
      ConcatBlock(vs, i, k);
    }
  }
}
