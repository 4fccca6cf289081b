/**
  One collect/merge round of a `MultiVector`, driven sequentially. The threads
  of `multi_vector.h` run the same per-worker steps; each step here is taken only
  when the wait in front of it in `multi_vector.h` would have let it through.
*/
module Rounds {
  import opened Placement
  import opened ArrivalFlags
  import opened MVec

  /** `order` lists every index below `n` exactly once. */
  ghost predicate IsPermutation(order: seq<nat>, n: nat)
  {
    && |order| == n
    && (forall a :: 0 <= a < |order| ==> order[a] < n)
    && (forall a, b :: 0 <= a < b < |order| ==> order[a] != order[b])
    && (forall i :: 0 <= i < n ==> i in order)
  }

  lemma NotYetDone(order: seq<nat>, k: nat)
    requires k < |order|
    requires forall a, b :: 0 <= a < b < |order| ==> order[a] != order[b]
    ensures order[k] !in order[..k]
  {
  }

  /** How many of the workers in `done` had a non-empty partition, so counted
      themselves done. */
  ghost function Copied<T>(vs: seq<seq<T>>, done: seq<nat>): nat
  {
    if |done| == 0 then 0
    else (var last := done[|done| - 1];
      Copied(vs, done[..|done| - 1]) + if last < |vs| && vs[last] != [] then 1 else 0)
  }

  lemma {:induction false} CopiedAtMost<T>(vs: seq<seq<T>>, done: seq<nat>)
    ensures Copied(vs, done) <= |done|
  {
    if |done| > 0 {
      CopiedAtMost(vs, done[..|done| - 1]);
    }
  }

  /** Every worker visited counts itself done exactly when no visited partition was empty. */
  lemma {:induction false} CopiedAllVisited<T>(vs: seq<seq<T>>, done: seq<nat>)
    requires forall j :: 0 <= j < |done| ==> done[j] < |vs|
    ensures Copied(vs, done) == |done| <==> forall j :: 0 <= j < |done| ==> vs[done[j]] != []
  {
    if |done| > 0 {
      var init := done[..|done| - 1];
      CopiedAllVisited(vs, init);
      CopiedAtMost(vs, init);
      assert forall j :: 0 <= j < |init| ==> init[j] == done[j];
    }
  }

  /** Over a whole round, the count reaches the worker count exactly when no
      partition was empty. */
  lemma CopiedAll<T>(vs: seq<seq<T>>, order: seq<nat>)
    requires IsPermutation(order, |vs|)
    ensures Copied(vs, order) == |vs| <==> forall i :: 0 <= i < |vs| ==> vs[i] != []
  {
    CopiedAllVisited(vs, order);
    if forall j :: 0 <= j < |order| ==> vs[order[j]] != [] {
      forall i | 0 <= i < |vs|
        ensures vs[i] != []
      {
        assert i in order;
        var j :| 0 <= j < |order| && order[j] == i;
      }
    }
  }

  /** The indices 0 .. n-1 in increasing order. */
  function Indices(n: nat): (r: seq<nat>)
    ensures IsPermutation(r, n)
  {
    var r := seq(n, i => i);
    assert forall i :: 0 <= i < n ==> r[i] == i && i in r;
    r
  }

  /** Every worker runs `reserve_totalling`: all arrive in `order`, the last one
      writes its flag at once, the others write theirs when woken, and then the
      leader computes the offsets. Afterwards the offsets are the prefix sums of
      the partition sizes and the output has room for all of them. */
  method Rendezvous<T>(mv: MultiVector<T>, order: seq<nat>)
    requires mv.Valid() && mv.N > 0 && IsPermutation(order, mv.N)
    requires mv.reserved == 0
    modifies mv
    ensures mv.Valid()
    ensures mv.vecs == old(mv.vecs)
    ensures mv.offsets == Offsets(Sizes(mv.vecs))
    ensures mv.totallinged == Resize(old(mv.totallinged), Sum(Sizes(mv.vecs)), mv.zero)
    ensures mv.reserved == mv.N && mv.calculateEnd
  {
    var n := mv.N;
    var k := 0;
    while k < n
      invariant 0 <= k <= n
      invariant mv.Valid() && mv.reserved == k
      invariant (exists j :: 0 <= j < k && order[j] == 0) ==> |mv.offsets| == n
      invariant k == n ==> |mv.offsets| == n && mv.offsets[order[n - 1]] == 1
      invariant mv.vecs == old(mv.vecs) && mv.totallinged == old(mv.totallinged)
    {
      if order[k] != 0 && k == n - 1 {
        assert 0 in order;
        var j :| 0 <= j < |order| && order[j] == 0;
        assert j < k;
      }
      var last := mv.Arrive(order[k]);
      k := k + 1;
    }
    k := 0;
    while k < n - 1
      invariant 0 <= k <= n - 1
      invariant mv.Valid() && mv.reserved == n && |mv.offsets| == n
      invariant forall a :: (0 <= a < k || a == n - 1) ==> mv.offsets[order[a]] == 1
      invariant mv.vecs == old(mv.vecs) && mv.totallinged == old(mv.totallinged)
    {
      mv.MarkArrived(order[k]);
      k := k + 1;
    }
    forall i | 0 <= i < n
      ensures mv.offsets[i] == 1
    {
      assert i in order;
      var a :| 0 <= a < |order| && order[a] == i;
    }
    FlagsAllSet(mv.offsets);
    mv.LeaderComputeOffsets();
  }

  /** The state part-way through the merge: the workers listed in `done` have
      placed their partitions `vs` and cleared them; the others have not started. */
  ghost predicate InMerge<T>(mv: MultiVector<T>, vs: seq<seq<T>>, done: seq<nat>)
    reads mv
  {
    && mv.Valid() && |vs| == mv.N
    && mv.offsets == Offsets(Sizes(vs))
    && Placed(mv.totallinged, vs, done)
    && forall i :: 0 <= i < mv.N ==> mv.vecs[i] == if i in done then [] else vs[i]
  }

  /** The `k`-th worker of `order` runs `totalling` during the merge. */
  method MergeStep<T>(mv: MultiVector<T>, ghost vs: seq<seq<T>>, order: seq<nat>, k: nat)
    requires IsPermutation(order, mv.N) && k < mv.N
    requires InMerge(mv, vs, order[..k])
    requires mv.reserved == mv.N - Copied(vs, order[..k]) && mv.calculateEnd
    modifies mv
    ensures InMerge(mv, vs, order[..k + 1])
    ensures mv.reserved == mv.N - Copied(vs, order[..k + 1])
    ensures mv.calculateEnd <==> mv.reserved != 0
  {
    var ind := order[k];
    ghost var done := order[..k];
    NotYetDone(order, k);
    assert order[..k + 1] == done + [ind];
    assert (done + [ind])[..k] == done;
    CopiedAtMost(vs, done);
    ghost var before := mv.totallinged;
    ghost var parts := mv.vecs;
    if vs[ind] != [] {
      PlacedStep(before, vs, done, ind);
    } else {
      PlacedSkip(before, vs, done, ind);
    }
    mv.Totalling(ind);
    assert mv.vecs == parts[ind := []];
    forall i | 0 <= i < mv.N
      ensures mv.vecs[i] == if i in done + [ind] then [] else vs[i]
    {
      assert i in done + [ind] <==> i in done || i == ind;
    }
  }

  /** `MergeStep` with the intended completion bookkeeping. */
  method MergeStepIntended<T>(mv: MultiVector<T>, ghost vs: seq<seq<T>>, ghost done: seq<nat>, ind: nat)
    requires InMerge(mv, vs, done) && ind < mv.N && ind !in done
    modifies mv
    ensures InMerge(mv, vs, done + [ind])
    ensures mv.reserved == Dec(old(mv.reserved))
    ensures mv.calculateEnd == (mv.reserved != 0 && old(mv.calculateEnd))
  {
    ghost var before := mv.totallinged;
    ghost var parts := mv.vecs;
    if vs[ind] != [] {
      PlacedStep(before, vs, done, ind);
    } else {
      PlacedSkip(before, vs, done, ind);
    }
    mv.TotallingIntended(ind);
    assert mv.vecs == parts[ind := []];
    forall i | 0 <= i < mv.N
      ensures mv.vecs[i] == if i in done + [ind] then [] else vs[i]
    {
      assert i in done + [ind] <==> i in done || i == ind;
    }
  }

  /** Every worker runs `totalling`, once each, in any order (followers only return
      from `reserve_totalling` once the offsets are published). The output becomes
      the concatenation of the partitions in index order and every partition is
      emptied; the counter returns to 0, which ends `totalling_wait`, exactly when
      no partition was empty. */
  method Merge<T>(mv: MultiVector<T>, order: seq<nat>)
    requires mv.Valid() && mv.N > 0 && IsPermutation(order, mv.N)
    requires mv.offsets == Offsets(Sizes(mv.vecs))
    requires |mv.totallinged| == Sum(Sizes(mv.vecs))
    requires mv.reserved == mv.N && mv.calculateEnd
    modifies mv
    ensures mv.Valid()
    ensures mv.totallinged == Concat(old(mv.vecs))
    ensures forall i :: 0 <= i < mv.N ==> mv.vecs[i] == []
    ensures mv.offsets == old(mv.offsets)
    ensures mv.reserved == 0 <==> forall i :: 0 <= i < mv.N ==> old(mv.vecs[i]) != []
    ensures mv.calculateEnd <==> mv.reserved != 0
  {
    ghost var vs := mv.vecs;
    var n := mv.N;
    var k := 0;
    assert order[..0] == [];
    while k < n
      invariant 0 <= k <= n
      invariant InMerge(mv, vs, order[..k])
      invariant mv.reserved == n - Copied(vs, order[..k])
      invariant mv.calculateEnd <==> mv.reserved != 0
    {
      CopiedAtMost(vs, order[..k]);
      MergeStep(mv, vs, order, k);
      k := k + 1;
    }
    assert order[..n] == order;
    PlacedAll(mv.totallinged, vs, order);
    CopiedAll(vs, order);
  }

  /** `Merge` with the intended completion bookkeeping: the counter returns to 0
      and the offsets-ready flag is cleared whatever the partition sizes. */
  method MergeIntended<T>(mv: MultiVector<T>, order: seq<nat>)
    requires mv.Valid() && mv.N > 0 && IsPermutation(order, mv.N)
    requires mv.offsets == Offsets(Sizes(mv.vecs))
    requires |mv.totallinged| == Sum(Sizes(mv.vecs))
    requires mv.reserved == mv.N && mv.calculateEnd
    modifies mv
    ensures mv.Valid()
    ensures mv.totallinged == Concat(old(mv.vecs))
    ensures forall i :: 0 <= i < mv.N ==> mv.vecs[i] == []
    ensures mv.offsets == old(mv.offsets)
    ensures mv.reserved == 0 && !mv.calculateEnd
  {
    ghost var vs := mv.vecs;
    var n := mv.N;
    var k := 0;
    assert order[..0] == [];
    while k < n
      invariant 0 <= k <= n
      invariant InMerge(mv, vs, order[..k])
      invariant mv.reserved == n - k
      invariant mv.calculateEnd <==> mv.reserved != 0
    {
      var ind := order[k];
      NotYetDone(order, k);
      assert order[..k + 1] == order[..k] + [ind];
      MergeStepIntended(mv, vs, order[..k], ind);
      k := k + 1;
    }
    assert order[..n] == order;
    PlacedAll(mv.totallinged, vs, order);
  }
}
