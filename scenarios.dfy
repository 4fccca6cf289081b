/**
  Concrete rounds: the demonstration driver's run, and the two schedules that set
  the code as written apart from the behaviour the protocol is meant to have.
*/
module Scenarios {
  import opened Placement
  import opened ArrivalFlags
  import opened MVec
  import opened Rounds

  /** The values 0 .. n-1. */
  function Range(n: nat): (r: seq<int>)
    ensures |r| == n && forall i :: 0 <= i < n ==> r[i] == i
  {
    seq(n, i => i)
  }

  lemma {:induction false} SumConstant(s: seq<nat>, m: nat)
    requires forall i :: 0 <= i < |s| ==> s[i] == m
    ensures Sum(s) == |s| * m
  {
    if |s| > 0 {
      SumConstant(s[..|s| - 1], m);
    }
  }

  lemma ConcatPair<T>(a: seq<T>, b: seq<T>)
    ensures Concat([a, b]) == a + b
  {
    assert [a, b][..1] == [a];
    assert [a][..0] == [];
    assert Concat([a]) == a;
  }

  lemma OffsetsPair(m: nat, n: nat)
    ensures Offsets([m, n]) == [0, m]
  {
    assert [m, n][..1] == [m] && [m][..0] == [] && [m, n][..0] == [];
    assert Sum([m]) == m;
    assert Offsets([m, n])[0] == 0 && Offsets([m, n])[1] == m;
  }

  /** The driver in main.cpp: five workers each push 0 .. 999 after
      `reserve_push(5000)`, then each runs `reserve_totalling` and `totalling`, and
      the coordinator's `totalling_wait` returns. The output is five consecutive
      blocks 0 .. 999 and the counter is back at 0. */
  method Demo() returns (capacity: Option<nat>, out: seq<int>, reserved: nat)
    ensures capacity == Some(1001)
    ensures |out| == 5000
    ensures forall j :: 0 <= j < 5000 ==> out[j] == j % 1000
    ensures reserved == 0
  {
    var mv := new MultiVector<int>(5, 0);
    capacity := mv.ReservePush(5000);
    var w := 0;
    while w < 5
      invariant 0 <= w <= 5
      invariant mv.Valid() && mv.N == 5 && mv.reserved == 0
      invariant forall x :: 0 <= x < w ==> mv.vecs[x] == Range(1000)
      invariant forall x :: w <= x < 5 ==> mv.vecs[x] == []
    {
      var i := 0;
      while i < 1000
        invariant 0 <= i <= 1000
        invariant mv.Valid() && mv.N == 5 && mv.reserved == 0
        invariant mv.vecs[w] == Range(i)
        invariant forall x :: 0 <= x < w ==> mv.vecs[x] == Range(1000)
        invariant forall x :: w < x < 5 ==> mv.vecs[x] == []
      {
        mv.PushBack(w, i);
        assert Range(i) + [i] == Range(i + 1);
        i := i + 1;
      }
      w := w + 1;
    }
    ghost var vs := mv.vecs;
    Rendezvous(mv, Indices(5));
    Merge(mv, Indices(5));
    out, reserved := mv.Data(), mv.reserved;
    ConcatLength(vs);
    SumConstant(Sizes(vs), 1000);
    forall j | 0 <= j < 5000
      ensures out[j] == j % 1000
    {
      var i, k := j / 1000, j % 1000;
      SumConstant(Sizes(vs)[..i], 1000);
      ConcatBlock(vs, i, k);
    }
  }

  /** Round 1 of a two-worker structure in which each worker pushes one value:
      it leaves the offsets [0, 1] behind. */
  method FirstRound() returns (mv: MultiVector<int>)
    ensures fresh(mv) && mv.Valid() && mv.N == 2 && mv.zero == 0
    ensures mv.vecs == [[], []] && mv.offsets == [0, 1] && mv.totallinged == [1, 2]
    ensures mv.reserved == 0 && !mv.calculateEnd
  {
    mv := new MultiVector<int>(2, 0);
    mv.PushBack(0, 1);
    mv.PushBack(1, 2);
    assert mv.vecs[0] == [1] && mv.vecs[1] == [2];
    ghost var vs := mv.vecs;
    assert vs == [[1], [2]];
    assert Sizes(vs) == [1, 1];
    OffsetsPair(1, 1);
    ConcatPair([1], [2]);
    Rendezvous(mv, Indices(2));
    Merge(mv, Indices(2));
    assert mv.vecs == [[], []];
  }

  /** Round 2 after `FirstRound`, with partition 0 holding 10, 11, 12 and partition 1
      holding 20. Worker 1 arrives first and waits; worker 0 arrives last and writes
      its flag. The stale offset 1 of worker 1 lets the leader's spin end before
      worker 1 has written its flag, and the leader publishes the offsets [0, 3]. */
  method StaleFlagsRendezvous() returns (mv: MultiVector<int>)
    ensures fresh(mv) && mv.Valid() && mv.N == 2 && mv.reserved == 2
    ensures mv.vecs == [[10, 11, 12], [20]]
    ensures mv.offsets == [0, 3] && mv.totallinged == [1, 2, 0, 0]
  {
    mv := FirstRound();
    mv.PushBack(0, 10);
    mv.PushBack(0, 11);
    mv.PushBack(0, 12);
    mv.PushBack(1, 20);
    assert mv.vecs[0] == [10, 11, 12] && mv.vecs[1] == [20];
    assert mv.vecs == [[10, 11, 12], [20]];
    var last := mv.Arrive(1);
    last := mv.Arrive(0);
    assert mv.offsets == Flags([0, 1], {0});
    StaleFlagsSpin([0, 1]);
    assert Sizes(mv.vecs) == [3, 1];
    OffsetsPair(3, 1);
    assert Sum([3, 1]) == 4 by {
      assert [3, 1][..1] == [3] && [3][..0] == [];
    }
    mv.LeaderComputeOffsets();
    assert Sum(Sizes(mv.vecs)) == 4 && |mv.totallinged| == 4;
    assert mv.totallinged[2] == 0 && mv.totallinged[3] == 0;
  }

  /** The rest of that round: worker 1 writes its flag after the offsets are
      published, overwriting its offset with 1, and copies into worker 0's block. */
  method StaleFlagsScenario() returns (out: seq<int>)
    ensures out == [10, 20, 12, 0]
    ensures out != Concat([[10, 11, 12], [20]])
  {
    var mv := StaleFlagsRendezvous();
    mv.MarkArrived(1);
    mv.Totalling(0);
    assert mv.totallinged == [10, 11, 12, 0];
    mv.Totalling(1);
    out := mv.Data();
    assert out[1] == 20;
    ConcatPair([10, 11, 12], [20]);
  }

  /** The same schedule when worker 0 clears the flags on arrival: the spin does not
      end until worker 1 has written its flag, and the round merges correctly. */
  method ResetFlagsScenario() returns (spinEndsEarly: bool, out: seq<int>)
    ensures !spinEndsEarly
    ensures out == [10, 11, 12, 20]
  {
    var mv := FirstRound();
    mv.PushBack(0, 10);
    mv.PushBack(0, 11);
    mv.PushBack(0, 12);
    mv.PushBack(1, 20);
    assert mv.vecs[0] == [10, 11, 12] && mv.vecs[1] == [20];
    ghost var vs := mv.vecs;
    assert vs == [[10, 11, 12], [20]];
    var last := mv.Arrive(1);
    last := mv.ArriveResetting(0);
    assert mv.offsets == Flags(Zeros(2), {0});
    FreshFlagsSpin(2, {0});
    spinEndsEarly := SpinExits(mv.offsets);
    mv.MarkArrived(1);
    assert mv.offsets == Flags(Zeros(2), {0, 1});
    FreshFlagsSpin(2, {0, 1});
    mv.LeaderComputeOffsets();
    Merge(mv, Indices(2));
    out := mv.Data();
    ConcatPair([10, 11, 12], [20]);
  }

  /** A round in which worker 1 pushes nothing. The output is right, but the counter
      stops at 1: `totalling_wait` never returns, and the offsets-ready flag stays set. */
  method EmptyPartitionStalls() returns (out: seq<int>, reserved: nat, calculateEnd: bool)
    ensures out == [7] && reserved == 1 && calculateEnd
  {
    var mv := new MultiVector<int>(2, 0);
    mv.PushBack(0, 7);
    assert mv.vecs[0] == [7] && mv.vecs[1] == [];
    assert mv.vecs == [[7], []];
    assert Sizes(mv.vecs) == [1, 0];
    OffsetsPair(1, 0);
    assert Sum([1, 0]) == 1 by {
      assert [1, 0][..1] == [1] && [1][..0] == [];
    }
    Rendezvous(mv, Indices(2));
    assert mv.offsets == [0, 1] && |mv.totallinged| == 1;
    mv.Totalling(0);
    mv.Totalling(1);
    out, reserved, calculateEnd := mv.Data(), mv.reserved, mv.calculateEnd;
  }

  /** The same round with every worker counting itself done: the counter returns
      to 0 and the flag is cleared. */
  method EmptyPartitionCompletes() returns (out: seq<int>, reserved: nat, calculateEnd: bool)
    ensures out == [7] && reserved == 0 && !calculateEnd
  {
    var mv := new MultiVector<int>(2, 0);
    mv.PushBack(0, 7);
    assert mv.vecs[0] == [7] && mv.vecs[1] == [];
    ghost var vs := mv.vecs;
    assert vs == [[7], []];
    Rendezvous(mv, Indices(2));
    MergeIntended(mv, Indices(2));
    out, reserved, calculateEnd := mv.Data(), mv.reserved, mv.calculateEnd;
    ConcatPair([7], []);
  }
}
