/**
  `mvec::multi_vector<t>`: N per-worker partitions merged into one output
  buffer. Under the mutex every operation is a sequential update of five
  fields; each blocking wait of the C++ class becomes the precondition under
  which the code after it runs.
*/
module MVec {
  import opened Placement
  import opened ArrivalFlags

  /** `std::size_t` is 64 bits wide: the arrival counter wraps modulo this. */
  const SizeMod: nat := 0x1_0000_0000_0000_0000

  /** `++` on a `size_t`. */
  function Inc(x: nat): (r: nat)
    ensures r < SizeMod
    ensures x + 1 < SizeMod ==> r == x + 1
    ensures x + 1 == SizeMod ==> r == 0
  {
    (x + 1) % SizeMod
  }

  /** `--` on a `size_t`. */
  function Dec(x: nat): (r: nat)
    requires x < SizeMod
    ensures r < SizeMod
    ensures x > 0 ==> r == x - 1
    ensures x == 0 ==> r == SizeMod - 1
  {
    if x == 0 then SizeMod - 1 else x - 1
  }

  datatype Option<T> = None | Some(value: T)

  class MultiVector<T> {
    /** The worker count, fixed at construction (`_vecs.size()`). */
    const N: nat
    /** The value a value-initialised `t` has: what `resize` pads the output with. */
    const zero: T

    /** `_vecs`: partition i belongs to worker i. */
    var vecs: seq<seq<T>>
    /** `_offsets`: first the arrival flags of a round, then the placement offsets. */
    var offsets: seq<nat>
    /** `_totallinged`: the merged output buffer. */
    var totallinged: seq<T>
    /** `_reserved`: arrivals in the first half of a round, pending copies in the second. */
    var reserved: nat
    /** `_calculate_end`: the leader has published the offsets. */
    var calculateEnd: bool

    ghost predicate Valid()
      reads this
    {
      && N < SizeMod
      && reserved < SizeMod
      && |vecs| == N
      && (|offsets| == 0 || |offsets| == N)
    }

    /** `multi_vector(use_thread)`: N empty partitions, nothing else allocated. */
    constructor (useThread: nat, zero: T)
      requires useThread < SizeMod
      ensures Valid()
      ensures N == useThread && this.zero == zero
      ensures |vecs| == N && forall i :: 0 <= i < N ==> vecs[i] == []
      ensures offsets == [] && totallinged == []
      ensures reserved == 0 && !calculateEnd
    {
      N, this.zero := useThread, zero;
      vecs := seq(useThread, _ => []);
      offsets, totallinged := [], [];
      reserved, calculateEnd := 0, false;
    }

    /** `reserve_push(count)`: returns the capacity requested for each partition,
        computed in `size_t` arithmetic, or None when there are no workers. Logical
        contents do not change. */
    method ReservePush(count: nat) returns (perPartition: Option<nat>)
      requires count < SizeMod
      ensures perPartition.None? <==> N == 0
      ensures perPartition.Some? ==> perPartition.value < SizeMod
      ensures perPartition.Some? && count / N + 1 < SizeMod ==> perPartition.value == count / N + 1
      ensures perPartition.Some? && count / N + 1 < SizeMod ==> perPartition.value * N > count
      ensures perPartition.Some? && count / N + 1 == SizeMod ==> perPartition.value == 0
    {
      if N == 0 {
        return None;
      }
      perPartition := Some(Inc(count / N));
      assert count == (count / N) * N + count % N;
    }

    /** `push_back(ind, val)` (both overloads): append to partition `ind`. */
    method PushBack(ind: nat, v: T)
      requires Valid() && ind < N
      modifies this
      ensures Valid()
      ensures vecs == old(vecs)[ind := old(vecs[ind]) + [v]]
      ensures vecs[ind] == old(vecs[ind]) + [v]
      ensures forall i :: 0 <= i < N && i != ind ==> vecs[i] == old(vecs[i])
      ensures offsets == old(offsets) && totallinged == old(totallinged)
      ensures reserved == old(reserved) && calculateEnd == old(calculateEnd)
    {
      vecs := vecs[ind := vecs[ind] + [v]];
    }

    /** Entry to `reserve_totalling(ind)` up to the point where the worker either
        is the last arrival (and writes its flag at once) or starts to wait. Worker 0
        first resizes the flag vector to N, which only appends zeros. Returns whether
        this was the last arrival. */
    method Arrive(ind: nat) returns (last: bool)
      requires Valid()
      requires N > 0 ==> ind < N
      requires N > 0 && ind != 0 && Inc(reserved) == N ==> |offsets| == N
      modifies this
      ensures Valid()
      ensures N == 0 ==> !last && offsets == old(offsets) && reserved == old(reserved)
      ensures N > 0 ==> reserved == Inc(old(reserved)) && last == (reserved == N)
      ensures N > 0 ==> (offsets ==
        var resized := if ind == 0 then Resize(old(offsets), N, 0) else old(offsets);
        if last then resized[ind := 1] else resized)
      ensures N > 0 && ind == 0 ==> |offsets| == N
      ensures N > 0 && ind == 0 ==> forall j :: 0 <= j < N && j != ind ==>
        offsets[j] == if j < |old(offsets)| then old(offsets)[j] else 0
      ensures vecs == old(vecs) && totallinged == old(totallinged)
      ensures calculateEnd == old(calculateEnd)
    {
      if N == 0 {
        return false;
      }
      if ind == 0 {
        offsets := Resize(offsets, N, 0);
      }
      reserved := Inc(reserved);
      last := reserved == N;
      if last {
        offsets := offsets[ind := 1];
      }
    }

    /** Like `Arrive`, but worker 0 clears the flags to zero instead of keeping the
        previous round's offsets: the behaviour the rendezvous protocol needs. */
    method ArriveResetting(ind: nat) returns (last: bool)
      requires Valid()
      requires N > 0 ==> ind < N
      requires N > 0 && ind != 0 && Inc(reserved) == N ==> |offsets| == N
      modifies this
      ensures Valid()
      ensures N == 0 ==> !last && offsets == old(offsets) && reserved == old(reserved)
      ensures N > 0 ==> reserved == Inc(old(reserved)) && last == (reserved == N)
      ensures N > 0 ==> (offsets ==
        var resized := if ind == 0 then Zeros(N) else old(offsets);
        if last then resized[ind := 1] else resized)
      ensures vecs == old(vecs) && totallinged == old(totallinged)
      ensures calculateEnd == old(calculateEnd)
    {
      if N == 0 {
        return false;
      }
      if ind == 0 {
        offsets := Zeros(N);
      }
      reserved := Inc(reserved);
      last := reserved == N;
      if last {
        offsets := offsets[ind := 1];
      }
    }

    /** A worker that was not the last arrival, woken once all N have arrived,
        writes its flag. */
    method MarkArrived(ind: nat)
      requires Valid() && ind < N && |offsets| == N
      requires reserved == N
      modifies this
      ensures Valid()
      ensures offsets == old(offsets)[ind := 1]
      ensures vecs == old(vecs) && totallinged == old(totallinged)
      ensures reserved == old(reserved) && calculateEnd == old(calculateEnd)
    {
      offsets := offsets[ind := 1];
    }

    /** Worker 0 after its spin on the flags has ended: computes each partition's
        offset as a running sum, sizes the output buffer to the total and publishes
        the offsets. */
    method LeaderComputeOffsets()
      requires Valid() && N > 0 && |offsets| == N
      requires SpinExits(offsets)
      modifies this
      ensures Valid()
      ensures offsets == Offsets(Sizes(vecs))
      ensures offsets[0] == 0
      ensures forall i :: 0 <= i < N - 1 ==> offsets[i + 1] == offsets[i] + |vecs[i]|
      ensures forall i :: 0 <= i < N ==> offsets[i] + |vecs[i]| <= |totallinged|
      ensures totallinged == Resize(old(totallinged), Sum(Sizes(vecs)), zero)
      ensures calculateEnd
      ensures vecs == old(vecs) && reserved == old(reserved)
    {
      var sum: nat := 0;
      var i: nat := 0;
      while i < N
        invariant i <= N && |offsets| == N && |vecs| == N
        invariant sum == Sum(Sizes(vecs)[..i])
        invariant forall j :: 0 <= j < i ==> offsets[j] == Sum(Sizes(vecs)[..j])
        invariant vecs == old(vecs) && totallinged == old(totallinged)
        invariant reserved == old(reserved) && calculateEnd == old(calculateEnd)
      {
        offsets := offsets[i := sum];
        SumSnoc(Sizes(vecs), i);
        sum := sum + |vecs[i]|;
        i := i + 1;
      }
      assert Sizes(vecs)[..N] == Sizes(vecs);
      totallinged := Resize(totallinged, sum, zero);
      calculateEnd := true;
      OffsetsAreRunningSums(Sizes(vecs));
      forall i | 0 <= i < N
        ensures offsets[i] + |vecs[i]| <= |totallinged|
      {
        OffsetsFit(Sizes(vecs), i);
      }
    }

    /** `totalling(ind)`: copies partition `ind` into its block of the output and
        clears it, then counts itself done. An empty output or an empty partition
        returns before the count. */
    method Totalling(ind: nat)
      requires Valid()
      requires ind < |offsets|
      requires |totallinged| > 0 && |vecs[ind]| > 0 ==> offsets[ind] + |vecs[ind]| <= |totallinged|
      modifies this
      ensures Valid()
      ensures offsets == old(offsets) && |vecs| == N
      ensures |old(totallinged)| == 0 || |old(vecs[ind])| == 0 ==>
        && vecs == old(vecs) && totallinged == old(totallinged)
        && reserved == old(reserved) && calculateEnd == old(calculateEnd)
      ensures |old(totallinged)| > 0 && |old(vecs[ind])| > 0 ==>
        && totallinged == Overwrite(old(totallinged), offsets[ind], old(vecs[ind]))
        && vecs == old(vecs)[ind := []]
        && reserved == Dec(old(reserved))
        && calculateEnd == (reserved != 0 && old(calculateEnd))
    {
      if |totallinged| == 0 || |vecs[ind]| == 0 {
        return;
      }
      totallinged := Overwrite(totallinged, offsets[ind], vecs[ind]);
      vecs := vecs[ind := []];
      reserved := Dec(reserved);
      if reserved == 0 {
        calculateEnd := false;
      }
    }

    /** Like `Totalling`, but a worker with nothing to copy still counts itself
        done: the completion bookkeeping the round needs. */
    method TotallingIntended(ind: nat)
      requires Valid()
      requires ind < |offsets|
      requires |totallinged| > 0 && |vecs[ind]| > 0 ==> offsets[ind] + |vecs[ind]| <= |totallinged|
      modifies this
      ensures Valid()
      ensures offsets == old(offsets) && |vecs| == N
      ensures |old(totallinged)| == 0 || |old(vecs[ind])| == 0 ==>
        vecs == old(vecs) && totallinged == old(totallinged)
      ensures |old(totallinged)| > 0 && |old(vecs[ind])| > 0 ==>
        totallinged == Overwrite(old(totallinged), offsets[ind], old(vecs[ind])) && vecs == old(vecs)[ind := []]
      ensures reserved == Dec(old(reserved))
      ensures calculateEnd == (reserved != 0 && old(calculateEnd))
    {
      if |totallinged| > 0 && |vecs[ind]| > 0 {
        totallinged := Overwrite(totallinged, offsets[ind], vecs[ind]);
        vecs := vecs[ind := []];
      }
      reserved := Dec(reserved);
      if reserved == 0 {
        calculateEnd := false;
      }
    }

    /** `size()`: the number of merged elements. */
    function Size(): (n: nat)
      reads this
      ensures n == |totallinged|
    {
      |totallinged|
    }

    /** `data()`: the merged elements, `size()` of them. */
    function Data(): (r: seq<T>)
      reads this
      ensures |r| == Size()
    {
      totallinged
    }
  }
}
