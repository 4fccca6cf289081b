/**
  The arrival flags of one rendezvous round. The offsets vector doubles as the
  flag array: each arriving worker writes 1 at its own index, and the leader
  spins until the entries add up to the number of workers. What the entries
  held before the round started decides whether that sum tells the leader that
  every worker has written its flag.
*/
module ArrivalFlags {
  import opened Placement

  /** `n` zero entries: the flag array `resize(n, 0)` produces from an empty vector. */
  function Zeros(n: nat): (r: seq<nat>)
    ensures |r| == n && forall i :: 0 <= i < n ==> r[i] == 0
  {
    seq(n, _ => 0)
  }

  /** The flag array after the workers in `marked` wrote their flag over `base`. */
  function Flags(base: seq<nat>, marked: set<nat>): (r: seq<nat>)
    ensures |r| == |base|
    ensures forall i :: 0 <= i < |base| && i in marked ==> r[i] == 1
    ensures forall i :: 0 <= i < |base| && i !in marked ==> r[i] == base[i]
  {
    seq(|base|, i requires 0 <= i < |base| => if i in marked then 1 else base[i])
  }

  /** The exit test of the leader's spin (the flags add up to their count). */
  predicate SpinExits(f: seq<nat>)
  {
    Sum(f) == |f|
  }

  /** For entries that are 0 or 1, the spin exits exactly when all of them are 1. */
  lemma {:induction false} FlagsAllSet(f: seq<nat>)
    requires forall i :: 0 <= i < |f| ==> f[i] <= 1
    ensures Sum(f) <= |f|
    ensures SpinExits(f) <==> forall i :: 0 <= i < |f| ==> f[i] == 1
  {
    if |f| > 0 {
      var init := f[..|f| - 1];
      FlagsAllSet(init);
      if SpinExits(f) {
        forall i | 0 <= i < |f|
          ensures f[i] == 1
        {
          if i < |f| - 1 {
            assert init[i] == f[i];
          }
        }
      }
    }
  }

  /** Starting from zeros, the spin exits exactly when every worker has written its flag. */
  lemma FreshFlagsSpin(n: nat, marked: set<nat>)
    ensures SpinExits(Flags(Zeros(n), marked)) <==> forall i :: 0 <= i < n ==> i in marked
  {
    var f := Flags(Zeros(n), marked);
    FlagsAllSet(f);
    if SpinExits(f) {
      forall i | 0 <= i < n
        ensures i in marked
      {
        assert f[i] == 1;
      }
    }
  }

  /** Stale entries can fake an arrival: over a two-entry vector whose second
      entry is 1 (the offsets a two-worker round leaves behind when partition 0
      held one element), the spin exits once worker 0 alone has written its flag. */
  lemma StaleFlagsSpin(base: seq<nat>)
    requires |base| == 2 && base[1] == 1
    ensures SpinExits(Flags(base, {0}))
  {
    var f := Flags(base, {0});
    assert f == [1, 1];
    assert f[..1] == [1] && f[..1][..0] == [];
    assert Sum(f[..1]) == 1;
  }
}
