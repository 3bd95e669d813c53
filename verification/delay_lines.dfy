/** The read-then-write step shared by modo's Delay, Freeverb Comb and Freeverb AllPass:
    read logical [0], write the new value into the same slot, advance by one.
    Comb and AllPass keep an explicit `position`; it is the ring's `start`. */
module DelayLines {
  import Rings

  /** One step: the value read and the buffer after writing `w` and advancing. */
  function Tick<T>(r: Rings.Ring<T>, w: T): (res: (Rings.Ring<T>, T))
    requires Rings.Valid(r)
    ensures Rings.Valid(res.0) && Rings.Capacity(res.0) == Rings.Capacity(r)
    ensures res.0.start < Rings.Capacity(res.0)
    ensures res.1 == Rings.Contents(r)[0]
    ensures Rings.Contents(res.0) == Rings.Contents(r)[1..] + [w]
  {
    Rings.ContentsAfterWriteAndRotate(r, w);
    (Rings.Rotate(Rings.Set(r, 0, w)), Rings.Get(r, 0))
  }

  /** Drive the line with the written values `ws`, one per step; collect the reads. */
  function Feed<T>(r: Rings.Ring<T>, ws: seq<T>): (res: (Rings.Ring<T>, seq<T>))
    requires Rings.Valid(r)
    ensures Rings.Valid(res.0) && Rings.Capacity(res.0) == Rings.Capacity(r)
    ensures |res.1| == |ws|
    decreases |ws|
  {
    if ws == [] then (r, [])
    else
      var (r1, x) := Tick(r, ws[0]);
      var (r2, xs) := Feed(r1, ws[1..]);
      (r2, [x] + xs)
  }

  /** The read at step k is the value written N steps earlier, or the initial
      contents while fewer than N values have been written. */
  lemma {:induction false} FeedDelaysByCapacity<T>(r: Rings.Ring<T>, ws: seq<T>)
    requires Rings.Valid(r)
    ensures forall k :: 0 <= k < |ws| ==> Feed(r, ws).1[k] == (Rings.Contents(r) + ws)[k]
    ensures Rings.Contents(Feed(r, ws).0) == (Rings.Contents(r) + ws)[|ws|..]
    decreases |ws|
  {
    if ws != [] {
      var (r1, x) := Tick(r, ws[0]);
      FeedDelaysByCapacity(r1, ws[1..]);
      var c := Rings.Contents(r);
      assert Rings.Contents(r1) + ws[1..] == (c + ws)[1..];
    }
  }

  /** A fresh, zero-filled line of capacity N returns 0 for the first N steps and then
      exactly what was written N steps before. */
  lemma FreshLineLags(n: nat, ws: seq<real>)
    requires 0 < n
    ensures forall k :: 0 <= k < |ws| ==>
      Feed(Rings.New(n, 0.0), ws).1[k] == (if k < n then 0.0 else ws[k - n])
  {
    var r := Rings.New(n, 0.0);
    FeedDelaysByCapacity(r, ws);
    var outs := Feed(r, ws).1;
    var c := Rings.Contents(r);
    forall k | 0 <= k < |ws| ensures outs[k] == (if k < n then 0.0 else ws[k - n]) {
      assert outs[k] == (c + ws)[k];
      if k < n {
        assert (c + ws)[k] == c[k] == Rings.Get(r, k);
      }
    }
  }
}
