/** A FIFO on top of a ring buffer (modo's Queue<T, N>). `put` writes logical slot `size`
    and `take` reads slot 0 and rotates; nothing guards against putting into a full queue. */
module Queues {
  import Rings

  datatype Queue<T> = Queue(buffer: Rings.Ring<T>, size: nat)

  predicate Valid<T>(q: Queue<T>) {
    Rings.Valid(q.buffer)
  }

  function Capacity<T>(q: Queue<T>): nat {
    Rings.Capacity(q.buffer)
  }

  /** The queue holds no more than its capacity, so its elements are all still in the buffer. */
  predicate Fits<T>(q: Queue<T>) {
    Valid(q) && q.size <= Capacity(q)
  }

  function New<T>(n: nat, fill: T): (q: Queue<T>)
    requires 0 < n
    ensures Fits(q) && Capacity(q) == n && Contents(q) == []
  {
    Queue(Rings.New(n, fill), 0)
  }

  /** The untaken elements, oldest first. */
  function Contents<T>(q: Queue<T>): (s: seq<T>)
    requires Fits(q)
    ensures |s| == q.size
    ensures forall j :: 0 <= j < |s| ==> s[j] == Rings.Get(q.buffer, j)
  {
    seq(q.size, j requires 0 <= j < q.size => Rings.Get(q.buffer, j))
  }

  /** `put`: appends when there is room; past the capacity it silently overwrites the
      slot of an older element, as modo does. */
  function Put<T>(q: Queue<T>, e: T): (q': Queue<T>)
    requires Valid(q)
    ensures Valid(q') && Capacity(q') == Capacity(q) && q'.size == q.size + 1
    ensures q.size < Capacity(q) ==> Contents(q') == Contents(q) + [e]
  {
    var q' := Queue(Rings.Set(q.buffer, q.size, e), q.size + 1);
    if q.size < Capacity(q) then
      assert Contents(q') == Contents(q) + [e] by {
        forall j | 0 <= j < q.size ensures Rings.Get(q'.buffer, j) == Rings.Get(q.buffer, j) {
          Rings.SlotsDistinct(q.buffer, j, q.size);
        }
      }
      q'
    else
      q'
  }

  /** `take`: the oldest element comes out and the rest keep their order. Callers check
      `is_empty` first; an overfull queue still answers, from whatever the slots hold. */
  function Take<T>(q: Queue<T>): (r: (Queue<T>, T))
    requires Valid(q) && q.size > 0
    ensures Valid(r.0) && Capacity(r.0) == Capacity(q) && r.0.size == q.size - 1
    ensures Fits(q) ==> Fits(r.0) && r.1 == Contents(q)[0] && Contents(r.0) == Contents(q)[1..]
  {
    (Queue(Rings.Rotate(q.buffer), q.size - 1), Rings.Get(q.buffer, 0))
  }

  /** `is_empty` holds exactly when nothing is left untaken. */
  function IsEmpty<T>(q: Queue<T>): (b: bool)
    ensures Fits(q) ==> (b <==> Contents(q) == [])
  {
    q.size == 0
  }

  /** Put every element of `xs` in order. */
  function PutAll<T>(q: Queue<T>, xs: seq<T>): (q': Queue<T>)
    requires Valid(q)
    ensures Valid(q') && Capacity(q') == Capacity(q) && q'.size == q.size + |xs|
    decreases |xs|
  {
    if xs == [] then q else PutAll(Put(q, xs[0]), xs[1..])
  }

  /** Take until empty, collecting what comes out. */
  function Drain<T>(q: Queue<T>): (out: seq<T>)
    requires Fits(q)
    ensures |out| == q.size
    decreases q.size
  {
    if IsEmpty(q) then [] else var (q', e) := Take(q); [e] + Drain(q')
  }

  lemma {:induction false} PutAllAppends<T>(q: Queue<T>, xs: seq<T>)
    requires Fits(q) && q.size + |xs| <= Capacity(q)
    ensures Fits(PutAll(q, xs))
    ensures Contents(PutAll(q, xs)) == Contents(q) + xs
    decreases |xs|
  {
    if xs != [] {
      var q1 := Put(q, xs[0]);
      PutAllAppends(q1, xs[1..]);
      assert xs == [xs[0]] + xs[1..];
    }
  }

  lemma {:induction false} DrainYieldsContents<T>(q: Queue<T>)
    requires Fits(q)
    ensures Drain(q) == Contents(q)
    decreases q.size
  {
    if !IsEmpty(q) {
      var (q', e) := Take(q);
      DrainYieldsContents(q');
    }
  }

  /** First in, first out: whatever is put into a queue with room comes back out in the same order. */
  lemma FifoRoundTrip<T>(q: Queue<T>, xs: seq<T>)
    requires Fits(q) && q.size + |xs| <= Capacity(q)
    ensures Fits(PutAll(q, xs))
    ensures Drain(PutAll(q, xs)) == Contents(q) + xs
  {
    PutAllAppends(q, xs);
    DrainYieldsContents(PutAll(q, xs));
  }
}
