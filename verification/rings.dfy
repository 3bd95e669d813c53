/** Fixed-capacity circular storage with a rotating start (modo's RingBuffer<T, N>).
    The capacity N is the length of `data`; logical index i lives in slot (start + i) % N. */
module Rings {
  import opened Arith

  datatype Ring<T> = Ring(data: seq<T>, start: nat)

  /** The capacity is positive and the start is always a slot of the buffer. */
  predicate Valid<T>(r: Ring<T>) {
    0 < |r.data| && r.start < |r.data|
  }

  function Capacity<T>(r: Ring<T>): nat {
    |r.data|
  }

  /** A value-initialised buffer: every slot holds `fill`, start 0. */
  function New<T>(n: nat, fill: T): (r: Ring<T>)
    requires 0 < n
    ensures Valid(r) && Capacity(r) == n
    ensures forall i: nat :: Get(r, i) == fill
  {
    Ring(seq(n, _ => fill), 0)
  }

  /** The physical slot behind logical index i. */
  function Slot<T>(r: Ring<T>, i: nat): (k: nat)
    requires Valid(r)
    ensures k < |r.data|
  {
    (r.start + i) % |r.data|
  }

  /** `buffer[i]` read access. */
  function Get<T>(r: Ring<T>, i: nat): T
    requires Valid(r)
  {
    r.data[Slot(r, i)]
  }

  /** What `buffer[i]` reads for i below the capacity: slot start + i, wrapping once past the
      end of the storage. */
  lemma GetReadsSlot<T>(r: Ring<T>, i: nat)
    requires Valid(r) && i < Capacity(r)
    ensures r.start + i < Capacity(r) ==> Get(r, i) == r.data[r.start + i]
    ensures Capacity(r) <= r.start + i ==> Get(r, i) == r.data[r.start + i - Capacity(r)]
  {
    var n := |r.data|;
    if r.start + i < n {
      DivModUnique(r.start + i, 0, r.start + i, n);
    } else {
      DivModUnique(r.start + i, 1, r.start + i - n, n);
    }
  }

  /** Indices are taken modulo the capacity: [i + N] is [i]. */
  lemma GetWraps<T>(r: Ring<T>, i: nat)
    requires Valid(r)
    ensures Get(r, i + Capacity(r)) == Get(r, i)
  {
    ModShift(r.start + i, 1, |r.data|);
  }

  /** `buffer[i] = v`: the indexed slot changes and no other one does. */
  function Set<T>(r: Ring<T>, i: nat, v: T): (r': Ring<T>)
    requires Valid(r)
    ensures Valid(r') && Capacity(r') == Capacity(r) && r'.start == r.start
    ensures Get(r', i) == v
    ensures forall j: nat :: Slot(r, j) != Slot(r, i) ==> Get(r', j) == Get(r, j)
    ensures forall j: nat :: Slot(r, j) == Slot(r, i) ==> Get(r', j) == v
  {
    r.(data := r.data[Slot(r, i) := v])
  }

  /** `++buffer`: the view moves forward by one, so new [i] is old [i + 1]. */
  function Rotate<T>(r: Ring<T>): (r': Ring<T>)
    requires Valid(r)
    ensures Valid(r') && Capacity(r') == Capacity(r) && r'.data == r.data
    ensures forall i: nat :: Get(r', i) == Get(r, i + 1)
  {
    var r' := r.(start := (r.start + 1) % |r.data|);
    forall i: nat ensures Get(r', i) == Get(r, i + 1) {
      ModAddLeft(r.start + 1, i, |r.data|);
    }
    r'
  }

  /** `--buffer`: the view moves back by one, so new [i + 1] is old [i]. */
  function Unrotate<T>(r: Ring<T>): (r': Ring<T>)
    requires Valid(r)
    ensures Valid(r') && Capacity(r') == Capacity(r) && r'.data == r.data
    ensures forall i: nat :: Get(r', i + 1) == Get(r, i)
    ensures Get(r', 0) == Get(r, Capacity(r) - 1)
  {
    var n := |r.data|;
    var r' := r.(start := (r.start + (n - 1)) % n);
    UnrotateProof(r, r');
    r'
  }

  lemma UnrotateProof<T>(r: Ring<T>, r': Ring<T>)
    requires Valid(r) && r' == r.(start := (r.start + (|r.data| - 1)) % |r.data|)
    ensures forall i: nat :: Get(r', i + 1) == Get(r, i)
    ensures Get(r', 0) == Get(r, Capacity(r) - 1)
  {
    var n := |r.data|;
    if r.start == 0 {
      DivModUnique(r.start + (n - 1), 0, n - 1, n);
      forall i: nat ensures Get(r', i + 1) == Get(r, i) {
        assert r'.start + (i + 1) == i + 1 * n;
        ModShift(i, 1, n);
      }
    } else {
      DivModUnique(r.start + (n - 1), 1, r.start - 1, n);
      ModShift(r.start - 1, 1, n);
    }
  }

  lemma UnrotateUndoesRotate<T>(r: Ring<T>)
    requires Valid(r)
    ensures Unrotate(Rotate(r)) == r
  {
    RotateStart(r);
    UnrotateStart(Rotate(r));
  }

  lemma RotateUndoesUnrotate<T>(r: Ring<T>)
    requires Valid(r)
    ensures Rotate(Unrotate(r)) == r
  {
    UnrotateStart(r);
    RotateStart(Unrotate(r));
  }

  /** Advancing wraps the start from the last slot back to the first. */
  lemma RotateStart<T>(r: Ring<T>)
    requires Valid(r)
    ensures Rotate(r).start == if r.start + 1 == |r.data| then 0 else r.start + 1
  {
    var n := |r.data|;
    if r.start + 1 == n {
      DivModUnique(r.start + 1, 1, 0, n);
    } else {
      DivModUnique(r.start + 1, 0, r.start + 1, n);
    }
  }

  /** Moving back wraps the start from the first slot to the last. */
  lemma UnrotateStart<T>(r: Ring<T>)
    requires Valid(r)
    ensures Unrotate(r).start == if r.start == 0 then |r.data| - 1 else r.start - 1
  {
    var n := |r.data|;
    if r.start == 0 {
      DivModUnique(r.start + (n - 1), 0, n - 1, n);
    } else {
      DivModUnique(r.start + (n - 1), 1, r.start - 1, n);
    }
  }

  /** The buffer in logical order, [0] first. */
  function Contents<T>(r: Ring<T>): (s: seq<T>)
    requires Valid(r)
    ensures |s| == Capacity(r)
    ensures forall j :: 0 <= j < |s| ==> s[j] == Get(r, j)
  {
    seq(|r.data|, j requires 0 <= j < |r.data| => Get(r, j))
  }

  /** Reading [0], overwriting it and advancing is a one-place shift of the logical contents. */
  lemma ContentsAfterWriteAndRotate<T>(r: Ring<T>, w: T)
    requires Valid(r)
    ensures Contents(Rotate(Set(r, 0, w))) == Contents(r)[1..] + [w]
  {
    var n := |r.data|;
    var r1 := Set(r, 0, w);
    var r2 := Rotate(r1);
    var lhs := Contents(r2);
    var rhs := Contents(r)[1..] + [w];
    forall j | 0 <= j < n ensures lhs[j] == rhs[j] {
      assert lhs[j] == Get(r1, j + 1);
      if j + 1 < n {
        assert Slot(r, j + 1) != Slot(r, 0) by {
          SlotsDistinct(r, j + 1, 0);
        }
      } else {
        assert Slot(r, j + 1) == Slot(r, 0) by {
          ModShift(r.start, 1, n);
        }
      }
    }
  }

  /** Two logical indices below the capacity name different slots. */
  lemma SlotsDistinct<T>(r: Ring<T>, i: nat, j: nat)
    requires Valid(r) && i < |r.data| && j < |r.data| && i != j
    ensures Slot(r, i) != Slot(r, j)
  {
    var n := |r.data|;
    var qi := (r.start + i) / n;
    var qj := (r.start + j) / n;
    assert (qi - qj) * n == (i - j) + (Slot(r, j) - Slot(r, i));
    NotMultiple(qi - qj, n, i - j);
  }
}
