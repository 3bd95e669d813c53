/** modo's pull graph: units (`Node`, `Node2`) read their inputs on demand, each input being a
    socket (`Input`) bound either to a constant (its own `Value`) or to another unit's output. A
    unit remembers the time stamp of its last computation and the value it computed; asked again
    for the same stamp it answers from that memo, asked for a new one it stamps itself first,
    then pulls its inputs in declaration order and runs its processing step once.

    The graph is an arena: units are named by their index, and a link is an index. Because a unit
    stamps itself before pulling, a cycle back to it within one tick reads its previous value,
    and the number of units not yet stamped with the current tick bounds every pull. */
module Graph {

  /** An input socket: bound to a constant, or linked to the output of unit `source`. */
  datatype Socket<V> = Const(value: V) | Link(source: nat)

  /** A unit: its processing state, its input sockets in declaration order, and its memo, the
      stamp `t` of the last computation and the `value` it produced. */
  datatype Unit<S, V> = Unit(state: S, inputs: seq<Socket<V>>, t: int, value: V)

  /** A unit's processing step (`produce`, or `process` on the pulled inputs): from its state
      and its input values, the next state and the output. */
  type Step<!S, !V> = (S, seq<V>) -> (S, V)

  /** `Node`'s constructor: stamp 0 and the default value. */
  function NewNode<S, V>(state: S, inputs: seq<Socket<V>>, initial: V): (u: Unit<S, V>)
    ensures u.t == 0 && u.value == initial && u.state == state && u.inputs == inputs
  {
    Unit(state, inputs, 0, initial)
  }

  /** Every link of a socket list names a unit of an arena of n units. */
  predicate Reaches<V>(sockets: seq<Socket<V>>, n: nat) {
    forall k :: 0 <= k < |sockets| ==> sockets[k].Link? ==> sockets[k].source < n
  }

  /** Every link in the arena names a unit of the arena. */
  predicate Wired<S, V>(units: seq<Unit<S, V>>) {
    forall i :: 0 <= i < |units| ==> Reaches(units[i].inputs, |units|)
  }

  /** What pulling at tick t may do to an arena: no unit is rewired, and a unit that changes was
      not yet stamped with t and is stamped with t afterwards. */
  ghost predicate Touches<S, V>(a: seq<Unit<S, V>>, b: seq<Unit<S, V>>, t: int) {
    && |a| == |b|
    && forall k :: 0 <= k < |a| ==>
         b[k].inputs == a[k].inputs && (b[k] == a[k] || (a[k].t != t && b[k].t == t))
  }

  // ---- The termination measure ----

  /** The number of units not yet stamped with t. */
  function Unstamped<S, V>(units: seq<Unit<S, V>>, t: int): nat
    decreases |units|
  {
    if units == [] then 0
    else Unstamped(units[..|units| - 1], t) + (if units[|units| - 1].t != t then 1 else 0)
  }

  /** Stamping never unstamps: an arena that keeps every stamp with t has no more unstamped
      units, and strictly fewer when it also stamps unit i, which was not stamped. */
  lemma {:induction false} FewerUnstamped<S, V>(a: seq<Unit<S, V>>, b: seq<Unit<S, V>>, t: int, i: nat)
    requires |a| == |b|
    requires forall k :: 0 <= k < |a| && a[k].t == t ==> b[k].t == t
    ensures Unstamped(b, t) <= Unstamped(a, t)
    ensures i < |a| && a[i].t != t && b[i].t == t ==> Unstamped(b, t) < Unstamped(a, t)
    decreases |a|
  {
    if a != [] {
      var n := |a| - 1;
      FewerUnstamped(a[..n], b[..n], t, i);
    }
  }

  lemma TouchesKeepsStamps<S, V>(a: seq<Unit<S, V>>, b: seq<Unit<S, V>>, t: int)
    requires Touches(a, b, t)
    ensures forall k :: 0 <= k < |a| && a[k].t == t ==> b[k] == a[k]
    ensures Wired(a) ==> Wired(b)
  {
    if Wired(a) {
      forall i | 0 <= i < |b|
        ensures Reaches(b[i].inputs, |b|)
      {
        assert b[i].inputs == a[i].inputs;
      }
    }
  }

  lemma TouchesChain<S, V>(a: seq<Unit<S, V>>, b: seq<Unit<S, V>>, c: seq<Unit<S, V>>, t: int)
    requires Touches(a, b, t) && Touches(b, c, t)
    ensures Touches(a, c, t)
  {
    forall k | 0 <= k < |a|
      ensures c[k].inputs == a[k].inputs && (c[k] == a[k] || (a[k].t != t && c[k].t == t))
    {
      if b[k] != a[k] {
        assert b[k].t == t;
      }
    }
  }

  // ---- Pulling ----

  /** `Node::get` / `Node2::get` at tick t. At the memo's own stamp the memo answers and nothing
      changes. Otherwise the unit is stamped first, its inputs are pulled, and its step runs once;
      its state and memo are updated with the result. */
  function Get<S, V>(step: Step<S, V>, units: seq<Unit<S, V>>, i: nat, t: int): (r: (seq<Unit<S, V>>, V))
    requires Wired(units) && i < |units|
    ensures Wired(r.0) && Touches(units, r.0, t)
    ensures r.0[i].t == t && r.1 == r.0[i].value
    ensures units[i].t == t ==> r == (units, units[i].value)
    decreases Unstamped(units, t), 0, 0
  {
    var u := units[i];
    if u.t == t then (units, u.value)
    else
      var stamped := units[i := u.(t := t)];
      assert Touches(units, stamped, t);
      TouchesKeepsStamps(units, stamped, t);
      FewerUnstamped(units, stamped, t, i);
      var (pulled, args) := Pull(step, stamped, u.inputs, t);
      TouchesKeepsStamps(stamped, pulled, t);
      var (state', v) := step(u.state, args);
      var done := pulled[i := u.(state := state', t := t, value := v)];
      TouchesChain(units, stamped, pulled, t);
      assert Touches(units, done, t) by {
        forall k | 0 <= k < |units|
          ensures done[k].inputs == units[k].inputs && (done[k] == units[k] || (units[k].t != t && done[k].t == t))
        {
          if k != i {
            assert done[k] == pulled[k];
          }
        }
      }
      TouchesKeepsStamps(units, done, t);
      (done, v)
  }

  /** `Input::get`: a constant socket reads its value and changes nothing; a linked one pulls the
      unit it is linked to. */
  function Read<S, V>(step: Step<S, V>, units: seq<Unit<S, V>>, socket: Socket<V>, t: int): (r: (seq<Unit<S, V>>, V))
    requires Wired(units) && (socket.Link? ==> socket.source < |units|)
    ensures Wired(r.0) && Touches(units, r.0, t)
    ensures socket.Const? ==> r == (units, socket.value)
    decreases Unstamped(units, t), 1, 0
  {
    match socket
    case Const(v) => (units, v)
    case Link(j) => Get(step, units, j, t)
  }

  /** `InputTuple::get_and_process`, the pulling half: the sockets are read in declaration order,
      each in the arena the previous ones left, and the values come out in that order. */
  function Pull<S, V>(step: Step<S, V>, units: seq<Unit<S, V>>, sockets: seq<Socket<V>>, t: int): (r: (seq<Unit<S, V>>, seq<V>))
    requires Wired(units) && Reaches(sockets, |units|)
    ensures Wired(r.0) && Touches(units, r.0, t) && |r.1| == |sockets|
    decreases Unstamped(units, t), 1, |sockets|
  {
    if sockets == [] then (units, [])
    else
      var (units1, v) := Read(step, units, sockets[0], t);
      TouchesKeepsStamps(units, units1, t);
      FewerUnstamped(units, units1, t, 0);
      var (units2, vs) := Pull(step, units1, sockets[1..], t);
      TouchesChain(units, units1, units2, t);
      (units2, [v] + vs)
  }

  // ---- The memo ----

  /** `get` is idempotent within a tick: asking again at the same stamp answers from the memo
      and changes nothing. */
  lemma GetIdempotent<S, V>(step: Step<S, V>, units: seq<Unit<S, V>>, i: nat, t: int)
    requires Wired(units) && i < |units|
    ensures var (after, v) := Get(step, units, i, t);
      Get(step, after, i, t) == (after, v)
  {
  }

  /** At a new tick the unit's step runs exactly once, on the state the unit had and on the
      values its inputs give in declaration order, pulled after the unit stamped itself; the unit
      keeps the new state and the output. */
  lemma {:induction false} NewTickRunsStepOnce<S, V>(step: Step<S, V>, units: seq<Unit<S, V>>, i: nat, t: int)
    requires Wired(units) && i < |units| && units[i].t != t
    ensures var u := units[i];
      var (pulled, args) := Pull(step, units[i := u.(t := t)], u.inputs, t);
      Get(step, units, i, t) == (pulled[i := Unit(step(u.state, args).0, u.inputs, t, step(u.state, args).1)], step(u.state, args).1)
  {
  }

  /** A unit stamped at t is never touched again at t, whatever is pulled: within one tick every
      unit's step runs at most once. */
  lemma TickSettles<S, V>(step: Step<S, V>, units: seq<Unit<S, V>>, i: nat, k: nat, t: int)
    requires Wired(units) && i < |units| && k < |units| && units[k].t == t
    ensures Get(step, units, i, t).0[k] == units[k]
  {
    TouchesKeepsStamps(units, Get(step, units, i, t).0, t);
  }

  /** Pulls of many units within one tick: each unit's state changes at most once, so what a
      unit holds midway is either what it held before the tick began or what it holds at the end. */
  function Gets<S, V>(step: Step<S, V>, units: seq<Unit<S, V>>, order: seq<nat>, t: int): (r: seq<Unit<S, V>>)
    requires Wired(units) && forall n :: 0 <= n < |order| ==> order[n] < |units|
    ensures Wired(r) && Touches(units, r, t)
    decreases |order|
  {
    if order == [] then units
    else
      var units1 := Get(step, units, order[0], t).0;
      var r := Gets(step, units1, order[1..], t);
      TouchesChain(units, units1, r, t);
      r
  }

  lemma {:induction false} GetsSplit<S, V>(step: Step<S, V>, units: seq<Unit<S, V>>, order: seq<nat>, n: nat, t: int)
    requires Wired(units) && (forall m :: 0 <= m < |order| ==> order[m] < |units|) && n <= |order|
    ensures Gets(step, units, order, t) == Gets(step, Gets(step, units, order[..n], t), order[n..], t)
    decreases n
  {
    if n > 0 {
      var units1 := Get(step, units, order[0], t).0;
      GetsSplit(step, units1, order[1..], n - 1, t);
      assert order[1..][..n - 1] == order[..n][1..];
      assert order[1..][n - 1..] == order[n..];
    }
  }

  lemma ProducesAtMostOncePerTick<S, V>(step: Step<S, V>, units: seq<Unit<S, V>>, order: seq<nat>, n: nat, t: int)
    requires Wired(units) && (forall m :: 0 <= m < |order| ==> order[m] < |units|) && n <= |order|
    ensures var mid := Gets(step, units, order[..n], t);
      var end := Gets(step, units, order, t);
      forall k :: 0 <= k < |units| ==> mid[k] == units[k] || mid[k] == end[k]
  {
    var mid := Gets(step, units, order[..n], t);
    GetsSplit(step, units, order, n, t);
    TouchesKeepsStamps(mid, Gets(step, mid, order[n..], t), t);
  }

  /** `Node`'s first tick: a fresh unit asked for tick 0 answers its default value without
      running its step, since its stamp already reads 0. */
  lemma FreshNodeAtZero<S, V>(step: Step<S, V>, units: seq<Unit<S, V>>, i: nat, state: S, initial: V)
    requires Wired(units) && i < |units| && units[i] == NewNode(state, units[i].inputs, initial)
    ensures Get(step, units, i, 0) == (units, initial)
  {
  }

  // ---- Feedback ----

  /** A unit whose input is linked to its own output reads, at a new tick, the value it produced
      at its previous computation: a cycle is a one-tick delay. */
  lemma SelfLoopDelays<S, V>(step: Step<S, V>, units: seq<Unit<S, V>>, i: nat, t: int)
    requires Wired(units) && i < |units| && units[i].t != t && units[i].inputs == [Link(i)]
    ensures Get(step, units, i, t).1 == step(units[i].state, [units[i].value]).1
    ensures Get(step, units, i, t).0 == units[i := Unit(step(units[i].state, [units[i].value]).0, [Link(i)], t, step(units[i].state, [units[i].value]).1)]
  {
    var u := units[i];
    var stamped := units[i := u.(t := t)];
    assert Reaches(u.inputs, |units|);
    assert Touches(units, stamped, t);
    TouchesKeepsStamps(units, stamped, t);
    assert Pull(step, stamped, u.inputs, t) == (stamped, [u.value]) by {
      assert Get(step, stamped, i, t) == (stamped, u.value);
      assert Read(step, stamped, u.inputs[0], t) == (stamped, u.value);
      assert u.inputs[1..] == [];
      assert Pull(step, stamped, [], t) == (stamped, []);
      assert [u.value] + [] == [u.value];
    }
    NewTickRunsStepOnce(step, units, i, t);
  }

  // ---- Input order ----

  /** Pulling a socket list in two parts pulls the first part, then the second in the arena the
      first left, and concatenates the values: sockets are read strictly in declaration order. */
  lemma {:induction false} PullInOrder<S, V>(step: Step<S, V>, units: seq<Unit<S, V>>, first: seq<Socket<V>>, second: seq<Socket<V>>, t: int)
    requires Wired(units) && Reaches(first, |units|) && Reaches(second, |units|)
    ensures var (units1, vs1) := Pull(step, units, first, t);
      var (units2, vs2) := Pull(step, units1, second, t);
      Pull(step, units, first + second, t) == (units2, vs1 + vs2)
    decreases |first|
  {
    if first == [] {
      assert first + second == second;
      assert Pull(step, units, first, t) == (units, []);
      assert [] + Pull(step, units, second, t).1 == Pull(step, units, second, t).1;
    } else {
      var (units1, v) := Read(step, units, first[0], t);
      assert (first + second)[1..] == first[1..] + second;
      assert Reaches(first[1..], |units1|);
      PullInOrder(step, units1, first[1..], second, t);
      var (rest, vs) := Pull(step, units1, first[1..], t);
      var (units2, vs2) := Pull(step, rest, second, t);
      assert [v] + (vs + vs2) == ([v] + vs) + vs2;
    }
  }

  /** Constant sockets read their constants and leave the arena alone. */
  lemma {:induction false} ConstantsPullThemselves<S, V>(step: Step<S, V>, units: seq<Unit<S, V>>, sockets: seq<Socket<V>>, t: int)
    requires Wired(units) && forall k :: 0 <= k < |sockets| ==> sockets[k].Const?
    ensures Pull(step, units, sockets, t).0 == units
    ensures forall k :: 0 <= k < |sockets| ==> Pull(step, units, sockets, t).1[k] == sockets[k].value
    decreases |sockets|
  {
    if sockets != [] {
      ConstantsPullThemselves(step, units, sockets[1..], t);
    }
  }

  // ---- Rebinding ----

  /** `Input::connect`: socket k of unit i is rebound, to a constant or to another unit's output;
      nothing else in the arena changes. */
  function Connect<S, V>(units: seq<Unit<S, V>>, i: nat, k: nat, socket: Socket<V>): (r: seq<Unit<S, V>>)
    requires Wired(units) && i < |units| && k < |units[i].inputs|
    requires socket.Link? ==> socket.source < |units|
    ensures Wired(r) && |r| == |units|
    ensures |r[i].inputs| == |units[i].inputs| && r[i].inputs[k] == socket
    ensures forall n :: 0 <= n < |units[i].inputs| && n != k ==> r[i].inputs[n] == units[i].inputs[n]
    ensures r[i].state == units[i].state && r[i].t == units[i].t && r[i].value == units[i].value
    ensures forall j :: 0 <= j < |units| && j != i ==> r[j] == units[j]
  {
    var u := units[i];
    var r := units[i := u.(inputs := u.inputs[k := socket])];
    assert forall j :: 0 <= j < |r| && j != i ==> r[j].inputs == units[j].inputs;
    r
  }

  /** A rebinding takes effect at the next tick: a unit already computed at t keeps answering
      its memo at t, whatever its sockets now say. */
  lemma ConnectWaitsForNextTick<S, V>(step: Step<S, V>, units: seq<Unit<S, V>>, i: nat, k: nat, socket: Socket<V>, t: int)
    requires Wired(units) && i < |units| && k < |units[i].inputs| && units[i].t == t
    requires socket.Link? ==> socket.source < |units|
    ensures var rewired := Connect(units, i, k, socket);
      Get(step, rewired, i, t) == (rewired, units[i].value)
  {
  }

  /** Once a socket is bound to a constant, the unit's next computation sees that constant in
      that position. */
  lemma ConnectConstantIsRead<S, V>(step: Step<S, V>, units: seq<Unit<S, V>>, i: nat, v: V, t: int)
    requires Wired(units) && i < |units| && units[i].t != t && |units[i].inputs| == 1
    ensures var rewired := Connect(units, i, 0, Const(v));
      Get(step, rewired, i, t).1 == step(units[i].state, [v]).1
  {
    var rewired := Connect(units, i, 0, Const(v));
    var u := rewired[i];
    assert u.inputs == [Const(v)];
    var stamped := rewired[i := u.(t := t)];
    ConstantsPullThemselves(step, stamped, u.inputs, t);
    assert Pull(step, stamped, u.inputs, t).1 == [v];
    NewTickRunsStepOnce(step, rewired, i, t);
  }
}
