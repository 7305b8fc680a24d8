/**
 The object behind the collective operations of one process (AsyncCollective in src/comm/async_collective.hpp).
 Its methods return what they send, and are proved against the functions of the two protocols.
 */
module AsyncCollectives {
  import opened Options
  import opened Monoids
  import opened InOrderTree
  import Dense = DensePrefixSum
  import Sparse = SparsePrefixSum

  class AsyncCollective<T> {
    const M: Monoid<T>
    const rank: nat
    const size: nat
    const parent: int
    const left: int
    const right: int
    const numDesired: nat
    /** The operations to which every process contributes once, by call ID. */
    var states: map<int, Dense.Local<T>>
    /** One sparse operation. */
    var counter: nat
    var bundles: map<nat, Sparse.Bundle<T>>

    ghost predicate Valid()
      reads this
    {
      && rank < size && parent == Parent(size, rank) && left == LeftChild(rank) && right == RightChild(size, rank)
      && numDesired == Dense.Desired(size, rank)
    }

    constructor (M: Monoid<T>, rank: nat, size: nat)
      requires rank < size
      ensures Valid() && this.M == M && this.rank == rank && this.size == size
      ensures states == map[] && SparseState() == Sparse.Local(1, map[])
    {
      var p, l, r := SetUpCommunicationTree(rank, size);
      this.M, this.rank, this.size := M, rank, size;
      parent, left, right := p, l, r;
      numDesired := 1 + (if l >= 0 then 1 else 0) + (if r >= 0 then 1 else 0);
      states, counter, bundles := map[], 1, map[];
    }

    // -------------------------------------------------------------------
    // Every process contributes once
    // -------------------------------------------------------------------

    /** The state of a call; it is created on the first access. */
    function StateOf(id: int): Dense.Local<T>
      reads this
    {
      if id in states then states[id] else Dense.FreshLocal(M)
    }

    method AggregateContributions(l: Dense.Local<T>) returns (value: T)
      ensures value == Dense.Aggregated(M, l)
    {
      value := M.unit;
      if l.arrived >= 2 {
        value := M.op(value, l.left);
      }
      value := M.op(value, l.self);
      if l.arrived == 3 {
        value := M.op(value, l.right);
      }
    }

    method Forward(mode: Dense.Mode, value: T) returns (m: Dense.Message<T>)
      requires Valid()
      ensures m == Dense.Forwarded(M, size, rank, mode, value)
    {
      if parent < 0 {
        if mode == Dense.AllReduce {
          m := Dense.Down(rank, rank, [value]);
        } else if mode == Dense.InclExclTotal {
          m := Dense.Down(rank, rank, [M.unit, value]);
        } else {
          m := Dense.Down(rank, rank, [M.unit]);
        }
      } else {
        m := Dense.Up(rank, parent, value);
      }
    }

    /** Forward the aggregate once all contributions are there. */
    method StoreAndCheck(id: int, l: Dense.Local<T>) returns (sent: seq<Dense.Message<T>>)
      requires Valid()
      modifies this`states
      ensures Valid()
      ensures var next := Dense.Checked(M, size, rank, l); states == old(states)[id := next.0] && sent == next.1
    {
      sent := [];
      if l.arrived == numDesired {
        var value := AggregateContributions(l);
        var m := Forward(l.mode, value);
        states := states[id := l.(arrived := 0)];
        sent := [m];
      } else {
        states := states[id := l];
      }
    }

    method InitOp(id: int, mode: Dense.Mode, x: T) returns (sent: seq<Dense.Message<T>>)
      requires Valid()
      modifies this`states
      ensures Valid()
      ensures var next := Dense.Initiated(M, size, rank, old(StateOf(id)), mode, x);
        states == old(states)[id := next.0] && sent == next.1
    {
      var l := StateOf(id);
      sent := StoreAndCheck(id, l.(mode := mode, self := x, arrived := l.arrived + 1));
    }

    method HandleUp(id: int, src: nat, value: T) returns (sent: seq<Dense.Message<T>>)
      requires Valid()
      modifies this`states
      ensures Valid()
      ensures var next := Dense.UpHandled(M, size, rank, old(StateOf(id)), src, value);
        states == old(states)[id := next.0] && sent == next.1
    {
      var l := StateOf(id);
      var t := l.(arrived := l.arrived + 1);
      sent := StoreAndCheck(id, if src < rank then t.(left := value) else t.(right := value));
    }

    /** The message goes on to the children, the result is published, and the call is over. */
    method HandleDown(id: int, items: seq<T>) returns (sent: seq<Dense.Message<T>>, result: seq<T>)
      requires Valid() && items != []
      modifies this`states
      ensures Valid() && states == old(states) - {id}
      ensures (sent, result) == Dense.Digested(M, size, rank, old(StateOf(id)), items)
    {
      var l := StateOf(id);
      sent, result := [], [];
      var elem := items[0];
      if l.mode == Dense.AllReduce {
        if left >= 0 {
          sent := sent + [Dense.Down(rank, left, items)];
        }
        if right >= 0 {
          sent := sent + [Dense.Down(rank, right, items)];
        }
        result := [elem];
      } else {
        if left >= 0 {
          sent := sent + [Dense.Down(rank, left, items)];
          elem := M.op(elem, l.left);
        }
        if l.mode != Dense.Inclusive {
          result := result + [elem];
        }
        elem := M.op(elem, l.self);
        if right >= 0 {
          sent := sent + [Dense.Down(rank, right, if l.mode == Dense.InclExclTotal then [elem, items[|items| - 1]]
                                                  else [elem])];
        }
        if l.mode != Dense.Exclusive {
          result := result + [elem];
        }
        if l.mode == Dense.InclExclTotal {
          result := result + [items[|items| - 1]];
        }
      }
      ghost var d := Dense.Digested(M, size, rank, l, items);
      assert sent == d.0 && result == d.1;
      states := states - {id};
    }

    // -------------------------------------------------------------------
    // The sparse prefix sum
    // -------------------------------------------------------------------

    ghost function SparseState(): Sparse.Local<T>
      reads this
    {
      Sparse.Local(counter, bundles)
    }

    /** The first bundle not sent yet which has a free slot. */
    method FindSlot(kind: Sparse.Kind) returns (k: nat)
      ensures k == Sparse.FirstFree(M, bundles, kind, counter)
    {
      k := counter;
      ghost var f := Sparse.FirstFree(M, bundles, kind, counter);
      while Sparse.Id(Sparse.Get(M, bundles, k), kind) != 0
        invariant counter <= k <= f
        decreases f - k
      {
        k := k + 1;
      }
    }

    method Contribute(x: T)
      modifies this`bundles
      ensures SparseState() == Sparse.Added(M, old(SparseState()), Sparse.Self, x, 0)
    {
      var k := FindSlot(Sparse.Self);
      var bundle := Sparse.Get(M, bundles, k);
      bundles := bundles[k := bundle.(selfId := k, self := x)];
    }

    method HandleSparseUp(src: nat, m: Sparse.UpMsg<T>)
      modifies this`bundles
      ensures SparseState() ==
              Sparse.Added(M, old(SparseState()), if src < rank then Sparse.Left else Sparse.Right, m.value, m.id)
    {
      var kind := if src < rank then Sparse.Left else Sparse.Right;
      var k := FindSlot(kind);
      var bundle := Sparse.Get(M, bundles, k);
      bundles := bundles[k := if src < rank then bundle.(left := m.value, leftId := m.id)
                              else bundle.(right := m.value, rightId := m.id)];
    }

    method AggregateBundle(b: Sparse.Bundle<T>) returns (value: T)
      ensures value == Sparse.Aggregated(M, b)
    {
      value := M.unit;
      if b.leftId != 0 {
        value := M.op(value, b.left);
      }
      if b.selfId != 0 {
        value := M.op(value, b.self);
      }
      if b.rightId != 0 {
        value := M.op(value, b.right);
      }
    }

    /** Send the bundle in preparation to the parent, or, at the root, as a broadcast to itself. */
    method AdvanceSparse(ready: bool) returns (up: Option<Sparse.UpMsg<T>>, down: Option<Sparse.DownMsg<T>>)
      requires Valid()
      modifies this`counter
      ensures Valid()
      ensures var l := old(SparseState()); var b := Sparse.Get(M, l.bundles, l.counter);
        if !ready || !Sparse.HasContributions(b) then SparseState() == l && up == None && down == None
        else
          && SparseState() == l.(counter := l.counter + 1)
          && up == (if Parent(size, rank) < 0 then None else Some(Sparse.UpMsg(Sparse.Aggregated(M, b), l.counter)))
          && down == if Parent(size, rank) < 0 then Some(Sparse.DownMsg(M.unit, Sparse.Aggregated(M, b), l.counter))
                     else None
    {
      up, down := None, None;
      var b := Sparse.Get(M, bundles, counter);
      if !Sparse.HasContributions(b) || !ready {
        return;
      }
      var value := AggregateBundle(b);
      if parent < 0 {
        down := Some(Sparse.DownMsg(M.unit, value, counter));
      } else {
        up := Some(Sparse.UpMsg(value, counter));
      }
      counter := counter + 1;
    }

    /** A broadcast: the messages to the children, and the exclusive, inclusive and total result. */
    method HandleSparseDown(m: Sparse.DownMsg<T>)
      returns (toLeft: Option<Sparse.DownMsg<T>>, toRight: Option<Sparse.DownMsg<T>>, result: (T, T, T))
      requires Valid()
      modifies this`bundles
      ensures Valid() && SparseState() == Sparse.CleanedUp(old(SparseState()), m.id)
      ensures var d := Sparse.Digested(M, size, rank, Sparse.Referred(M, old(SparseState()), m.id), m);
        && toLeft == (if LeftChild(rank) >= 0 then Some(d.0) else None)
        && toRight == (if RightChild(size, rank) >= 0 then Some(d.1) else None) && result == d.2
    {
      toLeft, toRight := None, None;
      var bundle := Sparse.EmptyBundle(M);
      if m.id != 0 {
        bundle := Sparse.Get(M, bundles, m.id);
      }
      var elem := m.prefix;
      if left >= 0 {
        toLeft := Some(m.(id := bundle.leftId));
        elem := M.op(elem, bundle.left);
      }
      var exclusive := elem;
      elem := M.op(elem, bundle.self);
      if right >= 0 {
        toRight := Some(Sparse.DownMsg(elem, m.total, bundle.rightId));
      }
      result := (exclusive, elem, m.total);
      if m.id >= 2 {
        bundles := bundles - {m.id - 2};
      }
    }
  }
}
