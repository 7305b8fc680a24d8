/**
 Matching idle processes to requests by their global indices (PrefixSumRequestMatcher in
 src/balancing/prefix_sum_request_matcher.hpp). All processes digest the same sequence of prefix sum
 results; each of them knows only its own idle states and requests.
 */
module RequestMatching {

  datatype Request = Request(
    jobId: int, nodeIndex: int, multiplicity: int, multiBegin: int, multiEnd: int, multiBaseId: int)

  /** A request and the range of its indices among all requests. */
  datatype Indexed = Indexed(begin: int, end: int, req: Request)

  datatype Message = IdleToken(dest: int, id: int, rank: int) | SendRequest(dest: int, req: Request)

  /** The state of a process. */
  datatype Local = Local(
    waiting: seq<Request>,
    reqOffset: int, reqTotal: int, reqMatched: int, indexed: seq<Indexed>,
    idleOffset: int, idleTotal: int, idleMatched: int, idles: seq<int>,
    runningId: nat)

  const INITIAL := Local([], 0, 0, 0, [], 0, 0, 0, [], 0)

  /** The rank which is responsible for a matching ID. */
  function Destination(size: nat, id: nat): (r: nat)
    requires size > 0
    ensures r < size
  {
    if id < size then id else Destination(size, id - size)
  }

  lemma {:induction false} DestinationIsModulo(size: nat, id: nat)
    requires size > 0
    ensures Destination(size, id) == id % size
  {
    if id < size {
      SmallModulo(size, id);
    } else {
      DestinationIsModulo(size, id - size);
      ModuloShift(size, id);
    }
  }

  lemma {:induction false} SmallModulo(size: nat, id: nat)
    requires id < size
    ensures id % size == id
  {
  }

  lemma {:induction false} ModuloShift(size: nat, id: nat)
    requires 0 < size <= id
    ensures id % size == (id - size) % size
  {
    var q, r := (id - size) / size, (id - size) % size;
    assert id == (q + 1) * size + r;
    UniqueRemainder(size, id, q + 1, r);
  }

  lemma {:induction false} UniqueRemainder(size: nat, x: int, q: int, r: int)
    requires 0 <= r < size && x == q * size + r
    ensures x % size == r
  {
    var q' := x / size;
    assert (q - q') * size == x % size - r;
    assert q - q' >= 1 ==> (q - q') * size >= size;
    assert q - q' <= -1 ==> (q - q') * size + size <= 0;
  }

  // ---------------------------------------------------------------------
  // The steps of a process
  // ---------------------------------------------------------------------

  predicate Done(l: Local)
  {
    l.idleMatched >= l.idleTotal || l.reqMatched >= l.reqTotal
  }

  /** The part of a step of tryMatch which deals with requests. */
  function RequestMatched(size: nat, l: Local): (Local, seq<Message>)
    requires size > 0
  {
    var index, dest := l.reqOffset + l.reqMatched, Destination(size, l.runningId);
    if l.indexed != [] && l.indexed[0].begin <= index < l.indexed[0].end then
      var x := l.indexed[0];
      var req := x.req.(multiBegin := dest, multiEnd := dest + x.req.multiplicity, multiBaseId := l.runningId);
      (l.(indexed := if index + 1 == x.end then l.indexed[1..] else [x.(req := req)] + l.indexed[1..]),
       if index == x.begin then [SendRequest(dest, req)] else [])
    else (l, [])
  }

  /** The part which deals with idle states. */
  function IdleMatched(size: nat, rank: nat, l: Local): (Local, seq<Message>)
    requires size > 0
  {
    if l.idles != [] && l.idles[0] == l.reqOffset + l.reqMatched then
      (l.(idles := l.idles[1..]), [IdleToken(Destination(size, l.runningId), l.runningId, rank)])
    else (l, [])
  }

  function StepMatched(size: nat, rank: nat, l: Local): (Local, seq<Message>)
    requires size > 0
  {
    var (l1, m1) := RequestMatched(size, l);
    var (l2, m2) := IdleMatched(size, rank, l1);
    (l2.(idleMatched := l2.idleMatched + 1, reqMatched := l2.reqMatched + 1, runningId := l2.runningId + 1), m1 + m2)
  }

  /** tryMatch */
  function Matched(size: nat, rank: nat, l: Local): (Local, seq<Message>)
    requires size > 0
    decreases if l.idleTotal > l.idleMatched then l.idleTotal - l.idleMatched else 0
  {
    if Done(l) then (l, [])
    else
      var (l1, m1) := StepMatched(size, rank, l);
      var (l2, m2) := Matched(size, rank, l1);
      (l2, m1 + m2)
  }

  function IdlesDigested(l: Local, excl: int, incl: int, total: int): Local
  {
    var offset := l.idleOffset + l.idleTotal;
    l.(idleOffset := offset,
       idles := if incl != excl then l.idles + [offset + excl] else l.idles,
       idleTotal := total,
       idleMatched := -(l.idleTotal - l.idleMatched))
  }

  /** The requests with their indices, beginning with the given index. */
  function Index(reqs: seq<Request>, begin: int): (xs: seq<Indexed>)
    ensures |xs| == |reqs|
  {
    if reqs == [] then []
    else
      var k := |reqs| - 1;
      var b := begin + Multiplicities(reqs[..k]);
      Index(reqs[..k], begin) + [Indexed(b, b + reqs[k].multiplicity, reqs[k])]
  }

  /** getSumOfNewRequestsMultiplicities */
  function Multiplicities(reqs: seq<Request>): int
  {
    if reqs == [] then 0 else Multiplicities(reqs[..|reqs| - 1]) + reqs[|reqs| - 1].multiplicity
  }

  /** The first n waiting requests have been part of the prefix sum. */
  function RequestsDigested(l: Local, n: nat, excl: int, total: int): Local
    requires n <= |l.waiting|
  {
    var offset := l.reqOffset + l.reqTotal;
    l.(reqOffset := offset,
       waiting := l.waiting[n..],
       indexed := l.indexed + Index(l.waiting[..n], offset + excl),
       reqTotal := total,
       reqMatched := -(l.reqTotal - l.reqMatched))
  }

  /** The loop over the own requests which have been part of the prefix sum. */
  method IndexOwn(waiting: seq<Request>, excl: int, incl: int, offset: int, ghost n: nat)
    returns (rest: seq<Request>, own: seq<Indexed>)
    requires n <= |waiting| && forall k :: 0 <= k < n ==> waiting[k].multiplicity >= 1
    requires incl - excl == Multiplicities(waiting[..n])
    ensures rest == waiting[n..] && own == Index(waiting[..n], offset + excl)
  {
    ghost var i := 0;
    var index := excl;
    rest, own := waiting, [];
    while index < incl
      invariant 0 <= i <= n && rest == waiting[i..] && index == excl + Multiplicities(waiting[..i])
      invariant own == Index(waiting[..i], offset + excl)
      decreases n - i
    {
      SumGrows(waiting, i, n);
      assert waiting[..i + 1][..i] == waiting[..i];
      var req := rest[0];
      rest := rest[1..];
      own := own + [Indexed(offset + index, offset + index + req.multiplicity, req)];
      index := index + req.multiplicity;
      i := i + 1;
    }
    SumGrows(waiting, i, n);
  }

  // ---------------------------------------------------------------------
  // The object
  // ---------------------------------------------------------------------

  class Matcher {
    const size: nat
    const rank: nat
    var waiting: seq<Request>
    var reqOffset: int
    var reqTotal: int
    var reqMatched: int
    var indexed: seq<Indexed>
    var idleOffset: int
    var idleTotal: int
    var idleMatched: int
    var idles: seq<int>
    var runningId: nat

    constructor (size: nat, rank: nat)
      ensures this.size == size && this.rank == rank && View() == INITIAL
    {
      this.size, this.rank := size, rank;
      waiting, indexed, idles := [], [], [];
      reqOffset, reqTotal, reqMatched, idleOffset, idleTotal, idleMatched, runningId := 0, 0, 0, 0, 0, 0, 0;
    }

    ghost function View(): Local
      reads this
    {
      Local(waiting, reqOffset, reqTotal, reqMatched, indexed, idleOffset, idleTotal, idleMatched, idles, runningId)
    }

    /** The requests which take part in the next prefix sum, and what is contributed. */
    method Contribute(reqs: seq<Request>) returns (sum: int)
      modifies this`waiting
      ensures View() == old(View()).(waiting := old(waiting) + reqs) && sum == Multiplicities(reqs)
    {
      sum := 0;
      var i := 0;
      while i < |reqs|
        invariant 0 <= i <= |reqs| && sum == Multiplicities(reqs[..i])
      {
        assert reqs[..i + 1][..i] == reqs[..i];
        sum := sum + reqs[i].multiplicity;
        i := i + 1;
      }
      assert reqs[..i] == reqs;
      waiting := waiting + reqs;
    }

    method DigestIdles(excl: int, incl: int, total: int)
      modifies this`idleOffset, this`idles, this`idleTotal, this`idleMatched
      ensures View() == IdlesDigested(old(View()), excl, incl, total)
    {
      var remaining := idleTotal - idleMatched;
      idleOffset := idleOffset + idleTotal;
      if incl != excl {
        idles := idles + [idleOffset + excl];
      }
      idleTotal := total;
      idleMatched := -remaining;
    }

    /** The own contribution of incl - excl consists of the first n waiting requests. */
    method DigestRequests(excl: int, incl: int, total: int, ghost n: nat)
      requires n <= |waiting| && forall k :: 0 <= k < n ==> waiting[k].multiplicity >= 1
      requires incl - excl == Multiplicities(waiting[..n])
      modifies this`reqOffset, this`waiting, this`indexed, this`reqTotal, this`reqMatched
      ensures View() == RequestsDigested(old(View()), n, excl, total)
    {
      var remaining := reqTotal - reqMatched;
      reqOffset := reqOffset + reqTotal;
      var rest, own := IndexOwn(waiting, excl, incl, reqOffset, n);
      waiting := rest;
      indexed := indexed + own;
      reqTotal := total;
      reqMatched := -remaining;
    }

    /** One step of tryMatch, up to incrementing the counters. */
    method MatchOne() returns (sent: seq<Message>)
      requires size > 0
      modifies this
      ensures View() == StepMatched(size, rank, old(View())).0 && sent == StepMatched(size, rank, old(View())).1
    {
      sent := [];
      var requestIndex := reqOffset + reqMatched;
      var destination := runningId % size;
      DestinationIsModulo(size, runningId);
      if indexed != [] {
        var x := indexed[0];
        if requestIndex >= x.begin && requestIndex < x.end {
          x := x.(req := x.req.(multiBegin := destination, multiEnd :=
            destination + x.req.multiplicity, multiBaseId := runningId));
          indexed := [x] + indexed[1..];
          if requestIndex == x.begin {
            sent := sent + [SendRequest(destination, x.req)];
          }
          if requestIndex + 1 == x.end {
            indexed := indexed[1..];
            assert indexed == old(indexed)[1..];
          }
        }
      }
      if idles != [] {
        if idles[0] == requestIndex {
          idles := idles[1..];
          sent := sent + [IdleToken(destination, runningId, rank)];
        }
      }
      idleMatched := idleMatched + 1;
      reqMatched := reqMatched + 1;
      runningId := runningId + 1;
    }

    method TryMatch() returns (sent: seq<Message>)
      requires size > 0
      modifies this
      ensures View() == Matched(size, rank, old(View())).0 && sent == Matched(size, rank, old(View())).1
    {
      sent := [];
      ghost var result := Matched(size, rank, View());
      while !(idleMatched >= idleTotal || reqMatched >= reqTotal)
        invariant Matched(size, rank, View()).0 == result.0
        invariant sent + Matched(size, rank, View()).1 == result.1
        decreases idleTotal - idleMatched
      {
        ghost var l := View();
        var more := MatchOne();
        MatchedUnfold(size, rank, l);
        sent := sent + more;
      }
    }
  }

  lemma {:induction false} MatchedUnfold(size: nat, rank: nat, l: Local)
    requires size > 0 && !Done(l)
    ensures var s := StepMatched(size, rank, l);
      Matched(size, rank, l).0 == Matched(size, rank, s.0).0
      && (forall sent :: sent + Matched(size, rank, l).1 == sent + s.1 + Matched(size, rank, s.0).1)
      && s.0.idleMatched == l.idleMatched + 1 && s.0.idleTotal == l.idleTotal
  {
    var s := StepMatched(size, rank, l);
    var m := Matched(size, rank, s.0).1;
    forall sent: seq<Message> ensures sent + Matched(size, rank, l).1 == sent + s.1 + m {
      assert sent + (s.1 + m) == sent + s.1 + m;
    }
  }

  lemma {:induction false} SumGrows(reqs: seq<Request>, i: nat, n: nat)
    requires i <= n <= |reqs| && forall k :: 0 <= k < n ==> reqs[k].multiplicity >= 1
    ensures Multiplicities(reqs[..n]) >= Multiplicities(reqs[..i]) + (n - i)
    decreases n - i
  {
    if i < n {
      SumGrows(reqs, i, n - 1);
      assert reqs[..n][..n - 1] == reqs[..n - 1];
    }
  }
}
