/** What all matchers do together, given one shared sequence of prefix sum results. */
module MatchingRuns {
  import opened Sums
  import opened RequestMatching

  /** A prefix sum result: the requests, or the idle states, which each rank contributed. */
  datatype Event = Requests(batches: seq<seq<Request>>) | Idles(idle: seq<int>)

  ghost predicate ValidEvent(size: nat, ev: Event)
  {
    match ev
    case Requests(batches) => |batches| == size &&
      forall r, k {:trigger batches[r][k]} :: 0 <= r < size && 0 <= k < |batches[r]| ==> batches[r][k].multiplicity >= 1
    case Idles(idle) => |idle| == size && forall r {:trigger idle[r]} :: 0 <= r < size ==> 0 <= idle[r] <= 1
  }

  ghost predicate ValidEvents(size: nat, evs: seq<Event>)
  {
    forall k {:trigger evs[k]} :: 0 <= k < |evs| ==> ValidEvent(size, evs[k])
  }

  /** What each rank contributed to the prefix sum. */
  ghost function Shares(size: nat, ev: Event): (x: seq<int>)
    requires ValidEvent(size, ev)
    ensures |x| == size
    ensures forall r {:trigger x[r]} :: 0 <= r < size ==>
      x[r] == if ev.Idles? then ev.idle[r] else Multiplicities(ev.batches[r])
  {
    seq(size, r requires 0 <= r < size => if ev.Idles? then ev.idle[r] else Multiplicities(ev.batches[r]))
  }

  /** The prefix sum up to rank r, without r. */
  ghost function Prefix(size: nat, ev: Event, r: nat): int
    requires ValidEvent(size, ev) && r <= size
  {
    Sum(Shares(size, ev)[..r])
  }

  ghost function Total(size: nat, evs: seq<Event>, idles: bool): int
    requires ValidEvents(size, evs)
  {
    if evs == [] then 0
    else
      var n := |evs| - 1;
      assert ValidEvent(size, evs[n]);
      Total(size, evs[..n], idles) + if evs[n].Idles? == idles then Prefix(size, evs[n], size) else 0
  }

  ghost function Matchable(size: nat, evs: seq<Event>): int
    requires ValidEvents(size, evs)
  {
    Smaller(Total(size, evs, true), Total(size, evs, false))
  }

  function Smaller(a: int, b: int): int
  {
    if a < b then a else b
  }

  /** The global indices of the idle states of rank r. */
  ghost function LocalIdles(size: nat, evs: seq<Event>, r: nat): seq<int>
    requires ValidEvents(size, evs) && r < size
  {
    if evs == [] then []
    else
      var n := |evs| - 1;
      assert ValidEvent(size, evs[n]);
      LocalIdles(size, evs[..n], r) + NewIdles(size, evs[n], r, Total(size, evs[..n], true))
  }

  ghost function NewIdles(size: nat, ev: Event, r: nat, offset: int): seq<int>
    requires ValidEvent(size, ev) && r < size
  {
    if ev.Idles? && ev.idle[r] == 1 then [offset + Prefix(size, ev, r)] else []
  }

  /** The requests of rank r with their global indices. */
  ghost function LocalRequests(size: nat, evs: seq<Event>, r: nat): seq<Indexed>
    requires ValidEvents(size, evs) && r < size
  {
    if evs == [] then []
    else
      var n := |evs| - 1;
      assert ValidEvent(size, evs[n]);
      LocalRequests(size, evs[..n], r) + NewRequests(size, evs[n], r, Total(size, evs[..n], false))
  }

  ghost function NewRequests(size: nat, ev: Event, r: nat, offset: int): seq<Indexed>
    requires ValidEvent(size, ev) && r < size
  {
    if ev.Requests? then Index(ev.batches[r], offset + Prefix(size, ev, r)) else []
  }

  // ---------------------------------------------------------------------
  // The global indices
  // ---------------------------------------------------------------------

  ghost predicate Positive(reqs: seq<Request>)
  {
    forall k {:trigger reqs[k]} :: 0 <= k < |reqs| ==> reqs[k].multiplicity >= 1
  }

  /** Strictly increasing, and between lo and hi. */
  ghost predicate Ascending(xs: seq<int>, lo: int, hi: int)
  {
    && (forall k {:trigger xs[k]} :: 0 <= k < |xs| ==> lo <= xs[k] < hi)
    && (forall i, k {:trigger xs[i], xs[k]} :: 0 <= i < k < |xs| ==> xs[i] < xs[k])
  }

  /** Non-empty intervals, one after the other, between lo and hi. */
  ghost predicate Consecutive(xs: seq<Indexed>, lo: int, hi: int)
  {
    && (forall k {:trigger xs[k]} :: 0 <= k < |xs| ==>
          lo <= xs[k].begin < xs[k].end <= hi && xs[k].end == xs[k].begin + xs[k].req.multiplicity)
    && (forall i, k {:trigger xs[i], xs[k]} :: 0 <= i < k < |xs| ==> xs[i].end <= xs[k].begin)
  }

  lemma {:induction false} IndexIsConsecutive(reqs: seq<Request>, begin: int)
    requires Positive(reqs)
    ensures Consecutive(Index(reqs, begin), begin, begin + Multiplicities(reqs)) && Multiplicities(reqs) >= 0
  {
    if reqs != [] {
      IndexIsConsecutive(reqs[..|reqs| - 1], begin);
    }
  }

  /** The intervals of a batch cover everything between its first and last index. */
  lemma {:induction false} IndexCovers(reqs: seq<Request>, begin: int, id: int) returns (k: nat)
    requires Positive(reqs) && begin <= id < begin + Multiplicities(reqs)
    ensures k < |Index(reqs, begin)| && Index(reqs, begin)[k].begin <= id < Index(reqs, begin)[k].end
  {
    var n := |reqs| - 1;
    if id < begin + Multiplicities(reqs[..n]) {
      k := IndexCovers(reqs[..n], begin, id);
    } else {
      k := n;
    }
  }

  lemma {:induction false} ShareFacts(size: nat, ev: Event, r: nat)
    requires ValidEvent(size, ev) && r < size
    ensures Prefix(size, ev, r + 1) == Prefix(size, ev, r) + Shares(size, ev)[r]
    ensures Shares(size, ev)[r] >= 0
    ensures ev.Requests? ==> Positive(ev.batches[r])
  {
    SumNext(Shares(size, ev), r);
    if ev.Requests? {
      assert Positive(ev.batches[r]);
      IndexIsConsecutive(ev.batches[r], 0);
    }
  }

  lemma {:induction false} PrefixGrows(size: nat, ev: Event, r: nat, q: nat)
    requires ValidEvent(size, ev) && r <= q <= size
    ensures Prefix(size, ev, r) <= Prefix(size, ev, q)
    decreases q - r
  {
    if r < q {
      PrefixGrows(size, ev, r, q - 1);
      ShareFacts(size, ev, q - 1);
    }
  }

  lemma {:induction false} PrefixBounds(size: nat, ev: Event, r: nat)
    requires ValidEvent(size, ev) && r < size
    ensures 0 <= Prefix(size, ev, r) <= Prefix(size, ev, r + 1) <= Prefix(size, ev, size)
    ensures Prefix(size, ev, r + 1) == Prefix(size, ev, r) + Shares(size, ev)[r]
  {
    ShareFacts(size, ev, r);
    PrefixGrows(size, ev, 0, r);
    PrefixGrows(size, ev, r + 1, size);
    assert Shares(size, ev)[..0] == [];
  }

  lemma {:induction false} TotalGrows(size: nat, evs: seq<Event>, idles: bool)
    requires ValidEvents(size, evs)
    ensures Total(size, evs, idles) >= 0
  {
    if evs != [] {
      TotalGrows(size, evs[..|evs| - 1], idles);
      PrefixGrows(size, evs[|evs| - 1], 0, size);
      assert Shares(size, evs[|evs| - 1])[..0] == [];
    }
  }

  lemma {:induction false} LocalIdlesAscend(size: nat, evs: seq<Event>, r: nat)
    requires ValidEvents(size, evs) && r < size
    ensures Ascending(LocalIdles(size, evs, r), 0, Total(size, evs, true))
  {
    if evs != [] {
      var n := |evs| - 1;
      LocalIdlesAscend(size, evs[..n], r);
      PrefixBounds(size, evs[n], r);
      TotalGrows(size, evs[..n], true);
    }
  }

  lemma {:induction false} ConsecutiveConcat(a: seq<Indexed>, b: seq<Indexed>, lo: int, mid: int, mid': int, hi: int,
      hi': int)
    requires Consecutive(a, lo, mid) && Consecutive(b, mid', hi) && lo <= mid <= mid' && hi <= hi' && mid <= hi'
    ensures Consecutive(a + b, lo, hi')
  {
  }

  /** The new requests of a rank are in its own part of the prefix sum. */
  lemma {:induction false} NewRequestsConsecutive(size: nat, ev: Event, r: nat, offset: int)
    requires ValidEvent(size, ev) && r < size
    ensures Consecutive(NewRequests(size, ev, r, offset), offset + Prefix(size, ev, r),
      offset + Prefix(size, ev, r + 1))
    ensures 0 <= Prefix(size, ev, r) <= Prefix(size, ev, r + 1) <= Prefix(size, ev, size)
  {
    PrefixBounds(size, ev, r);
    ShareFacts(size, ev, r);
    if ev.Requests? {
      IndexIsConsecutive(ev.batches[r], offset + Prefix(size, ev, r));
    }
  }

  lemma {:induction false} LocalRequestsConsecutive(size: nat, evs: seq<Event>, r: nat)
    requires ValidEvents(size, evs) && r < size
    ensures Consecutive(LocalRequests(size, evs, r), 0, Total(size, evs, false))
  {
    if evs != [] {
      var n := |evs| - 1;
      assert ValidEvent(size, evs[n]);
      var t := Total(size, evs[..n], false);
      LocalRequestsConsecutive(size, evs[..n], r);
      NewRequestsConsecutive(size, evs[n], r, t);
      TotalGrows(size, evs[..n], false);
      if evs[n].Requests? {
        ConsecutiveConcat(LocalRequests(size, evs[..n], r), NewRequests(size, evs[n], r, t), 0, t,
          t + Prefix(size, evs[n], r), t + Prefix(size, evs[n], r + 1), Total(size, evs, false));
      }
    }
  }

  /** Some rank's share of a prefix sum contains the given position. */
  lemma {:induction false} OwnerOf(size: nat, ev: Event, id: int, q: nat) returns (r: nat)
    requires ValidEvent(size, ev) && q <= size && 0 <= id < Prefix(size, ev, q)
    ensures r < q && Prefix(size, ev, r) <= id < Prefix(size, ev, r + 1)
  {
    assert Shares(size, ev)[..0] == [];
    if id < Prefix(size, ev, q - 1) {
      r := OwnerOf(size, ev, id, q - 1);
    } else {
      r := q - 1;
    }
  }

  /** Every idle index belongs to some rank. */
  lemma {:induction false} IdleHasOwner(size: nat, evs: seq<Event>, id: int) returns (r: nat, k: nat)
    requires ValidEvents(size, evs) && 0 <= id < Total(size, evs, true)
    ensures r < size && k < |LocalIdles(size, evs, r)| && LocalIdles(size, evs, r)[k] == id
  {
    var n := |evs| - 1;
    var t := Total(size, evs[..n], true);
    if id < t {
      r, k := IdleHasOwner(size, evs[..n], id);
    } else {
      r := OwnerOf(size, evs[n], id - t, size);
      PrefixBounds(size, evs[n], r);
      k := |LocalIdles(size, evs[..n], r)|;
    }
  }

  /** ... and to no other one. */
  lemma {:induction false} IdleOwnerIsUnique(size: nat, evs: seq<Event>, r: nat, k: nat, q: nat, j: nat)
    requires ValidEvents(size, evs) && r < size && q < size
    requires k < |LocalIdles(size, evs, r)| && j < |LocalIdles(size, evs, q)|
    requires LocalIdles(size, evs, r)[k] == LocalIdles(size, evs, q)[j]
    ensures r == q && k == j
  {
    var n := |evs| - 1;
    LocalIdlesAscend(size, evs[..n], r);
    LocalIdlesAscend(size, evs[..n], q);
    var a, b := LocalIdles(size, evs[..n], r), LocalIdles(size, evs[..n], q);
    PrefixBounds(size, evs[n], r);
    PrefixBounds(size, evs[n], q);
    if k < |a| && j < |b| {
      IdleOwnerIsUnique(size, evs[..n], r, k, q, j);
    } else if k >= |a| && j >= |b| {
      if r < q { PrefixGrows(size, evs[n], r + 1, q); }
      if q < r { PrefixGrows(size, evs[n], q + 1, r); }
    }
  }

  lemma {:induction false} RequestHasOwner(size: nat, evs: seq<Event>, id: int) returns (r: nat, k: nat)
    requires ValidEvents(size, evs) && 0 <= id < Total(size, evs, false)
    ensures r < size && k < |LocalRequests(size, evs, r)|
    ensures var x := LocalRequests(size, evs, r)[k]; x.begin <= id < x.end
  {
    var n := |evs| - 1;
    var t := Total(size, evs[..n], false);
    if id < t {
      r, k := RequestHasOwner(size, evs[..n], id);
    } else {
      r := OwnerOf(size, evs[n], id - t, size);
      PrefixBounds(size, evs[n], r);
      ShareFacts(size, evs[n], r);
      var i := IndexCovers(evs[n].batches[r], t + Prefix(size, evs[n], r), id);
      k := |LocalRequests(size, evs[..n], r)| + i;
    }
  }

  lemma {:induction false} RequestOwnerIsUnique(size: nat, evs: seq<Event>, r: nat, k: nat, q: nat, j: nat, id: int)
    requires ValidEvents(size, evs) && r < size && q < size
    requires k < |LocalRequests(size, evs, r)| && j < |LocalRequests(size, evs, q)|
    requires var x, y := LocalRequests(size, evs, r)[k], LocalRequests(size, evs, q)[j];
      x.begin <= id < x.end && y.begin <= id < y.end
    ensures r == q && k == j
  {
    var n := |evs| - 1;
    var a, b := LocalRequests(size, evs[..n], r), LocalRequests(size, evs[..n], q);
    LocalRequestsConsecutive(size, evs, r);
    if k < |a| && j < |b| {
      RequestOwnerIsUnique(size, evs[..n], r, k, q, j, id);
    } else {
      NewRequestBounds(size, evs, r, k);
      NewRequestBounds(size, evs, q, j);
      if r < q { PrefixGrows(size, evs[n], r + 1, q); }
      if q < r { PrefixGrows(size, evs[n], q + 1, r); }
    }
  }

  /** The indices of the requests in the last event are in the rank's own part. */
  lemma {:induction false} NewRequestBounds(size: nat, evs: seq<Event>, r: nat, k: nat)
    requires ValidEvents(size, evs) && r < size && evs != [] && k < |LocalRequests(size, evs, r)|
    ensures var n, x := |evs| - 1, LocalRequests(size, evs, r)[k];
      var t := Total(size, evs[..n], false);
      && ValidEvent(size, evs[n])
      && (k < |LocalRequests(size, evs[..n], r)| ==> x.end <= t)
      && (k >= |LocalRequests(size, evs[..n], r)| ==>
            evs[n].Requests? && t + Prefix(size, evs[n], r) <= x.begin && x.end <= t + Prefix(size, evs[n], r + 1))
      && 0 <= Prefix(size, evs[n], r)
  {
    var n := |evs| - 1;
    assert ValidEvent(size, evs[n]);
    LocalRequestsConsecutive(size, evs[..n], r);
    NewRequestsConsecutive(size, evs[n], r, Total(size, evs[..n], false));
    var a, b := LocalRequests(size, evs[..n], r), NewRequests(size, evs[n], r, Total(size, evs[..n], false));
    assert k < |a| ==> (a + b)[k] == a[k];
    assert k >= |a| ==> (a + b)[k] == b[k - |a|];
  }

  // ---------------------------------------------------------------------
  // What a process has sent
  // ---------------------------------------------------------------------

  /** The messages of one kind. */
  function Only(sent: seq<Message>, tokens: bool): seq<Message>
  {
    if sent == [] then []
    else Only(sent[..|sent| - 1], tokens) + if sent[|sent| - 1].IdleToken? == tokens then [sent[|sent| - 1]] else []
  }

  lemma {:induction false} OnlyConcat(a: seq<Message>, b: seq<Message>, tokens: bool)
    ensures Only(a + b, tokens) == Only(a, tokens) + Only(b, tokens)
    decreases |b|
  {
    if b == [] {
      assert a + b == a;
    } else {
      OnlyConcat(a, b[..|b| - 1], tokens);
      assert (a + b)[..|a + b| - 1] == a + b[..|b| - 1];
    }
  }

  function Token(size: nat, rank: nat, id: int): Message
    requires size > 0
  {
    IdleToken(if id < 0 then 0 else Destination(size, id), id, rank)
  }

  /** The tokens for the idle indices ids of a rank. */
  function Tokens(size: nat, rank: nat, ids: seq<int>): seq<Message>
    requires size > 0
  {
    if ids == [] then []
    else Tokens(size, rank, ids[..|ids| - 1]) + [Token(size, rank, ids[|ids| - 1])]
  }

  /** The message about a request: its matching IDs start with its first index. */
  function Announcement(size: nat, x: Indexed): Message
    requires size > 0
  {
    var dest := if x.begin < 0 then 0 else Destination(size, x.begin);
    SendRequest(dest, x.req.(multiBegin := dest, multiEnd := dest + x.req.multiplicity, multiBaseId := x.begin))
  }

  function Announcements(size: nat, xs: seq<Indexed>): seq<Message>
    requires size > 0
  {
    if xs == [] then [] else Announcements(size, xs[..|xs| - 1]) + [Announcement(size, xs[|xs| - 1])]
  }

  /** The first a idle indices, which are those below id, have been sent; the others are still listed. */
  ghost predicate IdlesOk(size: nat, rank: nat, ids: seq<int>, idles: seq<int>, tokens: seq<Message>, id: int, a: nat)
    requires size > 0
  {
    && a <= |ids| && idles == ids[a..] && tokens == Tokens(size, rank, ids[..a])
    && (a > 0 ==> ids[a - 1] < id) && (a < |ids| ==> ids[a] >= id)
  }

  lemma {:induction false} IdleStep(size: nat, rank: nat, ids: seq<int>, idles: seq<int>, tokens: seq<Message>,
      id: int, a: nat, ti: int)
    returns (a': nat)
    requires size > 0 && IdlesOk(size, rank, ids, idles, tokens, id, a) && Ascending(ids, 0, ti)
    ensures if idles != [] && idles[0] == id
            then IdlesOk(size, rank, ids, idles[1..], tokens + [Token(size, rank, id)], id + 1, a')
            else IdlesOk(size, rank, ids, idles, tokens, id + 1, a')
  {
    if idles != [] && idles[0] == id {
      a' := a + 1;
      assert ids[..a'][..a] == ids[..a];
    } else {
      a' := a;
    }
  }

  predicate SameRequest(x: Indexed, y: Indexed)
  {
    && x.begin == y.begin && x.end == y.end && x.req.jobId == y.req.jobId
    && x.req.nodeIndex == y.req.nodeIndex && x.req.multiplicity == y.req.multiplicity
  }

  /** The first b requests, which are those whose indices are all below id, are not listed any more. */
  ghost predicate Listed(xs: seq<Indexed>, indexed: seq<Indexed>, id: int, b: nat)
  {
    && b <= |xs| && |indexed| == |xs| - b
    && (forall k {:trigger indexed[k]} :: 0 <= k < |indexed| ==> SameRequest(indexed[k], xs[b + k]))
    && (b > 0 ==> xs[b - 1].end <= id) && (b < |xs| ==> xs[b].end > id)
  }

  /** The first c requests, which are those whose first index is below id, have been announced. */
  ghost predicate Announced(size: nat, xs: seq<Indexed>, sent: seq<Message>, id: int, c: nat)
    requires size > 0
  {
    && c <= |xs| && sent == Announcements(size, xs[..c])
    && (c > 0 ==> xs[c - 1].begin < id) && (c < |xs| ==> xs[c].begin >= id)
  }

  ghost predicate Current(l: Local)
  {
    l.indexed != [] && l.indexed[0].begin <= l.runningId < l.indexed[0].end
  }

  /** How the list of requests changes in a step for matching ID id. */
  ghost predicate ListChanges(indexed: seq<Indexed>, indexed': seq<Indexed>, id: int)
  {
    if indexed == [] || !(indexed[0].begin <= id < indexed[0].end) then indexed' == indexed
    else if indexed[0].end == id + 1 then indexed' == indexed[1..]
    else |indexed'| == |indexed| && indexed'[1..] == indexed[1..] && SameRequest(indexed'[0], indexed[0])
  }

  lemma {:induction false} RequestMatchedFacts(size: nat, l: Local)
    requires size > 0 && l.reqOffset + l.reqMatched == l.runningId
    ensures var s, id := RequestMatched(size, l), l.runningId;
      && s.0 == l.(indexed := s.0.indexed) && ListChanges(l.indexed, s.0.indexed, id)
      && s.1 == if Current(l) && id == l.indexed[0].begin then [Announcement(size, l.indexed[0])] else []
  {
  }

  lemma {:induction false} ListStep(xs: seq<Indexed>, indexed: seq<Indexed>, indexed': seq<Indexed>, id: int, b: nat,
      tr: int)
    returns (b': nat)
    requires Listed(xs, indexed, id, b) && Consecutive(xs, 0, tr) && ListChanges(indexed, indexed', id)
    ensures Listed(xs, indexed', id + 1, b')
  {
    if indexed != [] && indexed[0].begin <= id < indexed[0].end {
      assert SameRequest(indexed[0], xs[b + 0]);
      b' := if xs[b].end == id + 1 then b + 1 else b;
      NextIsListed(xs, indexed, indexed', b, b');
    } else {
      b' := b;
      assert indexed != [] ==> SameRequest(indexed[0], xs[b + 0]);
    }
  }

  /** The request which is up next has been announced exactly if its first index has been passed. */
  lemma {:induction false} AnnouncedNext(size: nat, xs: seq<Indexed>, sent: seq<Message>, id: int, b: nat, c: nat,
      tr: int)
    requires size > 0 && Consecutive(xs, 0, tr) && Announced(size, xs, sent, id, c)
    requires b < |xs| && xs[b].begin <= id < xs[b].end && (b > 0 ==> xs[b - 1].end <= id)
    ensures c == if id == xs[b].begin then b else b + 1
  {
  }

  lemma {:induction false} AnnounceStep(size: nat, xs: seq<Indexed>, l: Local, sent: seq<Message>, b: nat, c: nat,
      tr: int)
    returns (c': nat)
    requires size > 0 && Listed(xs, l.indexed, l.runningId, b) && Consecutive(xs, 0, tr)
    requires Announced(size, xs, sent, l.runningId, c)
    ensures Announced(size, xs, sent + AnnouncementSent(size, l), l.runningId + 1, c')
  {
    var id := l.runningId;
    c' := c;
    assert l.indexed != [] ==> SameRequest(l.indexed[0], xs[b + 0]);
    if Current(l) {
      AnnouncedNext(size, xs, sent, id, b, c, tr);
      c' := b + 1;
      if id == xs[b].begin {
        assert xs[..c'][..c] == xs[..c];
        assert Announcement(size, l.indexed[0]) == Announcement(size, xs[b]);
      }
    }
  }

  lemma {:induction false} NextIsListed(xs: seq<Indexed>, indexed: seq<Indexed>, indexed': seq<Indexed>, b: nat,
      b': nat)
    requires b < |xs| && |indexed| == |xs| - b
    requires forall k {:trigger indexed[k]} :: 0 <= k < |indexed| ==> SameRequest(indexed[k], xs[b + k])
    requires b' == b + 1 || (b' == b && |indexed'| == |indexed|)
    requires b' == b + 1 ==> indexed' == indexed[1..]
    requires b' == b ==> indexed'[1..] == indexed[1..] && SameRequest(indexed'[0], indexed[0])
    ensures |indexed'| == |xs| - b'
    ensures forall k {:trigger indexed'[k]} :: 0 <= k < |indexed'| ==> SameRequest(indexed'[k], xs[b' + k])
  {
    forall k | 0 <= k < |indexed'| ensures SameRequest(indexed'[k], xs[b' + k]) {
      if b' == b + 1 {
        assert SameRequest(indexed[k + 1], xs[b + (k + 1)]);
      } else {
        assert SameRequest(indexed[k], xs[b + k]);
        assert k > 0 ==> indexed'[k] == indexed'[1..][k - 1] == indexed[1..][k - 1] == indexed[k];
      }
    }
  }

  // ---------------------------------------------------------------------
  // The invariant of a process
  // ---------------------------------------------------------------------

  /** How many idle indices, complete requests and first indices of requests are below the running ID. */
  datatype Progress = Progress(a: nat, b: nat, c: nat)

  /** The process has the idle indices ids and the requests xs, among ti idle states and tr requests overall. */
  datatype Known = Known(ids: seq<int>, xs: seq<Indexed>, ti: int, tr: int)

  /** The offsets and counters agree on the running matching ID. */
  ghost predicate CountersOk(n: Known, l: Local)
  {
    && l.idleOffset + l.idleTotal == n.ti && l.reqOffset + l.reqTotal == n.tr
    && l.idleOffset + l.idleMatched == l.runningId && l.reqOffset + l.reqMatched == l.runningId
    && 0 <= l.runningId <= n.ti && l.runningId <= n.tr
  }

  ghost predicate LocalInv(size: nat, rank: nat, n: Known, l: Local, sent: seq<Message>, p: Progress)
  {
    && size > 0 && Ascending(n.ids, 0, n.ti) && Consecutive(n.xs, 0, n.tr) && CountersOk(n, l)
    && IdlesOk(size, rank, n.ids, l.idles, Only(sent, true), l.runningId, p.a)
    && Listed(n.xs, l.indexed, l.runningId, p.b)
    && Announced(size, n.xs, Only(sent, false), l.runningId, p.c)
  }

  lemma {:induction false} OnlyOne(sent: seq<Message>, m: Message, tokens: bool)
    ensures Only(sent + [m], tokens) == Only(sent, tokens) + if m.IdleToken? == tokens then [m] else []
  {
    assert (sent + [m])[..|sent|] == sent;
  }

  /** The token which is sent in a step, if any. */
  function TokenSent(size: nat, rank: nat, l: Local): seq<Message>
    requires size > 0
  {
    if l.idles != [] && l.idles[0] == l.runningId then [Token(size, rank, l.runningId)] else []
  }

  function AnnouncementSent(size: nat, l: Local): seq<Message>
    requires size > 0
  {
    if l.indexed != [] && l.indexed[0].begin == l.runningId < l.indexed[0].end then [Announcement(size, l.indexed[0])]
    else []
  }

  lemma {:induction false} StepFacts(size: nat, rank: nat, n: Known, l: Local)
    requires size > 0 && CountersOk(n, l) && !Done(l)
    ensures var s := StepMatched(size, rank, l);
      && CountersOk(n, s.0) && s.0.runningId == l.runningId + 1 && s.0.waiting == l.waiting
      && s.0.idleTotal - s.0.idleMatched < l.idleTotal - l.idleMatched && l.idleTotal > l.idleMatched
      && s.1 == AnnouncementSent(size, l) + TokenSent(size, rank, l)
      && s.0.idles == (if TokenSent(size, rank, l) != [] then l.idles[1..] else l.idles)
      && ListChanges(l.indexed, s.0.indexed, l.runningId)
  {
    RequestMatchedFacts(size, l);
  }

  lemma {:induction false} StepIdles(size: nat, rank: nat, n: Known, l: Local, sent: seq<Message>, a: nat)
    returns (a': nat)
    requires size > 0 && Ascending(n.ids, 0, n.ti) && CountersOk(n, l) && !Done(l)
    requires IdlesOk(size, rank, n.ids, l.idles, Only(sent, true), l.runningId, a)
    ensures var s := StepMatched(size, rank, l);
      IdlesOk(size, rank, n.ids, s.0.idles, Only(sent + s.1, true), s.0.runningId, a')
  {
    StepFacts(size, rank, n, l);
    SentInStep(sent, AnnouncementSent(size, l), TokenSent(size, rank, l));
    a' := IdleStep(size, rank, n.ids, l.idles, Only(sent, true), l.runningId, a, n.ti);
  }

  lemma {:induction false} StepRequests(size: nat, rank: nat, n: Known, l: Local, sent: seq<Message>, b: nat, c: nat)
    returns (b': nat, c': nat)
    requires size > 0 && Consecutive(n.xs, 0, n.tr) && CountersOk(n, l) && !Done(l)
    requires Listed(n.xs, l.indexed, l.runningId, b) && Announced(size, n.xs, Only(sent, false), l.runningId, c)
    ensures var s := StepMatched(size, rank, l);
      Listed(n.xs, s.0.indexed, s.0.runningId, b') && Announced(size, n.xs, Only(sent + s.1, false), s.0.runningId, c')
  {
    StepFacts(size, rank, n, l);
    SentInStep(sent, AnnouncementSent(size, l), TokenSent(size, rank, l));
    b' := ListStep(n.xs, l.indexed, StepMatched(size, rank, l).0.indexed, l.runningId, b, n.tr);
    c' := AnnounceStep(size, n.xs, l, Only(sent, false), b, c, n.tr);
  }

  lemma {:induction false} StepKeeps(size: nat, rank: nat, n: Known, l: Local, sent: seq<Message>, p: Progress)
    returns (p': Progress)
    requires LocalInv(size, rank, n, l, sent, p) && !Done(l)
    ensures var s := StepMatched(size, rank, l); LocalInv(size, rank, n, s.0, sent + s.1, p')
  {
    StepFacts(size, rank, n, l);
    var a' := StepIdles(size, rank, n, l, sent, p.a);
    var b', c' := StepRequests(size, rank, n, l, sent, p.b, p.c);
    p' := Progress(a', b', c');
  }

  /** A step sends at most one announcement and at most one token. */
  lemma {:induction false} SentInStep(sent: seq<Message>, m1: seq<Message>, m2: seq<Message>)
    requires |m1| <= 1 && (m1 != [] ==> m1[0].SendRequest?) && |m2| <= 1 && (m2 != [] ==> m2[0].IdleToken?)
    ensures Only(sent + (m1 + m2), false) == Only(sent, false) + m1
    ensures Only(sent + (m1 + m2), true) == Only(sent, true) + m2
  {
    assert sent + (m1 + m2) == sent + m1 + m2;
    if m1 == [] { assert sent + m1 == sent; } else {
      assert m1 == [m1[0]];
      OnlyOne(sent, m1[0], false);
      OnlyOne(sent, m1[0], true);
    }
    if m2 == [] { assert sent + m1 + m2 == sent + m1; } else {
      assert m2 == [m2[0]];
      OnlyOne(sent + m1, m2[0], false);
      OnlyOne(sent + m1, m2[0], true);
    }
  }

  lemma {:induction false} MatchedKeeps(size: nat, rank: nat, n: Known, l: Local, sent: seq<Message>, p: Progress)
    returns (p': Progress)
    requires LocalInv(size, rank, n, l, sent, p)
    ensures var s := Matched(size, rank, l);
      LocalInv(size, rank, n, s.0, sent + s.1, p') && Done(s.0) && s.0.waiting == l.waiting
    decreases if l.idleTotal > l.idleMatched then l.idleTotal - l.idleMatched else 0
  {
    if Done(l) {
      p' := p;
      assert sent + [] == sent;
    } else {
      var s := StepMatched(size, rank, l);
      StepFacts(size, rank, n, l);
      var p1 := StepKeeps(size, rank, n, l, sent, p);
      p' := MatchedKeeps(size, rank, n, s.0, sent + s.1, p1);
      Associative(sent, s.1, Matched(size, rank, s.0).1);
    }
  }

  lemma {:induction false} Associative<X>(a: seq<X>, b: seq<X>, c: seq<X>)
    ensures a + (b + c) == a + b + c
  {
  }

  /** When a process is done, the running ID is the number of possible matchings. */
  lemma {:induction false} DoneMeansAll(n: Known, l: Local)
    requires CountersOk(n, l) && Done(l)
    ensures l.runningId == Smaller(n.ti, n.tr)
  {
  }

  // ---------------------------------------------------------------------
  // Digesting an event
  // ---------------------------------------------------------------------

  ghost function KnownBy(size: nat, evs: seq<Event>, r: nat): Known
    requires ValidEvents(size, evs) && r < size
  {
    Known(LocalIdles(size, evs, r), LocalRequests(size, evs, r), Total(size, evs, true), Total(size, evs, false))
  }

  /** The state of r after it has digested an event, before matching. */
  ghost function Digested(size: nat, r: nat, l: Local, ev: Event): Local
    requires ValidEvent(size, ev) && r < size && (ev.Requests? ==> |ev.batches[r]| <= |l.waiting|)
  {
    var excl, incl, total := Prefix(size, ev, r), Prefix(size, ev, r + 1), Prefix(size, ev, size);
    match ev
    case Idles(_) => IdlesDigested(l, excl, incl, total)
    case Requests(batches) => RequestsDigested(l, |batches[r]|, excl, total)
  }

  lemma {:induction false} MoreIdles(size: nat, rank: nat, ids: seq<int>, idles: seq<int>, tokens: seq<Message>,
      id: int, a: nat, more: seq<int>)
    requires size > 0 && IdlesOk(size, rank, ids, idles, tokens, id, a)
    requires forall k :: 0 <= k < |more| ==> more[k] >= id
    ensures IdlesOk(size, rank, ids + more, idles + more, tokens, id, a)
  {
    assert (ids + more)[..a] == ids[..a] && (ids + more)[a..] == ids[a..] + more;
  }

  lemma {:induction false} MoreRequests(size: nat, xs: seq<Indexed>, indexed: seq<Indexed>, sent: seq<Message>,
      id: int, b: nat, c: nat, more: seq<Indexed>)
    requires size > 0 && Listed(xs, indexed, id, b) && Announced(size, xs, sent, id, c)
    requires forall k :: 0 <= k < |more| ==> id <= more[k].begin < more[k].end
    ensures Listed(xs + more, indexed + more, id, b) && Announced(size, xs + more, sent, id, c)
  {
    assert (xs + more)[..c] == xs[..c];
    var ys, zs := xs + more, indexed + more;
    forall k | 0 <= k < |zs| ensures SameRequest(zs[k], ys[b + k]) {
      assert k < |indexed| ==> SameRequest(indexed[k], xs[b + k]);
    }
  }

  /** What an event adds to the knowledge of a process. */
  lemma {:induction false} KnownExtends(size: nat, evs: seq<Event>, ev: Event, r: nat)
    requires r < size && ValidEvents(size, evs + [ev]) && ValidEvents(size, evs) && ValidEvent(size, ev)
    ensures var n, n' := KnownBy(size, evs, r), KnownBy(size, evs + [ev], r);
      && n'.ids == n.ids + NewIdles(size, ev, r, n.ti) && n'.xs == n.xs + NewRequests(size, ev, r, n.tr)
      && n'.ti == n.ti + (if ev.Idles? then Prefix(size, ev, size) else 0)
      && n'.tr == n.tr + (if ev.Idles? then 0 else Prefix(size, ev, size))
      && Ascending(n'.ids, 0, n'.ti) && Consecutive(n'.xs, 0, n'.tr) && Prefix(size, ev, size) >= 0
  {
    var evs' := evs + [ev];
    assert evs'[..|evs|] == evs && evs'[|evs|] == ev;
    LocalIdlesAscend(size, evs', r);
    LocalRequestsConsecutive(size, evs', r);
    PrefixBounds(size, ev, r);
  }

  lemma {:induction false} DigestIdlesKeeps(size: nat, r: nat, n: Known, n': Known, l: Local, l': Local,
      sent: seq<Message>, p: Progress, more: seq<int>)
    requires LocalInv(size, r, n, l, sent, p) && CountersOk(n', l') && l'.runningId == l.runningId
    requires n'.ids == n.ids + more && n'.xs == n.xs && Ascending(n'.ids, 0, n'.ti) && Consecutive(n'.xs, 0, n'.tr)
    requires l'.idles == l.idles + more && l'.indexed == l.indexed && forall k :: 0 <= k < |more| ==> more[k] >= n.ti
    ensures LocalInv(size, r, n', l', sent, p)
  {
    MoreIdles(size, r, n.ids, l.idles, Only(sent, true), l.runningId, p.a, more);
  }

  lemma {:induction false} DigestRequestsKeeps(size: nat, r: nat, n: Known, n': Known, l: Local, l': Local,
      sent: seq<Message>, p: Progress, more: seq<Indexed>)
    requires LocalInv(size, r, n, l, sent, p) && CountersOk(n', l') && l'.runningId == l.runningId
    requires n'.ids == n.ids && n'.xs == n.xs + more && Ascending(n'.ids, 0, n'.ti) && Consecutive(n'.xs, 0, n'.tr)
    requires l'.idles == l.idles && l'.indexed == l.indexed + more
    requires forall k :: 0 <= k < |more| ==> n.tr <= more[k].begin < more[k].end
    ensures LocalInv(size, r, n', l', sent, p)
  {
    MoreRequests(size, n.xs, l.indexed, Only(sent, false), l.runningId, p.b, p.c, more);
  }

  lemma {:induction false} DigestedFacts(size: nat, r: nat, l: Local, ev: Event, n: Known)
    requires r < size && ValidEvent(size, ev) && CountersOk(n, l)
    requires ev.Requests? ==> |ev.batches[r]| <= |l.waiting| && l.waiting[..|ev.batches[r]|] == ev.batches[r]
    ensures var l', t := Digested(size, r, l, ev), Prefix(size, ev, size);
      && l'.runningId == l.runningId
      && l'.idleOffset + l'.idleTotal == n.ti + (if ev.Idles? then t else 0)
      && l'.reqOffset + l'.reqTotal == n.tr + (if ev.Idles? then 0 else t)
      && l'.idleOffset + l'.idleMatched == l.runningId && l'.reqOffset + l'.reqMatched == l.runningId
      && l'.idles == l.idles + NewIdles(size, ev, r, n.ti)
      && l'.indexed == l.indexed + NewRequests(size, ev, r, n.tr)
      && (forall k :: 0 <= k < |NewIdles(size, ev, r, n.ti)| ==> NewIdles(size, ev, r, n.ti)[k] >= n.ti)
  {
    PrefixBounds(size, ev, r);
    assert ev.Idles? ==> Shares(size, ev)[r] == ev.idle[r];
  }

  lemma {:induction false} DigestKeeps(size: nat, r: nat, evs: seq<Event>, ev: Event, l: Local, sent: seq<Message>,
      p: Progress)
    requires r < size && ValidEvents(size, evs + [ev]) && ValidEvents(size, evs) && ValidEvent(size, ev)
    requires LocalInv(size, r, KnownBy(size, evs, r), l, sent, p)
    requires ev.Requests? ==> |ev.batches[r]| <= |l.waiting| && l.waiting[..|ev.batches[r]|] == ev.batches[r]
    ensures LocalInv(size, r, KnownBy(size, evs + [ev], r), Digested(size, r, l, ev), sent, p)
  {
    KnownExtends(size, evs, ev, r);
    var n, n', l' := KnownBy(size, evs, r), KnownBy(size, evs + [ev], r), Digested(size, r, l, ev);
    DigestedFacts(size, r, l, ev, n);
    if ev.Idles? {
      DigestIdlesKeeps(size, r, n, n', l, l', sent, p, NewIdles(size, ev, r, n.ti));
    } else {
      NewRequestsConsecutive(size, ev, r, n.tr);
      DigestRequestsKeeps(size, r, n, n', l, l', sent, p, NewRequests(size, ev, r, n.tr));
    }
  }

  // ---------------------------------------------------------------------
  // Runs
  // ---------------------------------------------------------------------

  /** A process contributes new requests to the next prefix sum, or digests the next result. */
  datatype LocalStep = Contribute(reqs: seq<Request>) | Digest(ev: Event)

  /** The results come in the order given, and a process's requests are part of them in the order made. */
  ghost predicate StepAllowed(size: nat, r: nat, l: Local, step: LocalStep)
    requires r < size
  {
    step.Digest? ==>
      ValidEvent(size, step.ev)
      && (step.ev.Requests? ==>
            |step.ev.batches[r]| <= |l.waiting| && l.waiting[..|step.ev.batches[r]|] == step.ev.batches[r])
  }

  ghost function StepTaken(size: nat, r: nat, l: Local, step: LocalStep): (Local, seq<Message>)
    requires r < size && StepAllowed(size, r, l, step)
  {
    match step
    case Contribute(reqs) => (l.(waiting := l.waiting + reqs), [])
    case Digest(ev) => Matched(size, r, Digested(size, r, l, ev))
  }

  ghost predicate IsLocalRun(size: nat, r: nat, steps: seq<LocalStep>)
    requires r < size
    decreases |steps|, 0
  {
    steps == [] ||
    var n := |steps| - 1;
    IsLocalRun(size, r, steps[..n]) && StepAllowed(size, r, State(size, r, steps[..n]).0, steps[n])
  }

  /** The state of a process after a run, and all messages it has sent. */
  ghost function State(size: nat, r: nat, steps: seq<LocalStep>): (Local, seq<Message>)
    requires r < size && IsLocalRun(size, r, steps)
    decreases |steps|, 1
  {
    if steps == [] then (INITIAL, [])
    else
      var n := |steps| - 1;
      var before := State(size, r, steps[..n]);
      var s := StepTaken(size, r, before.0, steps[n]);
      (s.0, before.1 + s.1)
  }

  /** The results which have been digested in a run. */
  function Events(steps: seq<LocalStep>): seq<Event>
  {
    if steps == [] then []
    else Events(steps[..|steps| - 1]) + match steps[|steps| - 1] case Contribute(_) => [] case Digest(ev) => [ev]
  }

  lemma {:induction false} RunEventsValid(size: nat, r: nat, steps: seq<LocalStep>)
    requires r < size && IsLocalRun(size, r, steps)
    ensures ValidEvents(size, Events(steps))
  {
    if steps != [] {
      RunEventsValid(size, r, steps[..|steps| - 1]);
    }
  }

  /** What is known about a process after a run. */
  ghost predicate RunOk(size: nat, r: nat, evs: seq<Event>, l: Local, sent: seq<Message>, p: Progress)
    requires r < size && ValidEvents(size, evs)
  {
    LocalInv(size, r, KnownBy(size, evs, r), l, sent, p) && Done(l)
  }

  lemma {:induction false} RunInv(size: nat, r: nat, steps: seq<LocalStep>) returns (p: Progress)
    requires r < size && IsLocalRun(size, r, steps)
    ensures ValidEvents(size, Events(steps))
    ensures RunOk(size, r, Events(steps), State(size, r, steps).0, State(size, r, steps).1, p)
    ensures Agrees(size, Events(steps), State(size, r, steps).0)
  {
    RunEventsValid(size, r, steps);
    if steps == [] {
      p := InitialInv(size, r, Events(steps), State(size, r, steps).0, State(size, r, steps).1);
    } else {
      var n := |steps| - 1;
      var evs, before := Events(steps[..n]), State(size, r, steps[..n]);
      p := RunInv(size, r, steps[..n]);
      if steps[n].Contribute? {
        ContributeInv(size, r, evs, before.0, before.1, steps[n].reqs, p);
        assert Events(steps) == evs && State(size, r, steps).1 == before.1;
      } else {
        p := DigestInv(size, r, evs, before.0, before.1, steps[n].ev, p);
        assert Events(steps) == evs + [steps[n].ev];
      }
    }
  }

  lemma {:induction false} InitialInv(size: nat, r: nat, evs: seq<Event>, l: Local, sent: seq<Message>)
    returns (p: Progress)
    requires r < size && evs == [] && sent == []
    requires l.idleOffset == 0 && l.idleTotal == 0 && l.idleMatched == 0 && l.idles == [] && l.runningId == 0
    requires l.reqOffset == 0 && l.reqTotal == 0 && l.reqMatched == 0 && l.indexed == []
    ensures RunOk(size, r, evs, l, sent, p) && Agrees(size, evs, l)
  {
    p := Progress(0, 0, 0);
    var n := KnownBy(size, evs, r);
    NothingKnown(size, evs, r);
    EmptyInv(size, r, n, l, sent, p);
    InvAgrees(size, r, evs, l, sent, p);
  }

  lemma {:induction false} NothingKnown(size: nat, evs: seq<Event>, r: nat)
    requires r < size && evs == []
    ensures KnownBy(size, evs, r) == Known([], [], 0, 0)
  {
  }

  lemma {:induction false} EmptyInv(size: nat, r: nat, n: Known, l: Local, sent: seq<Message>, p: Progress)
    requires size > 0 && n.ids == [] && n.xs == [] && n.ti == 0 && n.tr == 0 && sent == [] && p.a == 0 && p.b == 0 &&
      p.c == 0
    requires l.idleOffset == 0 && l.idleTotal == 0 && l.idleMatched == 0 && l.idles == [] && l.runningId == 0
    requires l.reqOffset == 0 && l.reqTotal == 0 && l.reqMatched == 0 && l.indexed == []
    ensures LocalInv(size, r, n, l, sent, p)
  {
  }

  lemma {:induction false} ContributeInv(size: nat, r: nat, evs: seq<Event>, l: Local, sent: seq<Message>,
      reqs: seq<Request>, p: Progress)
    requires r < size && ValidEvents(size, evs) && RunOk(size, r, evs, l, sent, p) && Agrees(size, evs, l)
    ensures var l' := l.(waiting := l.waiting + reqs); RunOk(size, r, evs, l', sent, p) && Agrees(size, evs, l')
  {
  }

  lemma {:induction false} DigestInv(size: nat, r: nat, evs: seq<Event>, l: Local, sent: seq<Message>, ev: Event,
      p: Progress)
    returns (p': Progress)
    requires r < size && ValidEvents(size, evs) && RunOk(size, r, evs, l, sent, p) &&
      StepAllowed(size, r, l, Digest(ev))
    ensures var s := Matched(size, r, Digested(size, r, l, ev));
      ValidEvents(size, evs + [ev]) && RunOk(size, r, evs + [ev], s.0, sent + s.1, p') && Agrees(size, evs + [ev], s.0)
  {
    DigestKeeps(size, r, evs, ev, l, sent, p);
    var l1 := Digested(size, r, l, ev);
    p' := MatchedKeeps(size, r, KnownBy(size, evs + [ev], r), l1, sent, p);
    var s := Matched(size, r, l1);
    InvAgrees(size, r, evs + [ev], s.0, sent + s.1, p');
  }

  /** All counters of the process are at the number of possible matchings. */
  ghost predicate Agrees(size: nat, evs: seq<Event>, l: Local)
    requires ValidEvents(size, evs)
  {
    l.idleOffset + l.idleMatched == l.reqOffset + l.reqMatched == l.runningId == Matchable(size, evs)
  }

  lemma {:induction false} InvAgrees(size: nat, r: nat, evs: seq<Event>, l: Local, sent: seq<Message>, p: Progress)
    requires ValidEvents(size, evs) && r < size && RunOk(size, r, evs, l, sent, p)
    ensures Agrees(size, evs, l)
  {
    InvCounters(size, r, KnownBy(size, evs, r), l, sent, p);
  }

  /**
   After every event, every process agrees on the running matching ID, which is the minimum of the
   number of idle states and the number of requests so far.
   */
  lemma {:induction false} CountersAgree(size: nat, r: nat, steps: seq<LocalStep>)
    requires r < size && IsLocalRun(size, r, steps)
    ensures ValidEvents(size, Events(steps))
    ensures Agrees(size, Events(steps), State(size, r, steps).0)
  {
    var p := RunInv(size, r, steps);
  }

  lemma {:induction false} InvCounters(size: nat, r: nat, n: Known, l: Local, sent: seq<Message>, p: Progress)
    requires LocalInv(size, r, n, l, sent, p) && Done(l)
    ensures l.idleOffset + l.idleMatched == l.reqOffset + l.reqMatched == l.runningId == Smaller(n.ti, n.tr)
  {
    DoneMeansAll(n, l);
  }

  /** The message is about the given matching ID. */
  predicate Covers(m: Message, id: int)
  {
    match m
    case IdleToken(_, i, _) => i == id
    case SendRequest(_, req) => req.multiBaseId <= id < req.multiBaseId + req.multiplicity
  }

  function Count(sent: seq<Message>, id: int): nat
  {
    if sent == [] then 0 else Count(sent[..|sent| - 1], id) + if Covers(sent[|sent| - 1], id) then 1 else 0
  }

  lemma {:induction false} CountTokens(size: nat, rank: nat, ids: seq<int>, ti: int, id: int)
    requires size > 0 && Ascending(ids, 0, ti)
    ensures Count(Tokens(size, rank, ids), id) == if id in ids then 1 else 0
  {
    if ids != [] {
      var n := |ids| - 1;
      assert ids == ids[..n] + [ids[n]];
      CountTokens(size, rank, ids[..n], ti, id);
      CountLast(Tokens(size, rank, ids[..n]), Token(size, rank, ids[n]), id);
    }
  }

  ghost predicate Covered(xs: seq<Indexed>, id: int)
  {
    exists k {:trigger xs[k]} :: 0 <= k < |xs| && xs[k].begin <= id < xs[k].end
  }

  lemma {:induction false} CountLast(sent: seq<Message>, m: Message, id: int)
    ensures Count(sent + [m], id) == Count(sent, id) + if Covers(m, id) then 1 else 0
  {
    assert (sent + [m])[..|sent|] == sent;
  }

  lemma {:induction false} CoveredLast(xs: seq<Indexed>, tr: int, id: int)
    requires xs != [] && Consecutive(xs, 0, tr)
    ensures var n := |xs| - 1; var last := xs[n].begin <= id < xs[n].end;
      Consecutive(xs[..n], 0, tr) && (Covered(xs, id) <==> Covered(xs[..n], id) || last) &&
        !(Covered(xs[..n], id) && last)
  {
    var n := |xs| - 1;
    var ys := xs[..n];
    if Covered(ys, id) {
      var k :| 0 <= k < |ys| && ys[k].begin <= id < ys[k].end;
      assert xs[k] == ys[k] && xs[k].end <= xs[n].begin;
    }
    if Covered(xs, id) && !(xs[n].begin <= id < xs[n].end) {
      var k :| 0 <= k < |xs| && xs[k].begin <= id < xs[k].end;
      assert ys[k] == xs[k];
    }
  }

  lemma {:induction false} CountAnnouncements(size: nat, xs: seq<Indexed>, tr: int, id: int)
    requires size > 0 && Consecutive(xs, 0, tr)
    ensures Count(Announcements(size, xs), id) == if Covered(xs, id) then 1 else 0
  {
    if xs != [] {
      var n := |xs| - 1;
      CoveredLast(xs, tr, id);
      CountAnnouncements(size, xs[..n], tr, id);
      CountLast(Announcements(size, xs[..n]), Announcement(size, xs[n]), id);
    }
  }

  /** How many tokens, or announced requests, of a process are for a matching ID which has been passed. */
  lemma {:induction false} SentCounts(size: nat, r: nat, steps: seq<LocalStep>, id: int)
    requires r < size && IsLocalRun(size, r, steps) && ValidEvents(size, Events(steps)) &&
      0 <= id < Matchable(size, Events(steps))
    ensures var evs, sent := Events(steps), State(size, r, steps).1;
      && Count(Only(sent, true), id) == (if id in LocalIdles(size, evs, r) then 1 else 0)
      && Count(Only(sent, false), id) == (if Covered(LocalRequests(size, evs, r), id) then 1 else 0)
  {
    var evs := Events(steps);
    var p := RunInv(size, r, steps);
    CountersAgree(size, r, steps);
    var n, s := KnownBy(size, evs, r), State(size, r, steps);
    PassedIdles(size, r, n, s.0, Only(s.1, true), p.a, id);
    PassedRequests(size, n, s.0.runningId, Only(s.1, false), p.c, id);
  }

  lemma {:induction false} PassedIdles(size: nat, r: nat, n: Known, l: Local, tokens: seq<Message>, a: nat, id: int)
    requires size > 0 && Ascending(n.ids, 0, n.ti) && IdlesOk(size, r, n.ids, l.idles, tokens, l.runningId, a) &&
      id < l.runningId
    ensures Count(tokens, id) == if id in n.ids then 1 else 0
  {
    CountTokens(size, r, n.ids[..a], n.ti, id);
    IdInPassed(n.ids, n.ti, a, id);
  }

  lemma {:induction false} IdInPassed(ids: seq<int>, ti: int, a: nat, id: int)
    requires Ascending(ids, 0, ti) && a <= |ids| && (a < |ids| ==> id < ids[a])
    ensures id in ids[..a] <==> id in ids
  {
    if id in ids {
      var k :| 0 <= k < |ids| && ids[k] == id;
      assert k < a;
      assert ids[..a][k] == id;
    }
  }

  lemma {:induction false} PassedRequests(size: nat, n: Known, running: int, sent: seq<Message>, c: nat, id: int)
    requires size > 0 && Consecutive(n.xs, 0, n.tr) && Announced(size, n.xs, sent, running, c) && id < running
    ensures Count(sent, id) == if Covered(n.xs, id) then 1 else 0
  {
    CoveredPassed(n.xs, n.tr, c, id);
    CountAnnouncements(size, n.xs[..c], n.tr, id);
  }

  lemma {:induction false} CoveredPassed(xs: seq<Indexed>, tr: int, c: nat, id: int)
    requires Consecutive(xs, 0, tr) && c <= |xs| && (c < |xs| ==> id < xs[c].begin)
    ensures Consecutive(xs[..c], 0, tr) && (Covered(xs[..c], id) <==> Covered(xs, id))
  {
    var done := xs[..c];
    if Covered(done, id) {
      var k :| 0 <= k < |done| && done[k].begin <= id < done[k].end;
      assert xs[k] == done[k];
    }
    if Covered(xs, id) {
      var k :| 0 <= k < |xs| && xs[k].begin <= id < xs[k].end;
      assert k < c;
      assert done[k] == xs[k];
    }
  }

  /** All processes have digested the same results. */
  ghost predicate SameEvents(size: nat, runs: seq<seq<LocalStep>>, evs: seq<Event>)
  {
    && size > 0 && |runs| == size && ValidEvents(size, evs)
    && forall r {:trigger runs[r]} :: 0 <= r < size ==> IsLocalRun(size, r, runs[r]) && Events(runs[r]) == evs
  }

  /**
   Every matching ID below the minimum gets exactly one idle token, from exactly one rank, and is covered
   by exactly one announced request, of exactly one rank.
   */
  lemma {:induction false} EveryIdIsMatchedOnce(size: nat, runs: seq<seq<LocalStep>>, evs: seq<Event>, id: int)
    returns (idle: nat, requester: nat)
    requires SameEvents(size, runs, evs) && 0 <= id < Matchable(size, evs)
    ensures idle < size && requester < size
    ensures forall r :: 0 <= r < size ==>
      Count(Only(State(size, r, runs[r]).1, true), id) == if r == idle then 1 else 0
    ensures forall r :: 0 <= r < size ==>
      Count(Only(State(size, r, runs[r]).1, false), id) == if r == requester then 1 else 0
  {
    var k, j;
    idle, k := IdleHasOwner(size, evs, id);
    requester, j := RequestHasOwner(size, evs, id);
    forall r | 0 <= r < size
      ensures Count(Only(State(size, r, runs[r]).1, true), id) == (if r == idle then 1 else 0)
           && Count(Only(State(size, r, runs[r]).1, false), id) == (if r == requester then 1 else 0)
    {
      SentCounts(size, r, runs[r], id);
      OwnedBy(size, evs, id, idle, k, requester, j, r);
    }
  }

  lemma {:induction false} OwnedBy(size: nat, evs: seq<Event>, id: int, idle: nat, k: nat, requester: nat, j: nat,
      r: nat)
    requires ValidEvents(size, evs) && idle < size && requester < size && r < size
    requires k < |LocalIdles(size, evs, idle)| && LocalIdles(size, evs, idle)[k] == id
    requires j < |LocalRequests(size, evs, requester)|
    requires var x := LocalRequests(size, evs, requester)[j]; x.begin <= id < x.end
    ensures id in LocalIdles(size, evs, r) <==> r == idle
    ensures Covered(LocalRequests(size, evs, r), id) <==> r == requester
  {
    var ids, xs := LocalIdles(size, evs, r), LocalRequests(size, evs, r);
    if id in ids {
      var i :| 0 <= i < |ids| && ids[i] == id;
      IdleOwnerIsUnique(size, evs, r, i, idle, k);
    }
    if Covered(xs, id) {
      var i :| 0 <= i < |xs| && xs[i].begin <= id < xs[i].end;
      RequestOwnerIsUnique(size, evs, r, i, requester, j, id);
    }
  }

  // ---------------------------------------------------------------------
  // Where messages go
  // ---------------------------------------------------------------------

  /** Both sides of a matching meet at the rank which its ID determines. */
  predicate Addressed(size: nat, rank: nat, m: Message)
    requires size > 0
  {
    match m
    case IdleToken(dest, id, idle) => id >= 0 && dest == id % size && idle == rank
    case SendRequest(dest, req) =>
      && req.multiBaseId >= 0 && dest == req.multiBaseId % size
      && req.multiBegin == dest && req.multiEnd == dest + req.multiplicity
  }

  lemma {:induction false} InOnly(sent: seq<Message>, m: Message)
    requires m in sent
    ensures m in Only(sent, m.IdleToken?)
  {
    var n := |sent| - 1;
    if m != sent[n] {
      assert m in sent[..n];
      InOnly(sent[..n], m);
    }
  }

  lemma {:induction false} TokensAreAddressed(size: nat, rank: nat, ids: seq<int>, ti: int, m: Message)
    requires size > 0 && Ascending(ids, 0, ti) && m in Tokens(size, rank, ids)
    ensures Addressed(size, rank, m)
  {
    var n := |ids| - 1;
    if m in Tokens(size, rank, ids[..n]) {
      TokensAreAddressed(size, rank, ids[..n], ti, m);
    } else {
      assert ids[n] >= 0;
      DestinationIsModulo(size, ids[n]);
    }
  }

  lemma {:induction false} AnnouncementsAreAddressed(size: nat, rank: nat, xs: seq<Indexed>, m: Message)
    requires size > 0 && (forall k {:trigger xs[k]} :: 0 <= k < |xs| ==> xs[k].begin >= 0) &&
      m in Announcements(size, xs)
    ensures Addressed(size, rank, m)
  {
    var n := |xs| - 1;
    if m in Announcements(size, xs[..n]) {
      AnnouncementsAreAddressed(size, rank, xs[..n], m);
    } else {
      DestinationIsModulo(size, xs[n].begin);
    }
  }

  /** In every run, all idle tokens and requests go to the matching ID modulo the number of processes. */
  lemma {:induction false} MessagesAreAddressed(size: nat, r: nat, steps: seq<LocalStep>, m: Message)
    requires r < size && IsLocalRun(size, r, steps) && m in State(size, r, steps).1
    ensures Addressed(size, r, m)
  {
    var p := RunInv(size, r, steps);
    InvAddresses(size, r, KnownBy(size, Events(steps), r), State(size, r, steps).0, State(size, r, steps).1, p, m);
  }

  lemma {:induction false} InvAddresses(size: nat, r: nat, n: Known, l: Local, sent: seq<Message>, p: Progress,
      m: Message)
    requires LocalInv(size, r, n, l, sent, p) && m in sent
    ensures Addressed(size, r, m)
  {
    InOnly(sent, m);
    if m.IdleToken? {
      TokensAreAddressed(size, r, n.ids[..p.a], n.ti, m);
    } else {
      AnnouncementsAreAddressed(size, r, n.xs[..p.c], m);
    }
  }
}
