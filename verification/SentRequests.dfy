/** Which requests a matcher sends: those which were contributed, in the order in which they were contributed. */
module SentRequests {
  import opened RequestMatching
  import opened MatchingRuns

  /** What a request asks for. The other fields are filled in when it is matched. */
  datatype Wish = Wish(jobId: int, nodeIndex: int, multiplicity: int)

  function WishOf(req: Request): Wish
  {
    Wish(req.jobId, req.nodeIndex, req.multiplicity)
  }

  function Wishes(reqs: seq<Request>): (ws: seq<Wish>)
    ensures |ws| == |reqs| && forall k {:trigger ws[k]} :: 0 <= k < |reqs| ==> ws[k] == WishOf(reqs[k])
  {
    seq(|reqs|, k requires 0 <= k < |reqs| => WishOf(reqs[k]))
  }

  /** What has been asked for in these messages. */
  function Asked(sent: seq<Message>): seq<Wish>
  {
    if sent == [] then []
    else
      var m := sent[|sent| - 1];
      Asked(sent[..|sent| - 1]) + if m.SendRequest? then [WishOf(m.req)] else []
  }

  /** All requests which were contributed in a run. */
  function Made(steps: seq<LocalStep>): seq<Request>
  {
    if steps == [] then []
    else
      var step := steps[|steps| - 1];
      Made(steps[..|steps| - 1]) + if step.Contribute? then step.reqs else []
  }

  /** The requests of a rank in the results which were digested in a run. */
  ghost function Batched(size: nat, evs: seq<Event>, r: nat): seq<Request>
    requires ValidEvents(size, evs) && r < size
  {
    if evs == [] then []
    else
      var n := |evs| - 1;
      assert ValidEvent(size, evs[n]);
      Batched(size, evs[..n], r) + if evs[n].Requests? then evs[n].batches[r] else []
  }

  lemma {:induction false} MatchedKeepsWaiting(size: nat, rank: nat, l: Local)
    requires size > 0
    ensures Matched(size, rank, l).0.waiting == l.waiting
    decreases if l.idleTotal > l.idleMatched then l.idleTotal - l.idleMatched else 0
  {
    if !Done(l) { MatchedKeepsWaiting(size, rank, StepMatched(size, rank, l).0); }
  }

  ghost function NewBatch(size: nat, ev: Event, r: nat): seq<Request>
    requires ValidEvent(size, ev) && r < size
  {
    if ev.Requests? then ev.batches[r] else []
  }

  lemma {:induction false} BatchedNext(size: nat, evs: seq<Event>, ev: Event, r: nat)
    requires ValidEvents(size, evs) && ValidEvent(size, ev) && ValidEvents(size, evs + [ev]) && r < size
    ensures Batched(size, evs + [ev], r) == Batched(size, evs, r) + NewBatch(size, ev, r)
  {
    assert (evs + [ev])[..|evs|] == evs;
  }

  lemma {:induction false} DigestTakes(size: nat, r: nat, l: Local, ev: Event)
    requires r < size && StepAllowed(size, r, l, Digest(ev))
    ensures l.waiting == NewBatch(size, ev, r) + StepTaken(size, r, l, Digest(ev)).0.waiting
  {
    MatchedKeepsWaiting(size, r, Digested(size, r, l, ev));
    if ev.Requests? { assert l.waiting == ev.batches[r] + l.waiting[|ev.batches[r]|..]; }
  }

  /** What was contributed has been part of a result, in the same order, or is still waiting. */
  lemma {:induction false} NothingIsDropped(size: nat, r: nat, steps: seq<LocalStep>)
    requires r < size && IsLocalRun(size, r, steps)
    ensures ValidEvents(size, Events(steps))
    ensures Made(steps) == Batched(size, Events(steps), r) + State(size, r, steps).0.waiting
  {
    RunEventsValid(size, r, steps);
    if steps != [] {
      var n := |steps| - 1;
      var before, step := steps[..n], steps[n];
      NothingIsDropped(size, r, before);
      var evs, l := Events(before), State(size, r, before).0;
      var b, w := Batched(size, evs, r), State(size, r, steps).0.waiting;
      if step.Digest? {
        assert Events(steps) == evs + [step.ev];
        BatchedNext(size, evs, step.ev, r);
        DigestTakes(size, r, l, step.ev);
        Associative(b, NewBatch(size, step.ev, r), w);
      } else {
        assert Events(steps) == evs;
        Associative(b, l.waiting, step.reqs);
      }
    }
  }

  ghost function RequestsOf(xs: seq<Indexed>): (reqs: seq<Request>)
    ensures |reqs| == |xs| && forall k {:trigger reqs[k]} :: 0 <= k < |xs| ==> reqs[k] == xs[k].req
  {
    seq(|xs|, k requires 0 <= k < |xs| => xs[k].req)
  }

  /** Indexing keeps the requests as they are. */
  lemma {:induction false} IndexKeeps(reqs: seq<Request>, begin: int)
    ensures RequestsOf(Index(reqs, begin)) == reqs
  {
    if reqs != [] {
      var k := |reqs| - 1;
      IndexKeeps(reqs[..k], begin);
      assert reqs == reqs[..k] + [reqs[k]];
      RequestsOfConcat(Index(reqs[..k], begin), Index(reqs, begin)[k..]);
    }
  }

  lemma {:induction false} RequestsOfConcat(a: seq<Indexed>, b: seq<Indexed>)
    ensures RequestsOf(a + b) == RequestsOf(a) + RequestsOf(b)
  {
  }

  lemma {:induction false} NewAreBatched(size: nat, ev: Event, r: nat, offset: int)
    requires ValidEvent(size, ev) && r < size
    ensures RequestsOf(NewRequests(size, ev, r, offset)) == NewBatch(size, ev, r)
  {
    if ev.Requests? { IndexKeeps(ev.batches[r], offset + Prefix(size, ev, r)); }
  }

  lemma {:induction false} LocalAreBatched(size: nat, evs: seq<Event>, r: nat)
    requires ValidEvents(size, evs) && r < size
    ensures RequestsOf(LocalRequests(size, evs, r)) == Batched(size, evs, r)
  {
    if evs != [] {
      var n := |evs| - 1;
      var ev, offset := evs[n], Total(size, evs[..n], false);
      assert ValidEvent(size, ev);
      LocalAreBatched(size, evs[..n], r);
      RequestsOfConcat(LocalRequests(size, evs[..n], r), NewRequests(size, ev, r, offset));
      NewAreBatched(size, ev, r, offset);
    }
  }

  /** Announcing requests asks for what they ask for. */
  lemma {:induction false} AnnouncedAsks(size: nat, xs: seq<Indexed>)
    requires size > 0
    ensures Asked(Announcements(size, xs)) == Wishes(RequestsOf(xs))
  {
    if xs != [] {
      var n := |xs| - 1;
      AnnouncedAsks(size, xs[..n]);
      var before, m := Announcements(size, xs[..n]), Announcement(size, xs[n]);
      assert (before + [m])[..|before|] == before;
      assert Wishes(RequestsOf(xs)) == Wishes(RequestsOf(xs[..n])) + [WishOf(xs[n].req)];
    }
  }

  lemma {:induction false} OnlyRequestsAsk(sent: seq<Message>)
    ensures Asked(Only(sent, false)) == Asked(sent)
  {
    if sent != [] {
      var n := |sent| - 1;
      OnlyRequestsAsk(sent[..n]);
      var before, m := Only(sent[..n], false), sent[n];
      assert (before + [m])[..|before|] == before;
      assert before + [] == before;
    }
  }

  /**
   In every run of a process, the requests it has sent ask for what its own requests asked for when they were
   contributed: in the same order, beginning with the first one, without a gap. With enough idle processes,
   all requests which have been part of a result are sent.
   */
  lemma {:induction false} ContributedAreSent(size: nat, r: nat, steps: seq<LocalStep>)
    requires r < size && IsLocalRun(size, r, steps)
    ensures ValidEvents(size, Events(steps))
    ensures Asked(State(size, r, steps).1) <= Wishes(Made(steps))
    ensures Total(size, Events(steps), true) >= Total(size, Events(steps), false) ==>
      Asked(State(size, r, steps).1) == Wishes(Batched(size, Events(steps), r))
  {
    NothingIsDropped(size, r, steps);
    RunIsFollowed(size, r, steps);
    var s := State(size, r, steps);
    SentAreMade(size, r, Events(steps), s.0, s.1, Made(steps));
  }

  ghost predicate Followed(size: nat, r: nat, evs: seq<Event>, l: Local, sent: seq<Message>)
  {
    r < size && ValidEvents(size, evs) && exists p :: RunOk(size, r, evs, l, sent, p)
  }

  lemma {:induction false} RunIsFollowed(size: nat, r: nat, steps: seq<LocalStep>)
    requires r < size && IsLocalRun(size, r, steps)
    ensures Followed(size, r, Events(steps), State(size, r, steps).0, State(size, r, steps).1)
  {
    var p := RunInv(size, r, steps);
  }

  lemma {:induction false} SentAreMade(size: nat, r: nat, evs: seq<Event>, l: Local, sent: seq<Message>,
      made: seq<Request>)
    requires Followed(size, r, evs, l, sent)
    requires made == Batched(size, evs, r) + l.waiting
    ensures Asked(sent) <= Wishes(made)
    ensures Total(size, evs, true) >= Total(size, evs, false) ==> Asked(sent) == Wishes(Batched(size, evs, r))
  {
    var c := SentUpTo(size, r, evs, l, sent);
    LocalAreBatched(size, evs, r);
    SentArePrefix(size, LocalRequests(size, evs, r), sent, c, made, l.waiting);
  }

  /** The first c requests have been sent, and all of them if there are enough idle processes. */
  lemma {:induction false} SentUpTo(size: nat, r: nat, evs: seq<Event>, l: Local, sent: seq<Message>)
    returns (c: nat)
    requires Followed(size, r, evs, l, sent)
    ensures var xs := LocalRequests(size, evs, r);
      && c <= |xs| && Only(sent, false) == Announcements(size, xs[..c])
      && (Total(size, evs, true) >= Total(size, evs, false) ==> c == |xs|)
  {
    var p :| RunOk(size, r, evs, l, sent, p);
    c := p.c;
    AllPassed(size, r, KnownBy(size, evs, r), l, sent, p);
  }

  lemma {:induction false} SentArePrefix(size: nat, xs: seq<Indexed>, sent: seq<Message>, c: nat, made: seq<Request>,
      waiting: seq<Request>)
    requires size > 0 && c <= |xs| && Only(sent, false) == Announcements(size, xs[..c])
    requires made == RequestsOf(xs) + waiting
    ensures Asked(sent) <= Wishes(made) && (c == |xs| ==> Asked(sent) == Wishes(RequestsOf(xs)))
  {
    OnlyRequestsAsk(sent);
    AnnouncedAsks(size, xs[..c]);
    assert Wishes(RequestsOf(xs[..c])) == Wishes(made)[..c];
    assert c == |xs| ==> xs[..c] == xs;
  }

  lemma {:induction false} AllPassed(size: nat, r: nat, n: Known, l: Local, sent: seq<Message>, p: Progress)
    requires LocalInv(size, r, n, l, sent, p) && Done(l)
    ensures p.c <= |n.xs| && Only(sent, false) == Announcements(size, n.xs[..p.c]) && (n.ti >= n.tr ==> p.c == |n.xs|)
  {
    DoneMeansAll(n, l);
  }
}
