/** Counting requests by owner. */
module RequestCounts {
  import opened Collections

  datatype Request = Request(id: nat, owner: nat)

  function OfOwner(s: seq<Request>, w: nat): nat {
    if s == [] then 0 else OfOwner(s[1..], w) + (if s[0].owner == w then 1 else 0)
  }

  /** Requests whose owner is not among the living workers. */
  function Orphaned(s: seq<Request>, alive: set<nat>): nat {
    if s == [] then 0 else Orphaned(s[1..], alive) + (if s[0].owner in alive then 0 else 1)
  }

  lemma {:induction false} CountsConcat(s: seq<Request>, t: seq<Request>, w: nat, alive: set<nat>)
    ensures OfOwner(s + t, w) == OfOwner(s, w) + OfOwner(t, w)
    ensures Orphaned(s + t, alive) == Orphaned(s, alive) + Orphaned(t, alive)
  {
    if s == [] {
      assert s + t == t;
    } else {
      assert (s + t)[1..] == s[1..] + t;
      CountsConcat(s[1..], t, w, alive);
    }
  }

  lemma CountsRemove(s: seq<Request>, i: nat, w: nat, alive: set<nat>)
    requires i < |s|
    ensures OfOwner(RemoveAt(s, i), w) == OfOwner(s, w) - (if s[i].owner == w then 1 else 0)
    ensures Orphaned(RemoveAt(s, i), alive) == Orphaned(s, alive) - (if s[i].owner in alive then 0 else 1)
  {
    assert s == s[..i] + ([s[i]] + s[i + 1..]);
    CountsConcat(s[..i], [s[i]] + s[i + 1..], w, alive);
    CountsConcat([s[i]], s[i + 1..], w, alive);
    CountsConcat(s[..i], s[i + 1..], w, alive);
  }

  /** A worker's death turns its requests into orphans. */
  lemma {:induction false} DeathOrphans(s: seq<Request>, alive: set<nat>, w: nat)
    requires w in alive
    ensures Orphaned(s, alive - {w}) == Orphaned(s, alive) + OfOwner(s, w)
  {
    if s != [] { DeathOrphans(s[1..], alive, w); }
  }

  /** A worker nobody has asked for anything yet is no orphan maker. */
  lemma {:induction false} BirthAdopts(s: seq<Request>, alive: set<nat>, w: nat)
    requires forall r :: r in s ==> r.owner != w
    ensures Orphaned(s, alive + {w}) == Orphaned(s, alive) && OfOwner(s, w) == 0
  {
    if s != [] { BirthAdopts(s[1..], alive, w); }
  }

  lemma {:induction false} NoneOrphaned(s: seq<Request>, alive: set<nat>)
    requires Orphaned(s, alive) == 0
    ensures forall r :: r in s ==> r.owner in alive
  {
    if s != [] {
      NoneOrphaned(s[1..], alive);
      assert s == [s[0]] + s[1..];
    }
  }

  // ---------------------------------------------------------------- the request lists of one virtual machine

  /** Where the requests are: queued, with the thread, completed, or consumed. */
  datatype Places = Places(jobs: seq<Request>, inFlight: seq<Request>, completed: seq<Request>, consumed: seq<Request>)
  {
    function All(): seq<Request> { jobs + inFlight + completed + consumed }

    /** Not yet consumed. */
    function Open(): seq<Request> { jobs + inFlight + completed }
  }

  /** Each request is in one place, and every owner's open requests are counted where they belong. */
  ghost predicate Accounted(p: Places, pending: map<nat, nat>, orphans: nat) {
    && |p.inFlight| <= 1
    && Distinct(p.All())
    && (forall w :: w in pending ==> pending[w] == OfOwner(p.Open(), w))
    && orphans == Orphaned(p.Open(), pending.Keys)
  }

  /** Nothing was lost or consumed, and nothing left the completed queue. */
  ghost predicate Moved(p: Places, q: Places) {
    q.consumed == p.consumed && p.completed <= q.completed && Same(p, q) && |q.Open()| == |p.Open()|
  }

  ghost predicate Same(p: Places, q: Places) { forall r :: r in q.All() <==> r in p.All() }

  lemma TakeMoves(p: Places)
    requires p.jobs != [] && p.inFlight == []
    ensures Moved(p, Places(p.jobs[1..], [p.jobs[0]], p.completed, p.consumed))
  {
    assert p.jobs == [p.jobs[0]] + p.jobs[1..];
  }

  lemma FinishMoves(p: Places)
    ensures Moved(p, Places(p.jobs, [], p.completed + p.inFlight, p.consumed))
  {
  }

  /** The requests of one owner, in order. */
  function Owned(s: seq<Request>, w: nat): seq<Request> {
    if s == [] then [] else (if s[0].owner == w then [s[0]] else []) + Owned(s[1..], w)
  }

  lemma {:induction false} OwnedConcat(s: seq<Request>, t: seq<Request>, w: nat)
    ensures Owned(s + t, w) == Owned(s, w) + Owned(t, w)
    decreases |s|
  {
    if s == [] {
      assert s + t == t;
    } else {
      OwnedConcat(s[1..], t, w);
      var u, head := s + t, if s[0].owner == w then [s[0]] else [];
      assert u[0] == s[0] && u[1..] == s[1..] + t;
      assert Owned(u, w) == head + Owned(u[1..], w);
      assert head + (Owned(s[1..], w) + Owned(t, w)) == (head + Owned(s[1..], w)) + Owned(t, w);
    }
  }

  lemma OwnedOne(r: Request, w: nat)
    ensures Owned([r], w) == if r.owner == w then [r] else []
  {
    assert Owned([r][1..], w) == [];
  }

  lemma OwnedAround(s: seq<Request>, i: nat, w: nat)
    requires i < |s|
    ensures Owned(s, w) == Owned(s[..i], w) + (if s[i].owner == w then [s[i]] else []) + Owned(s[i + 1..], w)
    ensures Owned(RemoveAt(s, i), w) == Owned(s[..i], w) + Owned(s[i + 1..], w)
  {
    assert s == s[..i] + ([s[i]] + s[i + 1..]);
    OwnedConcat(s[..i], [s[i]] + s[i + 1..], w);
    OwnedConcat([s[i]], s[i + 1..], w);
    OwnedOne(s[i], w);
    OwnedConcat(s[..i], s[i + 1..], w);
  }

  /** With none of its requests before `i`, the one at `i` is an owner's first. */
  lemma {:induction false} FirstOwned(s: seq<Request>, i: nat, w: nat)
    requires i <= |s| && forall j :: 0 <= j < i ==> s[j].owner != w
    ensures i < |s| && s[i].owner == w ==> Owned(s, w) != [] && Owned(s, w)[0] == s[i]
    ensures i == |s| ==> Owned(s, w) == []
    decreases |s|
  {
    if i > 0 { FirstOwned(s[1..], i - 1, w); }
  }

  /** Nobody's turn changes: every living owner's completed requests keep their order, new ones come behind. */
  ghost predicate TurnsKept(p: Places, q: Places, alive: set<nat>) {
    forall w :: w in alive ==> Owned(p.completed, w) <= Owned(q.completed, w)
  }

  lemma TurnsAppended(p: Places, q: Places, alive: set<nat>)
    requires p.completed <= q.completed
    ensures TurnsKept(p, q, alive)
  {
    forall w | w in alive ensures Owned(p.completed, w) <= Owned(q.completed, w) {
      assert q.completed == p.completed + q.completed[|p.completed|..];
      OwnedConcat(p.completed, q.completed[|p.completed|..], w);
    }
  }

  lemma TurnsWithoutOrphan(p: Places, q: Places, i: nat, alive: set<nat>)
    requires Consumed(p, q, i) && p.completed[i].owner !in alive
    ensures TurnsKept(p, q, alive)
  {
    forall w | w in alive ensures Owned(p.completed, w) <= Owned(q.completed, w) {
      OwnedAround(p.completed, i, w);
    }
  }

  lemma TurnsKeptOn(p: Places, q: Places, r: Places, alive: set<nat>)
    requires TurnsKept(p, q, alive) && TurnsKept(q, r, alive)
    ensures TurnsKept(p, r, alive)
  {
    forall w | w in alive ensures Owned(p.completed, w) <= Owned(r.completed, w) {
      assert Owned(p.completed, w) <= Owned(q.completed, w) <= Owned(r.completed, w);
    }
  }

  /** Nothing was lost, nobody's turn changed, and of what is consumed all was so before or belongs to no living owner. */
  ghost predicate Cleared(p: Places, q: Places, alive: set<nat>) {
    && Same(p, q) && p.consumed <= q.consumed && TurnsKept(p, q, alive)
    && (forall r :: r in p.completed ==> r in q.completed || r in q.consumed)
    && forall r :: r in q.consumed ==> r in p.consumed || r.owner !in alive
  }

  lemma MovedClears(p: Places, q: Places, alive: set<nat>)
    requires Moved(p, q)
    ensures Cleared(p, q, alive)
  {
    TurnsAppended(p, q, alive);
  }

  lemma OrphanClears(p: Places, q: Places, i: nat, alive: set<nat>)
    requires Consumed(p, q, i) && p.completed[i].owner !in alive
    ensures Cleared(p, q, alive)
  {
    TurnsWithoutOrphan(p, q, i, alive);
    ConsumeSame(p, i);
    assert p.completed == p.completed[..i] + [p.completed[i]] + p.completed[i + 1..];
  }

  lemma ClearedOn(p: Places, q: Places, r: Places, alive: set<nat>)
    requires Cleared(p, q, alive) && Cleared(q, r, alive)
    ensures Cleared(p, r, alive)
  {
    TurnsKeptOn(p, q, r, alive);
  }

  /** The completed request at `i` was consumed, nothing else changed. */
  predicate Consumed(p: Places, q: Places, i: nat) {
    i < |p.completed| && q == p.(completed := RemoveAt(p.completed, i), consumed := p.consumed + [p.completed[i]])
  }

  lemma NotYetConsumed(p: Places, i: nat)
    requires Distinct(p.All()) && i < |p.completed|
    ensures p.completed[i] !in p.consumed
  {
    var all, at := p.All(), |p.jobs| + |p.inFlight|;
    forall j | 0 <= j < |p.consumed| ensures p.consumed[j] != p.completed[i] {
      assert all[at + i] == p.completed[i] && all[at + |p.completed| + j] == p.consumed[j];
    }
  }

  lemma InFlightIsNowhereElse(p: Places)
    requires Distinct(p.All()) && p.inFlight != []
    ensures p.inFlight[0] !in p.completed && p.inFlight[0] !in p.consumed
  {
    var all, at := p.All(), |p.jobs|;
    assert all[at] == p.inFlight[0];
    forall j | 0 <= j < |p.completed| ensures p.completed[j] != p.inFlight[0] {
      assert all[at + |p.inFlight| + j] == p.completed[j];
    }
    forall j | 0 <= j < |p.consumed| ensures p.consumed[j] != p.inFlight[0] {
      assert all[at + |p.inFlight| + |p.completed| + j] == p.consumed[j];
    }
  }

  lemma ConsumeSame(p: Places, i: nat)
    requires i < |p.completed|
    ensures Same(p, p.(completed := RemoveAt(p.completed, i), consumed := p.consumed + [p.completed[i]]))
  {
    assert p.completed == p.completed[..i] + [p.completed[i]] + p.completed[i + 1..];
  }

  lemma OpenCounts(p: Places, w: nat, alive: set<nat>)
    ensures OfOwner(p.Open(), w) == OfOwner(p.jobs, w) + OfOwner(p.inFlight, w) + OfOwner(p.completed, w)
    ensures Orphaned(p.Open(), alive) == Orphaned(p.jobs, alive) + Orphaned(p.inFlight, alive) + Orphaned(p.completed, alive)
  {
    CountsConcat(p.jobs, p.inFlight, w, alive);
    CountsConcat(p.jobs + p.inFlight, p.completed, w, alive);
  }

  /** A request moves on from one list to the next without being counted differently. */
  lemma TakeKeeps(p: Places, pending: map<nat, nat>, orphans: nat)
    requires Accounted(p, pending, orphans) && p.jobs != [] && p.inFlight == []
    ensures Accounted(Places(p.jobs[1..], [p.jobs[0]], p.completed, p.consumed), pending, orphans)
  {
    var q := Places(p.jobs[1..], [p.jobs[0]], p.completed, p.consumed);
    SameCounts(p, q, pending, orphans);
    assert p.All() == [p.jobs[0]] + p.jobs[1..] + (p.completed + p.consumed);
    Rotated(p.jobs[0], p.jobs[1..], p.completed + p.consumed);
    assert q.All() == p.jobs[1..] + [p.jobs[0]] + (p.completed + p.consumed);
  }

  lemma FinishKeeps(p: Places, pending: map<nat, nat>, orphans: nat)
    requires Accounted(p, pending, orphans) && p.inFlight != []
    ensures Accounted(Places(p.jobs, [], p.completed + p.inFlight, p.consumed), pending, orphans)
  {
    var q := Places(p.jobs, [], p.completed + p.inFlight, p.consumed);
    SameCounts(p, q, pending, orphans);
    var r := p.inFlight[0];
    assert p.All() == p.jobs + ([r] + p.completed + p.consumed);
    assert q.All() == p.jobs + (p.completed + [r] + p.consumed);
    Exchange(p.jobs, r, p.completed, p.consumed);
  }

  lemma Rotated(r: Request, s: seq<Request>, t: seq<Request>)
    requires Distinct([r] + s + t)
    ensures Distinct(s + [r] + t)
  {
    Exchange([], r, s, t);
    assert [] + ([r] + s + t) == [r] + s + t;
    assert [] + (s + [r] + t) == s + [r] + t;
  }

  lemma Exchange(a: seq<Request>, r: Request, s: seq<Request>, t: seq<Request>)
    requires Distinct(a + ([r] + s + t))
    ensures Distinct(a + (s + [r] + t))
  {
    var x, y := a + ([r] + s + t), a + (s + [r] + t);
    var k := |a|;
    assert forall j :: 0 <= j < |y| ==> y[j] == x[if j < k then j else if j < k + |s| then j + 1 else if j == k + |s| then k else j];
  }

  lemma SameCounts(p: Places, q: Places, pending: map<nat, nat>, orphans: nat)
    requires Accounted(p, pending, orphans) && p.jobs + p.inFlight != []
    requires (p.jobs != [] && p.inFlight == [] && q.jobs == p.jobs[1..] && q.inFlight == [p.jobs[0]] && q.completed == p.completed)
          || (q.jobs == p.jobs && q.inFlight == [] && q.completed == p.completed + p.inFlight)
    ensures forall w :: OfOwner(q.Open(), w) == OfOwner(p.Open(), w)
    ensures Orphaned(q.Open(), pending.Keys) == orphans
  {
    forall w ensures OfOwner(q.Open(), w) == OfOwner(p.Open(), w) { SameCount(p, q, w, pending.Keys); }
    SameCount(p, q, 0, pending.Keys);
  }

  lemma SameCount(p: Places, q: Places, w: nat, alive: set<nat>)
    requires (p.jobs != [] && p.inFlight == [] && q.jobs == p.jobs[1..] && q.inFlight == [p.jobs[0]] && q.completed == p.completed)
          || (q.jobs == p.jobs && q.inFlight == [] && q.completed == p.completed + p.inFlight)
    ensures OfOwner(q.Open(), w) == OfOwner(p.Open(), w) && Orphaned(q.Open(), alive) == Orphaned(p.Open(), alive)
  {
    OpenCounts(p, w, alive);
    OpenCounts(q, w, alive);
    if p.jobs != [] { CountsConcat([p.jobs[0]], p.jobs[1..], w, alive); assert [p.jobs[0]] + p.jobs[1..] == p.jobs; }
    CountsConcat(p.completed, p.inFlight, w, alive);
  }

  /** A new request is counted for its living owner. */
  lemma RequestKeeps(p: Places, pending: map<nat, nat>, orphans: nat, r: Request)
    requires Accounted(p, pending, orphans) && r !in p.All() && r.owner in pending
    ensures Accounted(p.(jobs := p.jobs + [r]), pending[r.owner := pending[r.owner] + 1], orphans)
  {
    var q := p.(jobs := p.jobs + [r]);
    forall w ensures OfOwner(q.Open(), w) == OfOwner(p.Open(), w) + (if w == r.owner then 1 else 0) {
      OpenCounts(p, w, pending.Keys);
      OpenCounts(q, w, pending.Keys);
      CountsConcat(p.jobs, [r], w, pending.Keys);
    }
    OpenCounts(p, 0, pending.Keys);
    OpenCounts(q, 0, pending.Keys);
    CountsConcat(p.jobs, [r], 0, pending.Keys);
    assert pending[r.owner := pending[r.owner] + 1].Keys == pending.Keys;
    RequestDistinct(p, r);
    CountsConcat([r], [], r.owner, pending.Keys);
  }

  lemma RequestDistinct(p: Places, r: Request)
    requires Distinct(p.All()) && r !in p.All()
    ensures Distinct(p.(jobs := p.jobs + [r]).All())
  {
    assert p.All() == p.jobs + (p.inFlight + p.completed + p.consumed);
    assert p.(jobs := p.jobs + [r]).All() == p.jobs + [r] + (p.inFlight + p.completed + p.consumed);
    Inserted(p.jobs, p.inFlight + p.completed + p.consumed, r);
  }

  lemma Inserted(a: seq<Request>, b: seq<Request>, r: Request)
    requires Distinct(a + b) && r !in a + b
    ensures Distinct(a + [r] + b)
  {
    var x, y := a + b, a + [r] + b;
    forall i, j | 0 <= i < j < |y| ensures y[i] != y[j] {
      assert j > |a| ==> y[j] == x[j - 1];
      assert j < |a| ==> y[j] == x[j];
      assert i > |a| ==> y[i] == x[i - 1];
      assert i < |a| ==> y[i] == x[i];
    }
  }

  /** A completed request is consumed: by its living owner, or as an orphan. */
  lemma ConsumeKeeps(p: Places, pending: map<nat, nat>, orphans: nat, i: nat)
    requires Accounted(p, pending, orphans) && i < |p.completed|
    ensures var r := p.completed[i];
      var q := p.(completed := RemoveAt(p.completed, i), consumed := p.consumed + [r]);
      if r.owner in pending then pending[r.owner] > 0 && Accounted(q, pending[r.owner := pending[r.owner] - 1], orphans)
      else orphans > 0 && Accounted(q, pending, orphans - 1)
  {
    var r := p.completed[i];
    var q := p.(completed := RemoveAt(p.completed, i), consumed := p.consumed + [r]);
    forall w ensures OfOwner(q.Open(), w) == OfOwner(p.Open(), w) - (if w == r.owner then 1 else 0) {
      OpenCounts(p, w, pending.Keys);
      OpenCounts(q, w, pending.Keys);
      CountsRemove(p.completed, i, w, pending.Keys);
    }
    OpenCounts(p, 0, pending.Keys);
    OpenCounts(q, 0, pending.Keys);
    CountsRemove(p.completed, i, 0, pending.Keys);
    ConsumeDistinct(p, i);
    if r.owner in pending { assert pending[r.owner := pending[r.owner] - 1].Keys == pending.Keys; }
  }

  lemma ConsumeDistinct(p: Places, i: nat)
    requires Distinct(p.All()) && i < |p.completed|
    ensures Distinct(p.(completed := RemoveAt(p.completed, i), consumed := p.consumed + [p.completed[i]]).All())
  {
    var q := p.(completed := RemoveAt(p.completed, i), consumed := p.consumed + [p.completed[i]]);
    var x, y := p.All(), q.All();
    var at := |p.jobs| + |p.inFlight| + i;
    assert forall j :: 0 <= j < |y| ==> y[j] == x[if j < at then j else if j == |y| - 1 then at else j + 1];
  }

  /** A worker dies: what it still has open is counted as orphaned. */
  lemma DeathKeeps(p: Places, pending: map<nat, nat>, orphans: nat, w: nat)
    requires Accounted(p, pending, orphans) && w in pending
    ensures Accounted(p, pending - {w}, orphans + pending[w])
  {
    DeathOrphans(p.Open(), pending.Keys, w);
    assert (pending - {w}).Keys == pending.Keys - {w};
  }

  lemma BirthKeeps(p: Places, pending: map<nat, nat>, orphans: nat, w: nat)
    requires Accounted(p, pending, orphans) && w !in pending && forall r :: r in p.All() ==> r.owner != w
    ensures Accounted(p, pending[w := 0], orphans)
  {
    BirthAdopts(p.Open(), pending.Keys, w);
    assert pending[w := 0].Keys == pending.Keys + {w};
  }
}

/** Requests, the thread that serves them, and workers that may die with requests open. */
module AsyncRequests {
  import opened Collections
  import opened RequestCounts

  /** What the thread can do next. */
  datatype ThreadStep = TakeJob | PushResult | PublishResult

  /** What the thread works on: the lists, the request it has pushed while it holds the lock, the events set. */
  datatype Work = Work(places: Places, publishing: Option<Request>, signaled: set<Request>)

  function Stepped(s: Work, step: ThreadStep): Work {
    var p := s.places;
    match step
    case TakeJob =>
      if s.publishing.Some? || p.inFlight != [] || p.jobs == [] then s
      else s.(places := Places(p.jobs[1..], [p.jobs[0]], p.completed, p.consumed))
    case PushResult =>
      if p.inFlight == [] then s else s.(places := p.(inFlight := [], completed := p.completed + p.inFlight), publishing := Some(p.inFlight[0]))
    case PublishResult =>
      if s.publishing.None? then s else s.(publishing := None, signaled := s.signaled + {s.publishing.value})
  }

  function Worked(s: Work, plan: seq<ThreadStep>): Work {
    if plan == [] then s else Stepped(Worked(s, plan[..|plan| - 1]), plan[|plan| - 1])
  }

  /** The thread's loop, `n` times around. */
  function Rounds(n: nat): seq<ThreadStep> {
    if n == 0 then [] else Rounds(n - 1) + [TakeJob] + [PushResult] + [PublishResult]
  }

  lemma WorkedOneMore(s: Work, plan: seq<ThreadStep>, step: ThreadStep)
    ensures Worked(s, plan + [step]) == Stepped(Worked(s, plan), step)
  {
    assert (plan + [step])[..|plan|] == plan;
  }

  /** The first `n` jobs are completed, behind what was completed before and in their order, and their events set. */
  function Served(s: Work, n: nat): Work
    requires n <= |s.places.jobs|
  {
    var p := s.places;
    Work(Places(p.jobs[n..], [], p.completed + p.jobs[..n], p.consumed), None, s.signaled + set r | r in p.jobs[..n])
  }

  lemma ServedNext(s: Work, n: nat)
    requires n < |s.places.jobs|
    ensures var t, u := Served(s, n), Served(s, n + 1);
      && t.places.jobs != [] && u.signaled == t.signaled + {t.places.jobs[0]}
      && u.places == Places(t.places.jobs[1..], [], t.places.completed + [t.places.jobs[0]], t.places.consumed)
  {
    var p := s.places;
    assert p.jobs[n..][0] == p.jobs[n] && p.jobs[n..][1..] == p.jobs[n + 1..];
    assert p.jobs[..n + 1] == p.jobs[..n] + [p.jobs[n]];
    assert p.completed + p.jobs[..n] + [p.jobs[n]] == p.completed + p.jobs[..n + 1];
  }

  /** One turn of the thread's loop serves the oldest job. */
  lemma OneRound(s: Work, plan: seq<ThreadStep>)
    requires var m := Worked(s, plan); m.publishing == None && m.places.inFlight == [] && m.places.jobs != []
    ensures var m, t := Worked(s, plan), Worked(s, plan + [TakeJob] + [PushResult] + [PublishResult]);
      && t.places == Places(m.places.jobs[1..], [], m.places.completed + [m.places.jobs[0]], m.places.consumed)
      && t.publishing == None && t.signaled == m.signaled + {m.places.jobs[0]}
  {
    WorkedOneMore(s, plan, TakeJob);
    WorkedOneMore(s, plan + [TakeJob], PushResult);
    WorkedOneMore(s, plan + [TakeJob] + [PushResult], PublishResult);
  }

  /** Left to itself the thread completes the jobs in the order in which they were queued and sets their events. */
  lemma {:induction false} JobsAreServed(s: Work, n: nat)
    requires s.publishing == None && s.places.inFlight == [] && n <= |s.places.jobs|
    ensures Worked(s, Rounds(n)) == Served(s, n)
  {
    if n == 0 {
      assert s.places.completed + s.places.jobs[..0] == s.places.completed;
    } else {
      JobsAreServed(s, n - 1);
      OneRound(s, Rounds(n - 1));
      ServedNext(s, n - 1);
    }
  }

  class CNeoVM {
    var places: Places
    var pending: map<nat, nat>    // the living workers and what each has pending
    var orphanCount: nat
    var nextWorker: nat
    var nextRequest: nat
    var signaled: set<Request>    // requests whose event is set
    var publishing: Option<Request>  // while the thread holds the completed queue's lock: the request it has pushed
    ghost var dying: Option<nat>  // the worker whose requests are being discarded,
    ghost var gone: nat           // and how many of them already are

    /** The pending counts, less what a dying worker no longer has open. */
    ghost function Effective(): map<nat, nat>
      reads this`pending, this`dying, this`gone
    {
      if dying.Some? && dying.value in pending && gone <= pending[dying.value]
      then pending[dying.value := pending[dying.value] - gone] else pending
    }

    /** Events are set for what has been consumed and for all that is completed, save for the request the
        thread has pushed and not yet published. */
    ghost predicate EventsOk()
      reads this`places, this`signaled, this`publishing
    {
      && (forall r :: r in signaled <==> (r in places.completed && publishing != Some(r)) || r in places.consumed)
      && (publishing.Some? ==> places.inFlight == [] && publishing.value in places.completed && publishing.value !in places.consumed)
    }

    ghost predicate Valid()
      reads this
    {
      && Accounted(places, Effective(), orphanCount)
      && (forall w :: w in pending ==> w < nextWorker)
      && (forall r :: r in places.All() ==> r.id < nextRequest && r.owner < nextWorker)
      && EventsOk()
      && (dying.Some? ==> dying.value in pending && gone <= pending[dying.value])
    }

    constructor ()
      ensures Valid() && places.All() == [] && pending == map[] && dying == None
    {
      places := Places([], [], [], []);
      pending, orphanCount, nextWorker, nextRequest, signaled, dying, gone := map[], 0, 0, 0, {}, None, 0;
      publishing := None;
    }

    method NewWorker() returns (w: nat)
      requires Valid() && dying == None
      modifies this`nextWorker, this`pending
      ensures Valid() && w !in old(pending) && pending == old(pending)[w := 0]
    {
      w := nextWorker;
      BirthKeeps(places, pending, orphanCount, w);
      nextWorker := nextWorker + 1;
      pending := pending[w := 0];
    }

    /** A script hands a request to the thread. */
    method AddHttpRequest(w: nat) returns (r: Request)
      requires Valid() && dying == None && w in pending
      modifies this`places, this`pending, this`nextRequest
      ensures Valid() && r !in old(places).All() && places == old(places).(jobs := old(places).jobs + [r]) && r !in signaled
      ensures pending == old(pending)[w := old(pending)[w] + 1]
    {
      r := Request(nextRequest, w);
      RequestKeeps(places, pending, orphanCount, r);
      nextRequest := nextRequest + 1;
      pending := pending[w := pending[w] + 1];
      places := places.(jobs := places.jobs + [r]);
    }

    // ---------------------------------------------------------------- the thread

    /** The thread takes the oldest job. */
    method WaitAndPop()
      requires Valid()
      modifies this`places
      ensures Valid() && Moved(old(places), places)
      ensures var p := old(places);
        places == if publishing == None && p.inFlight == [] && p.jobs != [] then Places(p.jobs[1..], [p.jobs[0]], p.completed, p.consumed) else p
    {
      if publishing.Some? || places.inFlight != [] || places.jobs == [] { return; }
      TakeKeeps(places, Effective(), orphanCount);
      TakeMoves(places);
      places := Places(places.jobs[1..], [places.jobs[0]], places.completed, places.consumed);
    }

    /** The thread locks the completed queue and pushes its job, whose event is not set yet. */
    method PushHoldingLock()
      requires Valid()
      modifies this`places, this`publishing
      ensures Valid() && Moved(old(places), places)
      ensures var p := old(places); places == Places(p.jobs, [], p.completed + p.inFlight, p.consumed)
      ensures old(places).inFlight != [] ==> publishing == Some(old(places).inFlight[0]) && publishing.value !in signaled
      ensures old(places).inFlight == [] ==> publishing == old(publishing)
    {
      if places.inFlight == [] { return; }
      FinishKeeps(places, Effective(), orphanCount);
      FinishMoves(places);
      InFlightIsNowhereElse(places);
      publishing := Some(places.inFlight[0]);
      places := Places(places.jobs, [], places.completed + places.inFlight, places.consumed);
    }

    /** The thread sets the event of the request it has pushed, and unlocks the queue. */
    method PublishAndUnlock()
      requires Valid()
      modifies this`signaled, this`publishing
      ensures Valid() && publishing == None
      ensures signaled == old(signaled) + (if old(publishing).Some? then {old(publishing).value} else {})
    {
      if publishing.Some? {
        signaled := signaled + {publishing.value};
        publishing := None;
      }
    }

    ghost function Working(): Work
      reads this`places, this`publishing, this`signaled
    {
      Work(places, publishing, signaled)
    }

    /** The thread runs for a while, at any point between two steps of the other methods. */
    method ThreadRuns(plan: seq<ThreadStep>)
      requires Valid()
      modifies this`places, this`signaled, this`publishing
      ensures Valid() && Moved(old(places), places) && old(signaled) <= signaled
      ensures Working() == Worked(old(Working()), plan)
    {
      for i := 0 to |plan|
        invariant Valid() && Moved(old(places), places) && old(signaled) <= signaled
        invariant Working() == Worked(old(Working()), plan[..i])
      {
        assert plan[..i + 1][..i] == plan[..i];
        match plan[i] {
          case TakeJob => WaitAndPop();
          case PushResult => PushHoldingLock();
          case PublishResult => PublishAndUnlock();
        }
      }
      assert plan[..|plan|] == plan;
    }

    // ---------------------------------------------------------------- the main thread

    /** Finds the first completed request that matches. The search waits for the queue's lock: whatever the
        thread has pushed it has published by then. */
    method TryPopMatching(matches: Request -> bool) returns (i: nat)
      requires Valid()
      modifies this`signaled, this`publishing
      ensures Valid() && publishing == None && old(signaled) <= signaled
      ensures i <= |places.completed| && (i < |places.completed| ==> matches(places.completed[i]))
      ensures forall j :: 0 <= j < i ==> !matches(places.completed[j])
    {
      PublishAndUnlock();
      i := 0;
      while i < |places.completed| && !matches(places.completed[i])
        invariant i <= |places.completed| && forall j :: 0 <= j < i ==> !matches(places.completed[j])
      {
        i := i + 1;
      }
    }

    /** Takes the completed request at `i` away from an owner that no longer lives. */
    method ConsumeOrphan(i: nat)
      requires Valid() && publishing == None && i < |places.completed| && places.completed[i].owner !in pending
      modifies this`places, this`orphanCount
      ensures Valid() && Consumed(old(places), places, i) && orphanCount == old(orphanCount) - 1
      ensures old(places).completed[i] in signaled
    {
      ConsumeKeeps(places, Effective(), orphanCount, i);
      ConsumeSame(places, i);
      orphanCount := orphanCount - 1;
      places := places.(completed := RemoveAt(places.completed, i), consumed := places.consumed + [places.completed[i]]);
    }

    /** Gives the completed request at `i` to its living owner. */
    method ConsumeOwned(i: nat)
      requires Valid() && publishing == None && dying == None && i < |places.completed| && places.completed[i].owner in pending
      modifies this`places, this`pending
      ensures Valid() && Consumed(old(places), places, i)
      ensures var w := old(places).completed[i].owner;
        old(pending)[w] > 0 && pending == old(pending)[w := old(pending)[w] - 1]
      ensures old(places).completed[i] in signaled
    {
      var w := places.completed[i].owner;
      ConsumeKeeps(places, pending, orphanCount, i);
      ConsumeSame(places, i);
      pending := pending[w := if pending[w] > 0 then pending[w] - 1 else 0];
      places := places.(completed := RemoveAt(places.completed, i), consumed := places.consumed + [places.completed[i]]);
    }

    /** Discards the completed request at `i` of the dying worker. */
    method ConsumeDying(i: nat)
      requires Valid() && publishing == None && i < |places.completed| && dying == Some(places.completed[i].owner)
      modifies this`places, this`gone
      ensures Valid() && Consumed(old(places), places, i) && gone == old(gone) + 1
      ensures old(places).completed[i] in signaled
    {
      ghost var effective, w := Effective(), places.completed[i].owner;
      ConsumeKeeps(places, effective, orphanCount, i);
      ConsumeSame(places, i);
      gone := gone + 1;
      assert Effective() == effective[w := effective[w] - 1];
      places := places.(completed := RemoveAt(places.completed, i), consumed := places.consumed + [places.completed[i]]);
    }

    /** One turn of discarding orphans; the thread may have run before it. */
    method DiscardOneOrphan(plan: seq<ThreadStep>) returns (found: bool)
      requires Valid() && dying == None
      modifies this`places, this`orphanCount, this`signaled, this`publishing
      ensures Valid() && Cleared(old(places), places, pending.Keys) && old(signaled) <= signaled
      ensures found ==> orphanCount == old(orphanCount) - 1
      ensures !found ==> orphanCount == old(orphanCount) && forall r :: r in places.completed ==> r.owner in pending
    {
      ghost var before := places;
      ThreadRuns(plan);
      ghost var ran := places;
      MovedClears(before, ran, pending.Keys);
      var alive := pending;
      var i := TryPopMatching((r: Request) => r.owner !in alive);
      found := i < |places.completed|;
      if found {
        ConsumeOrphan(i);
        OrphanClears(ran, places, i, pending.Keys);
        ClearedOn(before, ran, places, pending.Keys);
      }
    }

    /** Discards completed requests whose owner is dead, as long as any can be open. */
    method DiscardOrphanedAsync(plans: seq<seq<ThreadStep>>)
      requires Valid() && dying == None
      modifies this`places, this`orphanCount, this`signaled, this`publishing
      ensures Valid() && Cleared(old(places), places, pending.Keys) && old(signaled) <= signaled
      ensures forall r :: r in places.completed ==> r.owner in pending
    {
      var turn := 0;
      ghost var start := places;
      MovedClears(start, start, pending.Keys);
      while orphanCount > 0
        invariant Valid() && Cleared(start, places, pending.Keys) && old(signaled) <= signaled
        decreases orphanCount
      {
        ghost var before := places;
        var found := DiscardOneOrphan(if turn < |plans| then plans[turn] else []);
        ClearedOn(start, before, places, pending.Keys);
        turn := turn + 1;
        if !found { return; }
      }
      NoOrphanLeft();
    }

    /** With no orphan counted, no open request has a dead owner. */
    lemma NoOrphanLeft()
      requires Valid() && dying == None && orphanCount == 0
      ensures forall r :: r in places.completed ==> r.owner in pending
    {
      OpenCounts(places, 0, pending.Keys);
      NoneOrphaned(places.completed, pending.Keys);
    }

    /** The search for orphans is skipped when none is counted. */
    method ClearOrphans(plans: seq<seq<ThreadStep>>)
      requires Valid() && dying == None
      modifies this`places, this`orphanCount, this`signaled, this`publishing
      ensures Valid() && Cleared(old(places), places, pending.Keys)
      ensures forall r :: r in places.completed ==> r.owner in pending
    {
      MovedClears(places, places, pending.Keys);
      if orphanCount > 0 { DiscardOrphanedAsync(plans); } else { NoOrphanLeft(); }
    }

    /** What a worker polls: a completed request of its own, the oldest first; orphans are cleared away on the
        occasion. The thread runs before each search, also between the last orphan and the worker's own turn. */
    method PopAsyncInfo(w: nat, plans: seq<seq<ThreadStep>>, plan: seq<ThreadStep>) returns (r: Option<Request>)
      requires Valid() && dying == None && w in pending
      modifies this`places, this`orphanCount, this`pending, this`signaled, this`publishing
      ensures Valid() && Same(old(places), places) && old(places).consumed <= places.consumed
      ensures var mine := Owned(old(places).completed, w); mine != [] ==> r == Some(mine[0])
      ensures r.Some? ==> r.value.owner == w && r.value in signaled && r.value !in old(places).consumed && r.value in places.consumed
      ensures r.Some? ==> old(pending)[w] > 0 && pending == old(pending)[w := old(pending)[w] - 1]
      ensures r.None? ==> pending == old(pending) && forall x :: x in places.completed ==> x.owner != w
      ensures forall x :: x in old(places).completed && x.owner !in pending ==> x in places.consumed
      ensures forall x :: x in places.consumed ==> x in old(places).consumed || x.owner !in pending || r == Some(x)
    {
      ghost var start := places;
      ClearThenRun(plans, plan);
      assert Owned(start.completed, w) <= Owned(places.completed, w);
      r := PopOwned(w);
    }

    /** Orphans are cleared away, and the thread runs on. */
    method ClearThenRun(plans: seq<seq<ThreadStep>>, plan: seq<ThreadStep>)
      requires Valid() && dying == None
      modifies this`places, this`orphanCount, this`signaled, this`publishing
      ensures Valid() && Cleared(old(places), places, pending.Keys)
      ensures forall r :: r in old(places).completed && r.owner !in pending ==> r in places.consumed
    {
      ghost var start := places;
      ClearOrphans(plans);
      ghost var cleared := places;
      ThreadRuns(plan);
      MovedClears(cleared, places, pending.Keys);
      ClearedOn(start, cleared, places, pending.Keys);
    }

    /** Takes the first completed request of `w`, if there is one. */
    method PopOwned(w: nat) returns (r: Option<Request>)
      requires Valid() && dying == None && w in pending
      modifies this`places, this`pending, this`signaled, this`publishing
      ensures Valid() && Same(old(places), places)
      ensures places.consumed == old(places).consumed + (if r.Some? then [r.value] else [])
      ensures var mine := Owned(old(places).completed, w); r == if mine == [] then None else Some(mine[0])
      ensures r.Some? ==> r.value.owner == w && r.value in signaled && r.value !in old(places).consumed
      ensures r.Some? ==> old(pending)[w] > 0 && pending == old(pending)[w := old(pending)[w] - 1]
      ensures r.None? ==> pending == old(pending) && forall x :: x in places.completed ==> x.owner != w
    {
      var i := TryPopMatching((x: Request) => x.owner == w);
      FirstOwned(places.completed, i, w);
      if i == |places.completed| { return None; }
      r := Some(places.completed[i]);
      NotYetConsumed(places, i);
      ConsumeSame(places, i);
      ConsumeOwned(i);
    }

    /** One turn of discarding what the dying worker has completed; the thread may have run before it. */
    method DiscardOneOf(w: nat, plan: seq<ThreadStep>) returns (found: bool)
      requires Valid() && dying == Some(w)
      modifies this`places, this`signaled, this`publishing, this`gone
      ensures Valid() && Cleared(old(places), places, pending.Keys - {w}) && gone == old(gone) + (if found then 1 else 0)
      ensures old(signaled) <= signaled && (!found ==> forall r :: r in places.completed ==> r.owner != w)
    {
      ghost var before, others := places, pending.Keys - {w};
      ThreadRuns(plan);
      ghost var ran := places;
      MovedClears(before, ran, others);
      var i := TryPopMatching((r: Request) => r.owner == w);
      found := i < |places.completed|;
      if found {
        ConsumeDying(i);
        OrphanClears(ran, places, i, others);
        ClearedOn(before, ran, places, others);
      }
    }

    /** The worker is gone; what it still has open is counted as orphaned. */
    method Bury(w: nat, stillRunning: nat)
      requires Valid() && dying == Some(w) && stillRunning == pending[w] - gone
      modifies this`pending, this`orphanCount, this`dying
      ensures Valid() && dying == None && pending == old(pending) - {w}
      ensures orphanCount == old(orphanCount) + OfOwner(places.Open(), w)
    {
      DeathKeeps(places, Effective(), orphanCount, w);
      assert Effective() - {w} == pending - {w};
      if stillRunning > 0 { orphanCount := orphanCount + stillRunning; }
      pending := pending - {w};
      dying := None;
    }

    /** Discards the dying worker's completed requests until a search finds none. */
    method DiscardAllOf(w: nat, plans: seq<seq<ThreadStep>>) returns (discarded: nat)
      requires Valid() && dying == Some(w) && gone == 0
      modifies this`places, this`signaled, this`publishing, this`gone
      ensures Valid() && discarded == gone && Cleared(old(places), places, pending.Keys - {w})
      ensures forall r :: r in places.completed ==> r.owner != w
    {
      var turn, more := 0, true;
      discarded := 0;
      ghost var start, others := places, pending.Keys - {w};
      MovedClears(start, start, others);
      while more
        invariant Valid() && discarded == gone && Cleared(start, places, others)
        invariant !more ==> forall r :: r in places.completed ==> r.owner != w
        decreases pending[w] - gone, more
      {
        ghost var before := places;
        more := DiscardOneOf(w, if turn < |plans| then plans[turn] else []);
        ClearedOn(start, before, places, others);
        turn := turn + 1;
        if more { discarded := discarded + 1; }
      }
    }

    /** A worker dies: its completed requests are discarded. What the thread still has, or completes behind the
        last search, becomes an orphan. */
    method DiscardAsyncByWorker(w: nat, plans: seq<seq<ThreadStep>>, plan: seq<ThreadStep>)
      requires Valid() && dying == None && w in pending
      modifies this
      ensures Valid() && dying == None && pending == old(pending) - {w} && Cleared(old(places), places, pending.Keys)
      ensures forall r :: r in old(places).completed && r.owner == w ==> r in places.consumed
      ensures orphanCount == old(orphanCount) + OfOwner(places.Open(), w)
    {
      ghost var start, others := places, pending.Keys - {w};
      dying, gone := Some(w), 0;
      assert Effective() == pending;
      var discarded := DiscardAllOf(w, plans);
      ghost var searched := places;
      ThreadRuns(plan);
      MovedClears(searched, places, others);
      ClearedOn(start, searched, places, others);
      Bury(w, pending[w] - discarded);
      assert pending.Keys == others;
    }

    /** Waits for a request's event while the thread runs. Nothing is locked; all the same, once the event is set
        the request is in the completed queue or was consumed. A completed request whose event is not set is the one
        the thread is about to publish. */
    method AsyncWait(r: Request, plan: seq<ThreadStep>) returns (ok: bool)
      requires Valid()
      modifies this`places, this`signaled, this`publishing
      ensures Valid() && Moved(old(places), places) && old(signaled) <= signaled
      ensures ok ==> r in places.completed || r in places.consumed
      ensures !ok ==> r !in places.consumed && (r in places.completed ==> publishing == Some(r))
    {
      ThreadRuns(plan);
      ok := r in signaled;
    }
  }
}
