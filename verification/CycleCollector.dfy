/** The cycle collector: trial deletion over reference counts, fed from the candidate queues. */
module CycleCollector {
  import opened Collections
  import opened CandidateSpec
  import opened CycleGraph

  datatype Color = Clear | Gray | White | Black

  /** The kinds that matter by name; the pops take the kinds in this order, beginning with maps. */
  const MAP: nat := 0
  const COROUTINE: nat := 3
  const MODULE: nat := 4

  function AsSet(s: seq<Obj>): set<Obj> { set o | o in s }

  /** A list without repetition of numbers below `n` has at most `n` entries. */
  lemma {:induction false} DistinctBound(s: seq<Obj>, n: nat)
    requires Distinct(s) && forall o :: o in s ==> o < n
    ensures |s| <= n
  {
    DistinctSize(s);
    AllSize(n);
    SubsetSize(AsSet(s), All(n));
  }

  lemma {:induction false} DistinctSize(s: seq<Obj>)
    requires Distinct(s)
    ensures |AsSet(s)| == |s|
  {
    if s != [] {
      var last := s[|s| - 1];
      var rest := s[..|s| - 1];
      DistinctSize(rest);
      assert AsSet(s) == AsSet(rest) + {last};
    }
  }

  lemma {:induction false} AllSize(n: nat)
    ensures |All(n)| == n
  {
    if n > 0 { AllSize(n - 1); }
  }

  lemma {:induction false} SubsetSize(a: set<Obj>, b: set<Obj>)
    requires a <= b
    ensures |a| <= |b|
  {
    assert b == a + (b - a);
  }

  // ---------------------------------------------------------------- marking, on values

  /** The gray phase under way: `expanded` has been visited, and of one more object the slots in `partial`.
      Scratch counts are the reference counts minus the references visited so far. */
  ghost predicate Marking(g: Graph, refCount: seq<int>, color: seq<Color>, scratch: seq<int>, work: seq<Obj>,
                          expanded: set<Obj>, partial: seq<Obj>)
  {
    var n := g.Size();
    && g.Valid() && |refCount| == |color| == |scratch| == n
    && Distinct(work) && (forall o :: o in work ==> o < n && g.mayContain[o])
    && (forall o :: 0 <= o < n ==> color[o] == if o in work then Gray else Clear)
    && (forall o :: 0 <= o < n && o !in work ==> scratch[o] == 0)
    && (forall o :: 0 <= o < n && o in work ==>
          scratch[o] == refCount[o] - Incoming(g.edges, expanded, o, n) - multiset(partial)[o])
    && (forall a, b :: a in expanded && g.Step(a, b) ==> b in work)
    && (forall b :: b in partial ==> b < n && (g.mayContain[b] ==> b in work))
    && (forall a :: a in expanded ==> a < n && !g.nativeRoot[a])
  }

  ghost predicate AllReached(g: Graph, popped: set<Obj>, work: seq<Obj>) {
    forall o :: o in work ==> Reaches(g, popped, o)
  }

  lemma ReachesSlot(g: Graph, popped: set<Obj>, work: seq<Obj>, source: Obj, c: Obj)
    requires g.Valid() && AllReached(g, popped, work) && source in work && source < g.Size() && !g.nativeRoot[source]
    requires c in g.edges[source] && c < g.Size()
    ensures g.mayContain[c] ==> Reaches(g, popped, c)
  {
    if g.mayContain[c] { ReachesStep(g, popped, source, c); }
  }

  /** Candidates have been touched, none has been expanded. */
  ghost predicate Gathered(refCount: seq<int>, mayContain: seq<bool>, color: seq<Color>, scratch: seq<int>, work: seq<Obj>) {
    && |refCount| == |mayContain| == |color| == |scratch|
    && Distinct(work) && (forall o :: o in work ==> o < |refCount| && mayContain[o])
    && forall o :: 0 <= o < |refCount| ==>
         color[o] == (if o in work then Gray else Clear) && scratch[o] == if o in work then refCount[o] else 0
  }

  lemma GatheredIsMarking(g: Graph, refCount: seq<int>, color: seq<Color>, scratch: seq<int>, work: seq<Obj>)
    requires g.Valid() && |refCount| == |color| == |scratch| == g.Size()
    ensures Gathered(refCount, g.mayContain, color, scratch, work) <==> Marking(g, refCount, color, scratch, work, {}, [])
  {
    forall o | 0 <= o < g.Size() ensures Incoming(g.edges, {}, o, g.Size()) == 0 { IncomingZero(g.edges, {}, o, g.Size()); }
  }

  /** Touching an object for the first time. */
  lemma MarkingTouch(g: Graph, refCount: seq<int>, color: seq<Color>, scratch: seq<int>, work: seq<Obj>,
                     expanded: set<Obj>, partial: seq<Obj>, o: Obj)
    requires Marking(g, refCount, color, scratch, work, expanded, partial)
    requires o < g.Size() && g.mayContain[o] && o !in work
    ensures Marking(g, refCount, color[o := Gray], scratch[o := refCount[o]], work + [o], expanded, partial)
  {
    var n := g.Size();
    IncomingZero(g.edges, expanded, o, n);
    forall p | 0 <= p < n && p in expanded ensures o !in g.edges[p] {
      if o in g.edges[p] { assert g.Step(p, o); }
    }
    assert multiset(partial)[o] == 0;
  }

  /** Visiting one more slot whose target is already touched. */
  lemma MarkingVisit(g: Graph, refCount: seq<int>, color: seq<Color>, scratch: seq<int>, work: seq<Obj>,
                     expanded: set<Obj>, partial: seq<Obj>, c: Obj)
    requires Marking(g, refCount, color, scratch, work, expanded, partial) && c in work
    ensures Marking(g, refCount, color, scratch[c := scratch[c] - 1], work, expanded, partial + [c])
  {
    assert forall o :: multiset(partial + [c])[o] == multiset(partial)[o] + if o == c then 1 else 0;
  }

  /** A leaf target is passed over. */
  lemma MarkingSkip(g: Graph, refCount: seq<int>, color: seq<Color>, scratch: seq<int>, work: seq<Obj>,
                    expanded: set<Obj>, partial: seq<Obj>, c: Obj)
    requires Marking(g, refCount, color, scratch, work, expanded, partial) && c < g.Size() && !g.mayContain[c]
    ensures Marking(g, refCount, color, scratch, work, expanded, partial + [c])
  {
    assert forall o :: o != c ==> multiset(partial + [c])[o] == multiset(partial)[o];
  }

  /** All slots of `p` visited: `p` is expanded. */
  lemma MarkingExpanded(g: Graph, refCount: seq<int>, color: seq<Color>, scratch: seq<int>, work: seq<Obj>,
                        expanded: set<Obj>, p: Obj)
    requires p < g.Size() == |g.nativeRoot| && !g.nativeRoot[p] && p !in expanded
    requires Marking(g, refCount, color, scratch, work, expanded, g.edges[p])
    ensures Marking(g, refCount, color, scratch, work, expanded + {p}, [])
  {
    forall o | 0 <= o < g.Size() ensures Incoming(g.edges, expanded + {p}, o, g.Size())
      == Incoming(g.edges, expanded, o, g.Size()) + multiset(g.edges[p])[o]
    {
      IncomingAdd(g.edges, expanded, p, o, g.Size());
    }
  }

  // ---------------------------------------------------------------- the candidates, on values

  /** Each queue holds live containers of its own type that may have container children, each once. */
  ghost predicate QueuesHold(q: Queues<Obj>, kind: seq<nat>, mayContain: seq<bool>, destroyed: seq<bool>) {
    && q.Valid() && |kind| == |mayContain| == |destroyed|
    && (forall o :: 0 <= o < |kind| ==> kind[o] < TYPES)
    && (forall k :: 0 <= k < TYPES ==> Distinct(q.queue[k]))
    && forall k :: 0 <= k < TYPES ==> forall o :: o in q.queue[k] ==> Queueable(o, k, kind, mayContain, destroyed)
  }

  predicate Queueable(o: Obj, k: nat, kind: seq<nat>, mayContain: seq<bool>, destroyed: seq<bool>)
    requires |kind| == |mayContain| == |destroyed|
  {
    o < |kind| && kind[o] == k && mayContain[o] && !destroyed[o]
  }

  /** A pop takes a live container and keeps the queues in order. */
  lemma PopHolds(q: Queues<Obj>, kind: seq<nat>, mayContain: seq<bool>, destroyed: seq<bool>)
    requires QueuesHold(q, kind, mayContain, destroyed) && Total(q.queue) > 0
    ensures var (q', p) := q.Pop();
      && p.Some? && Queueable(p.value.1, p.value.0, kind, mayContain, destroyed)
      && QueuesHold(q', kind, mayContain, destroyed)
      && Total(q'.queue) == Total(q.queue) - 1
  {
    PopSucceeds(q);
    var (q', p) := q.Pop();
    assert p.value.1 in q.queue[p.value.0];
    forall k | 0 <= k < TYPES ensures Distinct(q'.queue[k]) && forall o :: o in q'.queue[k] ==> o in q.queue[k] {}
  }

  /** Destroying an object that is taken out of the queues keeps them in order. */
  lemma RemoveHolds(q: Queues<Obj>, kind: seq<nat>, mayContain: seq<bool>, destroyed: seq<bool>, o: Obj)
    requires QueuesHold(q, kind, mayContain, destroyed) && o < |kind|
    ensures QueuesHold(q.Remove(kind[o], o), kind, mayContain, destroyed[o := true])
    ensures QueuesHold(q.Remove(kind[o], o), kind, mayContain, destroyed)
  {
    WithoutMembers(q.queue[kind[o]], o);
  }

  lemma AppendHolds(q: Queues<Obj>, kind: seq<nat>, mayContain: seq<bool>, destroyed: seq<bool>, o: Obj)
    requires QueuesHold(q, kind, mayContain, destroyed) && o < |kind| && mayContain[o] && !destroyed[o]
    ensures QueuesHold(q.Append(kind[o], o), kind, mayContain, destroyed)
  {
  }

  // ---------------------------------------------------------------- restoring black, on values

  /** `black` has been coloured; the other touched objects are gray (or, once moved there, white). */
  ghost predicate Blackening(g: Graph, color: seq<Color>, touched: seq<Obj>, black: seq<Obj>, white: seq<Obj>) {
    && g.Valid() && |color| == g.Size()
    && Distinct(black) && Distinct(white)
    && (forall o :: o in touched ==> o < g.Size())
    && (forall o :: o in black || o in white ==> o in touched)
    && (forall o :: o in white ==> o !in black)
    && forall o :: 0 <= o < g.Size() ==>
         color[o] == if o in black then Black else if o in white then White else if o in touched then Gray else Clear
  }

  lemma BlackeningAdd(g: Graph, color: seq<Color>, touched: seq<Obj>, black: seq<Obj>, o: Obj)
    requires Blackening(g, color, touched, black, []) && o in touched && o !in black
    ensures Blackening(g, color[o := Black], touched, black + [o], [])
  {
  }

  lemma WhiteningAdd(g: Graph, color: seq<Color>, touched: seq<Obj>, black: seq<Obj>, white: seq<Obj>, o: Obj)
    requires Blackening(g, color, touched, black, white) && o in touched && o !in black && o !in white
    ensures Blackening(g, color[o := White], touched, black, white + [o])
  {
  }

  /** The walk from the seeds, with the first `done` black objects expanded. */
  ghost predicate BlackWalk(g: Graph, color: seq<Color>, touched: seq<Obj>, black: seq<Obj>, seeds: set<Obj>, done: nat) {
    && done <= |black| && seeds <= AsSet(black)
    && Blackening(g, color, touched, black, [])
    && AllReached(g, seeds, black)
    && (forall o :: o in touched ==> o < |g.mayContain| && g.mayContain[o])
    && (forall a, b :: a in touched && g.Step(a, b) ==> b in touched)
    && forall a, b :: a in black[..done] && g.Step(a, b) ==> b in black
  }

  lemma BlackWalkNext(g: Graph, color: seq<Color>, color': seq<Color>, touched: seq<Obj>, black: seq<Obj>, black': seq<Obj>,
                      seeds: set<Obj>, k: nat, source: Obj)
    requires BlackWalk(g, color, touched, black, seeds, k) && k < |black| && black[k] == source && black <= black'
    requires Blackening(g, color', touched, black', []) && AllReached(g, seeds, black')
    requires Followed(g, source, black')
    ensures BlackWalk(g, color', touched, black', seeds, k + 1)
  {
    assert black'[..k + 1] == black[..k] + [source];
  }

  /** Every target of `a` is in `black`. */
  ghost predicate Followed(g: Graph, a: Obj, black: seq<Obj>) {
    forall b :: g.Step(a, b) ==> b in black
  }

  /** The black set of a finished walk is exactly what the seeds reach. */
  lemma BlackIsReached(g: Graph, touched: seq<Obj>, black: seq<Obj>, seeds: set<Obj>, o: Obj)
    requires AllReached(g, seeds, black) && seeds <= AsSet(black)
    requires forall a, b :: a in black && g.Step(a, b) ==> b in black
    ensures o in black <==> Reaches(g, seeds, o)
  {
    if Reaches(g, seeds, o) {
      assert Closed(g, AsSet(black));
      ReachesWithin(g, seeds, AsSet(black), o);
    }
  }

  /** The finished gray phase: the touched set is what the popped candidates reach, and the non-zero
      scratch counts (with the native roots) mark the objects held from outside. */
  lemma TouchedExactly(g: Graph, refCount: seq<int>, external: seq<nat>, color: seq<Color>, scratch: seq<int>, work: seq<Obj>, popped: set<Obj>)
    requires g.Valid() && Marking(g, refCount, color, scratch, work, Expanded(g, AsSet(work)), [])
    requires AllReached(g, popped, work) && popped <= AsSet(work)
    requires Balanced(g.edges, refCount, external, {})
    ensures forall o :: o in work <==> Reaches(g, popped, o)
    ensures forall o :: o in Seeds(g, external, AsSet(work)) <==> o in work && (g.nativeRoot[o] || scratch[o] != 0)
    ensures forall a, b :: a in work && g.Step(a, b) ==> b in work
    ensures Blackening(g, color, work, [], [])
  {
    TouchedIsClosed(g, refCount, color, scratch, work, popped);
    SeedsAreHeld(g, refCount, external, color, scratch, work);
  }

  lemma TouchedIsClosed(g: Graph, refCount: seq<int>, color: seq<Color>, scratch: seq<int>, work: seq<Obj>, popped: set<Obj>)
    requires g.Valid() && Marking(g, refCount, color, scratch, work, Expanded(g, AsSet(work)), [])
    requires AllReached(g, popped, work) && popped <= AsSet(work)
    ensures forall o :: o in work <==> Reaches(g, popped, o)
    ensures forall a, b :: a in work && g.Step(a, b) ==> b in work
  {
    var touched := AsSet(work);
    forall a, b | a in work && g.Step(a, b) ensures b in work { assert a in Expanded(g, touched); }
    assert Closed(g, touched);
    forall o | Reaches(g, popped, o) ensures o in work { ReachesWithin(g, popped, touched, o); }
  }

  lemma SeedsAreHeld(g: Graph, refCount: seq<int>, external: seq<nat>, color: seq<Color>, scratch: seq<int>, work: seq<Obj>)
    requires g.Valid() && Marking(g, refCount, color, scratch, work, Expanded(g, AsSet(work)), [])
    requires Balanced(g.edges, refCount, external, {})
    ensures forall o :: o in Seeds(g, external, AsSet(work)) <==> o in work && (g.nativeRoot[o] || scratch[o] != 0)
  {
    var touched := AsSet(work);
    forall o | o in work ensures HeldFromOutside(g, external, Expanded(g, touched), o) <==> (g.nativeRoot[o] || scratch[o] != 0) {
      ScratchMeaning(g, refCount, external, touched, o);
    }
  }

  /** What the marking half finds: everything the popped candidates reach, and the white part of it. */
  ghost predicate Found(g: Graph, external: seq<nat>, popped: set<Obj>, touched: seq<Obj>, whites: seq<Obj>) {
    && g.Valid() && |external| == g.Size()
    && Distinct(touched) && Distinct(whites)
    && (forall o :: o in touched <==> Reaches(g, popped, o))
    && (forall o :: o in touched ==> o < g.Size() && g.mayContain[o])
    && (forall o :: o in whites <==> o in WhiteSet(g, external, AsSet(touched)))
  }

  lemma FoundIs(g: Graph, external: seq<nat>, popped: set<Obj>, touched: seq<Obj>, whites: seq<Obj>, seeds: set<Obj>)
    requires g.Valid() && |external| == g.Size() && seeds == Seeds(g, external, AsSet(touched))
    requires Distinct(touched) && forall o :: o in touched <==> Reaches(g, popped, o)
    requires forall o :: o in touched ==> o < g.Size() && g.mayContain[o]
    requires Distinct(whites) && forall o :: o in whites <==> o in touched && !Reaches(g, seeds, o)
    ensures Found(g, external, popped, touched, whites)
  {
  }

  /** Only touched objects carry a colour or a scratch count. */
  predicate Marks(g: Graph, color: seq<Color>, scratch: seq<int>, touched: seq<Obj>) {
    && |color| == |scratch| == g.Size()
    && forall o :: 0 <= o < g.Size() && o !in touched ==> color[o] == Clear && scratch[o] == 0
  }

  // ---------------------------------------------------------------- releasing references, on values

  /** Every count is the references from outside, plus those from containers, plus the collector's hold. */
  ghost predicate Balanced(edges: seq<seq<Obj>>, refCount: seq<int>, external: seq<nat>, held: set<Obj>) {
    && |refCount| == |external| == |edges|
    && forall o :: 0 <= o < |edges| ==> refCount[o] == external[o] + TotalIncoming(edges, o) + (if o in held then 1 else 0)
  }

  /** Giving up the first slot of `p` and lowering its target's count keeps the balance. */
  lemma BalancedDrop(edges: seq<seq<Obj>>, refCount: seq<int>, external: seq<nat>, held: set<Obj>, p: Obj)
    requires Balanced(edges, refCount, external, held) && p < |edges| && edges[p] != [] && edges[p][0] < |edges|
    ensures var c := edges[p][0];
      && refCount[c] >= (if c in held then 2 else 1)
      && Balanced(edges[p := edges[p][1..]], refCount[c := refCount[c] - 1], external, held)
  {
    forall o | 0 <= o < |edges|
      ensures TotalIncoming(edges[p := edges[p][1..]], o) == TotalIncoming(edges, o) - (if edges[p][0] == o then 1 else 0)
      ensures edges[p][0] == o ==> TotalIncoming(edges, o) >= 1
    {
      DropFirst(edges, p, o);
    }
  }

  /** A member that a non-member gives up a reference to keeps a positive count. */
  lemma SupportedCounts(edges: seq<seq<Obj>>, edges': seq<seq<Obj>>, refCount': seq<int>, external: seq<nat>, held: set<Obj>, keep: set<Obj>,
                        p: Obj, r: Obj)
    requires Supported(edges, external, keep) && r in keep && p < |edges| && p !in keep && r in edges[p]
    requires |edges'| == |edges| && edges' == edges[p := edges'[p]] && Balanced(edges', refCount', external, held)
    ensures refCount'[r] > 0
  {
    if external[r] == 0 {
      var q :| q in keep && q < |edges| && r in edges[q];
      assert r in edges'[q];
      IncomingZero(edges', All(|edges'|), r, |edges'|);
    }
  }

  lemma OwnedCounts(g: Graph, refCount: seq<int>, external: seq<nat>, o: Obj)
    requires g.Valid() && Balanced(g.edges, refCount, external, {}) && o in OwnedSet(g, external)
    ensures o < g.Size() && refCount[o] > 0
  {
    OwnedHasOwner(g, external, o);
    IncomingZero(g.edges, All(g.Size()), o, g.Size());
  }

  lemma OwnedIsSpared(g: Graph, external: seq<nat>, whites: set<Obj>, o: Obj)
    requires g.Valid() && |external| == g.Size() && o in OwnedSet(g, external)
    requires whites <= All(g.Size()) && OwnedSet(g, external) !! whites
    ensures !Doomed(g, external, whites, o)
  {
    var keep := OwnedSet(g, external);
    forall r | r in keep
      ensures r < g.Size() && (external[r] > 0 || exists q :: q in keep && q < g.Size() && r in g.edges[q])
    {
      OwnedHasOwner(g, external, r);
    }
    SupportedIsNotDoomed(g, external, whites, keep, o);
  }

  /** What is alive and not doomed supports itself. */
  lemma SparedSupported(g: Graph, external: seq<nat>, destroyed: seq<bool>, whites: set<Obj>)
    requires g.Valid() && |external| == |destroyed| == g.Size()
    requires forall p :: 0 <= p < g.Size() && destroyed[p] ==> g.edges[p] == []
    ensures Supported(g.edges, external, Spared(g, external, destroyed, whites))
  {
    var keep := Spared(g, external, destroyed, whites);
    forall r | r in keep && external[r] == 0 && !Unreferenced(g.edges, r)
      ensures exists q :: q in keep && q < g.Size() && r in g.edges[q]
    {
      if forall p :: 0 <= p < g.Size() && r in g.edges[p] ==> Doomed(g, external, whites, p) {
        DoomSpreads(g, external, whites, r);
      } else {
        var q :| 0 <= q < g.Size() && r in g.edges[q] && !Doomed(g, external, whites, q);
        assert q in keep;
      }
    }
  }

  /** What one collection does to the pool. */
  ghost predicate Collected(g: Graph, external: seq<nat>, refCount0: seq<int>, destroyed0: seq<bool>, whites: seq<Obj>,
                            edges: seq<seq<Obj>>, refCount: seq<int>, destroyed: seq<bool>) {
    && g.Valid() && |external| == |refCount0| == |destroyed0| == |edges| == |refCount| == |destroyed| == g.Size()
    // exactly the doomed objects are destroyed: the white ones are, whatever an outside reference leads to is not
    && (forall o :: 0 <= o < g.Size() ==> (destroyed[o] <==> destroyed0[o] || Doomed(g, external, AsSet(whites), o)))
    && (forall w :: w in whites ==> w < g.Size() && !destroyed0[w] && destroyed[w])
    && (forall o :: o in OwnedSet(g, external) ==> o < g.Size() && !destroyed[o])
    // survivors own what they owned, the destroyed own nothing, and destruction is final
    && (forall o :: 0 <= o < g.Size() ==> edges[o] == if destroyed[o] then [] else g.edges[o])
    && (forall o :: 0 <= o < g.Size() && destroyed0[o] ==> destroyed[o])
    // a survivor that was referred to still is, and refers to nothing destroyed
    && (forall o :: 0 <= o < g.Size() && !destroyed[o] && refCount0[o] > 0 ==> refCount[o] > 0)
    && (forall p, b :: 0 <= p < g.Size() && !destroyed[p] && b in g.edges[p] ==> b < g.Size() && !destroyed[b])
    && (whites == [] ==> destroyed == destroyed0)
  }

  function Live(destroyed: seq<bool>): nat {
    if destroyed == [] then 0 else Live(destroyed[1..]) + (if destroyed[0] then 0 else 1)
  }

  lemma {:induction false} LiveUpdate(destroyed: seq<bool>, o: Obj)
    requires o < |destroyed| && !destroyed[o]
    ensures Live(destroyed[o := true]) == Live(destroyed) - 1
  {
    if o == 0 {
      assert destroyed[o := true][1..] == destroyed[1..];
    } else {
      LiveUpdate(destroyed[1..], o - 1);
      assert destroyed[o := true][1..] == destroyed[1..][o - 1 := true];
    }
  }

  lemma {:induction false} LiveLess(before: seq<bool>, after: seq<bool>, w: Obj)
    requires |before| == |after| && w < |before| && !before[w] && after[w]
    requires forall o :: 0 <= o < |before| && before[o] ==> after[o]
    ensures Live(after) < Live(before)
  {
    if w == 0 { LiveAtMost(before[1..], after[1..]); } else { LiveLess(before[1..], after[1..], w - 1); }
  }

  lemma {:induction false} LiveAtMost(before: seq<bool>, after: seq<bool>)
    requires |before| == |after| && forall o :: 0 <= o < |before| && before[o] ==> after[o]
    ensures Live(after) <= Live(before)
  {
    if before != [] { LiveAtMost(before[1..], after[1..]); }
  }

  lemma {:induction false} WithoutMembers(s: seq<Obj>, x: Obj)
    requires Distinct(s)
    ensures Distinct(Without(s, x))
    ensures forall y :: y in Without(s, x) <==> y in s && y != x
  {
    if s != [] {
      var rest := s[1..];
      assert s == [s[0]] + rest;
      assert s[0] !in rest by { assert forall i :: 0 <= i < |rest| ==> rest[i] == s[i + 1]; }
      WithoutMembers(rest, x);
    }
  }

  /** Some objects were destroyed and lost their references; the others own what they owned. */
  predicate Freed(edges0: seq<seq<Obj>>, destroyed0: seq<bool>, edges: seq<seq<Obj>>, destroyed: seq<bool>) {
    && |edges0| == |destroyed0| == |edges| == |destroyed|
    && forall o :: 0 <= o < |edges| ==>
         && (destroyed0[o] ==> destroyed[o])
         && edges[o] == if destroyed[o] && !destroyed0[o] then [] else edges0[o]
  }

  /** No object of `s` was destroyed. */
  predicate Untouched(destroyed0: seq<bool>, destroyed: seq<bool>, s: set<Obj>) {
    |destroyed0| == |destroyed| && forall o :: o in s && o < |destroyed| ==> destroyed[o] == destroyed0[o]
  }

  /** The destruction queue is being emptied. */
  predicate Draining(e0: seq<seq<Obj>>, d0: seq<bool>, q0: seq<Obj>, edges: seq<seq<Obj>>, destroyed: seq<bool>, q: seq<Obj>, safe: set<Obj>) {
    && Freed(e0, d0, edges, destroyed)
    && Live(destroyed) <= Live(d0)
    && (forall o :: o in q0 ==> o < |edges| && (o in q || destroyed[o]))
    && Untouched(d0, destroyed, safe)
  }

  lemma DrainStep(e0: seq<seq<Obj>>, d0: seq<bool>, q0: seq<Obj>, edges: seq<seq<Obj>>, destroyed: seq<bool>, q: seq<Obj>,
                  safe: set<Obj>, q': seq<Obj>)
    requires Draining(e0, d0, q0, edges, destroyed, q, safe) && q != []
    requires var o := q[|q| - 1]; o < |edges| && !destroyed[o] && o !in safe && q[..|q| - 1] <= q'
    ensures var o := q[|q| - 1];
      Live(destroyed[o := true]) < Live(destroyed) && Draining(e0, d0, q0, edges[o := []], destroyed[o := true], q', safe)
  {
    var o := q[|q| - 1];
    LiveUpdate(destroyed, o);
    forall x | x in q0 ensures x < |edges| && (x in q' || destroyed[o := true][x]) {
      if x in q && x != o { assert x in q[..|q| - 1]; assert x in q'[..|q| - 1]; }
    }
  }

  lemma CutStep(e0: seq<seq<Obj>>, d0: seq<bool>, e1: seq<seq<Obj>>, d1: seq<bool>, e2: seq<seq<Obj>>, d2: seq<bool>,
                whites: seq<Obj>, keep: set<Obj>, i: nat)
    requires i < |whites| && |e0| == |e1| == |e2| && forall j :: 0 <= j < |whites| ==> whites[j] < |e0|
    requires FreedOrCut(e0, d0, e1, d1, AsSet(whites)) && Untouched(d0, d1, AsSet(whites) + keep)
    requires Freed(e1[whites[i] := []], d1, e2, d2) && Untouched(d1, d2, AsSet(whites) + keep)
    requires forall j :: 0 <= j < i ==> e1[whites[j]] == []
    ensures FreedOrCut(e0, d0, e2, d2, AsSet(whites)) && Untouched(d0, d2, AsSet(whites) + keep)
    ensures forall j :: 0 <= j <= i ==> e2[whites[j]] == []
  {
  }

  /** Freed, except that the objects in `cut` own only a final part of what they owned. */
  predicate FreedOrCut(edges0: seq<seq<Obj>>, destroyed0: seq<bool>, edges: seq<seq<Obj>>, destroyed: seq<bool>, cut: set<Obj>) {
    && |edges0| == |destroyed0| == |edges| == |destroyed|
    && forall o :: 0 <= o < |edges| ==>
         && (destroyed0[o] ==> destroyed[o])
         && (o in cut ==> destroyed[o] == destroyed0[o] && forall x :: x in edges[o] ==> x in edges0[o])
         && (o !in cut ==> edges[o] == if destroyed[o] && !destroyed0[o] then [] else edges0[o])
  }

  /** Every container referring to a member is a member, and nothing outside the containers refers to one. */
  predicate Isolated(edges: seq<seq<Obj>>, external: seq<nat>, s: set<Obj>) {
    |external| == |edges|
    && forall w :: w in s ==> w < |edges| && external[w] == 0 && forall p :: 0 <= p < |edges| && w in edges[p] ==> p in s
  }

  lemma IsolatedKept(edges0: seq<seq<Obj>>, destroyed0: seq<bool>, edges: seq<seq<Obj>>, destroyed: seq<bool>,
                     external: seq<nat>, s: set<Obj>)
    requires Isolated(edges0, external, s) && FreedOrCut(edges0, destroyed0, edges, destroyed, s)
    ensures Isolated(edges, external, s)
  {
  }

  /** Once all white objects have lost their references, nothing refers to any of them. */
  lemma IsolatedWithoutEdges(e0: seq<seq<Obj>>, edges: seq<seq<Obj>>, destroyed: seq<bool>, d0: seq<bool>, external: seq<nat>,
                             whites: seq<Obj>, w: Obj)
    requires Isolated(e0, external, AsSet(whites)) && Freed(e0, d0, edges, destroyed) && w in whites
    requires forall j :: 0 <= j < |whites| ==> whites[j] < |e0| && e0[whites[j]] == []
    ensures w < |edges| && external[w] == 0 && TotalIncoming(edges, w) == 0 && edges[w] == []
  {
    assert w in AsSet(whites);
    IncomingZero(edges, All(|edges|), w, |edges|);
  }

  lemma FreedAgain(e0: seq<seq<Obj>>, d0: seq<bool>, e1: seq<seq<Obj>>, d1: seq<bool>, e2: seq<seq<Obj>>, d2: seq<bool>)
    requires Freed(e0, d0, e1, d1) && Freed(e1, d1, e2, d2)
    ensures Freed(e0, d0, e2, d2)
  {
  }

  /** The first `i` white objects are destroyed, the others and `keep` are not. */
  predicate Dropping(e0: seq<seq<Obj>>, d0: seq<bool>, edges: seq<seq<Obj>>, destroyed: seq<bool>, whites: seq<Obj>, i: nat, keep: set<Obj>)
    requires i <= |whites|
  {
    && Freed(e0, d0, edges, destroyed)
    && (forall j :: 0 <= j < |whites| ==> whites[j] < |edges| && (destroyed[whites[j]] <==> j < i))
    && Untouched(d0, destroyed, keep)
    && Live(destroyed) + i <= Live(d0)
  }

  lemma DropStep(e0: seq<seq<Obj>>, d0: seq<bool>, e1: seq<seq<Obj>>, d1: seq<bool>, e2: seq<seq<Obj>>, d2: seq<bool>,
                 whites: seq<Obj>, i: nat, keep: set<Obj>)
    requires Distinct(whites) && i < |whites| && Dropping(e0, d0, e1, d1, whites, i, keep)
    requires Freed(e1, d1, e2, d2) && d2[whites[i]] && Live(d2) < Live(d1)
    requires Untouched(d1, d2, AsSet(whites[i..]) - {whites[i]} + keep)
    ensures Dropping(e0, d0, e2, d2, whites, i + 1, keep)
  {
    forall j | i < j < |whites| ensures !d2[whites[j]] {
      assert whites[j] == whites[i..][j - i];
      assert whites[j] in AsSet(whites[i..]) - {whites[i]};
    }
  }

  lemma {:induction false} PopTimesLast(q: Queues<Obj>, n: nat)
    requires q.Valid()
    ensures PopTimes(q, n + 1) == PopTimes(q, n).Pop().0
    decreases n
  {
    if n > 0 { PopTimesLast(q.Pop().0, n - 1); }
  }

  /** `q` is what `n` successful pops leave of `start`. */
  ghost predicate Popping(start: Queues<Obj>, q: Queues<Obj>, n: nat) {
    start.Valid() && q == PopTimes(start, n) && Total(q.queue) + n == Total(start.queue)
  }

  /** The objects that the first `n` pops take. */
  ghost function PoppedSet(start: Queues<Obj>, n: nat): set<Obj>
    requires start.Valid()
  {
    if n == 0 then {}
    else
      var last := PopTimes(start, n - 1).Pop().1;
      PoppedSet(start, n - 1) + if last.Some? then {last.value.1} else {}
  }

  lemma PoppingNext(start: Queues<Obj>, q: Queues<Obj>, n: nat)
    requires Popping(start, q, n) && Total(q.queue) > 0
    ensures Popping(start, q.Pop().0, n + 1)
  {
    PopTimesLast(start, n);
    PopSucceeds(q);
  }

  lemma CutSlotStep(e0: seq<seq<Obj>>, d0: seq<bool>, e1: seq<seq<Obj>>, d1: seq<bool>, e2: seq<seq<Obj>>, d2: seq<bool>, w: Obj)
    requires w < |e0| && |e0| == |e1| && e1[w] != [] && Freed(e0[w := e1[w]], d0, e1, d1)
    requires Freed(e1[w := e1[w][1..]], d1, e2, d2) && d2[w] == d1[w]
    ensures Freed(e0[w := e2[w]], d0, e2, d2)
  {
  }

  /** White objects are destroyed; of the rest, some are destroyed and the others own what they owned. */
  predicate Released(e0: seq<seq<Obj>>, d0: seq<bool>, edges: seq<seq<Obj>>, destroyed: seq<bool>, whites: seq<Obj>) {
    && |e0| == |d0| == |edges| == |destroyed|
    && (forall w :: w in whites ==> w < |edges| && destroyed[w] && edges[w] == [])
    && forall o :: 0 <= o < |edges| && o !in whites ==>
         && (d0[o] ==> destroyed[o])
         && edges[o] == if destroyed[o] && !d0[o] then [] else e0[o]
  }

  lemma ReleasedIs(e0: seq<seq<Obj>>, d0: seq<bool>, e1: seq<seq<Obj>>, d1: seq<bool>, e2: seq<seq<Obj>>, d2: seq<bool>, whites: seq<Obj>)
    requires FreedOrCut(e0, d0, e1, d1, AsSet(whites)) && Freed(e1, d1, e2, d2)
    requires forall j :: 0 <= j < |whites| ==> whites[j] < |d2| && e1[whites[j]] == [] && d2[whites[j]]
    ensures Released(e0, d0, e2, d2, whites)
  {
  }

  // ---------------------------------------------------------------- who becomes a candidate again

  /** Counts and candidates as they were when the releasing half began, and what is white. */
  datatype Before = Before(refCount: seq<int>, queues: Queues<Obj>, whites: set<Obj>)

  predicate Waits(q: Queues<Obj>, kind: seq<nat>, o: Obj) { o < |kind| && kind[o] < |q.queue| && o in q.queue[kind[o]] }

  function Hold(held: set<Obj>, o: Obj): nat { if o in held then 1 else 0 }

  /** The candidates are those from before, less what was destroyed or is held, and whatever lives on with fewer
      references and may be part of a cycle; `idle` may be exempt while its last reference is being settled. */
  ghost predicate Requeued(before: Option<Before>, q: Queues<Obj>, kind: seq<nat>, mayContain: seq<bool>, destroyed: seq<bool>,
                           refCount: seq<int>, held: set<Obj>, idle: set<Obj>)
    requires |kind| == |mayContain| == |destroyed| == |refCount|
  {
    before.Some? ==>
      && |before.value.refCount| == |refCount|
      && (forall o :: 0 <= o < |refCount| ==> refCount[o] <= before.value.refCount[o] + Hold(held, o))
      && held <= before.value.whites
      && (forall o :: 0 <= o < |refCount| && Waits(before.value.queues, kind, o) && !destroyed[o] && o !in before.value.whites ==>
            (0 < refCount[o] || before.value.refCount[o] <= 0 ==> Waits(q, kind, o)))
      && (forall o :: 0 <= o < |refCount| && !destroyed[o] && o !in held && o !in idle ==>
            (MustWait(before.value.refCount[o], refCount[o], mayContain[o], kind[o]) ==> Waits(q, kind, o)))
      && forall o :: 0 <= o < |refCount| && Waits(q, kind, o) ==>
           Waits(before.value.queues, kind, o) || refCount[o] < before.value.refCount[o] + Hold(held, o)
  }

  /** A module is a root, and so never a candidate. */
  predicate ModulesAreRoots(kind: seq<nat>, nativeRoot: seq<bool>) {
    |kind| == |nativeRoot| && forall o :: 0 <= o < |kind| && kind[o] == MODULE ==> nativeRoot[o]
  }

  /** It has lost a reference and kept another, may refer to containers and is no module. */
  predicate MustWait(before: int, after: int, mayContain: bool, kind: nat) { 0 < after < before && mayContain && kind != MODULE }

  /** Every survivor that lost a reference and may be part of a cycle is in the queue of its kind. */
  ghost predicate LoweredWait(rc0: seq<int>, q: Queues<Obj>, kind: seq<nat>, mayContain: seq<bool>, destroyed: seq<bool>, refCount: seq<int>)
  {
    && |rc0| == |kind| == |mayContain| == |destroyed| == |refCount|
    && forall o :: 0 <= o < |kind| && !destroyed[o] && mayContain[o] && kind[o] != MODULE && refCount[o] < rc0[o] ==>
         kind[o] < |q.queue| && o in q.queue[kind[o]]
  }

  lemma RequeuedLowered(rc0: seq<int>, q0: Queues<Obj>, whites: set<Obj>, q: Queues<Obj>, kind: seq<nat>, mayContain: seq<bool>,
                        destroyed: seq<bool>, refCount: seq<int>)
    requires |rc0| == |kind| == |mayContain| == |destroyed| == |refCount|
    requires Requeued(Some(Before(rc0, q0, whites)), q, kind, mayContain, destroyed, refCount, {}, {})
    requires forall o :: 0 <= o < |kind| && !destroyed[o] && rc0[o] > 0 ==> refCount[o] > 0
    requires forall o :: 0 <= o < |kind| ==> refCount[o] >= 0
    ensures LoweredWait(rc0, q, kind, mayContain, destroyed, refCount)
  {
    forall o | 0 <= o < |kind| && !destroyed[o] && mayContain[o] && kind[o] != MODULE && refCount[o] < rc0[o]
      ensures Waits(q, kind, o)
    {
      assert MustWait(rc0[o], refCount[o], mayContain[o], kind[o]);
    }
  }

  lemma WaitsAfterRemove(q: Queues<Obj>, kind: seq<nat>, o: Obj, x: Obj)
    requires q.Valid() && o < |kind| && kind[o] < TYPES && Distinct(q.queue[kind[o]])
    ensures Waits(q.Remove(kind[o], o), kind, x) <==> Waits(q, kind, x) && x != o
  {
    WithoutMembers(q.queue[kind[o]], o);
  }

  lemma RequeuedDestroyed(before: Option<Before>, q: Queues<Obj>, kind: seq<nat>, mayContain: seq<bool>, destroyed: seq<bool>,
                          refCount: seq<int>, held: set<Obj>, idle: set<Obj>, o: Obj)
    requires QueuesHold(q, kind, mayContain, destroyed) && |refCount| == |kind| && o < |kind|
    requires Requeued(before, q, kind, mayContain, destroyed, refCount, held, idle + {o})
    ensures Requeued(before, q.Remove(kind[o], o), kind, mayContain, destroyed[o := true], refCount, held, idle)
  {
    forall x ensures Waits(q.Remove(kind[o], o), kind, x) <==> Waits(q, kind, x) && x != o { WaitsAfterRemove(q, kind, o, x); }
  }

  lemma RequeuedHeld(before: Option<Before>, q: Queues<Obj>, kind: seq<nat>, mayContain: seq<bool>, destroyed: seq<bool>,
                     refCount: seq<int>, held: set<Obj>, idle: set<Obj>, o: Obj)
    requires QueuesHold(q, kind, mayContain, destroyed) && |refCount| == |kind| && o < |kind| && o !in held
    requires Requeued(before, q, kind, mayContain, destroyed, refCount, held, idle) && (before.Some? ==> o in before.value.whites)
    ensures Requeued(before, q.Remove(kind[o], o), kind, mayContain, destroyed, refCount[o := refCount[o] + 1], held + {o}, idle)
  {
    forall x ensures Waits(q.Remove(kind[o], o), kind, x) <==> Waits(q, kind, x) && x != o { WaitsAfterRemove(q, kind, o, x); }
  }

  lemma RequeuedUnheld(before: Option<Before>, q: Queues<Obj>, kind: seq<nat>, mayContain: seq<bool>, destroyed: seq<bool>,
                       refCount: seq<int>, held: set<Obj>, idle: set<Obj>, o: Obj)
    requires |kind| == |mayContain| == |destroyed| == |refCount| && o < |kind| && o in held && refCount[o] == 1
    requires Requeued(before, q, kind, mayContain, destroyed, refCount, held, idle)
    ensures Requeued(before, q, kind, mayContain, destroyed, refCount[o := 0], held - {o}, idle)
  {
  }

  lemma RequeuedTaken(before: Option<Before>, q: Queues<Obj>, kind: seq<nat>, mayContain: seq<bool>, destroyed: seq<bool>,
                      refCount: seq<int>, held: set<Obj>, idle: set<Obj>, c: Obj)
    requires |kind| == |mayContain| == |destroyed| == |refCount| && c < |kind| && refCount[c] >= 1 + Hold(held, c)
    requires Requeued(before, q, kind, mayContain, destroyed, refCount, held, idle)
    ensures Requeued(before, q, kind, mayContain, destroyed, refCount[c := refCount[c] - 1], held, idle + {c})
    ensures before.Some? ==> refCount[c] - 1 < before.value.refCount[c] + Hold(held, c)
  {
  }

  lemma RequeuedSettled(before: Option<Before>, q: Queues<Obj>, kind: seq<nat>, mayContain: seq<bool>, destroyed: seq<bool>,
                        refCount: seq<int>, held: set<Obj>, idle: set<Obj>, c: Obj)
    requires QueuesHold(q, kind, mayContain, destroyed) && |refCount| == |kind| && c < |kind|
    requires Requeued(before, q, kind, mayContain, destroyed, refCount, held, idle + {c})
    requires before.Some? ==> refCount[c] < before.value.refCount[c] + Hold(held, c)
    ensures Requeued(before, q.Append(kind[c], c), kind, mayContain, destroyed, refCount, held, idle)
    ensures refCount[c] <= 0 || !mayContain[c] || kind[c] == MODULE ==> Requeued(before, q, kind, mayContain, destroyed, refCount, held, idle)
  {
    forall x ensures Waits(q.Append(kind[c], c), kind, x) <==> Waits(q, kind, x) || x == c { }
  }

  /** What had no reference to begin with cannot have lost one. */
  lemma NoneIdle(before: Option<Before>, q: Queues<Obj>, kind: seq<nat>, mayContain: seq<bool>, destroyed: seq<bool>,
                 refCount: seq<int>, idle: set<Obj>)
    requires |kind| == |mayContain| == |destroyed| == |refCount|
    requires Requeued(before, q, kind, mayContain, destroyed, refCount, {}, idle)
    requires before.Some? ==> forall o :: o in idle && o < |refCount| ==> o < |before.value.refCount| && before.value.refCount[o] == 0
    ensures Requeued(before, q, kind, mayContain, destroyed, refCount, {}, {})
  {
  }

  function QueuedSet(q: Queues<Obj>): set<Obj> { set k, o | 0 <= k < |q.queue| && o in q.queue[k] :: o }

  /** What was queued is popped or still queued. */
  lemma {:induction false} PoppedOrQueued(start: Queues<Obj>, n: nat, o: Obj)
    requires start.Valid() && o in QueuedSet(start)
    ensures o in PoppedSet(start, n) || o in QueuedSet(PopTimes(start, n))
  {
    if n > 0 {
      PoppedOrQueued(start, n - 1, o);
      var q := PopTimes(start, n - 1);
      PopTimesLast(start, n - 1);
      assert PopTimes(start, n) == q.Pop().0;
      if o !in PoppedSet(start, n - 1) { PopTakesOne(q, o); }
    }
  }

  lemma PopTakesOne(q: Queues<Obj>, o: Obj)
    requires q.Valid() && o in QueuedSet(q)
    ensures o in QueuedSet(q.Pop().0) || (q.Pop().1.Some? && q.Pop().1.value.1 == o)
  {
    var k :| 0 <= k < |q.queue| && o in q.queue[k];
    var j := q.Skipped(0);
    if j < TYPES && q.Slot(j) == k {
      assert q.queue[k] == [q.queue[k][0]] + q.queue[k][1..];
    }
    if o in q.Pop().0.queue[k] { assert o in QueuedSet(q.Pop().0); }
  }

  /** Every container that owns references and that no root reaches is reached from a candidate. */
  ghost predicate Covered(g: Graph, external: seq<nat>, q: Queues<Obj>)
    requires g.Valid() && |external| == g.Size()
  {
    forall p :: 0 <= p < g.Size() && g.edges[p] != [] && !Rooted(g, external, p) ==> Reaches(g, QueuedSet(q), p)
  }

  /** With an owner destroyed, fewer references are left. */
  lemma {:induction false} LostReference(e0: seq<seq<Obj>>, e1: seq<seq<Obj>>, from: set<Obj>, p: Obj, o: Obj, n: nat)
    requires n <= |e0| == |e1| && forall q :: 0 <= q < |e0| ==> e1[q] == e0[q] || e1[q] == []
    requires p in from && p < |e0| && e1[p] == [] && o in e0[p]
    ensures Incoming(e1, from, o, n) + (if p < n then 1 else 0) <= Incoming(e0, from, o, n)
  {
    if n > 0 { LostReference(e0, e1, from, p, o, n - 1); }
  }

  /** A container that no root reaches is the end of a chain of references from one that is still a candidate,
      unless it has become white. */
  lemma ChainToUnreachable(g: Graph, external: seq<nat>, q0: Queues<Obj>, n: nat, touched: seq<Obj>, whites: seq<Obj>, o: Obj) returns (p: seq<Obj>)
    requires q0.Valid() && Found(g, external, PoppedSet(q0, n), touched, whites) && Covered(g, external, q0)
    requires o < g.Size() && g.edges[o] != [] && !Rooted(g, external, o) && o !in whites
    ensures RefPath(g, p) && p[0] in QueuedSet(PopTimes(q0, n)) && p[|p| - 1] == o
  {
    if o in touched {
      var seeds := Seeds(g, external, AsSet(touched));
      assert Reaches(g, seeds, o);
      var w :| Path(g, w) && w[0] in seeds && w[|w| - 1] == o;
      PathIsRefPath(g, w);
      var owner := UntouchedOwner(g, external, touched, w);
      var front := ChainToUntouched(g, external, q0, n, touched, whites, owner);
      JoinPaths(g, front, w);
      p := front + w;
    } else {
      p := ChainToUntouched(g, external, q0, n, touched, whites, o);
    }
  }

  lemma PathIsRefPath(g: Graph, w: seq<Obj>)
    requires g.Valid() && Path(g, w) && w[0] < g.Size()
    ensures RefPath(g, w)
  {
    forall i | 0 <= i < |w| ensures w[i] < g.Size() {
      if i > 0 { assert g.Step(w[i - 1], w[(i - 1) + 1]); }
    }
    forall i | 0 <= i < |w| - 1 ensures w[i + 1] in g.edges[w[i]] { assert g.Step(w[i], w[i + 1]); }
  }

  lemma RootedEnd(g: Graph, external: seq<nat>, w: seq<Obj>)
    requires g.Valid() && |external| == g.Size() && RefPath(g, w)
    ensures external[w[0]] > 0 || g.nativeRoot[w[0]] ==> Rooted(g, external, w[|w| - 1])
  {
  }

  lemma ReachedEnd(g: Graph, from: set<Obj>, w: seq<Obj>)
    requires Path(g, w)
    ensures w[0] in from ==> Reaches(g, from, w[|w| - 1])
  {
  }

  /** A seed from which something unreachable is reached is referred to by an untouched container. */
  lemma UntouchedOwner(g: Graph, external: seq<nat>, touched: seq<Obj>, w: seq<Obj>) returns (owner: Obj)
    requires g.Valid() && |external| == g.Size() && RefPath(g, w) && w[0] in Seeds(g, external, AsSet(touched))
    requires !Rooted(g, external, w[|w| - 1])
    ensures owner < g.Size() && owner !in touched && w[0] in g.edges[owner] && !Rooted(g, external, owner)
  {
    RootedEnd(g, external, w);
    owner :| 0 <= owner < g.Size() && owner !in Expanded(g, AsSet(touched)) && w[0] in g.edges[owner];
    if Rooted(g, external, owner) || g.nativeRoot[owner] { RootedOwner(g, external, owner, w); }
  }

  lemma RootedOwner(g: Graph, external: seq<nat>, owner: Obj, w: seq<Obj>)
    requires g.Valid() && |external| == g.Size() && RefPath(g, w) && owner < g.Size() && w[0] in g.edges[owner]
    requires Rooted(g, external, owner) || g.nativeRoot[owner]
    ensures Rooted(g, external, w[|w| - 1])
  {
    if g.nativeRoot[owner] { assert RefPath(g, [owner]); }
    var p :| RefPath(g, p) && (external[p[0]] > 0 || g.nativeRoot[p[0]]) && p[|p| - 1] == owner;
    JoinPaths(g, p, w);
    assert (p + w)[0] == p[0] && (p + w)[|p + w| - 1] == w[|w| - 1];
  }

  lemma JoinPaths(g: Graph, p: seq<Obj>, w: seq<Obj>)
    requires RefPath(g, p) && RefPath(g, w) && w[0] in g.edges[p[|p| - 1]]
    ensures RefPath(g, p + w)
  {
    forall i | 0 <= i < |p + w| - 1 ensures (p + w)[i + 1] in g.edges[(p + w)[i]] {
      if i >= |p| { assert w[(i - |p|) + 1] in g.edges[w[i - |p|]]; }
    }
  }

  lemma ChainToUntouched(g: Graph, external: seq<nat>, q0: Queues<Obj>, n: nat, touched: seq<Obj>, whites: seq<Obj>, o: Obj) returns (p: seq<Obj>)
    requires q0.Valid() && Found(g, external, PoppedSet(q0, n), touched, whites) && Covered(g, external, q0)
    requires o < g.Size() && g.edges[o] != [] && !Rooted(g, external, o) && o !in touched
    ensures RefPath(g, p) && p[0] in QueuedSet(PopTimes(q0, n)) && p[|p| - 1] == o
  {
    p :| Path(g, p) && p[0] in QueuedSet(q0) && p[|p| - 1] == o;
    ReachedEnd(g, PoppedSet(q0, n), p);
    PoppedOrQueued(q0, n, p[0]);
    if |p| > 1 { assert g.Step(p[0], p[1]); }
    PathIsRefPath(g, p);
  }

  /** The references left are those of the objects that live on. */
  predicate Left(g: Graph, edges: seq<seq<Obj>>, destroyed: seq<bool>) {
    && g.Valid() && |edges| == |destroyed| == g.Size()
    && forall o :: 0 <= o < g.Size() ==> edges[o] == if destroyed[o] then [] else g.edges[o]
  }

  lemma LeftIsValid(g: Graph, edges: seq<seq<Obj>>, destroyed: seq<bool>)
    requires Left(g, edges, destroyed)
    ensures g.(edges := edges).Valid()
  {
  }

  /** The part of a chain whose members live on is one after the collection as well. */
  lemma Tail(g: Graph, edges: seq<seq<Obj>>, destroyed: seq<bool>, p: seq<Obj>, i: nat) returns (w: seq<Obj>)
    requires Left(g, edges, destroyed) && RefPath(g, p) && i < |p| && forall j :: i <= j < |p| ==> !destroyed[p[j]]
    ensures RefPath(g.(edges := edges), w) && w[0] == p[i] && w[|w| - 1] == p[|p| - 1]
  {
    w := p[i..];
    forall k, l | 0 <= k && l == k + 1 < |w| ensures w[l] in edges[w[k]] { assert w[k] == p[i + k] && w[l] == p[(i + k) + 1]; }
  }

  /** If no root reaches a chain's end, which owns references, no member is a root or a leaf, and the collector walks
      along the chain. */
  lemma WalksAlong(g: Graph, external: seq<nat>, w: seq<Obj>)
    requires g.Valid() && |external| == g.Size() && RefPath(g, w)
    requires g.edges[w[|w| - 1]] != [] && !Rooted(g, external, w[|w| - 1])
    ensures Path(g, w) && external[w[0]] == 0 && !g.nativeRoot[w[0]] && g.mayContain[w[0]]
  {
    forall j | 0 <= j < |w| ensures external[w[j]] == 0 && !g.nativeRoot[w[j]] && g.mayContain[w[j]] { InnerMember(g, external, w, j); }
  }

  lemma InnerMember(g: Graph, external: seq<nat>, w: seq<Obj>, j: nat)
    requires g.Valid() && |external| == g.Size() && RefPath(g, w) && j < |w|
    requires g.edges[w[|w| - 1]] != [] && !Rooted(g, external, w[|w| - 1])
    ensures external[w[j]] == 0 && !g.nativeRoot[w[j]] && g.mayContain[w[j]]
  {
    var rest := w[j..];
    forall k, l | 0 <= k && l == k + 1 < |rest| ensures rest[l] in g.edges[rest[k]] { assert w[(j + k) + 1] in g.edges[w[j + k]]; }
    RootedEnd(g, external, rest);
    if j < |w| - 1 { assert w[j + 1] in g.edges[w[j]]; }
  }

  /** What a collection leaves: references and counts of the objects that live on, and the candidates. */
  ghost predicate Aftermath(g: Graph, external: seq<nat>, rc0: seq<int>, edges: seq<seq<Obj>>, refCount: seq<int>, destroyed: seq<bool>,
                            kind: seq<nat>, q1: Queues<Obj>, q: Queues<Obj>, whites: set<Obj>)
  {
    && Left(g, edges, destroyed) && Balanced(g.edges, rc0, external, {}) && Balanced(edges, refCount, external, {})
    && (forall x :: 0 <= x < g.Size() && !destroyed[x] && rc0[x] > 0 ==> refCount[x] > 0)
    && (forall x :: 0 <= x < g.Size() ==> rc0[x] >= 0)
    && (forall w :: w in whites ==> w < g.Size() && destroyed[w])
    && |kind| == g.Size() && ModulesAreRoots(kind, g.nativeRoot)
    && Requeued(Some(Before(rc0, q1, whites)), q, kind, g.mayContain, destroyed, refCount, {}, {})
  }

  /** What a destroyed object referred to, and lives on, is a candidate unless it is a root or a leaf. */
  lemma OrphanWaits(g: Graph, external: seq<nat>, rc0: seq<int>, edges: seq<seq<Obj>>, refCount: seq<int>, destroyed: seq<bool>,
                    kind: seq<nat>, q1: Queues<Obj>, q: Queues<Obj>, whites: set<Obj>, p: Obj, o: Obj)
    requires Aftermath(g, external, rc0, edges, refCount, destroyed, kind, q1, q, whites)
    requires p < g.Size() && o < g.Size() && o in g.edges[p] && destroyed[p] && !destroyed[o] && !g.nativeRoot[o] && g.mayContain[o]
    ensures Waits(q, kind, o)
  {
    LostReference(g.edges, edges, All(g.Size()), p, o, g.Size());
  }

  lemma CandidateStays(before: Before, q: Queues<Obj>, kind: seq<nat>, mayContain: seq<bool>, destroyed: seq<bool>, refCount: seq<int>, o: Obj)
    requires |kind| == |mayContain| == |destroyed| == |refCount|
    requires Requeued(Some(before), q, kind, mayContain, destroyed, refCount, {}, {})
    requires Waits(before.queues, kind, o) && !destroyed[o] && o !in before.whites && (before.refCount[o] <= 0 || refCount[o] > 0)
    ensures Waits(q, kind, o)
  {
  }

  lemma CandidateReaches(g: Graph, q: Queues<Obj>, kind: seq<nat>, w: seq<Obj>)
    requires Path(g, w) && Waits(q, kind, w[0])
    ensures Reaches(g, QueuedSet(q), w[|w| - 1])
  {
    assert w[0] in QueuedSet(q);
    ReachedEnd(g, QueuedSet(q), w);
  }

  /** From where on all members of a chain live. */
  lemma {:induction false} LastBreak(destroyed: seq<bool>, p: seq<Obj>, i: nat) returns (k: nat)
    requires (forall j :: 0 <= j < |p| ==> p[j] < |destroyed|) && i < |p| && forall j :: i <= j < |p| ==> !destroyed[p[j]]
    ensures k <= i && (forall j :: k <= j < |p| ==> !destroyed[p[j]]) && (k > 0 ==> destroyed[p[k - 1]])
  {
    k := i;
    if i > 0 && !destroyed[p[i - 1]] { k := LastBreak(destroyed, p, i - 1); }
  }

  lemma EndLives(g: Graph, edges: seq<seq<Obj>>, destroyed: seq<bool>, o: Obj)
    requires Left(g, edges, destroyed) && o < g.Size() && edges[o] != []
    ensures !destroyed[o]
  {
  }

  lemma WalkFrom(g: Graph, external: seq<nat>, edges: seq<seq<Obj>>, destroyed: seq<bool>, p: seq<Obj>, k: nat) returns (w: seq<Obj>)
    requires Left(g, edges, destroyed) && |external| == g.Size() && g.(edges := edges).Valid()
    requires RefPath(g, p) && k < |p| && forall j :: k <= j < |p| ==> !destroyed[p[j]]
    requires edges[p[|p| - 1]] != [] && !Rooted(g.(edges := edges), external, p[|p| - 1])
    ensures Path(g.(edges := edges), w) && w[0] == p[k] && w[|w| - 1] == p[|p| - 1]
    ensures external[p[k]] == 0 && !g.nativeRoot[p[k]] && g.mayContain[p[k]]
  {
    w := Tail(g, edges, destroyed, p, k);
    WalksAlong(g.(edges := edges), external, w);
  }

  lemma WalkToEnd(g: Graph, external: seq<nat>, edges: seq<seq<Obj>>, destroyed: seq<bool>, p: seq<Obj>) returns (k: nat, w: seq<Obj>)
    requires Left(g, edges, destroyed) && |external| == g.Size() && g.(edges := edges).Valid()
    requires RefPath(g, p) && edges[p[|p| - 1]] != [] && !Rooted(g.(edges := edges), external, p[|p| - 1])
    ensures k < |p| && !destroyed[p[k]] && (k > 0 ==> destroyed[p[k - 1]])
    ensures Path(g.(edges := edges), w) && w[0] == p[k] && w[|w| - 1] == p[|p| - 1]
    ensures external[p[k]] == 0 && !g.nativeRoot[p[k]] && g.mayContain[p[k]]
  {
    EndLives(g, edges, destroyed, p[|p| - 1]);
    k := LastBreak(destroyed, p, |p| - 1);
    w := WalkFrom(g, external, edges, destroyed, p, k);
  }

  /** A chain of references to something that lives on and that no root reaches any more, followed back, begins at a
      candidate, or where an owner was destroyed and so the next object has become one. */
  lemma ChainIsCovered(g: Graph, external: seq<nat>, rc0: seq<int>, edges: seq<seq<Obj>>, refCount: seq<int>,
                       destroyed: seq<bool>, kind: seq<nat>, q1: Queues<Obj>, q: Queues<Obj>, whites: set<Obj>, p: seq<Obj>)
    requires Aftermath(g, external, rc0, edges, refCount, destroyed, kind, q1, q, whites)
    requires RefPath(g, p) && edges[p[|p| - 1]] != [] && !Rooted(g.(edges := edges), external, p[|p| - 1])
    requires external[p[0]] > 0 || g.nativeRoot[p[0]] || Waits(q1, kind, p[0])
    ensures Reaches(g.(edges := edges), QueuedSet(q), p[|p| - 1])
  {
    LeftIsValid(g, edges, destroyed);
    var k, w := WalkToEnd(g, external, edges, destroyed, p);
    BreakWaits(g, external, rc0, edges, refCount, destroyed, kind, q1, q, whites, p, k);
    CandidateReaches(g.(edges := edges), q, kind, w);
  }

  lemma BreakWaits(g: Graph, external: seq<nat>, rc0: seq<int>, edges: seq<seq<Obj>>, refCount: seq<int>,
                   destroyed: seq<bool>, kind: seq<nat>, q1: Queues<Obj>, q: Queues<Obj>, whites: set<Obj>, p: seq<Obj>, k: nat)
    requires Aftermath(g, external, rc0, edges, refCount, destroyed, kind, q1, q, whites)
    requires RefPath(g, p) && k < |p| && !destroyed[p[k]] && (k > 0 ==> destroyed[p[k - 1]])
    requires external[p[k]] == 0 && !g.nativeRoot[p[k]] && g.mayContain[p[k]]
    requires k == 0 ==> Waits(q1, kind, p[0])
    ensures Waits(q, kind, p[k])
  {
    if k > 0 {
      assert p[(k - 1) + 1] in g.edges[p[k - 1]];
      OrphanWaits(g, external, rc0, edges, refCount, destroyed, kind, q1, q, whites, p[k - 1], p[k]);
    } else {
      CandidateStays(Before(rc0, q1, whites), q, kind, g.mayContain, destroyed, refCount, p[0]);
    }
  }

  /** Completeness is kept: if the candidates lead to everything unreachable that owns references, they still do after
      a collection, of however many of them. */
  lemma StaysCovered(g: Graph, external: seq<nat>, q0: Queues<Obj>, n: nat, touched: seq<Obj>, rc0: seq<int>, whites: seq<Obj>,
                     edges: seq<seq<Obj>>, refCount: seq<int>, destroyed: seq<bool>, kind: seq<nat>, q: Queues<Obj>)
    requires q0.Valid() && Found(g, external, PoppedSet(q0, n), touched, whites) && Covered(g, external, q0)
    requires Aftermath(g, external, rc0, edges, refCount, destroyed, kind, PopTimes(q0, n), q, AsSet(whites))
    requires forall o :: o in QueuedSet(PopTimes(q0, n)) ==> Waits(PopTimes(q0, n), kind, o)
    ensures g.(edges := edges).Valid() && Covered(g.(edges := edges), external, q)
  {
    forall o | 0 <= o < g.Size() && edges[o] != [] && !Rooted(g.(edges := edges), external, o)
      ensures Reaches(g.(edges := edges), QueuedSet(q), o)
    {
      StaysReached(g, external, q0, n, touched, rc0, whites, edges, refCount, destroyed, kind, q, o);
    }
  }

  lemma StaysReached(g: Graph, external: seq<nat>, q0: Queues<Obj>, n: nat, touched: seq<Obj>, rc0: seq<int>, whites: seq<Obj>,
                     edges: seq<seq<Obj>>, refCount: seq<int>, destroyed: seq<bool>, kind: seq<nat>, q: Queues<Obj>, o: Obj)
    requires q0.Valid() && Found(g, external, PoppedSet(q0, n), touched, whites) && Covered(g, external, q0)
    requires Aftermath(g, external, rc0, edges, refCount, destroyed, kind, PopTimes(q0, n), q, AsSet(whites))
    requires forall c :: c in QueuedSet(PopTimes(q0, n)) ==> Waits(PopTimes(q0, n), kind, c)
    requires o < g.Size() && edges[o] != [] && !Rooted(g.(edges := edges), external, o)
    ensures Reaches(g.(edges := edges), QueuedSet(q), o)
  {
    var p := ChainTo(g, external, q0, n, touched, whites, o);
    ChainIsCovered(g, external, rc0, edges, refCount, destroyed, kind, PopTimes(q0, n), q, AsSet(whites), p);
  }

  lemma QueuedWaits(q: Queues<Obj>, kind: seq<nat>, mayContain: seq<bool>, destroyed: seq<bool>)
    requires QueuesHold(q, kind, mayContain, destroyed)
    ensures forall o :: o in QueuedSet(q) ==> Waits(q, kind, o)
  {
    forall o | o in QueuedSet(q) ensures Waits(q, kind, o) {
      var k :| 0 <= k < |q.queue| && o in q.queue[k];
      assert Queueable(o, k, kind, mayContain, destroyed);
    }
  }

  lemma CoversAgain(g: Graph, external: seq<nat>, q0: Queues<Obj>, n: nat, touched: seq<Obj>, rc0: seq<int>, d0: seq<bool>, whites: seq<Obj>,
                    edges: seq<seq<Obj>>, refCount: seq<int>, destroyed: seq<bool>, kind: seq<nat>, q: Queues<Obj>)
    requires q0.Valid() && Found(g, external, PoppedSet(q0, n), touched, whites)
    requires Collected(g, external, rc0, d0, whites, edges, refCount, destroyed)
    requires Balanced(g.edges, rc0, external, {}) && Balanced(edges, refCount, external, {}) && ModulesAreRoots(kind, g.nativeRoot)
    requires forall o :: 0 <= o < g.Size() && d0[o] ==> g.edges[o] == []
    requires forall o :: o in QueuedSet(PopTimes(q0, n)) ==> Waits(PopTimes(q0, n), kind, o)
    requires Requeued(Some(Before(rc0, PopTimes(q0, n), AsSet(whites))), q, kind, g.mayContain, destroyed, refCount, {}, {})
    ensures g.(edges := edges).Valid() && (Covered(g, external, q0) ==> Covered(g.(edges := edges), external, q))
  {
    LeftIsValid(g, edges, destroyed);
    if Covered(g, external, q0) {
      StaysCovered(g, external, q0, n, touched, rc0, whites, edges, refCount, destroyed, kind, q);
    }
  }

  /** With no candidate left, whatever is referred to is reached from a root. */
  lemma AllRooted(g: Graph, external: seq<nat>, refCount: seq<int>, q: Queues<Obj>)
    requires g.Valid() && Balanced(g.edges, refCount, external, {}) && Covered(g, external, q) && Total(q.queue) == 0
    ensures forall o :: 0 <= o < g.Size() && refCount[o] > 0 ==> Rooted(g, external, o)
  {
    TotalZero(q.queue);
    assert QueuedSet(q) == {};
    forall o | 0 <= o < g.Size() && refCount[o] > 0 ensures Rooted(g, external, o) {
      if external[o] > 0 {
        assert RefPath(g, [o]);
      } else {
        IncomingZero(g.edges, All(g.Size()), o, g.Size());
        var p :| 0 <= p < g.Size() && o in g.edges[p];
        RootedStep(g, external, p, o);
      }
    }
  }

  /** A chain of references to a container that is not white, from a root or from one that is still a candidate. */
  lemma ChainTo(g: Graph, external: seq<nat>, q0: Queues<Obj>, n: nat, touched: seq<Obj>, whites: seq<Obj>, o: Obj) returns (p: seq<Obj>)
    requires q0.Valid() && Found(g, external, PoppedSet(q0, n), touched, whites) && Covered(g, external, q0)
    requires o < g.Size() && g.edges[o] != [] && o !in whites
    ensures RefPath(g, p) && p[|p| - 1] == o
    ensures external[p[0]] > 0 || g.nativeRoot[p[0]] || p[0] in QueuedSet(PopTimes(q0, n))
  {
    if Rooted(g, external, o) {
      p :| RefPath(g, p) && (external[p[0]] > 0 || g.nativeRoot[p[0]]) && p[|p| - 1] == o;
    } else {
      p := ChainToUnreachable(g, external, q0, n, touched, whites, o);
    }
  }

  /** The objects that rest at a zero count. */
  function Idle(refCount: seq<int>, destroyed: seq<bool>): (s: set<Obj>)
    requires |refCount| == |destroyed|
  {
    set o | o in All(|refCount|) && refCount[o] == 0 && !destroyed[o]
  }

  /** A destroyed object has no references, so a walk from live objects never meets one. */
  lemma {:induction false} WalkIsLive(g: Graph, refCount: seq<int>, external: seq<nat>, destroyed: seq<bool>, p: seq<Obj>, i: nat)
    requires g.Valid() && Balanced(g.edges, refCount, external, {}) && |destroyed| == g.Size()
    requires forall o :: 0 <= o < g.Size() && destroyed[o] ==> refCount[o] == 0
    requires Path(g, p) && i < |p| && p[0] < g.Size() && !destroyed[p[0]]
    ensures p[i] < g.Size() && !destroyed[p[i]]
  {
    if i > 0 {
      assert g.Step(p[i - 1], p[(i - 1) + 1]);
      IncomingZero(g.edges, All(g.Size()), p[i], g.Size());
    }
  }

  lemma WhitesAreReleasable(g: Graph, refCount: seq<int>, external: seq<nat>, destroyed: seq<bool>, popped: set<Obj>,
                            touched: seq<Obj>, whites: seq<Obj>)
    requires Found(g, external, popped, touched, whites) && Balanced(g.edges, refCount, external, {}) && |destroyed| == g.Size()
    requires forall o :: 0 <= o < g.Size() && destroyed[o] ==> refCount[o] == 0
    requires forall o :: o in popped ==> o < g.Size() && !destroyed[o]
    ensures forall w :: w in whites ==> w < g.Size() && !destroyed[w] && w !in OwnedSet(g, external)
    ensures Isolated(g.edges, external, AsSet(whites))
  {
    forall w | w in whites
      ensures w < g.Size() && !destroyed[w] && w !in OwnedSet(g, external) && external[w] == 0
      ensures forall p :: 0 <= p < g.Size() && w in g.edges[p] ==> p in whites
    {
      WhiteIsIsolated(g, external, AsSet(touched), w);
      if Owned(g, external, w) { OwnedIsNeverWhite(g, external, AsSet(touched), w); }
      assert w in touched;
      var p :| Path(g, p) && p[0] in popped && p[|p| - 1] == w;
      WalkIsLive(g, refCount, external, destroyed, p, |p| - 1);
    }
  }

  lemma CollectedIs(g: Graph, external: seq<nat>, rc0: seq<int>, d0: seq<bool>, whites: seq<Obj>,
                    edges: seq<seq<Obj>>, refCount: seq<int>, destroyed: seq<bool>, idle: set<Obj>)
    requires g.Valid() && |external| == |rc0| == |d0| == g.Size() && idle == Idle(rc0, d0)
    requires forall o :: 0 <= o < g.Size() && d0[o] ==> g.edges[o] == []
    requires Balanced(edges, refCount, external, {}) && |destroyed| == |edges|
    requires forall o :: 0 <= o < |edges| && destroyed[o] ==> refCount[o] == 0
    requires forall o :: 0 <= o < |edges| && !destroyed[o] && refCount[o] == 0 ==> o in idle
    requires forall w :: w in whites ==> w < g.Size() && !d0[w] && w !in OwnedSet(g, external)
    requires Released(g.edges, d0, edges, destroyed, whites) && Untouched(d0, destroyed, Spared(g, external, d0, AsSet(whites)))
    requires whites == [] ==> destroyed == d0
    requires Balanced(g.edges, rc0, external, {})
    requires forall o :: 0 <= o < g.Size() && d0[o] ==> rc0[o] == 0
    ensures Collected(g, external, rc0, d0, whites, edges, refCount, destroyed)
  {
    forall o | 0 <= o < |edges| ensures refCount[o] >= 0 && (refCount[o] == 0 ==> forall p :: 0 <= p < |edges| ==> o !in edges[p]) {
      IncomingZero(edges, All(|edges|), o, |edges|);
    }
    OwnedSurvives(g, external, rc0, d0, whites, destroyed);
    DestroyedExactly(g, external, rc0, d0, whites, edges, refCount, destroyed, idle);
  }

  lemma OwnedSurvives(g: Graph, external: seq<nat>, rc0: seq<int>, d0: seq<bool>, whites: seq<Obj>, destroyed: seq<bool>)
    requires g.Valid() && |external| == |rc0| == |d0| == |destroyed| == g.Size() && Balanced(g.edges, rc0, external, {})
    requires forall o :: 0 <= o < g.Size() && d0[o] ==> rc0[o] == 0
    requires forall w :: w in whites ==> w < g.Size() && w !in OwnedSet(g, external)
    requires Untouched(d0, destroyed, Spared(g, external, d0, AsSet(whites)))
    ensures forall o :: o in OwnedSet(g, external) ==> o < g.Size() && !destroyed[o]
  {
    forall o | o in OwnedSet(g, external) ensures o < g.Size() && !destroyed[o] {
      OwnedCounts(g, rc0, external, o);
      OwnedIsSpared(g, external, AsSet(whites), o);
      assert o in Spared(g, external, d0, AsSet(whites));
    }
  }

  /** Nothing but the doomed is destroyed because what is spared was left alone; all of them are because the
      destroyed objects are a closed set: with its last referrer an object loses its last count. */
  lemma DestroyedExactly(g: Graph, external: seq<nat>, rc0: seq<int>, d0: seq<bool>, whites: seq<Obj>,
                         edges: seq<seq<Obj>>, refCount: seq<int>, destroyed: seq<bool>, idle: set<Obj>)
    requires g.Valid() && |external| == |rc0| == |d0| == g.Size() && idle == Idle(rc0, d0)
    requires forall o :: 0 <= o < g.Size() && d0[o] ==> g.edges[o] == []
    requires Balanced(g.edges, rc0, external, {}) && Balanced(edges, refCount, external, {}) && |destroyed| == |edges|
    requires forall o :: 0 <= o < |edges| && !destroyed[o] && refCount[o] == 0 ==> o in idle
    requires Released(g.edges, d0, edges, destroyed, whites) && Untouched(d0, destroyed, Spared(g, external, d0, AsSet(whites)))
    requires forall w :: w in whites ==> w < g.Size() && !d0[w]
    ensures forall o :: 0 <= o < g.Size() ==> (destroyed[o] <==> d0[o] || Doomed(g, external, AsSet(whites), o))
  {
    var gone := set o | o in All(g.Size()) && destroyed[o];
    forall o | OnlyReferredFrom(g, external, gone, o) ensures o in gone {
      assert forall p :: 0 <= p < g.Size() && o in g.edges[p] ==> destroyed[p] && edges[p] == [];
      IncomingZero(edges, All(|edges|), o, |edges|);
      IncomingZero(g.edges, All(g.Size()), o, g.Size());
    }
    assert AsSet(whites) <= gone;
    assert DoomClosed(g, external, AsSet(whites), gone);
    forall o | 0 <= o < g.Size() && !d0[o] && !Doomed(g, external, AsSet(whites), o) ensures !destroyed[o] {
      assert o in Spared(g, external, d0, AsSet(whites));
    }
  }

  /** Over any number of collections: owned objects live on with their references, destruction is final, and
      an object owns either what it owned or, once destroyed, nothing. */
  ghost predicate Kept(g: Graph, external: seq<nat>, destroyed0: seq<bool>, edges: seq<seq<Obj>>, destroyed: seq<bool>) {
    && g.Valid() && |external| == |destroyed0| == |edges| == |destroyed| == g.Size()
    && (forall o :: o in OwnedSet(g, external) ==> o < g.Size() && !destroyed[o])
    && (forall o :: 0 <= o < g.Size() && destroyed0[o] ==> destroyed[o])
    && forall o :: 0 <= o < g.Size() ==> edges[o] == if destroyed[o] then [] else g.edges[o]
  }

  lemma KeptAtFirst(g: Graph, external: seq<nat>, refCount: seq<int>, destroyed: seq<bool>)
    requires g.Valid() && Balanced(g.edges, refCount, external, {}) && |destroyed| == g.Size()
    requires forall o :: 0 <= o < g.Size() && destroyed[o] ==> refCount[o] == 0 && g.edges[o] == []
    ensures Kept(g, external, destroyed, g.edges, destroyed)
  {
    forall o | o in OwnedSet(g, external) ensures o < g.Size() && !destroyed[o] { OwnedCounts(g, refCount, external, o); }
  }

  /** What was owned before is owned still. */
  lemma StillOwned(g: Graph, external: seq<nat>, destroyed0: seq<bool>, edges: seq<seq<Obj>>, destroyed: seq<bool>, o: Obj)
    requires Kept(g, external, destroyed0, edges, destroyed) && o in OwnedSet(g, external)
    ensures g.(edges := edges).Valid() && o in OwnedSet(g.(edges := edges), external)
  {
    var p :| RefPath(g, p) && external[p[0]] > 0 && p[|p| - 1] == o;
    forall i | 0 <= i < |p| ensures p[i] in OwnedSet(g, external) {
      var q := p[..i + 1];
      assert RefPath(g, q) && q[0] == p[0] && q[|q| - 1] == p[i];
    }
    assert RefPath(g.(edges := edges), p);
  }

  lemma KeptAgain(g: Graph, external: seq<nat>, d0: seq<bool>, e1: seq<seq<Obj>>, rc1: seq<int>, d1: seq<bool>, whites: seq<Obj>,
                  e2: seq<seq<Obj>>, rc2: seq<int>, d2: seq<bool>)
    requires Kept(g, external, d0, e1, d1)
    requires Collected(g.(edges := e1), external, rc1, d1, whites, e2, rc2, d2)
    ensures Kept(g, external, d0, e2, d2)
  {
    forall o | o in OwnedSet(g, external) ensures !d2[o] { StillOwned(g, external, d0, e1, d1, o); }
  }

  /** Exactly which objects a collection spares, told from the heap before it: a live object, native root or not,
      lives on if and only if it belongs to a set apart from the white objects whose members are each referred to
      from outside, by a member, or by nothing at all. */
  lemma SparedExactly(g: Graph, external: seq<nat>, rc0: seq<int>, d0: seq<bool>, whites: seq<Obj>,
                      edges: seq<seq<Obj>>, refCount: seq<int>, destroyed: seq<bool>, o: Obj)
    requires Collected(g, external, rc0, d0, whites, edges, refCount, destroyed) && o < g.Size() && !d0[o]
    requires forall p :: 0 <= p < g.Size() && d0[p] ==> g.edges[p] == []
    ensures !destroyed[o] <==> exists keep :: o in keep && keep !! AsSet(whites) && Supported(g.edges, external, keep)
    ensures !destroyed[o] <==> !Doomed(g, external, AsSet(whites), o)
  {
    if !destroyed[o] {
      var keep := Spared(g, external, d0, AsSet(whites));
      SparedSupported(g, external, d0, AsSet(whites));
      assert o in keep;
    }
    forall keep | o in keep && keep !! AsSet(whites) && Supported(g.edges, external, keep) ensures !destroyed[o] {
      SupportedIsNotDoomed(g, external, AsSet(whites), keep, o);
    }
  }

  /** What refers to itself and is not white is spared: a pending asynchronous request always is, since it holds
      itself and is a native root. */
  lemma SelfHeldIsSpared(g: Graph, external: seq<nat>, rc0: seq<int>, d0: seq<bool>, touched: set<Obj>, whites: seq<Obj>,
                         edges: seq<seq<Obj>>, refCount: seq<int>, destroyed: seq<bool>, o: Obj)
    requires Collected(g, external, rc0, d0, whites, edges, refCount, destroyed)
    requires forall t :: t in touched ==> t < g.Size() && g.mayContain[t]
    requires AsSet(whites) == WhiteSet(g, external, touched)
    requires o < g.Size() && !d0[o] && g.nativeRoot[o] && o in g.edges[o]
    ensures !destroyed[o]
  {
    assert RefPath(g, [o]);
    RootedIsNeverWhite(g, external, touched, o);
    SupportedIsNotDoomed(g, external, AsSet(whites), {o}, o);
  }

  /** Completeness: if every unreachable container that owns references is reached from the candidates taken,
      every touched object that no root reaches is destroyed. */
  lemma GarbageIsFreed(g: Graph, external: seq<nat>, popped: set<Obj>, touched: seq<Obj>, whites: seq<Obj>, rc0: seq<int>, d0: seq<bool>,
                       edges: seq<seq<Obj>>, refCount: seq<int>, destroyed: seq<bool>)
    requires Found(g, external, popped, touched, whites)
    requires Collected(g, external, rc0, d0, whites, edges, refCount, destroyed)
    requires forall p :: 0 <= p < g.Size() && g.edges[p] != [] && !Rooted(g, external, p) ==> Reaches(g, popped, p)
    ensures forall o :: o in touched && !Rooted(g, external, o) ==> o < g.Size() && destroyed[o]
    ensures forall o :: o in whites ==> !Rooted(g, external, o)
  {
    WhiteIsAllGarbage(g, external, AsSet(touched));
  }

  /** A white map 0 that refers to itself and to the native root 1, an active coroutine, whose only reference that is. */
  function PinnedByWhite(): Graph { Graph([[0, 1], []], [true, true], [false, true]) }

  /** The container is white, the native root is not, and the container dooms it. */
  lemma PinnedIsDoomed(popped: set<Obj>, touched: seq<Obj>, whites: seq<Obj>)
    requires Found(PinnedByWhite(), [0, 0], popped, touched, whites) && popped == {0}
    ensures AsSet(whites) == {0} && Doomed(PinnedByWhite(), [0, 0], {0}, 0) && Doomed(PinnedByWhite(), [0, 0], {0}, 1)
  {
    TouchedPinned(popped, touched);
    WhitePinned();
    PinnedDooms();
  }

  lemma PinnedDooms()
    ensures Doomed(PinnedByWhite(), [0, 0], {0}, 0) && Doomed(PinnedByWhite(), [0, 0], {0}, 1)
  {
    var g := PinnedByWhite();
    forall s | DoomClosed(g, [0, 0], {0}, s) ensures 0 in s && 1 in s {
      assert 0 in {0};
      assert 1 in g.edges[0];
      assert OnlyReferredFrom(g, [0, 0], s, 1);
    }
  }

  lemma TouchedPinned(popped: set<Obj>, touched: seq<Obj>)
    requires popped == {0} && forall o :: o in touched <==> Reaches(PinnedByWhite(), popped, o)
    requires forall o :: o in touched ==> o < 2
    ensures AsSet(touched) == {0, 1}
  {
    var g := PinnedByWhite();
    ReachesSelf(g, popped, 0);
    assert g.Step(0, 1);
    ReachesStep(g, popped, 0, 1);
  }

  lemma WhitePinned()
    ensures WhiteSet(PinnedByWhite(), [0, 0], {0, 1}) == {0}
  {
    var g := PinnedByWhite();
    var seeds := Seeds(g, [0, 0], {0, 1});
    assert Expanded(g, {0, 1}) == {0};
    assert !HeldFromOutside(g, [0, 0], {0}, 0) && HeldFromOutside(g, [0, 0], {0}, 1);
    assert seeds == {1};
    ReachesSelf(g, seeds, 1);
    if Reaches(g, seeds, 0) {
      assert Closed(g, {1});
      ReachesWithin(g, seeds, {1}, 0);
    }
  }

  lemma SuffixSet(s: seq<Obj>, i: nat)
    requires Distinct(s) && i < |s|
    ensures s[i] in s && s[i] in s[i..] && AsSet(s[i + 1..]) == AsSet(s[i..]) - {s[i]}
  {
    assert s[i..] == [s[i]] + s[i + 1..];
  }

  lemma PrefixSet(s: seq<Obj>, i: nat)
    requires Distinct(s) && i < |s|
    ensures s[i] in s && s[i] !in AsSet(s[..i]) && AsSet(s[..i + 1]) == AsSet(s[..i]) + {s[i]}
  {
    assert s[..i + 1] == s[..i] + [s[i]];
  }

  lemma SupportedDrop(edges: seq<seq<Obj>>, external: seq<nat>, keep: set<Obj>, p: Obj, owned: seq<Obj>)
    requires Supported(edges, external, keep) && p < |edges| && p !in keep && forall x :: x in owned ==> x in edges[p]
    ensures Supported(edges[p := owned], external, keep)
  {
    var edges' := edges[p := owned];
    forall r | r in keep && external[r] == 0 && !Unreferenced(edges', r) ensures exists q :: q in keep && q < |edges'| && r in edges'[q] {
      var q :| q in keep && q < |edges| && r in edges[q];
      assert edges'[q] == edges[q];
    }
  }

  lemma GraphDrop(g: Graph, p: Obj, owned: seq<Obj>)
    requires g.Valid() && p < g.Size() && |owned| <= |g.edges[p]| && owned == g.edges[p][|g.edges[p]| - |owned|..]
    ensures g.(edges := g.edges[p := owned]).Valid()
  {
  }

  // ---------------------------------------------------------------- the virtual machine's container pool

  class CNeoVM {
    var edges: seq<seq<Obj>>
    var refCount: seq<int>
    var mayContain: seq<bool>
    var nativeRoot: seq<bool>
    var kind: seq<nat>
    var destroyed: seq<bool>
    var collecting: seq<bool>
    var color: seq<Color>
    var scratch: seq<int>
    var queues: Queues<Obj>
    var workList: seq<Obj>    // the three parts of the work list: touched,
    var blackList: seq<Obj>   // restored to black,
    var whiteList: seq<Obj>   // and left white
    var destroyQueue: seq<Obj>
    var isCollecting: bool
    ghost var external: seq<nat>
    ghost var before: Option<Before>  // while white objects are released: what there was when that began

    /** A pool of live containers. */
    constructor (g: Graph, counts: seq<int>, kinds: seq<nat>, candidates: Queues<Obj>, ghost outside: seq<nat>)
      requires g.Valid() && |counts| == |kinds| == |outside| == g.Size() && Balanced(g.edges, counts, outside, {})
      requires QueuesHold(candidates, kinds, g.mayContain, seq(g.Size(), o => false))
      requires ModulesAreRoots(kinds, g.nativeRoot)
      ensures Valid() && G() == g && external == outside && queues == candidates && kind == kinds
      ensures refCount == counts && destroyed == seq(g.Size(), o => false) && !isCollecting
    {
      edges, mayContain, nativeRoot := g.edges, g.mayContain, g.nativeRoot;
      refCount, kind, queues, external := counts, kinds, candidates, outside;
      destroyed, collecting := seq(g.Size(), o => false), seq(g.Size(), o => false);
      color, scratch := seq(g.Size(), o => Clear), seq(g.Size(), o => 0);
      workList, blackList, whiteList, destroyQueue, isCollecting := [], [], [], [], false;
      before := None;
    }

    ghost function G(): Graph
      reads this`edges, this`mayContain, this`nativeRoot
    {
      Graph(edges, mayContain, nativeRoot)
    }

    ghost predicate QueuesOk()
      reads this`queues, this`kind, this`mayContain, this`destroyed, this`edges
    {
      |kind| == |edges| && QueuesHold(queues, kind, mayContain, destroyed)
    }

    // ---- gray

    method MarkGray(o: Obj, ghost expanded: set<Obj>, ghost partial: seq<Obj>)
      requires Marking(G(), refCount, color, scratch, workList, expanded, partial)
      requires o < |edges| && mayContain[o]
      modifies this`color, this`scratch, this`workList
      ensures Marking(G(), refCount, color, scratch, workList, expanded, partial)
      ensures workList == if o in old(workList) then old(workList) else old(workList) + [o]
    {
      if color[o] != Clear { return; }
      MarkingTouch(G(), refCount, color, scratch, workList, expanded, partial, o);
      color := color[o := Gray];
      scratch := scratch[o := refCount[o]];
      workList := workList + [o];
    }

    /** Visits one slot: touches its target unless that is a leaf, and counts the reference off. */
    method VisitSlot(c: Obj, ghost expanded: set<Obj>, ghost partial: seq<Obj>)
      requires Marking(G(), refCount, color, scratch, workList, expanded, partial) && c < |edges|
      modifies this`color, this`scratch, this`workList
      ensures Marking(G(), refCount, color, scratch, workList, expanded, partial + [c])
      ensures workList == if !mayContain[c] || c in old(workList) then old(workList) else old(workList) + [c]
    {
      if mayContain[c] {
        MarkGray(c, expanded, partial);
        MarkingVisit(G(), refCount, color, scratch, workList, expanded, partial, c);
        scratch := scratch[c := scratch[c] - 1];
      } else {
        MarkingSkip(G(), refCount, color, scratch, workList, expanded, partial, c);
      }
    }

    method VisitNext(source: Obj, i: nat, ghost expanded: set<Obj>, ghost popped: set<Obj>)
      requires source in workList && source !in expanded && source < |edges| && i < |edges[source]|
      requires Marking(G(), refCount, color, scratch, workList, expanded, edges[source][..i])
      requires G().Valid() && source < |nativeRoot| && !nativeRoot[source]
      requires AllReached(G(), popped, workList)
      modifies this`color, this`scratch, this`workList
      ensures Marking(G(), refCount, color, scratch, workList, expanded, edges[source][..i + 1])
      ensures old(workList) <= workList
      ensures AllReached(G(), popped, workList)
    {
      var c := edges[source][i];
      assert edges[source][..i + 1] == edges[source][..i] + [c];
      ReachesSlot(G(), popped, workList, source, c);
      VisitSlot(c, expanded, edges[source][..i]);
    }

    method VisitGray(source: Obj, ghost expanded: set<Obj>, ghost popped: set<Obj>)
      requires source in workList && source !in expanded
      requires Marking(G(), refCount, color, scratch, workList, expanded, [])
      requires !nativeRoot[source]
      requires AllReached(G(), popped, workList)
      modifies this`color, this`scratch, this`workList
      ensures Marking(G(), refCount, color, scratch, workList, expanded + {source}, [])
      ensures old(workList) <= workList
      ensures AllReached(G(), popped, workList)
    {
      for i := 0 to |edges[source]|
        invariant Marking(G(), refCount, color, scratch, workList, expanded, edges[source][..i])
        invariant old(workList) <= workList
        invariant AllReached(G(), popped, workList)
      {
        VisitNext(source, i, expanded, popped);
      }
      assert edges[source][..|edges[source]|] == edges[source];
      MarkingExpanded(G(), refCount, color, scratch, workList, expanded, source);
    }

    /** Closes the touched set under the references of every object that is not a native root. */
    method GrayPhase(ghost popped: set<Obj>)
      requires Marking(G(), refCount, color, scratch, workList, {}, [])
      requires AllReached(G(), popped, workList)
      modifies this`color, this`scratch, this`workList
      ensures Marking(G(), refCount, color, scratch, workList, Expanded(G(), AsSet(workList)), [])
      ensures old(workList) <= workList
      ensures AllReached(G(), popped, workList)
    {
      var cursor := 0;
      ghost var g := G();
      assert Expanded(g, AsSet(workList[..0])) == {};
      while cursor < |workList|
        invariant cursor <= |workList|
        invariant Marking(g, refCount, color, scratch, workList, Expanded(g, AsSet(workList[..cursor])), [])
        invariant old(workList) <= workList
        invariant AllReached(g, popped, workList)
        decreases |edges| - cursor
      {
        var source := workList[cursor];
        ghost var expanded := Expanded(g, AsSet(workList[..cursor]));
        DistinctBound(workList, |edges|);
        assert source in workList && source !in workList[..cursor];
        ghost var seen := workList[..cursor + 1];
        assert seen == workList[..cursor] + [source];
        assert Expanded(g, AsSet(seen)) == if nativeRoot[source] then expanded else expanded + {source};
        if !nativeRoot[source] { VisitGray(source, expanded, popped); }
        cursor := cursor + 1;
        assert workList[..cursor] == seen;
      }
      assert workList[..cursor] == workList;
    }

    // ---- black

    /** Blackens the touched objects that something outside the expanded set holds. */
    method SeedBlack(ghost seeds: set<Obj>)
      requires |scratch| == |nativeRoot| == |edges| && Distinct(workList)
      requires Blackening(G(), color, workList, [], [])
      requires forall o :: o in seeds <==> o in workList && (nativeRoot[o] || scratch[o] != 0)
      modifies this`color, this`blackList
      ensures Blackening(G(), color, workList, blackList, []) && AsSet(blackList) == seeds
    {
      blackList := [];
      for i := 0 to |workList|
        invariant Blackening(G(), color, workList, blackList, [])
        invariant forall o :: o in blackList <==> o in workList[..i] && o in seeds
      {
        var o := workList[i];
        assert o in workList && workList[..i + 1] == workList[..i] + [o];
        if nativeRoot[o] || scratch[o] != 0 {
          assert o !in workList[..i];
          BlackeningAdd(G(), color, workList, blackList, o);
          color := color[o := Black];
          blackList := blackList + [o];
        }
      }
      assert workList[..|workList|] == workList;
    }

    /** Blackens every gray target of `source`. */
    method VisitBlack(source: Obj, ghost seeds: set<Obj>)
      requires Blackening(G(), color, workList, blackList, [])
      requires source in blackList && !nativeRoot[source] && AllReached(G(), seeds, blackList)
      requires forall b :: G().Step(source, b) ==> b in workList
      requires forall o :: o in workList ==> mayContain[o]
      modifies this`color, this`blackList
      ensures old(blackList) <= blackList && Blackening(G(), color, workList, blackList, [])
      ensures AllReached(G(), seeds, blackList)
      ensures Followed(G(), source, blackList)
    {
      for i := 0 to |edges[source]|
        invariant old(blackList) <= blackList && Blackening(G(), color, workList, blackList, [])
        invariant AllReached(G(), seeds, blackList)
        invariant forall b :: b in edges[source][..i] && b in workList ==> b in blackList
      {
        var c := edges[source][i];
        assert edges[source][..i + 1] == edges[source][..i] + [c];
        if color[c] == Gray {
          BlackeningAdd(G(), color, workList, blackList, c);
          ReachesStep(G(), seeds, source, c);
          color := color[c := Black];
          blackList := blackList + [c];
        }
      }
    }

    /** Walks on from the seeds until no gray object is left behind a black one. */
    method BlackPhase(ghost seeds: set<Obj>)
      requires Blackening(G(), color, workList, blackList, []) && AsSet(blackList) == seeds
      requires forall a, b :: a in workList && G().Step(a, b) ==> b in workList
      requires forall o :: o in workList ==> mayContain[o]
      modifies this`color, this`blackList
      ensures Blackening(G(), color, workList, blackList, [])
      ensures forall o :: o in blackList <==> Reaches(G(), seeds, o)
    {
      ghost var g := G();
      forall o | o in blackList ensures Reaches(g, seeds, o) { ReachesSelf(g, seeds, o); }
      var cursor := 0;
      while cursor < |blackList|
        invariant cursor <= |blackList| && BlackWalk(g, color, workList, blackList, seeds, cursor)
        decreases |edges| - cursor
      {
        DistinctBound(blackList, |edges|);
        var source := blackList[cursor];
        ghost var before, black := color, blackList;
        assert source in blackList && blackList <= blackList;
        if !nativeRoot[source] { VisitBlack(source, seeds); }
        BlackWalkNext(g, before, color, workList, black, blackList, seeds, cursor, source);
        cursor := cursor + 1;
      }
      assert blackList[..|blackList|] == blackList;
      forall o ensures o in blackList <==> Reaches(g, seeds, o) { BlackIsReached(g, workList, blackList, seeds, o); }
    }

    /** Collects the touched objects that stayed gray as white. */
    method WhitePhase()
      requires Blackening(G(), color, workList, blackList, []) && Distinct(workList)
      modifies this`color, this`whiteList
      ensures Blackening(G(), color, workList, blackList, whiteList)
      ensures forall o :: o in whiteList <==> o in workList && o !in blackList
    {
      whiteList := [];
      for i := 0 to |workList|
        invariant Blackening(G(), color, workList, blackList, whiteList)
        invariant forall o :: o in whiteList <==> o in workList[..i] && o !in blackList
      {
        var o := workList[i];
        assert o in workList && workList[..i + 1] == workList[..i] + [o];
        if color[o] == Gray {
          WhiteningAdd(G(), color, workList, blackList, whiteList, o);
          color := color[o := White];
          whiteList := whiteList + [o];
        }
      }
      assert workList[..|workList|] == workList;
    }

    // ---- releasing

    ghost predicate Shape()
      reads this`refCount, this`mayContain, this`nativeRoot, this`kind, this`destroyed, this`collecting, this`color
      reads this`scratch, this`external, this`edges
    {
      && |refCount| == |mayContain| == |nativeRoot| == |kind| == |destroyed| == |collecting| == |color| == |scratch|
         == |external| == |edges|
      && G().Valid() && ModulesAreRoots(kind, nativeRoot)
    }

    /** References are being released: `held` are the collector's holds, `freeing` the object being torn
        down, `idle` the objects that may rest at a zero count, and `keep` a supported set that is intact. */
    ghost predicate Releasing(held: set<Obj>, freeing: set<Obj>, idle: set<Obj>, keep: set<Obj>)
      reads this`refCount, this`mayContain, this`nativeRoot, this`kind, this`destroyed, this`collecting, this`color
      reads this`scratch, this`external, this`edges
      reads this`queues, this`destroyQueue, this`before
    {
      && Shape() && QueuesOk()
      && Balanced(edges, refCount, external, held)
      && (forall o :: 0 <= o < |edges| ==> (collecting[o] <==> o in held))
      && (forall o :: 0 <= o < |edges| && destroyed[o] ==> refCount[o] == 0 && (o in freeing || edges[o] == []))
      && Distinct(destroyQueue)
      && (forall o :: o in destroyQueue ==> o < |edges| && !destroyed[o] && refCount[o] == 0)
      && (forall o :: 0 <= o < |edges| && !destroyed[o] && refCount[o] == 0 ==> o in idle || o in destroyQueue)
      && Supported(edges, external, keep)
      && (forall r :: r in keep ==> r !in held && r !in destroyQueue && !destroyed[r])
      && Requeued(before, queues, kind, mayContain, destroyed, refCount, held, idle)
    }

    /** `c` has fewer references than it began with. */
    ghost predicate Lowered(c: Obj, held: set<Obj>)
      reads this`before, this`refCount
    {
      before.Some? ==> c < |refCount| && c < |before.value.refCount| && refCount[c] < before.value.refCount[c] + Hold(held, c)
    }

    /** Gives up the first reference `p` owns and lowers its target's count. */
    method TakeSlot(p: Obj, ghost held: set<Obj>, ghost freeing: set<Obj>, ghost idle: set<Obj>, ghost keep: set<Obj>) returns (c: Obj)
      requires p < |edges| && edges[p] != []
      requires Releasing(held, freeing, idle, keep) && p !in keep
      modifies this`edges, this`refCount
      ensures c == old(edges)[p][0] && c < |edges|
      ensures Releasing(held, freeing, idle + {c}, keep)
      ensures edges == old(edges)[p := old(edges)[p][1..]]
      ensures !destroyed[c] && c !in destroyQueue && refCount[c] >= if c in held then 1 else 0
      ensures c in keep ==> refCount[c] > 0
      ensures Lowered(c, held)
    {
      c := edges[p][0];
      ghost var owned := edges;
      BalancedDrop(edges, refCount, external, held, p);
      SupportedDrop(edges, external, keep, p, edges[p][1..]);
      GraphDrop(G(), p, edges[p][1..]);
      RequeuedTaken(before, queues, kind, mayContain, destroyed, refCount, held, idle, c);
      edges := edges[p := edges[p][1..]];
      refCount := refCount[c := refCount[c] - 1];
      if c in keep { SupportedCounts(owned, edges, refCount, external, held, keep, p, c); }
    }

    /** A target left without references is queued for destruction; one that may be part of a cycle
        becomes a candidate. */
    method Settle(c: Obj, ghost held: set<Obj>, ghost freeing: set<Obj>, ghost idle: set<Obj>, ghost keep: set<Obj>)
      requires c < |edges| && Releasing(held, freeing, idle + {c}, keep)
      requires !destroyed[c] && c !in destroyQueue && refCount[c] >= 0 && (c in keep ==> refCount[c] > 0) && Lowered(c, held)
      modifies this`queues, this`destroyQueue
      ensures Releasing(held, freeing, idle, keep)
      ensures old(destroyQueue) <= destroyQueue
    {
      RequeuedSettled(before, queues, kind, mayContain, destroyed, refCount, held, idle, c);
      if refCount[c] <= 0 {
        destroyQueue := destroyQueue + [c];
      } else if mayContain[c] && kind[c] != MODULE {
        AppendHolds(queues, kind, mayContain, destroyed, c);
        queues := queues.Append(kind[c], c);
      }
    }

    /** Marks `o` as destroyed and takes it out of the candidate queues. */
    method MarkDestroyed(o: Obj, ghost held: set<Obj>, ghost idle: set<Obj>, ghost keep: set<Obj>)
      requires o < |edges| && Releasing(held, {}, idle + {o}, keep)
      requires !destroyed[o] && o !in destroyQueue && refCount[o] == 0 && o !in keep
      modifies this`queues, this`destroyed
      ensures Releasing(held, {o}, idle, keep)
      ensures destroyed == old(destroyed)[o := true]
      ensures o !in held
    {
      RemoveHolds(queues, kind, mayContain, destroyed, o);
      RequeuedDestroyed(before, queues, kind, mayContain, destroyed, refCount, held, idle, o);
      queues := queues.Remove(kind[o], o);
      destroyed := destroyed[o := true];
    }

    /** Destroys one object: leaves the queues, gives up every reference it owns. */
    method FreeObject(o: Obj, ghost held: set<Obj>, ghost idle: set<Obj>, ghost keep: set<Obj>)
      requires o < |edges| && Releasing(held, {}, idle + {o}, keep)
      requires !destroyed[o] && o !in destroyQueue && refCount[o] == 0 && o !in keep
      modifies this`queues, this`destroyed, this`edges, this`refCount, this`destroyQueue
      ensures Releasing(held, {}, idle, keep)
      ensures destroyed == old(destroyed)[o := true] && edges == old(edges)[o := []]
      ensures old(destroyQueue) <= destroyQueue
      ensures o !in held
    {
      MarkDestroyed(o, held, idle, keep);
      ReleaseAll(o, held, idle, keep);
    }

    /** Gives up every reference `o` owns. */
    method ReleaseAll(o: Obj, ghost held: set<Obj>, ghost idle: set<Obj>, ghost keep: set<Obj>)
      requires o < |edges| && Releasing(held, {o}, idle, keep) && o !in keep
      modifies this`queues, this`edges, this`refCount, this`destroyQueue
      ensures Releasing(held, {}, idle, keep)
      ensures edges == old(edges)[o := []] && old(destroyQueue) <= destroyQueue
    {
      while edges[o] != []
        invariant o < |edges| && edges == old(edges)[o := edges[o]]
        invariant Releasing(held, {o}, idle, keep) && old(destroyQueue) <= destroyQueue
        decreases |edges[o]|
      {
        ReleaseSlot(o, held, idle, keep);
      }
    }

    method ReleaseSlot(o: Obj, ghost held: set<Obj>, ghost idle: set<Obj>, ghost keep: set<Obj>)
      requires o < |edges| && edges[o] != [] && Releasing(held, {o}, idle, keep) && o !in keep
      modifies this`queues, this`edges, this`refCount, this`destroyQueue
      ensures Releasing(held, {o}, idle, keep)
      ensures edges == old(edges)[o := old(edges)[o][1..]] && old(destroyQueue) <= destroyQueue
    {
      var c := TakeSlot(o, held, {o}, idle, keep);
      Settle(c, held, {o}, idle, keep);
    }

    method PopLast(ghost held: set<Obj>, ghost idle: set<Obj>, ghost keep: set<Obj>) returns (o: Obj)
      requires Releasing(held, {}, idle, keep) && destroyQueue != []
      modifies this`destroyQueue
      ensures old(destroyQueue) == destroyQueue + [o]
      ensures o < |edges| && Releasing(held, {}, idle + {o}, keep)
      ensures !destroyed[o] && o !in destroyQueue && refCount[o] == 0 && o !in keep
    {
      o := destroyQueue[|destroyQueue| - 1];
      assert o in destroyQueue;
      destroyQueue := destroyQueue[..|destroyQueue| - 1];
      assert forall x :: x in destroyQueue ==> x in old(destroyQueue);
      assert forall x :: x in old(destroyQueue) ==> x in destroyQueue || x == o;
    }

    method DestroyLast(ghost held: set<Obj>, ghost idle: set<Obj>, ghost keep: set<Obj>)
      requires Releasing(held, {}, idle, keep) && destroyQueue != []
      modifies this`queues, this`destroyed, this`edges, this`refCount, this`destroyQueue
      ensures Releasing(held, {}, idle, keep)
      ensures var o := old(destroyQueue)[|old(destroyQueue)| - 1];
        && o !in held && o !in keep && o < |old(destroyed)| && !old(destroyed)[o]
        && destroyed == old(destroyed)[o := true] && edges == old(edges)[o := []]
        && old(destroyQueue)[..|old(destroyQueue)| - 1] <= destroyQueue
    {
      var o := PopLast(held, idle, keep);
      FreeObject(o, held, idle, keep);
    }

    /** Empties the destruction queue, last in first out; destroying one object may queue others. */
    method Drain(ghost held: set<Obj>, ghost idle: set<Obj>, ghost keep: set<Obj>)
      requires Releasing(held, {}, idle, keep)
      modifies this`queues, this`destroyed, this`edges, this`refCount, this`destroyQueue
      ensures Releasing(held, {}, idle, keep) && destroyQueue == []
      ensures Freed(old(edges), old(destroyed), edges, destroyed)
      ensures Live(destroyed) <= Live(old(destroyed))
      ensures forall o :: o in old(destroyQueue) ==> o < |edges| && destroyed[o]
      ensures Untouched(old(destroyed), destroyed, held + keep)
    {
      ghost var e0, d0, q0 := edges, destroyed, destroyQueue;
      while destroyQueue != []
        invariant Releasing(held, {}, idle, keep)
        invariant Draining(e0, d0, q0, edges, destroyed, destroyQueue, held + keep)
        decreases Live(destroyed)
      {
        ghost var e, d, q := edges, destroyed, destroyQueue;
        DestroyLast(held, idle, keep);
        DrainStep(e0, d0, q0, e, d, q, held + keep, destroyQueue);
      }
    }

    // ---- cutting the edges of white objects

    /** Gives up the first reference of the white object `w`: a white target is only counted down, any
        other target is released and what that destroys is destroyed at once. */
    method CutSlot(w: Obj, ghost held: set<Obj>, ghost idle: set<Obj>, ghost keep: set<Obj>)
      requires w < |edges| && edges[w] != [] && w in held
      requires Releasing(held, {}, idle, keep) && destroyQueue == []
      modifies this`queues, this`destroyed, this`edges, this`refCount, this`destroyQueue
      ensures Releasing(held, {}, idle, keep) && destroyQueue == []
      ensures w < |edges| && edges[w] == old(edges)[w][1..] && destroyed[w] == old(destroyed)[w]
      ensures Freed(old(edges)[w := old(edges)[w][1..]], old(destroyed), edges, destroyed)
      ensures Untouched(old(destroyed), destroyed, held + keep)
      ensures Live(destroyed) <= Live(old(destroyed))
    {
      assert refCount[w] >= 1;
      var white := collecting[edges[w][0]];
      var c := TakeSlot(w, held, {}, idle, keep);
      if !white {
        SettleNow(c, held, idle, keep);
      }
    }

    /** Releases a target and destroys what that leaves without references. */
    method SettleNow(c: Obj, ghost held: set<Obj>, ghost idle: set<Obj>, ghost keep: set<Obj>)
      requires c < |edges| && Releasing(held, {}, idle + {c}, keep) && destroyQueue == []
      requires !destroyed[c] && refCount[c] >= 0 && (c in keep ==> refCount[c] > 0) && Lowered(c, held)
      modifies this`queues, this`destroyed, this`edges, this`refCount, this`destroyQueue
      ensures Releasing(held, {}, idle, keep) && destroyQueue == []
      ensures Freed(old(edges), old(destroyed), edges, destroyed)
      ensures Live(destroyed) <= Live(old(destroyed))
      ensures Untouched(old(destroyed), destroyed, held + keep)
    {
      Settle(c, held, {}, idle, keep);
      Drain(held, idle, keep);
    }

    method CutObject(w: Obj, ghost held: set<Obj>, ghost idle: set<Obj>, ghost keep: set<Obj>)
      requires w < |edges| && w in held
      requires Releasing(held, {}, idle, keep) && destroyQueue == []
      modifies this`queues, this`destroyed, this`edges, this`refCount, this`destroyQueue
      ensures Releasing(held, {}, idle, keep) && destroyQueue == []
      ensures w < |edges| && edges[w] == []
      ensures Freed(old(edges)[w := []], old(destroyed), edges, destroyed)
      ensures Untouched(old(destroyed), destroyed, held + keep)
      ensures Live(destroyed) <= Live(old(destroyed))
    {
      while edges[w] != []
        invariant w < |edges|
        invariant Releasing(held, {}, idle, keep) && destroyQueue == []
        invariant Freed(old(edges)[w := edges[w]], old(destroyed), edges, destroyed)
        invariant Untouched(old(destroyed), destroyed, held + keep)
        invariant Live(destroyed) <= Live(old(destroyed))
        decreases |edges[w]|
      {
        ghost var e, d := edges, destroyed;
        CutSlot(w, held, idle, keep);
        CutSlotStep(old(edges), old(destroyed), e, d, edges, destroyed, w);
      }
    }

    /** Cuts every reference owned by a white object while all of them are held. */
    method CutEdges(whites: seq<Obj>, ghost idle: set<Obj>, ghost keep: set<Obj>)
      requires Distinct(whites) && forall w :: w in whites ==> w < |edges|
      requires Releasing(AsSet(whites), {}, idle, keep) && destroyQueue == []
      modifies this`queues, this`destroyed, this`edges, this`refCount, this`destroyQueue
      ensures Releasing(AsSet(whites), {}, idle, keep) && destroyQueue == []
      ensures forall w :: w in whites ==> w < |edges| && edges[w] == []
      ensures FreedOrCut(old(edges), old(destroyed), edges, destroyed, AsSet(whites))
      ensures Untouched(old(destroyed), destroyed, AsSet(whites) + keep)
      ensures Live(destroyed) <= Live(old(destroyed))
    {
      ghost var e0, d0, held := edges, destroyed, AsSet(whites);
      for i := 0 to |whites|
        invariant |edges| == |e0| && Releasing(held, {}, idle, keep) && destroyQueue == []
        invariant forall j :: 0 <= j < i ==> whites[j] < |edges| && edges[whites[j]] == []
        invariant FreedOrCut(e0, d0, edges, destroyed, held) && Untouched(d0, destroyed, held + keep)
        invariant Live(destroyed) <= Live(d0)
      {
        ghost var e, d := edges, destroyed;
        assert whites[i] in whites;
        assert forall j :: 0 <= j < |whites| ==> whites[j] in whites;
        CutObject(whites[i], held, idle, keep);
        CutStep(e0, d0, e, d, edges, destroyed, whites, keep, i);
      }
    }

    // ---- dropping the holds

    /** Drops the hold on a white object: its count is now zero, so it is destroyed, never re-queued. */
    method DropHold(w: Obj, ghost held: set<Obj>, ghost idle: set<Obj>, ghost keep: set<Obj>)
      requires Releasing(held, {}, idle, keep) && destroyQueue == []
      requires w < |edges| && w in held && edges[w] == [] && !destroyed[w]
      requires external[w] == 0 && TotalIncoming(edges, w) == 0
      modifies this`queues, this`destroyed, this`edges, this`refCount, this`destroyQueue, this`collecting
      ensures Releasing(held - {w}, {}, idle, keep) && destroyQueue == []
      ensures Freed(old(edges), old(destroyed), edges, destroyed) && destroyed[w]
      ensures Untouched(old(destroyed), destroyed, held - {w} + keep)
      ensures Live(destroyed) < Live(old(destroyed))
    {
      RequeuedUnheld(before, queues, kind, mayContain, destroyed, refCount, held, idle, w);
      collecting := collecting[w := false];
      refCount := refCount[w := refCount[w] - 1];
      if refCount[w] <= 0 {
        destroyQueue := [w];
        assert Releasing(held - {w}, {}, idle, keep);
        Drain(held - {w}, idle, keep);
        LiveLess(old(destroyed), destroyed, w);
      } else {
        assert false;
      }
    }

    /** Drops the holds; `rest` of the white objects are still held. */
    method DropHolds(whites: seq<Obj>, ghost idle: set<Obj>, ghost keep: set<Obj>)
      requires Releasing(AsSet(whites), {}, idle, keep) && destroyQueue == [] && Distinct(whites)
      requires forall j :: 0 <= j < |whites| ==> whites[j] < |edges| && edges[whites[j]] == [] && !destroyed[whites[j]]
      requires Isolated(edges, external, AsSet(whites))
      modifies this`queues, this`destroyed, this`edges, this`refCount, this`destroyQueue, this`collecting
      ensures Releasing({}, {}, idle, keep) && destroyQueue == []
      ensures Freed(old(edges), old(destroyed), edges, destroyed) && Untouched(old(destroyed), destroyed, keep)
      ensures forall j :: 0 <= j < |whites| ==> whites[j] < |destroyed| && destroyed[whites[j]]
      ensures Live(destroyed) + |whites| <= Live(old(destroyed))
    {
      ghost var e0, d0 := edges, destroyed;
      assert whites[0..] == whites;
      for i := 0 to |whites|
        invariant |edges| == |e0| && Releasing(AsSet(whites[i..]), {}, idle, keep) && destroyQueue == []
        invariant Dropping(e0, d0, edges, destroyed, whites, i, keep)
      {
        SuffixSet(whites, i);
        IsolatedWithoutEdges(e0, edges, destroyed, d0, external, whites, whites[i]);
        ghost var e, d := edges, destroyed;
        DropHold(whites[i], AsSet(whites[i..]), idle, keep);
        DropStep(e0, d0, e, d, edges, destroyed, whites, i, keep);
      }
      assert AsSet(whites[|whites|..]) == {};
    }

    method HoldOne(w: Obj, ghost held: set<Obj>, ghost idle: set<Obj>, ghost keep: set<Obj>)
      requires Releasing(held, {}, idle, keep) && destroyQueue == []
      requires w < |edges| && w !in held && w !in keep && !destroyed[w] && (before.Some? ==> w in before.value.whites)
      modifies this`queues, this`collecting, this`refCount
      ensures Releasing(held + {w}, {}, idle, keep)
    {
      RemoveHolds(queues, kind, mayContain, destroyed, w);
      RequeuedHeld(before, queues, kind, mayContain, destroyed, refCount, held, idle, w);
      queues := queues.Remove(kind[w], w);
      collecting := collecting[w := true];
      refCount := refCount[w := refCount[w] + 1];
    }

    /** Holds every white object: no longer a candidate, flagged, counted once more. */
    method HoldWhites(whites: seq<Obj>, ghost idle: set<Obj>, ghost keep: set<Obj>)
      requires Releasing({}, {}, idle, keep) && destroyQueue == [] && Distinct(whites)
      requires forall w :: w in whites ==> w < |edges| && !destroyed[w] && w !in keep
      requires before.Some? ==> AsSet(whites) <= before.value.whites
      modifies this`queues, this`collecting, this`refCount
      ensures Releasing(AsSet(whites), {}, idle, keep)
      ensures whites == [] ==> queues == old(queues)
    {
      assert AsSet(whites[..0]) == {};
      for i := 0 to |whites|
        invariant Releasing(AsSet(whites[..i]), {}, idle, keep)
        invariant i == 0 ==> queues == old(queues)
      {
        PrefixSet(whites, i);
        HoldOne(whites[i], AsSet(whites[..i]), idle, keep);
      }
      assert whites[..|whites|] == whites;
    }

    // ---- one collection

    ghost predicate Unmarked()
      reads this`color, this`scratch, this`edges
    {
      |color| == |scratch| == |edges| && forall o :: 0 <= o < |edges| ==> color[o] == Clear && scratch[o] == 0
    }

    /** Between collections: counts balance, destroyed objects own nothing, nothing is marked or held. */
    ghost predicate Valid()
      reads this`refCount, this`mayContain, this`nativeRoot, this`kind, this`destroyed, this`collecting, this`color
      reads this`scratch, this`external, this`edges
      reads this`queues, this`destroyQueue, this`before
    {
      Releasing({}, {}, All(|edges|), {}) && destroyQueue == [] && Unmarked() && before == None
    }

    /** The candidates lead to everything unreachable that owns references. */
    ghost predicate CandidatesSuffice()
      reads this`edges, this`mayContain, this`nativeRoot, this`external, this`queues
    {
      G().Valid() && |external| == |edges| && Covered(G(), external, queues)
    }

    /** Whatever is referred to is reached from a holder outside or a native root. */
    ghost predicate NothingUnreachable()
      reads this`edges, this`mayContain, this`nativeRoot, this`external, this`refCount
    {
      G().Valid() && |external| == |edges| == |refCount| && forall o :: 0 <= o < |edges| && refCount[o] > 0 ==> Rooted(G(), external, o)
    }

    lemma NothingDone()
      requires Valid()
      ensures Kept(G(), external, destroyed, edges, destroyed)
      ensures CandidatesSuffice() && Total(queues.queue) == 0 ==> NothingUnreachable()
    {
      KeptAtFirst(G(), external, refCount, destroyed);
      NoneLeft();
    }

    lemma NoneLeft()
      requires Valid()
      ensures CandidatesSuffice() && Total(queues.queue) == 0 ==> NothingUnreachable()
    {
      if CandidatesSuffice() && Total(queues.queue) == 0 { AllRooted(G(), external, refCount, queues); }
    }

    /** Pops the next candidate and touches it. */
    method PopOne()
      requires QueuesOk() && G().Valid() && |refCount| == |edges| && Gathered(refCount, mayContain, color, scratch, workList)
      requires Total(queues.queue) > 0
      requires forall o :: o in workList ==> o < |destroyed| && !destroyed[o]
      modifies this`queues, this`workList, this`color, this`scratch
      ensures QueuesOk() && Gathered(refCount, mayContain, color, scratch, workList) && workList != []
      ensures queues == old(queues).Pop().0 && Total(queues.queue) == Total(old(queues).queue) - 1
      ensures old(queues).Pop().1.Some? && AsSet(workList) == AsSet(old(workList)) + {old(queues).Pop().1.value.1}
      ensures forall o :: o in workList ==> o < |destroyed| && !destroyed[o]
    {
      PopHolds(queues, kind, mayContain, destroyed);
      var popped := queues.Pop();
      var o := popped.1.value.1;
      queues := popped.0;
      GatheredIsMarking(G(), refCount, color, scratch, workList);
      MarkGray(o, {}, []);
      GatheredIsMarking(G(), refCount, color, scratch, workList);
    }

    /** Candidates are being moved to the work list. */
    ghost predicate PoppingRoots(start: Queues<Obj>, n: nat)
      reads this`queues, this`kind, this`mayContain, this`destroyed, this`edges, this`nativeRoot
      reads this`refCount, this`color, this`scratch, this`workList
    {
      && QueuesOk() && G().Valid() && |refCount| == |edges|
      && Gathered(refCount, mayContain, color, scratch, workList)
      && Popping(start, queues, n)
      && (forall o :: o in workList ==> o < |destroyed| && !destroyed[o])
      && (workList == [] ==> n == 0)
      && AsSet(workList) == PoppedSet(start, n)
    }

    method PopNext(ghost start: Queues<Obj>, n: nat) returns (processed: nat)
      requires PoppingRoots(start, n) && Total(queues.queue) > 0
      modifies this`queues, this`workList, this`color, this`scratch
      ensures PoppingRoots(start, processed) && processed == n + 1
    {
      PoppingNext(start, queues, n);
      PopOne();
      processed := n + 1;
    }

    method ClearWorkList()
      requires QueuesOk() && G().Valid() && |refCount| == |edges| && Unmarked()
      modifies this`workList
      ensures PoppingRoots(queues, 0)
    {
      workList := [];
    }

    /** Moves up to `budget` candidates, in queue order, to the work list. */
    method PopRoots(budget: nat) returns (processed: nat)
      requires QueuesOk() && G().Valid() && |refCount| == |edges| && Unmarked()
      modifies this`queues, this`workList, this`color, this`scratch
      ensures PoppingRoots(old(queues), processed)
      ensures processed == budget || (processed < budget && Total(queues.queue) == 0)
    {
      ghost var start := queues;
      ClearWorkList();
      processed := PopAll(budget, start);
    }

    method PopAll(budget: nat, ghost start: Queues<Obj>) returns (processed: nat)
      requires PoppingRoots(start, 0)
      modifies this`queues, this`workList, this`color, this`scratch
      ensures PoppingRoots(start, processed)
      ensures processed == budget || (processed < budget && Total(queues.queue) == 0)
    {
      processed := 0;
      while Total(queues.queue) != 0 && processed < budget
        invariant PoppingRoots(start, processed) && processed <= budget
        decreases budget - processed
      {
        processed := PopNext(start, processed);
      }
    }

    /** Pops candidates and touches everything they reach. */
    method TouchPhase(budget: nat) returns (processed: nat, ghost popped: set<Obj>)
      requires Valid()
      modifies this`queues, this`workList, this`color, this`scratch
      ensures QueuesOk() && Popping(old(queues), queues, processed) && popped == PoppedSet(old(queues), processed)
      ensures processed == budget || (processed < budget && Total(queues.queue) == 0)
      ensures forall o :: o in popped ==> o < |destroyed| && !destroyed[o]
      ensures Marking(G(), refCount, color, scratch, workList, Expanded(G(), AsSet(workList)), [])
      ensures AllReached(G(), popped, workList) && popped <= AsSet(workList)
    {
      processed := PopRoots(budget);
      popped := AsSet(workList);
      GatheredIsMarking(G(), refCount, color, scratch, workList);
      forall o | o in workList ensures Reaches(G(), popped, o) { ReachesSelf(G(), popped, o); }
      GrayPhase(popped);
    }

    /** Splits the touched objects into those the seeds reach and the white rest. */
    method ColourPhase(ghost seeds: set<Obj>)
      requires |scratch| == |nativeRoot| == |edges| && Distinct(workList)
      requires Blackening(G(), color, workList, [], [])
      requires forall o :: o in seeds <==> o in workList && (nativeRoot[o] || scratch[o] != 0)
      requires forall a, b :: a in workList && G().Step(a, b) ==> b in workList
      requires forall o :: o in workList ==> mayContain[o]
      modifies this`color, this`blackList, this`whiteList
      ensures Distinct(whiteList) && forall o :: o in whiteList <==> o in workList && !Reaches(G(), seeds, o)
      ensures |color| == |edges| && forall o :: 0 <= o < |edges| && o !in workList ==> color[o] == Clear
    {
      SeedBlack(seeds);
      BlackPhase(seeds);
      WhitePhase();
    }

    /** The marking half of a collection: which objects the popped candidates reach, and which of those are white. */
    method FindWhite(budget: nat) returns (processed: nat, ghost popped: set<Obj>)
      requires Valid()
      modifies this`queues, this`workList, this`blackList, this`whiteList, this`color, this`scratch
      ensures QueuesOk() && Popping(old(queues), queues, processed) && popped == PoppedSet(old(queues), processed)
      ensures processed == if budget < Total(old(queues).queue) then budget else Total(old(queues).queue)
      ensures forall o :: o in popped ==> o < |destroyed| && !destroyed[o]
      ensures Found(G(), external, popped, workList, whiteList)
      ensures Marks(G(), color, scratch, workList)
    {
      processed, popped := TouchPhase(budget);
      ghost var seeds := Seeds(G(), external, AsSet(workList));
      TouchedExactly(G(), refCount, external, color, scratch, workList, popped);
      ColourPhase(seeds);
      FoundIs(G(), external, popped, workList, whiteList, seeds);
    }

    /** Removes the temporary colours and counts before anything can be destroyed. */
    method ClearMarks()
      requires Marks(G(), color, scratch, workList) && forall o :: o in workList ==> o < |edges|
      modifies this`color, this`scratch
      ensures Unmarked()
    {
      assert forall j :: 0 <= j < |workList| ==> workList[j] in workList;
      for i := 0 to |workList|
        invariant Marks(G(), color, scratch, workList)
        invariant forall j :: 0 <= j < |workList| ==> workList[j] < |edges|
        invariant forall j :: 0 <= j < i ==> color[workList[j]] == Clear && scratch[workList[j]] == 0
      {
        color := color[workList[i] := Clear];
        scratch := scratch[workList[i] := 0];
      }
    }

    /** The releasing half: cuts the white objects' references while they are held, then drops the holds. */
    method ReleaseWhite(whites: seq<Obj>, ghost idle: set<Obj>, ghost keep: set<Obj>)
      requires Releasing(AsSet(whites), {}, idle, keep) && destroyQueue == [] && Distinct(whites)
      requires forall w :: w in whites ==> w < |edges| && !destroyed[w]
      requires Isolated(edges, external, AsSet(whites))
      modifies this`queues, this`destroyed, this`edges, this`refCount, this`destroyQueue, this`collecting
      ensures Releasing({}, {}, idle, keep) && destroyQueue == []
      ensures Released(old(edges), old(destroyed), edges, destroyed, whites)
      ensures Untouched(old(destroyed), destroyed, keep)
      ensures Live(destroyed) + |whites| <= Live(old(destroyed))
    {
      ghost var e0, d0 := edges, destroyed;
      CutEdges(whites, idle, keep);
      IsolatedKept(e0, d0, edges, destroyed, external, AsSet(whites));
      ghost var e1, d1 := edges, destroyed;
      forall j | 0 <= j < |whites|
        ensures whites[j] < |edges| && edges[whites[j]] == [] && !destroyed[whites[j]]
      {
        assert whites[j] in whites && whites[j] in AsSet(whites);
      }
      DropHolds(whites, idle, keep);
      ReleasedIs(e0, d0, e1, d1, edges, destroyed, whites);
    }

    /** Nothing is being released, or nothing has been yet. */
    ghost predicate BeforeOk()
      reads this`before, this`refCount, this`queues, this`whiteList
    {
      before == None || before == Some(Before(refCount, queues, AsSet(whiteList)))
    }

    /** The marking half is done, nothing has been released yet. */
    ghost predicate Coloured(popped: set<Obj>)
      reads this
    {
      && Releasing({}, {}, All(|edges|), {}) && destroyQueue == [] && BeforeOk()
      && (forall o :: o in popped ==> o < |edges| && !destroyed[o])
      && Found(G(), external, popped, workList, whiteList)
      && Marks(G(), color, scratch, workList)
    }

    lemma ReadyToHold(popped: set<Obj>, idle: set<Obj>, keep: set<Obj>)
      requires Coloured(popped) && idle == Idle(refCount, destroyed) && keep == Spared(G(), external, destroyed, AsSet(whiteList))
      ensures Releasing({}, {}, idle, keep)
      ensures forall w :: w in whiteList ==> w < |edges| && !destroyed[w] && w !in keep && w !in OwnedSet(G(), external)
      ensures Isolated(edges, external, AsSet(whiteList))
    {
      SparedSupported(G(), external, destroyed, AsSet(whiteList));
      WhitesAreReleasable(G(), refCount, external, destroyed, popped, workList, whiteList);
    }

    /** Holds the white objects, then removes the marks. */
    method HoldPhase(ghost idle: set<Obj>, ghost keep: set<Obj>)
      requires Releasing({}, {}, idle, keep) && destroyQueue == [] && Distinct(whiteList)
      requires before.Some? ==> AsSet(whiteList) <= before.value.whites
      requires forall w :: w in whiteList ==> w < |edges| && !destroyed[w] && w !in keep
      requires Marks(G(), color, scratch, workList) && forall o :: o in workList ==> o < |edges|
      modifies this`queues, this`collecting, this`refCount, this`color, this`scratch
      ensures Releasing(AsSet(whiteList), {}, idle, keep) && Unmarked()
      ensures whiteList == [] ==> queues == old(queues)
    {
      HoldWhites(whiteList, idle, keep);
      ClearMarks();
    }

    /** Frees the white objects of a finished marking half. */
    method ReleasePhase(ghost popped: set<Obj>)
      requires Coloured(popped) && before == None
      modifies this`queues, this`color, this`scratch, this`before,
               this`destroyed, this`edges, this`refCount, this`destroyQueue, this`collecting
      ensures Valid()
      ensures Collected(old(G()), external, old(refCount), old(destroyed), whiteList, edges, refCount, destroyed)
      ensures Requeued(Some(Before(old(refCount), old(queues), AsSet(whiteList))), queues, kind, mayContain, destroyed, refCount, {}, {})
      ensures if whiteList == [] then queues == old(queues) else Live(destroyed) < Live(old(destroyed))
    {
      ghost var g, rc0, d0 := G(), refCount, destroyed;
      ghost var keep, idle := Spared(g, external, destroyed, AsSet(whiteList)), Idle(refCount, destroyed);
      before := Some(Before(refCount, queues, AsSet(whiteList)));
      HoldAndRelease(popped, idle, keep);
      ReleaseConcludes(g, rc0, d0, idle, keep);
      EndRelease(idle, keep);
    }

    lemma ReleaseConcludes(g: Graph, rc0: seq<int>, d0: seq<bool>, idle: set<Obj>, keep: set<Obj>)
      requires Releasing({}, {}, idle, keep) && destroyQueue == []
      requires g.Valid() && |external| == |rc0| == |d0| == g.Size() && idle == Idle(rc0, d0) && keep == Spared(g, external, d0, AsSet(whiteList))
      requires forall o :: 0 <= o < g.Size() && d0[o] ==> g.edges[o] == [] && rc0[o] == 0
      requires forall w :: w in whiteList ==> w < g.Size() && !d0[w] && w !in OwnedSet(g, external)
      requires Released(g.edges, d0, edges, destroyed, whiteList) && Untouched(d0, destroyed, keep)
      requires Balanced(g.edges, rc0, external, {}) && (whiteList == [] ==> destroyed == d0)
      ensures Collected(g, external, rc0, d0, whiteList, edges, refCount, destroyed)
    {
      CollectedIs(g, external, rc0, d0, whiteList, edges, refCount, destroyed, idle);
    }

    method EndRelease(ghost idle: set<Obj>, ghost keep: set<Obj>)
      requires Releasing({}, {}, idle, keep) && destroyQueue == [] && Unmarked()
      requires before.Some? ==> forall o :: o in idle && o < |refCount| ==> o < |before.value.refCount| && before.value.refCount[o] == 0
      modifies this`before
      ensures Valid() && Requeued(old(before), queues, kind, mayContain, destroyed, refCount, {}, {})
    {
      NoneIdle(before, queues, kind, mayContain, destroyed, refCount, idle);
      before := None;
    }

    method HoldAndRelease(ghost popped: set<Obj>, ghost idle: set<Obj>, ghost keep: set<Obj>)
      requires Coloured(popped) && idle == Idle(refCount, destroyed) && keep == Spared(G(), external, destroyed, AsSet(whiteList))
      modifies this`queues, this`color, this`scratch,
               this`destroyed, this`edges, this`refCount, this`destroyQueue, this`collecting
      ensures Releasing({}, {}, idle, keep) && destroyQueue == [] && Unmarked()
      ensures forall w :: w in whiteList ==> w < |old(edges)| && !old(destroyed)[w] && w !in old(OwnedSet(G(), external))
      ensures Released(old(edges), old(destroyed), edges, destroyed, whiteList) && Untouched(old(destroyed), destroyed, keep)
      ensures if whiteList == [] then queues == old(queues) && destroyed == old(destroyed) else Live(destroyed) < Live(old(destroyed))
    {
      ReadyToHold(popped, idle, keep);
      HoldPhase(idle, keep);
      ReleaseHeld(idle, keep);
    }

    /** With no white object there is nothing to release. */
    method ReleaseHeld(ghost idle: set<Obj>, ghost keep: set<Obj>)
      requires Releasing(AsSet(whiteList), {}, idle, keep) && destroyQueue == [] && Unmarked() && Distinct(whiteList)
      requires (forall w :: w in whiteList ==> w < |edges| && !destroyed[w]) && Isolated(edges, external, AsSet(whiteList))
      modifies this`queues, this`destroyed, this`edges, this`refCount, this`destroyQueue, this`collecting
      ensures Releasing({}, {}, idle, keep) && destroyQueue == [] && Unmarked()
      ensures Released(old(edges), old(destroyed), edges, destroyed, whiteList) && Untouched(old(destroyed), destroyed, keep)
      ensures if whiteList == [] then queues == old(queues) && destroyed == old(destroyed) else Live(destroyed) < Live(old(destroyed))
    {
      if whiteList != [] { ReleaseWhite(whiteList, idle, keep); }
      assert AsSet([]) == {};
    }

    lemma SufficesAgain(g: Graph, q0: Queues<Obj>, n: nat, rc0: seq<int>, d0: seq<bool>)
      requires Valid() && G() == g.(edges := edges) && q0.Valid() && Found(g, external, PoppedSet(q0, n), workList, whiteList)
      requires Collected(g, external, rc0, d0, whiteList, edges, refCount, destroyed)
      requires Balanced(g.edges, rc0, external, {}) && forall o :: 0 <= o < g.Size() && d0[o] ==> g.edges[o] == []
      requires forall o :: o in QueuedSet(PopTimes(q0, n)) ==> Waits(PopTimes(q0, n), kind, o)
      requires Requeued(Some(Before(rc0, PopTimes(q0, n), AsSet(whiteList))), queues, kind, mayContain, destroyed, refCount, {}, {})
      ensures Covered(g, external, q0) ==> CandidatesSuffice()
    {
      CoversAgain(g, external, q0, n, workList, rc0, d0, whiteList, edges, refCount, destroyed, kind, queues);
    }

    /** One collection over up to `budget` candidates. */
    method CollectUnreachableCycleCandidates(budget: nat) returns (processed: nat, ghost popped: set<Obj>)
      requires Valid()
      modifies this`queues, this`before, this`workList, this`blackList, this`whiteList, this`color, this`scratch,
               this`destroyed, this`edges, this`refCount, this`destroyQueue, this`collecting
      ensures Valid()
      ensures processed == if budget < Total(old(queues).queue) then budget else Total(old(queues).queue)
      ensures old(queues).Valid() && popped == PoppedSet(old(queues), processed)
      ensures Found(old(G()), external, popped, workList, whiteList)
      ensures Collected(old(G()), external, old(refCount), old(destroyed), whiteList, edges, refCount, destroyed)
      ensures Requeued(Some(Before(old(refCount), PopTimes(old(queues), processed), AsSet(whiteList))), queues, kind, mayContain, destroyed,
                       refCount, {}, {})
      ensures LoweredWait(old(refCount), queues, kind, mayContain, destroyed, refCount)
      ensures old(CandidatesSuffice()) ==> CandidatesSuffice()
      ensures if whiteList == [] then Popping(old(queues), queues, processed) else Live(destroyed) < Live(old(destroyed))
    {
      ghost var g, rc0, d0, q0 := G(), refCount, destroyed, queues;
      processed, popped := FindWhite(budget);
      ReleaseFound(popped, g, rc0, d0, q0, processed);
    }

    /** Frees the white objects; the candidates that are left suffice again. */
    method ReleaseFound(ghost popped: set<Obj>, ghost g: Graph, ghost rc0: seq<int>, ghost d0: seq<bool>, ghost q0: Queues<Obj>, ghost n: nat)
      requires Coloured(popped) && before == None && q0.Valid() && queues == PopTimes(q0, n) && popped == PoppedSet(q0, n)
      requires g == G() && rc0 == refCount && d0 == destroyed
      modifies this`queues, this`color, this`scratch, this`before,
               this`destroyed, this`edges, this`refCount, this`destroyQueue, this`collecting
      ensures Valid() && Found(g, external, popped, workList, whiteList)
      ensures Collected(g, external, rc0, d0, whiteList, edges, refCount, destroyed)
      ensures Requeued(Some(Before(rc0, PopTimes(q0, n), AsSet(whiteList))), queues, kind, mayContain, destroyed, refCount, {}, {})
      ensures if whiteList == [] then queues == old(queues) else Live(destroyed) < Live(d0)
      ensures LoweredWait(rc0, queues, kind, mayContain, destroyed, refCount)
      ensures Covered(g, external, q0) ==> CandidatesSuffice()
    {
      QueuedWaits(queues, kind, mayContain, destroyed);
      ReleasePhase(popped);
      SufficesAgain(g, q0, n, rc0, d0);
      RequeuedLowered(rc0, PopTimes(q0, n), AsSet(whiteList), queues, kind, mayContain, destroyed, refCount);
    }

    /** How many candidates one pass takes. */
    static function Budget(force: bool, total: nat): (budget: nat)
      ensures total > 0 ==> budget > 0
      ensures force ==> budget == total
      ensures !force ==> budget >= 16 && 50 * budget >= total && (budget == 16 || 50 * (budget - 1) < total)
    {
      if force then total else if (total + 49) / 50 < 16 then 16 else (total + 49) / 50
    }

    /** What an unforced collection takes: up to sixteen candidates, or a fiftieth of them, rounded up, if that is more. */
    static predicate ShareOf(processed: nat, total: nat) {
      processed == if total <= 16 then total else if total <= 800 then 16 else (total + 49) / 50
    }

    method CollectPass(force: bool, ghost g: Graph, ghost d0: seq<bool>) returns (processed: nat)
      requires Valid() && Total(queues.queue) > 0
      requires g == G().(edges := g.edges) && Kept(g, external, d0, edges, destroyed)
      modifies this`queues, this`before, this`workList, this`blackList, this`whiteList, this`color, this`scratch,
               this`destroyed, this`edges, this`refCount, this`destroyQueue, this`collecting
      ensures Valid() && Kept(g, external, d0, edges, destroyed)
      ensures 0 < processed <= Total(old(queues).queue)
      ensures if force then processed == Total(old(queues).queue) else ShareOf(processed, Total(old(queues).queue))
      ensures Live(destroyed) < Live(old(destroyed))
           || (destroyed == old(destroyed) && Total(queues.queue) + processed == Total(old(queues).queue))
      ensures old(CandidatesSuffice()) ==> CandidatesSuffice()
    {
      ghost var popped;
      ghost var e, rc, d := edges, refCount, destroyed;
      processed, popped := CollectUnreachableCycleCandidates(Budget(force, Total(queues.queue)));
      KeptAgain(g, external, d0, e, rc, d, whiteList, edges, refCount, destroyed);
    }

    /** Collects once, or, when forced, until no candidate is left: this ends although releasing white
        objects may queue new candidates, and it never touches what an outside reference leads to. */
    method CollectCycles(force: bool) returns (processedTotal: nat)
      requires Valid()
      modifies this`queues, this`before, this`workList, this`blackList, this`whiteList, this`color, this`scratch,
               this`destroyed, this`edges, this`refCount, this`destroyQueue, this`collecting, this`isCollecting
      ensures isCollecting == old(isCollecting)
      ensures old(isCollecting) || Total(old(queues).queue) == 0 ==>
        processedTotal == 0 && queues == old(queues) && edges == old(edges) && destroyed == old(destroyed)
      ensures Valid() && Kept(old(G()), external, old(destroyed), edges, destroyed)
      ensures force && !isCollecting ==> Total(queues.queue) == 0
      ensures force && !isCollecting ==> processedTotal >= Total(old(queues).queue)
      ensures !force && !isCollecting ==> ShareOf(processedTotal, Total(old(queues).queue))
      ensures old(CandidatesSuffice()) ==> CandidatesSuffice()
      ensures force && !isCollecting && old(CandidatesSuffice()) ==> NothingUnreachable()
    {
      processedTotal := 0;
      if isCollecting || Total(queues.queue) == 0 {
        NothingDone();
        return;
      }
      isCollecting := true;
      processedTotal := CollectNow(force);
      isCollecting := false;
    }

    method CollectNow(force: bool) returns (processedTotal: nat)
      requires Valid() && Total(queues.queue) > 0
      modifies this`queues, this`before, this`workList, this`blackList, this`whiteList, this`color, this`scratch,
               this`destroyed, this`edges, this`refCount, this`destroyQueue, this`collecting
      ensures Valid() && Kept(old(G()), external, old(destroyed), edges, destroyed)
      ensures force ==> Total(queues.queue) == 0 && processedTotal >= Total(old(queues).queue)
      ensures !force ==> ShareOf(processedTotal, Total(old(queues).queue))
      ensures old(CandidatesSuffice()) ==> CandidatesSuffice()
      ensures force && old(CandidatesSuffice()) ==> NothingUnreachable()
    {
      KeptAtFirst(G(), external, refCount, destroyed);
      processedTotal := CollectPasses(force, G(), destroyed);
      NoneLeft();
    }

    /** Pass after pass; each destroys an object or shortens the queues. */
    method CollectPasses(force: bool, ghost g: Graph, ghost d0: seq<bool>) returns (processedTotal: nat)
      requires Valid() && Total(queues.queue) > 0
      requires g == G().(edges := g.edges) && Kept(g, external, d0, edges, destroyed)
      modifies this`queues, this`before, this`workList, this`blackList, this`whiteList, this`color, this`scratch,
               this`destroyed, this`edges, this`refCount, this`destroyQueue, this`collecting
      ensures Valid() && Kept(g, external, d0, edges, destroyed)
      ensures force ==> Total(queues.queue) == 0 && processedTotal >= Total(old(queues).queue)
      ensures !force ==> ShareOf(processedTotal, Total(old(queues).queue))
      ensures old(CandidatesSuffice()) ==> CandidatesSuffice()
    {
      processedTotal := 0;
      var more := true;
      while more
        invariant Valid() && Kept(g, external, d0, edges, destroyed)
        invariant old(CandidatesSuffice()) ==> CandidatesSuffice()
        invariant more ==> Total(queues.queue) > 0
        invariant force && !more ==> Total(queues.queue) == 0
        invariant more && processedTotal == 0 ==> queues == old(queues)
        invariant !force ==> if more then processedTotal == 0 else ShareOf(processedTotal, Total(old(queues).queue))
        invariant force && (processedTotal > 0 || !more) ==> processedTotal >= Total(old(queues).queue)
        decreases Live(destroyed), Total(queues.queue), more
      {
        var processed := CollectPass(force, g, d0);
        processedTotal := processedTotal + processed;
        more := force && Total(queues.queue) != 0;
      }
    }
  }

  /** A run of the collector on that heap, with the container as the only candidate: the native root, although it
      is never coloured white, is destroyed. */
  method NativeRootMayBeDestroyed() returns (vm: CNeoVM)
    ensures fresh(vm) && vm.Valid() && vm.nativeRoot == [false, true] && vm.destroyed == [true, true]
    ensures vm.kind == [MAP, COROUTINE] && 1 !in vm.whiteList
  {
    vm := PinnedPool();
    var processed;
    ghost var popped;
    processed, popped := vm.CollectUnreachableCycleCandidates(1);
    PinnedEnds(popped, vm.workList, vm.whiteList, vm.edges, vm.refCount, vm.destroyed);
  }

  method PinnedPool() returns (vm: CNeoVM)
    ensures fresh(vm) && vm.Valid() && vm.G() == PinnedByWhite() && vm.external == [0, 0] && vm.refCount == [1, 1]
    ensures vm.destroyed == [false, false] && Total(vm.queues.queue) == 1 && vm.kind == [MAP, COROUTINE]
    ensures vm.queues.Valid() && PoppedSet(vm.queues, 1) == {0}
  {
    PinnedCounts();
    PinnedPops();
    ghost var outside: seq<nat> := [0, 0];
    assert Balanced(PinnedByWhite().edges, [1, 1], outside, {});
    vm := new CNeoVM(PinnedByWhite(), [1, 1], [MAP, COROUTINE], Queues([[0], [], [], [], [], [], []], 0), outside);
  }

  lemma PinnedEnds(popped: set<Obj>, touched: seq<Obj>, whites: seq<Obj>, edges: seq<seq<Obj>>, refCount: seq<int>, destroyed: seq<bool>)
    requires Found(PinnedByWhite(), [0, 0], popped, touched, whites) && popped == {0}
    requires Collected(PinnedByWhite(), [0, 0], [1, 1], [false, false], whites, edges, refCount, destroyed)
    ensures destroyed == [true, true] && 1 !in whites
  {
    PinnedIsDoomed(popped, touched, whites);
    DoomedAreDestroyed(PinnedByWhite(), [0, 0], [1, 1], [false, false], whites, edges, refCount, destroyed, {0}, 0);
    DoomedAreDestroyed(PinnedByWhite(), [0, 0], [1, 1], [false, false], whites, edges, refCount, destroyed, {0}, 1);
    assert |destroyed| == 2 && destroyed[0] && destroyed[1];
    assert 1 !in AsSet(whites);
  }

  lemma DoomedAreDestroyed(g: Graph, external: seq<nat>, refCount0: seq<int>, destroyed0: seq<bool>, whites: seq<Obj>,
                           edges: seq<seq<Obj>>, refCount: seq<int>, destroyed: seq<bool>, white: set<Obj>, o: Obj)
    requires Collected(g, external, refCount0, destroyed0, whites, edges, refCount, destroyed) && white == AsSet(whites)
    requires o < g.Size() && Doomed(g, external, white, o)
    ensures |destroyed| == g.Size() && destroyed[o]
  {
  }

  lemma PinnedCounts()
    ensures PinnedByWhite().Valid() && Balanced(PinnedByWhite().edges, [1, 1], [0, 0], {})
  {
    var e := PinnedByWhite().edges;
    forall o | 0 <= o < 2 ensures TotalIncoming(e, o) == 1 {
      assert Incoming(e, All(2), o, 1) == 1 && Incoming(e, All(2), o, 2) == 1;
    }
  }

  lemma PinnedPops()
    ensures var q: Queues<Obj> := Queues([[0], [], [], [], [], [], []], 0);
      && q.Valid() && Total(q.queue) == 1 && PoppedSet(q, 1) == {0}
      && QueuesHold(q, [MAP, COROUTINE], [true, true], seq(2, o => false))
  {
    var q: Queues<Obj> := Queues([[0], [], [], [], [], [], []], 0);
    assert forall k :: 1 <= k < 7 ==> q.queue[k] == [];
    TotalZero(q.queue[1..]);
    assert PopTimes(q, 0) == q && q.Skipped(0) == 0;
    assert PoppedSet(q, 0) == {};
  }
}
