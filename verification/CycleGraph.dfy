/** The reference graph of the containers: counting incoming references, reachability, and the
    whole-graph facts that the cycle collector rests on. Nothing here changes state. */
module CycleGraph {

  /** A container, named by its index in the pool of containers. */
  type Obj = nat

  /** `edges[o]` lists the container references that `o` owns, one entry per slot (so repeated entries are
      parallel references). A container whose `mayContain` flag is unset owns no reference. */
  datatype Graph = Graph(edges: seq<seq<Obj>>, mayContain: seq<bool>, nativeRoot: seq<bool>)
  {
    function Size(): nat { |edges| }

    predicate Valid() {
      && |mayContain| == |nativeRoot| == |edges|
      && (forall o, i :: 0 <= o < |edges| && 0 <= i < |edges[o]| ==> edges[o][i] < |edges|)
      && forall o :: 0 <= o < |edges| && edges[o] != [] ==> mayContain[o]
    }

    /** The collector walks from `a` to `b`: native roots are not expanded, leaf containers not visited. */
    predicate Step(a: Obj, b: Obj) {
      a < |edges| && |mayContain| == |nativeRoot| == |edges| && b < |edges|
      && !nativeRoot[a] && b in edges[a] && mayContain[b]
    }
  }

  // ---------------------------------------------------------------- counting references

  /** How many references to `o` the first `n` containers that lie in `from` own. */
  function Incoming(edges: seq<seq<Obj>>, from: set<Obj>, o: Obj, n: nat): nat
    requires n <= |edges|
  {
    if n == 0 then 0
    else Incoming(edges, from, o, n - 1) + (if n - 1 in from then multiset(edges[n - 1])[o] else 0)
  }

  function All(n: nat): (s: set<Obj>)
    ensures forall i :: i in s <==> 0 <= i < n
  {
    if n == 0 then {} else All(n - 1) + {n - 1}
  }

  /** References to `o` from anywhere. */
  function TotalIncoming(edges: seq<seq<Obj>>, o: Obj): nat { Incoming(edges, All(|edges|), o, |edges|) }

  lemma {:induction false} IncomingAdd(edges: seq<seq<Obj>>, from: set<Obj>, p: Obj, o: Obj, n: nat)
    requires n <= |edges| && p !in from
    ensures Incoming(edges, from + {p}, o, n) == Incoming(edges, from, o, n) + (if p < n then multiset(edges[p])[o] else 0)
  {
    if n > 0 { IncomingAdd(edges, from, p, o, n - 1); }
  }

  lemma {:induction false} IncomingSplit(edges: seq<seq<Obj>>, a: set<Obj>, b: set<Obj>, o: Obj, n: nat)
    requires n <= |edges| && a !! b
    ensures Incoming(edges, a + b, o, n) == Incoming(edges, a, o, n) + Incoming(edges, b, o, n)
  {
    if n > 0 { IncomingSplit(edges, a, b, o, n - 1); }
  }

  lemma {:induction false} IncomingUpdate(edges: seq<seq<Obj>>, p: Obj, owned: seq<Obj>, from: set<Obj>, o: Obj, n: nat)
    requires n <= |edges| && p < |edges|
    ensures Incoming(edges[p := owned], from, o, n) + (if p < n && p in from then multiset(edges[p])[o] else 0)
         == Incoming(edges, from, o, n) + (if p < n && p in from then multiset(owned)[o] else 0)
  {
    if n > 0 { IncomingUpdate(edges, p, owned, from, o, n - 1); }
  }

  lemma {:induction false} IncomingZero(edges: seq<seq<Obj>>, from: set<Obj>, o: Obj, n: nat)
    requires n <= |edges|
    ensures Incoming(edges, from, o, n) == 0 <==> forall p :: 0 <= p < n && p in from ==> o !in edges[p]
  {
    if n > 0 { IncomingZero(edges, from, o, n - 1); }
  }

  /** Dropping the first reference of `p` lowers the count of its target by one and no other count. */
  lemma DropFirst(edges: seq<seq<Obj>>, p: Obj, o: Obj)
    requires p < |edges| && edges[p] != []
    ensures TotalIncoming(edges[p := edges[p][1..]], o) == TotalIncoming(edges, o) - (if edges[p][0] == o then 1 else 0)
    ensures edges[p][0] == o ==> TotalIncoming(edges, o) >= 1
  {
    IncomingUpdate(edges, p, edges[p][1..], All(|edges|), o, |edges|);
    assert edges[p] == [edges[p][0]] + edges[p][1..];
    assert multiset(edges[p])[o] == multiset([edges[p][0]])[o] + multiset(edges[p][1..])[o];
  }

  // ---------------------------------------------------------------- reachability

  /** A walk along the edges the collector follows. */
  predicate Path(g: Graph, p: seq<Obj>) {
    |p| >= 1 && forall i, j :: 0 <= i && j == i + 1 < |p| ==> g.Step(p[i], p[j])
  }

  ghost predicate Reaches(g: Graph, from: set<Obj>, o: Obj) {
    exists p :: Path(g, p) && p[0] in from && p[|p| - 1] == o
  }

  lemma ReachesSelf(g: Graph, from: set<Obj>, o: Obj)
    requires o in from
    ensures Reaches(g, from, o)
  {
    assert Path(g, [o]);
  }

  lemma ReachesStep(g: Graph, from: set<Obj>, a: Obj, b: Obj)
    requires Reaches(g, from, a) && g.Step(a, b)
    ensures Reaches(g, from, b)
  {
    var p :| Path(g, p) && p[0] in from && p[|p| - 1] == a;
    var q := p + [b];
    assert Path(g, q) && q[0] in from && q[|q| - 1] == b;
  }

  ghost predicate Closed(g: Graph, s: set<Obj>) {
    forall a, b :: a in s && g.Step(a, b) ==> b in s
  }

  /** A set closed under the walk holds everything its members reach. */
  lemma ReachesWithin(g: Graph, from: set<Obj>, s: set<Obj>, o: Obj)
    requires from <= s && Closed(g, s) && Reaches(g, from, o)
    ensures o in s
  {
    var p :| Path(g, p) && p[0] in from && p[|p| - 1] == o;
    PathWithin(g, p, s, |p| - 1);
  }

  lemma {:induction false} PathWithin(g: Graph, p: seq<Obj>, s: set<Obj>, i: nat)
    requires Path(g, p) && p[0] in s && Closed(g, s) && i < |p|
    ensures p[i] in s
  {
    if i > 0 {
      PathWithin(g, p, s, i - 1);
      assert g.Step(p[i - 1], p[(i - 1) + 1]);
    }
  }

  // ---------------------------------------------------------------- what a collection may free

  /** Every count is the number of references from outside the containers plus those from containers. */
  predicate Counted(g: Graph, refCount: seq<int>, external: seq<nat>)
  {
    && |refCount| == |external| == g.Size()
    && forall o :: 0 <= o < g.Size() ==> refCount[o] == external[o] + TotalIncoming(g.edges, o)
  }

  /** Held by something the collector cannot see into: a reference from outside the containers, being a
      native root, or a reference from a container that was not expanded. */
  ghost predicate HeldFromOutside(g: Graph, external: seq<nat>, expanded: set<Obj>, o: Obj)
    requires g.Valid() && |external| == g.Size() && o < g.Size()
  {
    external[o] > 0 || g.nativeRoot[o] || exists p :: 0 <= p < g.Size() && p !in expanded && o in g.edges[p]
  }

  function Expanded(g: Graph, touched: set<Obj>): set<Obj>
    requires g.Valid()
  {
    set o | o in touched && o < g.Size() && !g.nativeRoot[o]
  }

  /** The scratch count left by the gray phase is zero exactly for objects not held from outside. */
  lemma ScratchMeaning(g: Graph, refCount: seq<int>, external: seq<nat>, touched: set<Obj>, o: Obj)
    requires g.Valid() && Counted(g, refCount, external) && o < g.Size()
    requires forall t :: t in touched ==> t < g.Size()
    ensures var e := Expanded(g, touched);
      var scratch := refCount[o] - Incoming(g.edges, e, o, g.Size());
      scratch >= 0 && ((g.nativeRoot[o] || scratch != 0) <==> HeldFromOutside(g, external, e, o))
  {
    var n := g.Size();
    var e := Expanded(g, touched);
    var rest := All(n) - e;
    assert e + rest == All(n);
    IncomingSplit(g.edges, e, rest, o, n);
    IncomingZero(g.edges, rest, o, n);
  }

  ghost function Seeds(g: Graph, external: seq<nat>, touched: set<Obj>): set<Obj>
    requires g.Valid() && |external| == g.Size()
  {
    set o | o in touched && o < g.Size() && HeldFromOutside(g, external, Expanded(g, touched), o)
  }

  /** The white objects of a collection: touched, and reached from no object held from outside. */
  ghost function WhiteSet(g: Graph, external: seq<nat>, touched: set<Obj>): set<Obj>
    requires g.Valid() && |external| == g.Size()
  {
    set o | o in touched && o < g.Size() && !Reaches(g, Seeds(g, external, touched), o)
  }

  /** Soundness of the colouring: a white object has no reference from outside the containers, is no
      native root, and every container that refers to it is white. */
  lemma WhiteIsIsolated(g: Graph, external: seq<nat>, touched: set<Obj>, w: Obj)
    requires g.Valid() && |external| == g.Size() && w in WhiteSet(g, external, touched)
    requires forall t :: t in touched ==> t < g.Size() && g.mayContain[t]
    ensures external[w] == 0 && !g.nativeRoot[w]
    ensures forall p :: 0 <= p < g.Size() && w in g.edges[p] ==> p in WhiteSet(g, external, touched)
  {
    var seeds := Seeds(g, external, touched);
    if w in seeds { ReachesSelf(g, seeds, w); }
    forall p | 0 <= p < g.Size() && w in g.edges[p] ensures p in WhiteSet(g, external, touched) {
      assert p in Expanded(g, touched);
      if Reaches(g, seeds, p) { ReachesStep(g, seeds, p, w); }
    }
  }

  // ---------------------------------------------------------------- reachability from the roots

  /** A chain of references of any kind, native roots and leaves included. */
  predicate RefPath(g: Graph, p: seq<Obj>) {
    |p| >= 1 && (forall i :: 0 <= i < |p| ==> p[i] < g.Size()) && forall i, j :: 0 <= i && j == i + 1 < |p| ==> p[j] in g.edges[p[i]]
  }

  /** Reachable from an external holder or a native root. */
  ghost predicate Rooted(g: Graph, external: seq<nat>, o: Obj)
    requires g.Valid() && |external| == g.Size()
  {
    exists p :: RefPath(g, p) && (external[p[0]] > 0 || g.nativeRoot[p[0]]) && p[|p| - 1] == o
  }

  /** Nothing reachable from an external holder or a native root is white. */
  lemma RootedIsNeverWhite(g: Graph, external: seq<nat>, touched: set<Obj>, o: Obj)
    requires g.Valid() && |external| == g.Size() && Rooted(g, external, o)
    requires forall t :: t in touched ==> t < g.Size() && g.mayContain[t]
    ensures o !in WhiteSet(g, external, touched)
  {
    var p :| RefPath(g, p) && (external[p[0]] > 0 || g.nativeRoot[p[0]]) && p[|p| - 1] == o;
    RefPathNeverWhite(g, external, touched, p, |p| - 1);
  }

  lemma {:induction false} RefPathNeverWhite(g: Graph, external: seq<nat>, touched: set<Obj>, p: seq<Obj>, i: nat)
    requires g.Valid() && |external| == g.Size() && RefPath(g, p) && i < |p|
    requires external[p[0]] > 0 || g.nativeRoot[p[0]]
    requires forall t :: t in touched ==> t < g.Size() && g.mayContain[t]
    ensures p[i] !in WhiteSet(g, external, touched)
  {
    if p[i] in WhiteSet(g, external, touched) {
      WhiteIsIsolated(g, external, touched, p[i]);
      if i > 0 {
        assert p[(i - 1) + 1] in g.edges[p[i - 1]];
        RefPathNeverWhite(g, external, touched, p, i - 1);
      }
    }
  }

  lemma RootedStep(g: Graph, external: seq<nat>, a: Obj, b: Obj)
    requires g.Valid() && |external| == g.Size() && a < g.Size() && Rooted(g, external, a) && b in g.edges[a]
    ensures Rooted(g, external, b)
  {
    var p :| RefPath(g, p) && (external[p[0]] > 0 || g.nativeRoot[p[0]]) && p[|p| - 1] == a;
    var q := p + [b];
    assert RefPath(g, q) && q[0] == p[0] && q[|q| - 1] == b;
  }

  /** Completeness: once every unreachable container with references has been touched, the white objects
      are exactly the touched objects that nothing reachable refers to. */
  lemma WhiteIsAllGarbage(g: Graph, external: seq<nat>, touched: set<Obj>)
    requires g.Valid() && |external| == g.Size()
    requires forall t :: t in touched ==> t < g.Size() && g.mayContain[t]
    requires forall p :: 0 <= p < g.Size() && g.edges[p] != [] && !Rooted(g, external, p) ==> p in touched
    ensures forall o :: o in touched ==> (o in WhiteSet(g, external, touched) <==> !Rooted(g, external, o))
  {
    var seeds := Seeds(g, external, touched);
    forall o | o in touched ensures o in WhiteSet(g, external, touched) <==> !Rooted(g, external, o) {
      if Rooted(g, external, o) {
        RootedIsNeverWhite(g, external, touched, o);
      } else if Reaches(g, seeds, o) {
        var p :| Path(g, p) && p[0] in seeds && p[|p| - 1] == o;
        SeedIsRooted(g, external, touched, p[0]);
        PathRooted(g, external, p, |p| - 1);
      }
    }
  }

  lemma SeedIsRooted(g: Graph, external: seq<nat>, touched: set<Obj>, s: Obj)
    requires g.Valid() && |external| == g.Size() && s in Seeds(g, external, touched)
    requires forall p :: 0 <= p < g.Size() && g.edges[p] != [] && !Rooted(g, external, p) ==> p in touched
    ensures Rooted(g, external, s)
  {
    if external[s] > 0 || g.nativeRoot[s] {
      assert RefPath(g, [s]);
    } else {
      var p :| 0 <= p < g.Size() && p !in Expanded(g, touched) && s in g.edges[p];
      if g.nativeRoot[p] { assert RefPath(g, [p]); }
      assert Rooted(g, external, p);
      RootedStep(g, external, p, s);
    }
  }

  lemma {:induction false} PathRooted(g: Graph, external: seq<nat>, p: seq<Obj>, i: nat)
    requires g.Valid() && |external| == g.Size() && Path(g, p) && i < |p|
    requires p[0] < g.Size() && Rooted(g, external, p[0])
    ensures p[i] < g.Size() && Rooted(g, external, p[i])
  {
    if i > 0 {
      PathRooted(g, external, p, i - 1);
      assert g.Step(p[i - 1], p[(i - 1) + 1]);
      RootedStep(g, external, p[i - 1], p[i]);
    }
  }

  // ---------------------------------------------------------------- what an owner from outside protects

  /** Reachable from an object that something outside the containers refers to. */
  ghost predicate Owned(g: Graph, external: seq<nat>, o: Obj)
    requires g.Valid() && |external| == g.Size()
  {
    exists p :: RefPath(g, p) && external[p[0]] > 0 && p[|p| - 1] == o
  }

  ghost function OwnedSet(g: Graph, external: seq<nat>): set<Obj>
    requires g.Valid() && |external| == g.Size()
  {
    set o | o in All(g.Size()) && Owned(g, external, o)
  }

  lemma OwnedIsNeverWhite(g: Graph, external: seq<nat>, touched: set<Obj>, o: Obj)
    requires g.Valid() && |external| == g.Size() && Owned(g, external, o)
    requires forall t :: t in touched ==> t < g.Size() && g.mayContain[t]
    ensures o < g.Size() && o !in WhiteSet(g, external, touched)
  {
    var p :| RefPath(g, p) && external[p[0]] > 0 && p[|p| - 1] == o;
    RefPathNeverWhite(g, external, touched, p, |p| - 1);
  }

  /** An owned object is referred to from outside or by another owned object. */
  lemma OwnedHasOwner(g: Graph, external: seq<nat>, o: Obj)
    requires g.Valid() && |external| == g.Size() && Owned(g, external, o)
    ensures o < g.Size()
    ensures external[o] > 0 || exists q :: q in OwnedSet(g, external) && q < g.Size() && o in g.edges[q]
  {
    var p :| RefPath(g, p) && external[p[0]] > 0 && p[|p| - 1] == o;
    if |p| > 1 {
      var front := p[..|p| - 1];
      assert RefPath(g, front);
      assert Owned(g, external, front[|front| - 1]);
      assert p[(|p| - 2) + 1] in g.edges[p[|p| - 2]];
    }
  }

  // ---------------------------------------------------------------- what goes down with the white objects

  predicate Unreferenced(edges: seq<seq<Obj>>, o: Obj) { forall p :: 0 <= p < |edges| ==> o !in edges[p] }

  /** Nothing refers to `o` but objects of `s`, and at least one of them does. */
  predicate OnlyReferredFrom(g: Graph, external: seq<nat>, s: set<Obj>, o: Obj) {
    && o < g.Size() == |external| && external[o] == 0 && !Unreferenced(g.edges, o)
    && forall p :: 0 <= p < g.Size() && o in g.edges[p] ==> p in s
  }

  /** `s` holds the white objects and everything that only objects of `s` refer to. */
  ghost predicate DoomClosed(g: Graph, external: seq<nat>, whites: set<Obj>, s: set<Obj>) {
    whites <= s && forall o :: OnlyReferredFrom(g, external, s, o) ==> o in s
  }

  /** In the least such set: a white object, or one that loses every reference once the white objects, and then
      whatever that dooms, give up theirs. Everything here is read off the heap before the collection. */
  ghost predicate Doomed(g: Graph, external: seq<nat>, whites: set<Obj>, o: Obj) {
    forall s :: DoomClosed(g, external, whites, s) ==> o in s
  }

  lemma WhiteIsDoomed(g: Graph, external: seq<nat>, whites: set<Obj>, w: Obj)
    requires w in whites
    ensures Doomed(g, external, whites, w)
  {
  }

  /** The doomed objects are themselves closed: what only doomed objects refer to is doomed. */
  lemma DoomSpreads(g: Graph, external: seq<nat>, whites: set<Obj>, o: Obj)
    requires o < g.Size() == |external| && external[o] == 0 && !Unreferenced(g.edges, o)
    requires forall p :: 0 <= p < g.Size() && o in g.edges[p] ==> Doomed(g, external, whites, p)
    ensures Doomed(g, external, whites, o)
  {
    forall s | DoomClosed(g, external, whites, s) ensures o in s {
      assert OnlyReferredFrom(g, external, s, o);
    }
  }

  /** Every member is referred to from outside or by another member, or by nothing at all. */
  ghost predicate Supported(edges: seq<seq<Obj>>, external: seq<nat>, keep: set<Obj>) {
    && |external| == |edges|
    && forall r :: r in keep ==>
         r < |edges| && (external[r] > 0 || Unreferenced(edges, r) || exists q :: q in keep && q < |edges| && r in edges[q])
  }

  /** A supported set apart from the white objects has no doomed member. */
  lemma SupportedIsNotDoomed(g: Graph, external: seq<nat>, whites: set<Obj>, keep: set<Obj>, o: Obj)
    requires g.Valid() && |external| == g.Size() && keep !! whites && o in keep && whites <= All(g.Size())
    requires Supported(g.edges, external, keep)
    ensures !Doomed(g, external, whites, o)
  {
    var s := All(g.Size()) - keep;
    forall r | r in keep ensures !OnlyReferredFrom(g, external, s, r) {
      if external[r] == 0 && !Unreferenced(g.edges, r) {
        var q :| q in keep && q < g.Size() && r in g.edges[q];
        assert q !in s;
      }
    }
    assert DoomClosed(g, external, whites, s);
  }

  /** The objects that are alive and not doomed. */
  ghost function Spared(g: Graph, external: seq<nat>, destroyed: seq<bool>, whites: set<Obj>): set<Obj>
    requires |destroyed| == g.Size()
  {
    set o | o in All(g.Size()) && !destroyed[o] && !Doomed(g, external, whites, o)
  }
}
