/** Collision chains threaded through one array of nodes: every chain starts at its own primary slot. */
module ScatterChains {
  import opened Collections

  const END: int := -1
  const EMPTY: int := -2

  /** A normalised key: two keys are the same exactly when type and value agree, and then so do their hashes. */
  datatype Key = Key(hash: nat, ident: nat)
  datatype Data = Data(key: Key, value: int)
  datatype MapNode = MapNode(hash: nat, next: int, data: Option<Data>)

  function Cleared(): MapNode { MapNode(0, EMPTY, None) }

  predicate Used(node: MapNode) { node.next != EMPTY }

  /** The `k`-th slot of the chain of primary slot `m`. */
  predicate LinkAt(t: seq<MapNode>, c: seq<nat>, m: nat, k: nat)
    requires |t| > 0 && k < |c|
  {
    c[k] < |t| && t[c[k]].hash % |t| == m && t[c[k]].next == if k + 1 < |c| then c[k + 1] else END
  }

  ghost predicate ChainAt(t: seq<MapNode>, c: seq<nat>, m: nat)
    requires |t| > 0
  {
    Distinct(c) && (c != [] ==> c[0] == m) && forall k :: 0 <= k < |c| ==> LinkAt(t, c, m, k)
  }

  /** `chain[m]` spells out the chain of `m`: the chains start at their primary slots, do not repeat a slot,
      follow the links, and cover every used slot. */
  ghost predicate Chained(t: seq<MapNode>, chain: seq<seq<nat>>) {
    && |chain| == |t| > 0
    && (forall m :: 0 <= m < |t| ==> ChainAt(t, chain[m], m))
    && (forall s :: 0 <= s < |t| && Used(t[s]) ==> s in chain[t[s].hash % |t|])
  }

  /** The array holds exactly `model`, the slot `hole` not counted. */
  ghost predicate Holds(t: seq<MapNode>, model: map<Key, int>, hole: int) {
    && (forall s :: 0 <= s < |t| && Used(t[s]) && s != hole ==> InModel(t[s], model))
    && (forall r, s :: 0 <= r < |t| && 0 <= s < |t| && Used(t[r]) && Used(t[s]) && r != hole && s != hole && r != s ==>
          !SameKey(t[r], t[s]))
    && (forall k :: k in model ==> Present(t, hole, k))
  }

  predicate InModel(node: MapNode, model: map<Key, int>) {
    && node.data.Some? && node.hash == node.data.value.key.hash
    && node.data.value.key in model && model[node.data.value.key] == node.data.value.value
  }

  ghost predicate Present(t: seq<MapNode>, hole: int, key: Key) {
    exists s :: 0 <= s < |t| && s != hole && HasKey(t[s], key)
  }

  predicate SameKey(a: MapNode, b: MapNode) { a.data.Some? && b.data.Some? && a.data.value.key == b.data.value.key }

  predicate HasKey(node: MapNode, key: Key) {
    Used(node) && node.data.Some? && node.hash == key.hash && node.data.value.key == key
  }

  function UsedCount(t: seq<MapNode>): nat {
    if t == [] then 0 else UsedCount(t[..|t| - 1]) + (if Used(t[|t| - 1]) then 1 else 0)
  }

  lemma {:induction false} UsedCountUpdate(t: seq<MapNode>, s: nat, node: MapNode)
    requires s < |t|
    ensures UsedCount(t[s := node]) == UsedCount(t) - (if Used(t[s]) then 1 else 0) + (if Used(node) then 1 else 0)
  {
    var last := |t| - 1;
    if s < last {
      UsedCountUpdate(t[..last], s, node);
      assert t[s := node][..last] == t[..last][s := node];
    } else {
      assert t[s := node][..last] == t[..last];
    }
  }

  lemma {:induction false} UsedCountFull(t: seq<MapNode>)
    ensures UsedCount(t) <= |t|
    ensures UsedCount(t) == |t| <==> forall s :: 0 <= s < |t| ==> Used(t[s])
  {
    if t != [] { UsedCountFull(t[..|t| - 1]); }
  }

  /** A used slot sits at one place of one chain, and its primary slot heads that chain. */
  lemma UsedSlot(t: seq<MapNode>, chain: seq<seq<nat>>, s: nat) returns (m: nat, p: nat)
    requires Chained(t, chain) && s < |t| && Used(t[s])
    ensures m == t[s].hash % |t| && p < |chain[m]| && chain[m][p] == s
    ensures chain[m][0] == m && Used(t[m]) && t[m].hash % |t| == m && (p == 0 <==> s == m)
  {
    m := t[s].hash % |t|;
    p :| 0 <= p < |chain[m]| && chain[m][p] == s;
    assert LinkAt(t, chain[m], m, 0) && LinkAt(t, chain[m], m, p);
  }

  lemma HeadSlot(t: seq<MapNode>, c: seq<nat>, m: nat)
    requires |t| > 0 && ChainAt(t, c, m) && c != []
    ensures m < |t| && Used(t[m]) && t[m].hash % |t| == m
  {
    assert LinkAt(t, c, m, 0);
  }

  lemma NoChain(t: seq<MapNode>, chain: seq<seq<nat>>, m: nat)
    requires Chained(t, chain) && m < |t| && (!Used(t[m]) || t[m].hash % |t| != m)
    ensures chain[m] == []
  {
    if chain[m] != [] { HeadSlot(t, chain[m], m); }
  }

  // ---------------------------------------------------------------- placing a node

  /** The node is about to be stored at `s` with this hash; its link is already set. */
  function WithHash(t: seq<MapNode>, s: nat, hash: nat): seq<MapNode>
    requires s < |t|
  {
    t[s := t[s].(hash := hash)]
  }

  /** Chains that avoid the changed slots are untouched. */
  lemma OtherChain(t: seq<MapNode>, t': seq<MapNode>, c: seq<nat>, m: nat)
    requires |t| == |t'| > 0 && ChainAt(t, c, m)
    requires forall k :: 0 <= k < |c| ==> c[k] < |t| && t'[c[k]].hash == t[c[k]].hash && t'[c[k]].next == t[c[k]].next
    ensures ChainAt(t', c, m)
  {
    forall k | 0 <= k < |c| ensures LinkAt(t', c, m, k) { assert LinkAt(t, c, m, k); }
  }

  /** Chains are made of used slots, and no slot lies on two chains. */
  lemma Apart(t: seq<MapNode>, chain: seq<seq<nat>>)
    requires Chained(t, chain)
    ensures forall m, k :: 0 <= m < |t| && 0 <= k < |chain[m]| ==>
      chain[m][k] < |t| && Used(t[chain[m][k]]) && t[chain[m][k]].hash % |t| == m
  {
    forall m, k | 0 <= m < |t| && 0 <= k < |chain[m]|
      ensures chain[m][k] < |t| && Used(t[chain[m][k]]) && t[chain[m][k]].hash % |t| == m
    {
      assert ChainAt(t, chain[m], m) && LinkAt(t, chain[m], m, k);
    }
  }

  /** Chains depend on hashes and links only. */
  lemma DataIsNoLink(t: seq<MapNode>, t': seq<MapNode>, chain: seq<seq<nat>>)
    requires Chained(t, chain) && |t'| == |t| && forall s :: 0 <= s < |t| ==> t'[s].hash == t[s].hash && t'[s].next == t[s].next
    ensures Chained(t', chain)
  {
    Apart(t, chain);
    forall m | 0 <= m < |t| ensures ChainAt(t', chain[m], m) {
      assert ChainAt(t, chain[m], m);
      OtherChain(t, t', chain[m], m);
    }
  }

  lemma NothingYet(t: seq<MapNode>, chain: seq<seq<nat>>)
    requires |t| == |chain| > 0 && forall s :: 0 <= s < |t| ==> !Used(t[s]) && chain[s] == []
    ensures Chained(t, chain) && Holds(t, map[], END) && UsedCount(t) == 0
  {
    NoneUsed(t);
  }

  lemma {:induction false} NoneUsed(t: seq<MapNode>)
    requires forall s :: 0 <= s < |t| ==> !Used(t[s])
    ensures UsedCount(t) == 0
  {
    if t != [] { NoneUsed(t[..|t| - 1]); }
  }

  /** A free primary slot starts a chain of its own. */
  lemma FreshHead(t: seq<MapNode>, chain: seq<seq<nat>>, main: nat, hash: nat, t': seq<MapNode>)
    requires Chained(t, chain) && main == hash % |t| && !Used(t[main])
    requires |t'| == |t| && t'[main].hash == hash && t'[main].next == END
    requires forall s :: 0 <= s < |t| && s != main ==> t'[s] == t[s]
    ensures Chained(t', chain[main := [main]])
  {
    var chain' := chain[main := [main]];
    NoChain(t, chain, main);
    Apart(t, chain);
    forall m | 0 <= m < |t| && m != main ensures ChainAt(t', chain'[m], m) {
      assert ChainAt(t, chain[m], m);
      OtherChain(t, t', chain[m], m);
    }
    assert ChainAt(t', [main], main) by { assert LinkAt(t', [main], main, 0); }
  }

  function ChainsDisplaced(chain: seq<seq<nat>>, om: nat, p: nat, free: nat, main: nat): (r: seq<seq<nat>>)
    requires om < |chain| && main < |chain| && p < |chain[om]|
    ensures |r| == |chain|
  {
    var c: seq<nat> := chain[om][p := free];
    chain[om := c][main := [main]]
  }

  /** The chain the displaced node is in runs over its new slot. */
  lemma DisplacedChain(t: seq<MapNode>, c: seq<nat>, om: nat, main: nat, free: nat, p: nat, t': seq<MapNode>)
    requires om < |t| && ChainAt(t, c, om) && free < |t| && !Used(t[free]) && main < |t| && om != main
    requires 0 < p < |c| && c[p] == main && c[p - 1] < |t| && c[p - 1] != main && c[p - 1] != free
    requires |t'| == |t| && t' == t[free := t[main]][c[p - 1] := t[c[p - 1]].(next := free)][main := t'[main]]
    ensures ChainAt(t', c[p := free], om)
  {
    var c' := c[p := free];
    forall k | 0 <= k < |c| ensures c[k] != free { assert LinkAt(t, c, om, k); }
    forall k | 0 <= k < |c'| ensures LinkAt(t', c', om, k) {
      assert LinkAt(t, c, om, k);
      if k != p - 1 { assert c[k] != c[p - 1]; }
      if k != p { assert c[k] != c[p]; }
    }
  }

  /** A node that belongs to another chain moves to a free slot, and its slot starts the new chain. */
  lemma Displaced(t: seq<MapNode>, chain: seq<seq<nat>>, main: nat, hash: nat, free: nat, prev: nat, p: nat, t': seq<MapNode>)
    requires Chained(t, chain) && main == hash % |t| && free < |t| && !Used(t[free]) && Used(t[main])
    requires var om := t[main].hash % |t|; om != main && 0 < p < |chain[om]| && chain[om][p] == main
    requires prev == chain[t[main].hash % |t|][p - 1] && prev < |t| && prev != main && prev != free
    requires |t'| == |t| && t' == t[free := t[main]][prev := t[prev].(next := free)][main := t'[main]]
    requires t'[main].hash == hash && t'[main].next == END
    ensures Chained(t', ChainsDisplaced(chain, t[main].hash % |t|, p, free, main))
  {
    var om := t[main].hash % |t|;
    var c: seq<nat>, c': seq<nat> := chain[om], chain[om][p := free];
    var chain' := ChainsDisplaced(chain, om, p, free, main);
    NoChain(t, chain, main);
    Apart(t, chain);
    assert ChainAt(t, c, om);
    forall m | 0 <= m < |t| && m != main && m != om ensures ChainAt(t', chain'[m], m) {
      assert ChainAt(t, chain[m], m);
      assert t[c[p - 1]].hash % |t| == om;
      OtherChain(t, t', chain[m], m);
    }
    assert ChainAt(t', [main], main) by { assert LinkAt(t', [main], main, 0); }
    DisplacedChain(t, c, om, main, free, p, t');
    forall s | 0 <= s < |t| && Used(t'[s]) ensures s in chain'[t'[s].hash % |t|] {
      if s == free { assert c'[p] == free; }
      else if s != main && t[s].hash % |t| == om {
        var k :| 0 <= k < |c| && c[k] == s;
        assert c'[k] == s;
      }
    }
  }

  /** The node is linked right behind the head of its chain. */
  lemma LinkedBehind(t: seq<MapNode>, chain: seq<seq<nat>>, main: nat, hash: nat, free: nat, t': seq<MapNode>)
    requires Chained(t, chain) && main == hash % |t| && free < |t| && !Used(t[free])
    requires Used(t[main]) && t[main].hash % |t| == main
    requires |t'| == |t| && t' == t[main := t[main].(next := free)][free := t'[free]]
    requires t'[free].hash == hash && t'[free].next == t[main].next
    ensures Chained(t', chain[main := [main, free] + chain[main][1..]])
  {
    var m, p := UsedSlot(t, chain, main);
    var c := chain[main];
    var c' := [main, free] + c[1..];
    var chain' := chain[main := c'];
    Apart(t, chain);
    assert ChainAt(t, c, main) && LinkAt(t, c, main, 0);
    forall m | 0 <= m < |t| && m != main ensures ChainAt(t', chain'[m], m) {
      assert ChainAt(t, chain[m], m);
      OtherChain(t, t', chain[m], m);
    }
    assert forall k :: 2 <= k < |c'| ==> c'[k] == c[k - 1];
    assert ChainAt(t', c', main) by {
      forall k | 0 <= k < |c'| ensures LinkAt(t', c', main, k) {
        if k >= 2 { assert LinkAt(t, c, main, k - 1); }
      }
    }
    forall s | 0 <= s < |t| && Used(t'[s]) ensures s in chain'[t'[s].hash % |t|] {
      if s == free { assert c'[1] == free; }
      else if t[s].hash % |t| == main {
        var k :| 0 <= k < |c| && c[k] == s;
        assert c'[if k == 0 then 0 else k + 1] == s;
      }
    }
  }

  function AfterDisplacing(t: seq<MapNode>, main: nat, previous: nat, free: nat): seq<MapNode>
    requires main < |t| && previous < |t| && free < |t|
  {
    t[free := t[main]][previous := t[previous].(next := free)][main := Cleared().(next := END)]
  }

  lemma AfterDisplacingCounts(t: seq<MapNode>, main: nat, previous: nat, free: nat)
    requires main < |t| && previous < |t| && free < |t| && previous != main && !Used(t[free]) && Used(t[main]) && Used(t[previous])
    ensures Reserved(t, AfterDisplacing(t, main, previous, free), main, free)
    ensures UsedCount(AfterDisplacing(t, main, previous, free)) == UsedCount(t) + 1
  {
    var t1 := t[free := t[main]];
    var t2 := t1[previous := t[previous].(next := free)];
    UsedCountUpdate(t, free, t[main]);
    UsedCountUpdate(t1, previous, t[previous].(next := free));
    UsedCountUpdate(t2, main, Cleared().(next := END));
  }

  function AfterLinking(t: seq<MapNode>, main: nat, free: nat): seq<MapNode>
    requires main < |t| && free < |t|
  {
    t[free := t[free].(next := t[main].next)][main := t[main].(next := free)]
  }

  lemma AfterLinkingCounts(t: seq<MapNode>, main: nat, free: nat)
    requires main < |t| && free < |t| && !Used(t[free]) && Used(t[main])
    ensures Reserved(t, AfterLinking(t, main, free), free, free)
    ensures UsedCount(AfterLinking(t, main, free)) == UsedCount(t) + 1
  {
    UsedCountUpdate(t, free, t[free].(next := t[main].next));
    UsedCountUpdate(t[free := t[free].(next := t[main].next)], main, t[main].(next := free));
  }

  // ---------------------------------------------------------------- taking a node out

  /** A node that is not the head is bypassed and cleared. */
  lemma Bypassed(t: seq<MapNode>, chain: seq<seq<nat>>, m: nat, p: nat)
    requires Chained(t, chain) && m < |t| && 0 < p < |chain[m]| && chain[m][p - 1] < |t| && chain[m][p] < |t|
    ensures var (prev, s) := (chain[m][p - 1], chain[m][p]);
      Chained(t[prev := t[prev].(next := t[s].next)][s := Cleared()], chain[m := chain[m][..p] + chain[m][p + 1..]])
  {
    var c := chain[m];
    var prev, s := c[p - 1], c[p];
    var c' := c[..p] + c[p + 1..];
    var t', chain' := t[prev := t[prev].(next := t[s].next)][s := Cleared()], chain[m := c'];
    Apart(t, chain);
    assert ChainAt(t, c, m);
    forall j | 0 <= j < |t| && j != m ensures ChainAt(t', chain'[j], j) {
      assert ChainAt(t, chain[j], j);
      OtherChain(t, t', chain[j], j);
    }
    assert forall k :: 0 <= k < |c'| ==> c'[k] == c[if k < p then k else k + 1];
    assert ChainAt(t', c', m) by {
      forall k | 0 <= k < |c'| ensures LinkAt(t', c', m, k) {
        var k0 := if k < p then k else k + 1;
        assert LinkAt(t, c, m, k0) && LinkAt(t, c, m, p);
        assert c[k0] != s;
        if k0 != p - 1 { assert c[k0] != prev; }
      }
    }
    forall x | 0 <= x < |t| && Used(t'[x]) ensures x in chain'[t'[x].hash % |t|] {
      if t[x].hash % |t| == m {
        var k :| 0 <= k < |c| && c[k] == x;
        assert c'[if k < p then k else k - 1] == x;
      }
    }
  }

  /** A head without a successor is cleared. */
  lemma LastCleared(t: seq<MapNode>, chain: seq<seq<nat>>, m: nat)
    requires Chained(t, chain) && m < |t| && |chain[m]| == 1
    ensures Chained(t[m := Cleared()], chain[m := []])
  {
    var t', chain' := t[m := Cleared()], chain[m := []];
    Apart(t, chain);
    assert ChainAt(t, chain[m], m);
    forall j | 0 <= j < |t| && j != m ensures ChainAt(t', chain'[j], j) {
      assert ChainAt(t, chain[j], j);
      OtherChain(t, t', chain[j], j);
    }
  }

  /** A head with a successor takes the successor's node, and the successor's slot is cleared. */
  lemma HeadReplaced(t: seq<MapNode>, chain: seq<seq<nat>>, m: nat)
    requires Chained(t, chain) && m < |t| && |chain[m]| > 1 && chain[m][1] < |t|
    ensures Chained(t[m := t[chain[m][1]]][chain[m][1] := Cleared()], chain[m := [m] + chain[m][2..]])
  {
    var c := chain[m];
    var s := c[1];
    var c' := [m] + c[2..];
    var t', chain' := t[m := t[s]][s := Cleared()], chain[m := c'];
    Apart(t, chain);
    assert ChainAt(t, c, m);
    forall j | 0 <= j < |t| && j != m ensures ChainAt(t', chain'[j], j) {
      assert ChainAt(t, chain[j], j);
      OtherChain(t, t', chain[j], j);
    }
    assert forall k :: 1 <= k < |c'| ==> c'[k] == c[k + 1];
    assert ChainAt(t', c', m) by {
      forall k | 0 <= k < |c'| ensures LinkAt(t', c', m, k) {
        assert LinkAt(t, c, m, k + 1);
        assert c[0] != c[1] && (k > 0 ==> c[k + 1] != c[0] && c[k + 1] != c[1]);
      }
    }
    forall x | 0 <= x < |t| && Used(t'[x]) ensures x in chain'[t'[x].hash % |t|] {
      if x == m { assert c'[0] == m; }
      else if t[x].hash % |t| == m {
        var k :| 0 <= k < |c| && c[k] == x;
        assert c'[k - 1] == x;
      }
    }
  }

  lemma BypassedCounts(t: seq<MapNode>, previous: nat, s: nat)
    requires previous < |t| && s < |t| && previous != s && Used(t[previous]) && Used(t[s])
    ensures var t' := t[previous := t[previous].(next := t[s].next)][s := Cleared()];
      TakenOut(t, t', s, s) && UsedCount(t') == UsedCount(t) - 1
  {
    UsedCountUpdate(t, previous, t[previous].(next := t[s].next));
    UsedCountUpdate(t[previous := t[previous].(next := t[s].next)], s, Cleared());
  }

  lemma HeadReplacedCounts(t: seq<MapNode>, m: nat, s: nat)
    requires m < |t| && s < |t| && m != s && Used(t[m]) && Used(t[s])
    ensures var t' := t[m := t[s]][s := Cleared()];
      TakenOut(t, t', m, s) && UsedCount(t') == UsedCount(t) - 1
  {
    UsedCountUpdate(t, m, t[s]);
    UsedCountUpdate(t[m := t[s]], s, Cleared());
  }

  lemma NotPresentBefore(t: seq<MapNode>, i: nat, model: map<Key, int>)
    requires i < |t| && Holds(t, model, END) && Used(t[i])
    ensures t[i].data.Some? && !Present(t[..i], END, t[i].data.value.key)
  {
    forall s | 0 <= s < i ensures !HasKey(t[..i][s], t[i].data.value.key) {
      assert Used(t[s]) ==> !SameKey(t[s], t[i]);
    }
  }

  lemma PresentNext(t: seq<MapNode>, i: nat, k: Key)
    requires i < |t|
    ensures Present(t[..i + 1], END, k) <==> Present(t[..i], END, k) || HasKey(t[i], k)
  {
    if Present(t[..i + 1], END, k) {
      var s :| 0 <= s < i + 1 && HasKey(t[..i + 1][s], k);
      if s < i { assert HasKey(t[..i][s], k); }
    }
    if Present(t[..i], END, k) {
      var s :| 0 <= s < i && HasKey(t[..i][s], k);
      assert HasKey(t[..i + 1][s], k);
    }
    assert HasKey(t[i], k) ==> HasKey(t[..i + 1][i], k);
  }

  /** One more slot listed. */
  lemma ListNext(t: seq<MapNode>, i: nat, model: map<Key, int>, keys: seq<Key>)
    requires i < |t| && Holds(t, model, END) && Distinct(keys) && forall k :: k in keys <==> Present(t[..i], END, k)
    ensures UsedCount(t[..i + 1]) == UsedCount(t[..i]) + if Used(t[i]) then 1 else 0
    ensures Used(t[i]) ==> t[i].data.Some? && Distinct(keys + [t[i].data.value.key])
    ensures forall k :: Present(t[..i + 1], END, k) <==> k in keys || (Used(t[i]) && t[i].data.Some? && k == t[i].data.value.key)
  {
    assert t[..i + 1][..i] == t[..i];
    if Used(t[i]) { NotPresentBefore(t, i, model); }
    forall k ensures Present(t[..i + 1], END, k) <==> Present(t[..i], END, k) || HasKey(t[i], k) { PresentNext(t, i, k); }
    if Used(t[i]) { assert InModel(t[i], model); }
  }

  // ---------------------------------------------------------------- contents

  lemma UpdateTwice(m: map<Key, int>, key: Key, a: int, b: int)
    ensures m[key := a][key := b] == m[key := b]
  {
  }

  /** One node was added at `index`; the resident of that slot, if there was one, moved to `to`. */
  predicate Reserved(t: seq<MapNode>, t': seq<MapNode>, index: nat, to: nat) {
    && |t'| == |t| && index < |t| && to < |t| && Used(t'[index])
    && !Used(t[to]) && (to != index ==> Used(t[index]) && Moved(t[index], t'[to]))
    && forall s :: 0 <= s < |t| && s != index && s != to ==> Moved(t[s], t'[s])
  }

  predicate Moved(a: MapNode, b: MapNode) { Used(b) == Used(a) && b.hash == a.hash && b.data == a.data }

  lemma ReservedHolds(t: seq<MapNode>, t': seq<MapNode>, index: nat, to: nat, model: map<Key, int>)
    requires Reserved(t, t', index, to) && Holds(t, model, END)
    ensures Holds(t', model, index)
  {
    forall s | 0 <= s < |t'| && s != index ensures Moved(t[if s == to then index else s], t'[s]) || !Used(t'[s]) {}
    forall k | k in model ensures Present(t', index, k) { ReservedPresent(t, t', index, to, k); }
  }

  lemma ReservedPresent(t: seq<MapNode>, t': seq<MapNode>, index: nat, to: nat, key: Key)
    requires Reserved(t, t', index, to) && Present(t, END, key)
    ensures Present(t', index, key)
  {
    var s :| 0 <= s < |t| && s != END && HasKey(t[s], key);
    assert HasKey(t'[if s == index then to else s], key);
  }

  /** The reserved slot receives its key and value. */
  lemma FilledHolds(t: seq<MapNode>, index: nat, model: map<Key, int>, key: Key, value: int)
    requires index < |t| && Used(t[index]) && Holds(t, model, index) && key !in model
    ensures Holds(t[index := MapNode(key.hash, t[index].next, Some(Data(key, value)))], model[key := value], END)
  {
    var t' := t[index := MapNode(key.hash, t[index].next, Some(Data(key, value)))];
    assert HasKey(t'[index], key);
    forall k | k in model ensures Present(t', END, k) {
      assert Present(t, index, k);
      var s :| 0 <= s < |t| && s != index && HasKey(t[s], k);
      assert HasKey(t'[s], k);
    }
  }

  /** Filling the reserved slot adds the key, and neither the links nor the use of a slot change. */
  lemma NodeFilled(t: seq<MapNode>, t': seq<MapNode>, index: nat, to: nat, m: map<Key, int>, key: Key, value: int, chain: seq<seq<nat>>)
    requires Holds(t, m, END) && key !in m && Reserved(t, t', index, to) && Chained(WithHash(t', index, key.hash), chain)
    ensures var u := t'[index := MapNode(key.hash, t'[index].next, Some(Data(key, value)))];
      Holds(u, m[key := value], END) && UsedCount(u) == UsedCount(t') && Chained(u, chain)
  {
    ReservedHolds(t, t', index, to, m);
    FilledHolds(t', index, m, key, value);
    var node := MapNode(key.hash, t'[index].next, Some(Data(key, value)));
    UsedCountUpdate(t', index, node);
    DataIsNoLink(WithHash(t', index, key.hash), t'[index := node], chain);
  }

  lemma OverwrittenHolds(t: seq<MapNode>, index: nat, model: map<Key, int>, key: Key, value: int)
    requires index < |t| && HasKey(t[index], key) && Holds(t, model, END)
    ensures Holds(t[index := t[index].(data := Some(Data(key, value)))], model[key := value], END)
  {
    var t' := t[index := t[index].(data := Some(Data(key, value)))];
    assert HasKey(t'[index], key);
    forall s | 0 <= s < |t'| && Used(t'[s]) && s != index ensures InModel(t'[s], model[key := value]) {
      assert !SameKey(t[s], t[index]);
    }
    forall k | k in model ensures Present(t', END, k) {
      assert Present(t, END, k);
      var s :| 0 <= s < |t| && s != END && HasKey(t[s], k);
      assert HasKey(t'[s], k);
    }
  }

  /** The node at `s` is gone; its slot may have received the node of `from`. */
  predicate TakenOut(t: seq<MapNode>, t': seq<MapNode>, s: nat, from: nat) {
    && |t'| == |t| && s < |t| && from < |t| && Used(t[s]) && Used(t[from]) && !Used(t'[from])
    && (from != s ==> Moved(t[from], t'[s]))
    && forall x :: 0 <= x < |t| && x != s && x != from ==> Moved(t[x], t'[x])
  }

  lemma TakenOutHolds(t: seq<MapNode>, t': seq<MapNode>, s: nat, from: nat, model: map<Key, int>, key: Key)
    requires TakenOut(t, t', s, from) && Holds(t, model, END) && HasKey(t[s], key)
    ensures Holds(t', model - {key}, END)
  {
    forall x | 0 <= x < |t'| && Used(t'[x]) ensures InModel(t'[x], model - {key}) {
      var y := if x == s then from else x;
      assert Moved(t[y], t'[x]) && InModel(t[y], model);
      assert !SameKey(t[y], t[s]);
    }
    forall k | k in model && k != key ensures Present(t', END, k) {
      assert Present(t, END, k);
      var x :| 0 <= x < |t| && x != END && HasKey(t[x], k);
      assert HasKey(t'[if x == from then s else x], k);
    }
  }

  /** `m` is what the first `i` slots hold. */
  ghost predicate HeldBefore(t: seq<MapNode>, i: nat, m: map<Key, int>)
    requires i <= |t|
  {
    && (forall s :: 0 <= s < i && Used(t[s]) ==> InModel(t[s], m))
    && (forall k :: k in m ==> Present(t[..i], END, k))
  }

  lemma KeyNotBefore(t: seq<MapNode>, i: nat, m: map<Key, int>, model: map<Key, int>)
    requires i < |t| && Holds(t, model, END) && HeldBefore(t, i, m) && Used(t[i])
    ensures InModel(t[i], model) && t[i].data.value.key !in m
  {
  }

  lemma HeldNext(t: seq<MapNode>, i: nat, m: map<Key, int>, model: map<Key, int>)
    requires i < |t| && Holds(t, model, END) && HeldBefore(t, i, m)
    ensures if Used(t[i]) then InModel(t[i], model) && t[i].data.value.key !in m
              && HeldBefore(t, i + 1, m[t[i].data.value.key := t[i].data.value.value])
            else HeldBefore(t, i + 1, m)
  {
    if Used(t[i]) {
      KeyNotBefore(t, i, m, model);
      assert HasKey(t[..i + 1][i], t[i].data.value.key);
    }
    forall k | k in m ensures Present(t[..i + 1], END, k) {
      assert Present(t[..i], END, k);
      var s :| 0 <= s < i && HasKey(t[..i][s], k);
      assert HasKey(t[..i + 1][s], k);
    }
  }

  /** Two tables' contents agree once all slots were carried over. */
  lemma HeldAll(t: seq<MapNode>, m: map<Key, int>, model: map<Key, int>)
    requires Holds(t, model, END) && HeldBefore(t, |t|, m)
    ensures m == model
  {
    assert t[..|t|] == t;
    forall k | k in m ensures k in model && model[k] == m[k] {
      assert Present(t, END, k);
      var s :| 0 <= s < |t| && HasKey(t[s], k);
    }
    forall k | k in model ensures k in m {
      assert Present(t, END, k);
      var s :| 0 <= s < |t| && HasKey(t[s], k);
    }
  }
}

/** The script map: a hash table that behaves as a mathematical map. */
module ScriptMap {
  import opened Collections
  import opened HashCapacity
  import opened ScatterChains

  datatype Status = Ok | LengthError

  class MapInfo {
    var bucket: array<MapNode>
    var hashBase: nat
    var itemCount: nat
    var lastFree: int
    var mutationVersion: nat
    ghost var chain: seq<seq<nat>>
    ghost var model: map<Key, int>

    /** The array is a set of chains, its unused slots are clear, the cursor is in range. */
    ghost predicate Linked()
      reads this`bucket, this`hashBase, this`lastFree, this`chain, bucket
    {
      && bucket.Length > 0 && PowerOfTwo(bucket.Length) && hashBase == bucket.Length - 1
      && -1 <= lastFree < bucket.Length
      && Chained(bucket[..], chain)
      && forall s :: 0 <= s < bucket.Length && !Used(bucket[s]) ==> bucket[s] == Cleared()
    }

    /** Every slot above the cursor is used: true from a rehash until the next removal. */
    ghost predicate Tight()
      reads this`bucket, this`lastFree, bucket
    {
      forall s :: lastFree < s < bucket.Length && 0 <= s ==> Used(bucket[s])
    }

    /** The array holds `m`, which has `count` keys, at an allowed load. */
    ghost predicate Filled(m: map<Key, int>, count: nat)
      reads this`bucket, this`hashBase, this`lastFree, this`chain, bucket
    {
      && Linked() && Holds(bucket[..], m, END) && count == UsedCount(bucket[..])
      && count * 4 <= bucket.Length * 3 && 2 <= bucket.Length <= MAX_HASH_CAPACITY
    }

    ghost predicate Empty()
      reads this, bucket
    {
      bucket.Length == 0 && hashBase == 0 && itemCount == 0 && lastFree == -1 && chain == [] && model == map[]
    }

    ghost predicate Valid()
      reads this, bucket
    {
      Empty() || Filled(model, itemCount)
    }

    constructor ()
      ensures Valid() && model == map[] && fresh(bucket)
    {
      bucket := new MapNode[0];
      hashBase, itemCount, lastFree, mutationVersion := 0, 0, -1, 0;
      chain, model := [], map[];
    }

    function PrimarySlot(hash: nat): nat
      reads this
    {
      BitAnd(hash, hashBase)
    }

    /** `key` lies at `index`, which is place `p` of the chain of `m`, behind `previous`. */
    ghost predicate Found(key: Key, index: int, previous: int, m: nat, p: nat)
      requires m < |chain|
      reads this, bucket
    {
      && bucket.Length > 0 && m == key.hash % bucket.Length
      && 0 <= index < bucket.Length && HasKey(bucket[index], key)
      && p < |chain[m]| && chain[m][p] == index
      && previous == if p == 0 then END else chain[m][p - 1]
    }

    /** The slot that holds `key`, with the slot linked before it. */
    method FindNodeIndex(key: Key) returns (index: int, previous: int, ghost m: nat, ghost p: nat)
      requires Valid()
      ensures index == END <==> key !in model
      ensures index != END ==> m < |chain| && Found(key, index, previous, m, p)
    {
      m, p := 0, 0;
      if bucket.Length == 0 { return END, END, 0, 0; }
      MaskIsRemainder(key.hash, bucket.Length);
      m := key.hash % bucket.Length;
      var main := PrimarySlot(key.hash);
      if !Used(bucket[main]) {
        NotOnChain(key, m);
        return END, END, m, 0;
      }
      index, previous, p := Walk(key, main);
    }

    /** A key whose chain does not hold it is not in the map. */
    lemma NotOnChain(key: Key, m: nat)
      requires Linked() && Holds(bucket[..], model, END) && m == key.hash % bucket.Length
      requires Used(bucket[m]) ==> forall k :: 0 <= k < |chain[m]| && chain[m][k] < bucket.Length ==> !HasKey(bucket[chain[m][k]], key)
      ensures key !in model
    {
      if key in model {
        assert Present(bucket[..], END, key);
        var s :| 0 <= s < bucket.Length && HasKey(bucket[..][s], key);
        var m', k := UsedSlot(bucket[..], chain, s);
      }
    }

    method Walk(key: Key, main: nat) returns (index: int, previous: int, ghost p: nat)
      requires Linked() && Holds(bucket[..], model, END) && main == key.hash % bucket.Length && Used(bucket[main])
      ensures index == END <==> key !in model
      ensures index != END ==> Found(key, index, previous, main, p)
    {
      previous, index := END, main;
      ghost var start, first := UsedSlot(bucket[..], chain, main);
      ghost var c := chain[start];
      p := first;
      while index != END
        invariant first <= p <= |c| && index == (if p < |c| then c[p] else END)
        invariant previous == if p == first then END else c[p - 1]
        invariant forall k :: first <= k < p ==> c[k] < bucket.Length && !HasKey(bucket[c[k]], key)
        decreases |c| - p
      {
        assert LinkAt(bucket[..], c, start, p);
        if HasKey(bucket[index], key) {
          assert HasKey(bucket[..][index], key) && start == main && InModel(bucket[..][index], model);
          return;
        }
        previous, index := index, bucket[index].next;
        p := p + 1;
      }
      if start != main { NoChain(bucket[..], chain, main); }
      NotOnChain(key, main);
    }

    /** Looks up a value; the map is not changed. */
    method Find(key: Key) returns (value: Option<int>)
      requires Valid()
      ensures value == if key in model then Some(model[key]) else None
    {
      var index, previous, m, p := FindNodeIndex(key);
      if index == END { return None; }
      assert InModel(bucket[..][index], model);
      return Some(bucket[index].data.value.value);
    }

    /** The next free slot below the cursor, which only moves down. */
    method FindFreeNodeIndex() returns (index: int)
      requires -1 <= lastFree < bucket.Length
      modifies this`lastFree
      ensures -1 <= lastFree <= old(lastFree)
      ensures index == END ==> lastFree == -1 && forall s :: 0 <= s <= old(lastFree) ==> Used(bucket[s])
      ensures index != END ==> 0 <= index <= old(lastFree) && lastFree == index - 1 && !Used(bucket[index])
      ensures forall s :: index < s <= old(lastFree) && 0 <= s ==> Used(bucket[s])
    {
      while lastFree >= 0
        invariant -1 <= lastFree <= old(lastFree)
        invariant forall s :: lastFree < s <= old(lastFree) ==> Used(bucket[s])
        decreases lastFree
      {
        index := lastFree;
        lastFree := lastFree - 1;
        if !Used(bucket[index]) { return; }
      }
      return END;
    }

    /** What reserving slot `index` for `hash` does to the array `t`. */
    twostate predicate PlacedAt(hash: nat, index: int, to: nat)
      reads this, bucket
    {
      && bucket == old(bucket) && 0 <= index < bucket.Length && bucket.Length == |chain|
      && Reserved(old(bucket[..]), bucket[..], index, to)
      && Chained(WithHash(bucket[..], index, hash), chain)
      && UsedCount(bucket[..]) == UsedCount(old(bucket[..])) + 1
      && (forall s :: 0 <= s < bucket.Length && !Used(bucket[s]) ==> bucket[s] == Cleared())
    }

    /** The node linked before the displaced resident of `main`. */
    method FindPredecessor(main: nat) returns (previous: nat, ghost om: nat, ghost p: nat)
      requires Linked() && main < bucket.Length && Used(bucket[main]) && bucket[main].hash % bucket.Length != main
      ensures om == bucket[main].hash % bucket.Length && om < |chain| && 0 < p < |chain[om]| && chain[om][p] == main
      ensures previous == chain[om][p - 1] && previous < bucket.Length && previous != main && Used(bucket[previous])
    {
      var occupiedMain := PrimarySlot(bucket[main].hash);
      MaskIsRemainder(bucket[main].hash, bucket.Length);
      ghost var t := bucket[..];
      om, p := UsedSlot(t, chain, main);
      ghost var c := chain[om];
      previous := occupiedMain;
      ghost var k := 0;
      while bucket[previous].next != main
        invariant k < p && previous == c[k] && previous < bucket.Length
        decreases p - k
      {
        assert LinkAt(t, c, om, k) && LinkAt(t, c, om, k + 1);
        previous := bucket[previous].next;
        k := k + 1;
      }
      assert LinkAt(t, c, om, k);
      assert k + 1 == p;
    }

    /** The resident of `main` belongs to another chain: it moves to `free`, its predecessor is relinked. */
    method DisplaceResident(main: nat, free: nat, ghost hash: nat)
      requires Linked() && main < bucket.Length && free < bucket.Length && !Used(bucket[free]) && Used(bucket[main])
      requires main == hash % bucket.Length && bucket[main].hash % bucket.Length != main
      modifies this`chain, bucket
      ensures PlacedAt(hash, main, free)
    {
      ghost var t := bucket[..];
      ghost var om, p;
      var previous;
      previous, om, p := FindPredecessor(main);
      bucket[free] := bucket[main];
      bucket[previous] := bucket[previous].(next := free);
      bucket[main] := Cleared();
      bucket[main] := bucket[main].(next := END);
      assert bucket[..] == AfterDisplacing(t, main, previous, free);
      chain := ChainsDisplaced(chain, om, p, free, main);
      AfterDisplacingCounts(t, main, previous, free);
      Displaced(t, old(chain), main, hash, free, previous, p, WithHash(bucket[..], main, hash));
    }

    /** The new node is linked right behind the head of its chain. */
    method LinkBehindHead(main: nat, free: nat, ghost hash: nat)
      requires Linked() && main < bucket.Length && free < bucket.Length && !Used(bucket[free]) && Used(bucket[main])
      requires main == hash % bucket.Length == bucket[main].hash % bucket.Length
      modifies this`chain, bucket
      ensures PlacedAt(hash, free, free)
    {
      ghost var t := bucket[..];
      ghost var m, p := UsedSlot(t, chain, main);
      bucket[free] := bucket[free].(next := bucket[main].next);
      bucket[main] := bucket[main].(next := free);
      assert bucket[..] == AfterLinking(t, main, free);
      chain := chain[main := [main, free] + chain[main][1..]];
      AfterLinkingCounts(t, main, free);
      LinkedBehind(t, old(chain), main, hash, free, WithHash(bucket[..], free, hash));
    }

    /** A free primary slot is taken as it is. */
    method TakePrimary(main: nat, ghost hash: nat)
      requires Linked() && main < bucket.Length && !Used(bucket[main]) && main == hash % bucket.Length
      modifies this`chain, bucket
      ensures PlacedAt(hash, main, main)
    {
      ghost var t := bucket[..];
      bucket[main] := bucket[main].(next := END);
      assert bucket[..] == t[main := t[main].(next := END)];
      chain := chain[main := [main]];
      UsedCountUpdate(t, main, t[main].(next := END));
      FreshHead(t, old(chain), main, hash, WithHash(bucket[..], main, hash));
    }

    /** Reserves a slot for a key with this hash. Fails only if the primary slot and every slot below the
        cursor are used; the array is then as it was. */
    method InsertNewNode(hash: nat) returns (index: int, ghost to: int)
      requires Linked()
      modifies this`lastFree, this`chain, bucket
      ensures -1 <= lastFree <= old(lastFree)
      ensures index != END ==> to >= 0 && PlacedAt(hash, index, to)
      ensures index == END ==> bucket[..] == old(bucket[..]) && chain == old(chain)
      ensures index == END ==> forall s :: 0 <= s <= old(lastFree) ==> Used(bucket[s])
      ensures old(Tight()) ==> Tight()
    {
      MaskIsRemainder(hash, bucket.Length);
      var main := PrimarySlot(hash);
      if !Used(bucket[main]) {
        TakePrimary(main, hash);
        return main, main;
      }
      var free := FindFreeNodeIndex();
      if free == END { return END, END; }
      MaskIsRemainder(bucket[main].hash, bucket.Length);
      var occupiedMain := PrimarySlot(bucket[main].hash);
      if occupiedMain != main {
        DisplaceResident(main, free, hash);
        return main, free;
      }
      LinkBehindHead(main, free, hash);
      return free, free;
    }

    /** Stores key and value in the slot reserved for them. */
    method FillNode(index: nat, key: Key, value: int, ghost t: seq<MapNode>, ghost to: nat, ghost m: map<Key, int>)
      requires 0 < bucket.Length == hashBase + 1 && PowerOfTwo(bucket.Length) && -1 <= lastFree < bucket.Length
      requires Holds(t, m, END) && key !in m && Reserved(t, bucket[..], index, to)
      requires Chained(WithHash(bucket[..], index, key.hash), chain)
      requires forall s :: 0 <= s < bucket.Length && !Used(bucket[s]) ==> bucket[s] == Cleared()
      modifies bucket
      ensures Linked() && Holds(bucket[..], m[key := value], END) && UsedCount(bucket[..]) == UsedCount(old(bucket[..]))
      ensures old(Tight()) ==> Tight()
      ensures HasKey(bucket[index], key) && bucket[index].data.value.value == value
    {
      ghost var t' := bucket[..];
      NodeFilled(t, t', index, to, m, key, value, chain);
      bucket[index] := MapNode(key.hash, bucket[index].next, Some(Data(key, value)));
      assert bucket[..] == t'[index := MapNode(key.hash, t'[index].next, Some(Data(key, value)))];
    }

    /** A table under construction or in use: the chains hold `m`, and the cursor is tight. */
    ghost predicate Building(m: map<Key, int>, count: nat)
      reads this`bucket, this`hashBase, this`lastFree, this`chain, bucket
    {
      Linked() && Tight() && Holds(bucket[..], m, END) && UsedCount(bucket[..]) == count
    }

    /** While the cursor is tight, a table that is not full has room for any key: no failure is possible. */
    method PlaceNew(key: Key, value: int, ghost m: map<Key, int>, ghost count: nat) returns (index: int)
      requires Building(m, count) && count < bucket.Length && key !in m
      modifies this`lastFree, this`chain, bucket
      ensures bucket == old(bucket) && Building(m[key := value], count + 1)
      ensures 0 <= index < bucket.Length && HasKey(bucket[index], key)
    {
      ghost var to: int;
      ghost var t := bucket[..];
      index, to := InsertNewNode(key.hash);
      if index == END {
        UsedCountFull(t);
        assert false;
      } else {
        FillNode(index, key, value, t, to, m);
      }
    }

    /** Carries every node of the old array over to the new, empty one. */
    method CarryOver(from: array<MapNode>)
      requires from != bucket && Holds(from[..], model, END) && from.Length <= bucket.Length && Building(map[], 0)
      modifies this`lastFree, this`chain, bucket
      ensures Building(model, UsedCount(from[..]))
    {
      ghost var t, m := from[..], map[];
      assert t[..0] == [];
      for i := 0 to from.Length
        invariant from[..] == t && bucket == old(bucket)
        invariant HeldBefore(t, i, m) && Building(m, UsedCount(t[..i]))
      {
        HeldNext(t, i, m, model);
        assert t[..i + 1] == t[..i] + [t[i]];
        assert t[..i + 1][..i] == t[..i];
        if Used(from[i]) {
          UsedCountFull(t[..i]);
          var d := from[i].data.value;
          var target := PlaceNew(d.key, d.value, m, UsedCount(t[..i]));
          m := m[d.key := d.value];
        }
      }
      assert t[..from.Length] == t;
      HeldAll(t, m, model);
    }

    /** The capacity a rehash chooses: doubled from the current one until it is at least `minCapacity`. */
    method ChooseCapacity(minCapacity: nat) returns (r: Capacity)
      requires Valid()
      ensures r.TooLarge? <==> (if minCapacity == 0 then 2 * bucket.Length else minCapacity) > MAX_HASH_CAPACITY
      ensures r.Capacity? ==> PowerOfTwo(r.slots) && r.slots >= 2 && bucket.Length <= r.slots <= MAX_HASH_CAPACITY
      ensures r.Capacity? ==> minCapacity <= r.slots && (minCapacity == 0 ==> r.slots > bucket.Length)
      ensures r.Capacity? && bucket.Length > 0 && minCapacity <= bucket.Length && minCapacity > 0 ==> r.slots == bucket.Length
      ensures r.Capacity? && minCapacity > 0 ==> r.slots == bucket.Length || r.slots == 2 || r.slots / 2 < minCapacity
    {
      var newCapacity := if bucket.Length > 0 then bucket.Length else 2;
      var least := minCapacity;
      LimitIsPower();
      if least == 0 {
        var grown := GrowHashCapacity(newCapacity);
        if grown.TooLarge? { return TooLarge; }
        least := grown.slots;
      }
      while newCapacity < least
        invariant PowerOfTwo(newCapacity) && newCapacity >= 2 && bucket.Length <= newCapacity <= MAX_HASH_CAPACITY
        invariant bucket.Length > 0 && least <= bucket.Length ==> newCapacity == bucket.Length
        invariant newCapacity == bucket.Length || newCapacity == 2 || newCapacity / 2 < least
        decreases MAX_HASH_CAPACITY - newCapacity
      {
        if newCapacity < MAX_HASH_CAPACITY { PowerBelow(newCapacity, MAX_HASH_CAPACITY); }
        var grown := GrowHashCapacity(newCapacity);
        if grown.TooLarge? { return TooLarge; }
        newCapacity := grown.slots;
      }
      return Capacity(newCapacity);
    }

    /** A new array with no node in it. */
    method StartOver(newCapacity: nat)
      requires PowerOfTwo(newCapacity)
      modifies this`bucket, this`hashBase, this`lastFree, this`chain
      ensures fresh(bucket) && bucket.Length == newCapacity && Building(map[], 0)
    {
      bucket := new MapNode[newCapacity](_ => Cleared());
      hashBase, lastFree := newCapacity - 1, newCapacity - 1;
      chain := seq(newCapacity, _ => []);
      NothingYet(bucket[..], chain);
    }

    /** Rebuilds the table. It never drops a node: the only failure is a capacity beyond the limit, and that
        is raised before anything changes. */
    method ReMap(minCapacity: nat) returns (status: Status)
      requires Valid()
      modifies this`bucket, this`hashBase, this`lastFree, this`mutationVersion, this`chain
      ensures Valid() && model == old(model) && itemCount == old(itemCount)
      ensures status == LengthError <==>
        (if minCapacity == 0 then 2 * old(bucket.Length) else minCapacity) > MAX_HASH_CAPACITY
      ensures status == LengthError ==> bucket == old(bucket) && mutationVersion == old(mutationVersion)
      ensures status == Ok ==> fresh(bucket) && Filled(model, itemCount) && Building(model, itemCount)
      ensures status == Ok ==> bucket.Length >= minCapacity && bucket.Length >= old(bucket.Length)
      ensures status == Ok && minCapacity == 0 ==> bucket.Length > old(bucket.Length)
      ensures status == Ok && minCapacity >= 2 && minCapacity >= old(bucket.Length) && PowerOfTwo(minCapacity) ==> bucket.Length == minCapacity
      ensures status == Ok ==> mutationVersion == old(mutationVersion) + 1
    {
      var chosen := ChooseCapacity(minCapacity);
      if chosen.TooLarge? { return LengthError; }
      var newCapacity := chosen.slots;
      if PowerOfTwo(minCapacity) && minCapacity < newCapacity { PowerBelow(minCapacity, newCapacity); }
      var oldBucket := bucket;
      StartOver(newCapacity);
      CarryOver(oldBucket);
      mutationVersion := mutationVersion + 1;
      return Ok;
    }

    /** Rebuilds at the same capacity to recover the holes that removals left above the cursor; the second
        attempt to place the key cannot fail. */
    method RebuildAndPlace(key: Key, value: int) returns (index: int)
      requires Filled(model, itemCount) && key !in model && (itemCount + 1) * 4 <= bucket.Length * 3
      modifies this`bucket, this`hashBase, this`lastFree, this`mutationVersion, this`chain
      ensures fresh(bucket) && Filled(model[key := value], itemCount + 1) && mutationVersion >= old(mutationVersion)
      ensures bucket.Length == old(bucket.Length)
      ensures 0 <= index < bucket.Length && HasKey(bucket[index], key)
    {
      Rebuild();
      index := PlaceNew(key, value, model, itemCount);
    }

    /** A rebuild at the same capacity: with an item to spare, growing is never called for. */
    method Rebuild()
      requires Filled(model, itemCount) && (itemCount + 1) * 4 <= bucket.Length * 3
      modifies this`bucket, this`hashBase, this`lastFree, this`mutationVersion, this`chain
      ensures fresh(bucket) && Building(model, itemCount)
      ensures (itemCount + 1) * 4 <= bucket.Length * 3 && 2 <= bucket.Length <= MAX_HASH_CAPACITY
      ensures mutationVersion > old(mutationVersion) && bucket.Length == old(bucket.Length)
    {
      if itemCount + 1 >= bucket.Length { assert false; }
      var status := ReMap(bucket.Length);
    }

    /** Makes sure of a slot for a new key, at once or after a rebuild. */
    method PlaceOrRebuild(key: Key, value: int) returns (index: int)
      requires Filled(model, itemCount) && key !in model && (itemCount + 1) * 4 <= bucket.Length * 3
      modifies this`bucket, this`hashBase, this`lastFree, this`mutationVersion, this`chain, bucket
      ensures (bucket == old(bucket) || fresh(bucket)) && bucket.Length == old(bucket.Length)
      ensures Filled(model[key := value], itemCount + 1) && mutationVersion >= old(mutationVersion)
      ensures 0 <= index < bucket.Length && HasKey(bucket[index], key)
    {
      ghost var t, to := bucket[..], 0;
      index, to := InsertNewNode(key.hash);
      if index == END {
        index := RebuildAndPlace(key, value);
      } else {
        FillNode(index, key, value, t, to, model);
      }
    }

    method InsertNew(key: Key, value: int) returns (index: int)
      requires Filled(model, itemCount) && key !in model && (itemCount + 1) * 4 <= bucket.Length * 3
      modifies this, bucket
      ensures Filled(model, itemCount) && model == old(model)[key := value] && mutationVersion > old(mutationVersion)
      ensures (bucket == old(bucket) || fresh(bucket)) && bucket.Length == old(bucket.Length)
      ensures 0 <= index < bucket.Length && HasKey(bucket[index], key)
    {
      index := PlaceOrRebuild(key, value);
      CountInsertion(key, value);
    }

    method CountInsertion(ghost key: Key, ghost value: int)
      requires Filled(model[key := value], itemCount + 1)
      modifies this`itemCount, this`mutationVersion, this`model
      ensures Filled(model, itemCount) && model == old(model)[key := value] && mutationVersion == old(mutationVersion) + 1
    {
      itemCount := itemCount + 1;
      mutationVersion := mutationVersion + 1;
      model := model[key := value];
    }

    /** The slot for `key`, entered with no value if it was not there. The only failure is the capacity limit. */
    method Insert(key: Key, none: int) returns (status: Status, index: int)
      requires Valid()
      modifies this, bucket
      ensures Valid() && (bucket == old(bucket) || fresh(bucket))
      ensures status == LengthError <==>
        key !in old(model) && (old(itemCount) + 1) * 4 > old(bucket.Length) * 3 && 2 * old(bucket.Length) > MAX_HASH_CAPACITY
      ensures status == Ok ==> Filled(model, itemCount) && 0 <= index < bucket.Length && HasKey(bucket[index], key)
      ensures model == if status == Ok && key !in old(model) then old(model)[key := none] else old(model)
      ensures mutationVersion > old(mutationVersion) <==> status == Ok && key !in old(model)
      ensures mutationVersion >= old(mutationVersion)
      ensures mutationVersion == old(mutationVersion) ==> bucket == old(bucket) && bucket[..] == old(bucket[..])
      ensures status == Ok && key !in old(model) ==>
        bucket.Length == if old(bucket.Length) == 0 then 2
                         else if (old(itemCount) + 1) * 4 > old(bucket.Length) * 3 then 2 * old(bucket.Length) else old(bucket.Length)
    {
      var previous;
      ghost var m, p;
      index, previous, m, p := FindNodeIndex(key);
      if index != END { return Ok, index; }
      if bucket.Length == 0 || (itemCount + 1) * 4 > bucket.Length * 3 {
        var grown := GrowHashCapacity(bucket.Length);
        if grown.TooLarge? { return LengthError, END; }
        status := ReMap(grown.slots);
      }
      index := InsertNew(key, none);
      return Ok, index;
    }

    /** Enters a value under `key`. */
    method InsertValue(key: Key, value: int) returns (status: Status)
      requires Valid()
      modifies this, bucket
      ensures Valid() && (bucket == old(bucket) || fresh(bucket))
      ensures status == LengthError <==>
        key !in old(model) && (old(itemCount) + 1) * 4 > old(bucket.Length) * 3 && 2 * old(bucket.Length) > MAX_HASH_CAPACITY
      ensures model == if status == Ok then old(model)[key := value] else old(model)
      ensures mutationVersion > old(mutationVersion) <==> status == Ok && key !in old(model)
      ensures mutationVersion == old(mutationVersion) ==> bucket == old(bucket)
    {
      var index: int;
      status, index := Insert(key, 0);
      if status == Ok {
        Overwrite(index, key, value);
        UpdateTwice(old(model), key, 0, value);
        model := model[key := value];
      }
    }

    /** Stores another value in a slot. */
    method Overwrite(index: nat, key: Key, value: int)
      requires Filled(model, itemCount) && index < bucket.Length && HasKey(bucket[index], key)
      modifies bucket
      ensures Filled(model[key := value], itemCount)
    {
      ghost var t := bucket[..];
      ghost var node := t[index].(data := Some(Data(key, value)));
      OverwrittenHolds(t, index, model, key, value);
      UsedCountUpdate(t, index, node);
      bucket[index] := bucket[index].(data := Some(Data(key, value)));
      assert bucket[..] == t[index := node];
      DataIsNoLink(t, bucket[..], chain);
    }

    /** What taking out the node found at place `p` of the chain of `m` leaves. */
    ghost predicate Unlinked(t: seq<MapNode>, index: nat, from: nat)
      reads this`bucket, this`hashBase, this`lastFree, this`chain, bucket
    {
      && Linked() && TakenOut(t, bucket[..], index, from) && UsedCount(bucket[..]) == UsedCount(t) - 1
    }

    method Bypass(index: nat, previous: nat, ghost m: nat, ghost p: nat)
      requires Linked() && index < bucket.Length && previous < bucket.Length
      requires m < |chain| && 0 < p < |chain[m]| && chain[m][p] == index && chain[m][p - 1] == previous
      modifies this`chain, bucket
      ensures Unlinked(old(bucket[..]), index, index)
    {
      ghost var t := bucket[..];
      Apart(t, chain);
      assert ChainAt(t, chain[m], m);
      BypassedCounts(t, previous, index);
      Bypassed(t, chain, m, p);
      bucket[previous] := bucket[previous].(next := bucket[index].next);
      bucket[index] := Cleared();
      assert bucket[..] == t[previous := t[previous].(next := t[index].next)][index := Cleared()];
      chain := chain[m := chain[m][..p] + chain[m][p + 1..]];
    }

    /** Clears a head that has no successor. */
    method ClearHead(index: nat)
      requires Linked() && index < bucket.Length && |chain[index]| == 1 && chain[index][0] == index
      modifies this`chain, bucket
      ensures Unlinked(old(bucket[..]), index, index)
    {
      ghost var t := bucket[..];
      Apart(t, chain);
      LastCleared(t, chain, index);
      UsedCountUpdate(t, index, Cleared());
      bucket[index] := Cleared();
      assert bucket[..] == t[index := Cleared()];
      chain := chain[index := []];
    }

    /** Moves the successor of a head into the head's slot. */
    method ReplaceHead(index: nat)
      requires Linked() && index < bucket.Length && |chain[index]| > 1 && chain[index][0] == index
      modifies this`chain, bucket
      ensures Unlinked(old(bucket[..]), index, old(chain)[index][1])
    {
      ghost var t := bucket[..];
      ghost var c := chain[index];
      Apart(t, chain);
      assert ChainAt(t, c, index) && LinkAt(t, c, index, 0);
      var next := bucket[index].next;
      HeadReplaced(t, chain, index);
      HeadReplacedCounts(t, index, next);
      var moved := bucket[next];
      bucket[index] := moved;
      bucket[next] := Cleared();
      assert bucket[..] == t[index := t[next]][next := Cleared()];
      chain := chain[index := [index] + c[2..]];
    }

    /** Takes the node at `index` out of its chain. */
    method TakeOut(index: nat, previous: int, ghost key: Key, ghost m: nat, ghost p: nat) returns (ghost from: nat)
      requires Filled(model, itemCount) && m < |chain| && Found(key, index, previous, m, p)
      modifies this`chain, bucket
      ensures Unlinked(old(bucket[..]), index, from)
    {
      assert LinkAt(bucket[..], chain[m], m, p) && LinkAt(bucket[..], chain[m], m, 0) by { assert ChainAt(bucket[..], chain[m], m); }
      if previous != END {
        assert LinkAt(bucket[..], chain[m], m, p - 1) by { assert ChainAt(bucket[..], chain[m], m); }
        Bypass(index, previous, m, p);
        from := index;
      } else if bucket[index].next == END {
        ClearHead(index);
        from := index;
      } else {
        from := chain[index][1];
        ReplaceHead(index);
      }
    }

    /** Removes a key; a key that is not there changes nothing. */
    method Remove(key: Key)
      requires Valid()
      modifies this`chain, this`itemCount, this`mutationVersion, this`model, bucket
      ensures Valid() && model == old(model) - {key}
      ensures mutationVersion == old(mutationVersion) + if key in old(model) then 1 else 0
      ensures key !in old(model) ==> bucket[..] == old(bucket[..])
    {
      if bucket.Length == 0 { return; }
      var index, previous;
      ghost var m, p;
      index, previous, m, p := FindNodeIndex(key);
      if index == END { return; }
      TakeOutKey(index, previous, key, m, p);
      CountRemoval(key);
    }

    method CountRemoval(ghost key: Key)
      requires itemCount > 0 && Filled(model - {key}, itemCount - 1)
      modifies this`itemCount, this`mutationVersion, this`model
      ensures Valid() && model == old(model) - {key} && mutationVersion == old(mutationVersion) + 1
    {
      itemCount := itemCount - 1;
      mutationVersion := mutationVersion + 1;
      model := model - {key};
    }

    method TakeOutKey(index: nat, previous: int, ghost key: Key, ghost m: nat, ghost p: nat)
      requires Filled(model, itemCount) && m < |chain| && Found(key, index, previous, m, p)
      modifies this`chain, bucket
      ensures itemCount > 0 && Filled(model - {key}, itemCount - 1)
    {
      ghost var t := bucket[..];
      ghost var from := TakeOut(index, previous, key, m, p);
      TakenOutHolds(t, bucket[..], index, from, model, key);
    }

    /** Empties the map and winds the cursor back; the capacity stays. */
    method Clear()
      requires Valid()
      modifies this, bucket
      ensures Valid() && bucket == old(bucket) && model == map[]
      ensures old(itemCount) > 0 ==> Tight()
      ensures mutationVersion == old(mutationVersion) + if old(itemCount) > 0 then 1 else 0
    {
      if itemCount == 0 {
        NoItems();
        return;
      }
      mutationVersion := mutationVersion + 1;
      itemCount := 0;
      model := map[];
      ClearNodes();
    }

    method ClearNodes()
      requires Linked()
      modifies this`lastFree, this`chain, bucket
      ensures Building(map[], 0)
    {
      lastFree := bucket.Length - 1;
      ClearEach();
      chain := seq(bucket.Length, _ => []);
      NothingYet(bucket[..], chain);
    }

    method ClearEach()
      modifies bucket
      ensures forall s :: 0 <= s < bucket.Length ==> bucket[s] == Cleared()
    {
      for i := 0 to bucket.Length
        invariant forall s :: 0 <= s < i ==> bucket[s] == Cleared()
      {
        bucket[i] := Cleared();
      }
    }

    lemma NoItems()
      requires Valid() && itemCount == 0
      ensures model == map[]
    {
      if Filled(model, itemCount) {
        forall k | k in model ensures false {
          assert Present(bucket[..], END, k);
          var s :| 0 <= s < bucket.Length && HasKey(bucket[..][s], k);
          UsedCountUpdate(bucket[..], s, Cleared());
        }
      }
    }

    /** Makes room for `items` keys; the contents stay. */
    method Reserve(items: int) returns (status: Status)
      requires Valid()
      modifies this`bucket, this`hashBase, this`lastFree, this`mutationVersion, this`chain
      ensures Valid() && model == old(model)
      ensures status == LengthError <==> items > MAX_HASH_ITEMS
      ensures status == Ok ==> bucket.Length * 3 >= items * 4
      ensures mutationVersion == old(mutationVersion) + if bucket == old(bucket) then 0 else 1
      ensures bucket == old(bucket) <==> status == LengthError || old(bucket.Length) == bucket.Length
      ensures status == Ok && bucket != old(bucket) && bucket.Length > 2 ==> bucket.Length / 2 * 3 < items * 4
    {
      var wanted := HashCapacityForItems(if items < 0 then 0 else items);
      if wanted.TooLarge? { return LengthError; }
      if wanted.slots > bucket.Length { status := ReMap(wanted.slots); }
      return Ok;
    }

    /** Lists every key once. */
    method ToListKeys() returns (keys: seq<Key>, complete: bool)
      requires Valid()
      ensures complete && |keys| == itemCount && Distinct(keys)
      ensures forall k :: k in keys <==> k in model
    {
      keys := [];
      if bucket.Length == 0 { return [], true; }
      ghost var t := bucket[..];
      for i := 0 to bucket.Length
        invariant |keys| == UsedCount(t[..i]) && Distinct(keys)
        invariant forall k :: k in keys <==> Present(t[..i], END, k)
      {
        ListNext(t, i, model, keys);
        if Used(bucket[i]) { keys := keys + [bucket[i].data.value.key]; }
      }
      assert t[..bucket.Length] == t;
      complete := |keys| == itemCount;
    }
  }
}
