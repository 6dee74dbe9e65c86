/** Linear probing on a ring of slots: every string can be reached from its home slot without crossing a gap. */
module ProbeRing {
  import opened Collections

  /** A text with the hash that every copy of it has. */
  datatype Text = Text(hash: nat, chars: string)
  datatype StringInfo = StringInfo(id: nat, text: Text)
  type Ring = seq<Option<StringInfo>>

  /** `x` lies on the way from `h` up to, not including, `i`. */
  predicate OnPath(h: nat, x: nat, i: nat) { if h <= i then h <= x < i else h <= x || x < i }

  function Next(t: Ring, i: nat): (r: nat)
    requires i < |t|
    ensures r < |t|
  {
    if i + 1 == |t| then 0 else i + 1
  }

  /** Slots from `i` up to `e`. */
  function Ahead(t: Ring, i: nat, e: nat): nat
    requires i < |t| && e < |t|
  {
    if i <= e then e - i else e + |t| - i
  }

  function Home(t: Ring, s: StringInfo): (r: nat)
    requires |t| > 0
    ensures r < |t|
  {
    s.text.hash % |t|
  }

  predicate PathFull(t: Ring, h: nat, i: nat) {
    forall x :: 0 <= x < |t| && OnPath(h, x, i) ==> t[x].Some?
  }

  /** Every string is reachable from its home. */
  predicate Probed(t: Ring) {
    |t| > 0 && forall i :: 0 <= i < |t| && t[i].Some? ==> PathFull(t, Home(t, t[i].value), i)
  }

  /** The ring holds exactly the strings of `live`, each once. */
  ghost predicate Holds(t: Ring, live: set<StringInfo>) {
    && (forall i :: 0 <= i < |t| && t[i].Some? ==> t[i].value in live)
    && (forall i, j :: 0 <= i < |t| && 0 <= j < |t| && t[i].Some? && i != j ==> t[i] != t[j])
    && (forall s :: s in live ==> Some(s) in t)
  }

  function Occupied(t: Ring): nat {
    if t == [] then 0 else Occupied(t[..|t| - 1]) + (if t[|t| - 1].Some? then 1 else 0)
  }

  lemma {:induction false} OccupiedUpdate(t: Ring, i: nat, v: Option<StringInfo>)
    requires i < |t|
    ensures Occupied(t[i := v]) == Occupied(t) - (if t[i].Some? then 1 else 0) + (if v.Some? then 1 else 0)
  {
    var last := |t| - 1;
    if i < last {
      OccupiedUpdate(t[..last], i, v);
      assert t[i := v][..last] == t[..last][i := v];
    } else {
      assert t[i := v][..last] == t[..last];
    }
  }

  /** A ring with fewer strings than slots has a gap. */
  lemma {:induction false} GapExists(t: Ring) returns (e: nat)
    requires Occupied(t) < |t|
    ensures e < |t| && t[e].None?
  {
    var last := |t| - 1;
    if t[last].None? { e := last; } else { e := GapExists(t[..last]); }
  }

  /** The first gap from `i` on. */
  lemma {:induction false} NextGap(t: Ring, i: nat, e: nat) returns (g: nat)
    requires i < |t| && e < |t| && t[e].None?
    ensures g < |t| && t[g].None? && PathFull(t, i, g)
    decreases Ahead(t, i, e)
  {
    if t[i].None? {
      g := i;
    } else {
      g := NextGap(t, Next(t, i), e);
    }
  }

  lemma {:induction false} NoneOccupied(t: Ring)
    requires forall i :: 0 <= i < |t| ==> t[i].None?
    ensures Occupied(t) == 0
  {
    if t != [] { NoneOccupied(t[..|t| - 1]); }
  }

  lemma {:induction false} OccupiedPrefix(t: Ring, i: nat)
    requires i <= |t|
    ensures Occupied(t[..i]) <= Occupied(t)
  {
    if i < |t| {
      OccupiedPrefix(t[..|t| - 1], i);
      assert t[..|t| - 1][..i] == t[..i];
    } else {
      assert t[..i] == t;
    }
  }

  /** One more slot carried over. */
  lemma MoveNext(t: Ring, i: nat)
    requires i < |t| && forall j, k :: 0 <= j < |t| && 0 <= k < |t| && t[j].Some? && j != k ==> t[j] != t[k]
    ensures Occupied(t[..i + 1]) == Occupied(t[..i]) + (if t[i].Some? then 1 else 0) <= Occupied(t)
    ensures t[i].Some? ==> t[i] !in t[..i]
    ensures forall s :: Some(s) in t[..i + 1] <==> Some(s) in t[..i] || t[i] == Some(s)
  {
    assert t[..i + 1][..i] == t[..i];
    OccupiedPrefix(t, i + 1);
    assert t[..i + 1] == t[..i] + [t[i]];
  }

  // ---------------------------------------------------------------- finding

  /** A string lies before the first gap from its home. */
  lemma BeforeGap(t: Ring, i: nat, gap: nat)
    requires Probed(t) && i < |t| && gap < |t| && t[i].Some? && t[gap].None?
    ensures OnPath(Home(t, t[i].value), i, gap)
  {
  }

  // ---------------------------------------------------------------- adding

  lemma Added(t: Ring, live: set<StringInfo>, i: nat, s: StringInfo)
    requires Probed(t) && Holds(t, live) && i < |t| && t[i].None? && PathFull(t, Home(t, s), i) && s !in live
    ensures Probed(t[i := Some(s)]) && Holds(t[i := Some(s)], live + {s})
  {
    var t' := t[i := Some(s)];
    assert t'[i] == Some(s);
    forall x | x in live ensures Some(x) in t' {
      var k :| 0 <= k < |t| && t[k] == Some(x);
      assert t'[k] == Some(x);
    }
  }

  // ---------------------------------------------------------------- closing a hole

  lemma OccupiedBelow(t: Ring, i: nat)
    requires i < |t| && t[i].None?
    ensures Occupied(t) < |t|
  {
    OccupiedUpdate(t, i, Some(StringInfo(0, Text(0, ""))));
    OccupiedAtMost(t[i := Some(StringInfo(0, Text(0, "")))]);
  }

  lemma {:induction false} OccupiedAtMost(t: Ring)
    ensures Occupied(t) <= |t|
  {
    if t != [] { OccupiedAtMost(t[..|t| - 1]); }
  }

  lemma Emptied(t: Ring, rest: set<StringInfo>, hole: nat, s: StringInfo)
    requires Holds(t, rest + {s}) && s !in rest && hole < |t| && t[hole] == Some(s)
    ensures Holds(t[hole := None], rest)
  {
    var t' := t[hole := None];
    forall x | x in rest ensures Some(x) in t' {
      var k :| 0 <= k < |t| && t[k] == Some(x);
      assert t'[k] == Some(x);
    }
  }

  lemma MovedHolds(t: Ring, live: set<StringInfo>, from: nat, to: nat)
    requires Holds(t, live) && from < |t| && to < |t| && t[from].Some? && t[from := None][to].None?
    ensures Holds(t[from := None][to := t[from]], live)
  {
    var t' := t[from := None][to := t[from]];
    forall x | x in live ensures Some(x) in t' {
      var k :| 0 <= k < |t| && t[k] == Some(x);
      assert t'[if k == from then to else k] == Some(x);
    }
  }

  predicate PathFullBut(t: Ring, h: nat, i: nat, hole: nat, cursor: nat) {
    forall x :: 0 <= x < |t| && OnPath(h, x, i) ==> t[x].Some? || OnPath(hole, x, cursor)
  }

  /** The strings from `cursor` to the gap `e` still wait to be put back; they may miss slots between the
      hole and the cursor. All others are reachable. */
  predicate Repairing(t: Ring, hole: nat, cursor: nat, e: nat) {
    && hole < |t| && cursor < |t| && e < |t| && hole != e && t[e].None?
    && (cursor == e || OnPath(hole, cursor, e)) && cursor != hole
    && PathFull(t, cursor, e)
    && (forall i :: 0 <= i < |t| && t[i].Some? && !OnPath(cursor, i, e) ==> PathFull(t, Home(t, t[i].value), i))
    && (forall i :: 0 <= i < |t| && t[i].Some? && OnPath(cursor, i, e) ==> PathFullBut(t, Home(t, t[i].value), i, hole, cursor))
  }

  lemma RepairStart(t: Ring, hole: nat, e: nat)
    requires Probed(t) && hole < |t| && t[hole].Some? && e < |t| && t[e].None? && PathFull(t, hole, e)
    ensures Repairing(t[hole := None], hole, Next(t, hole), e)
  {
  }

  lemma RepairStep(t: Ring, hole: nat, cursor: nat, e: nat, target: nat)
    requires Repairing(t, hole, cursor, e) && cursor != e && t[cursor].Some? && target < |t|
    requires t[cursor := None][target].None? && PathFull(t[cursor := None], Home(t, t[cursor].value), target)
    ensures Repairing(t[cursor := None][target := t[cursor]], hole, Next(t, cursor), e)
  {
    var d := t[cursor].value;
    var t1 := t[cursor := None];
    var t2 := t1[target := Some(d)];
    assert PathFullBut(t, Home(t, d), cursor, hole, cursor);
    assert t[e].None? && !OnPath(hole, e, cursor) && !OnPath(Home(t, d), e, cursor);
    assert t1[cursor].None? && !OnPath(Home(t, d), cursor, target);
    assert target != e;
    var next := Next(t, cursor);
    forall i | 0 <= i < |t| && t2[i].Some? && !OnPath(next, i, e) ensures PathFull(t2, Home(t2, t2[i].value), i) {
      if i != target { assert !OnPath(cursor, i, e) && !OnPath(Home(t, t[i].value), cursor, i); }
    }
    forall i | 0 <= i < |t| && t2[i].Some? && OnPath(next, i, e) ensures PathFullBut(t2, Home(t2, t2[i].value), i, hole, next) {
      assert i != target && OnPath(cursor, i, e);
    }
  }

  lemma RepairDone(t: Ring, hole: nat, e: nat)
    requires Repairing(t, hole, e, e)
    ensures Probed(t)
  {
  }
}

/** The table of canonical strings. */
module StringIntern {
  import opened Collections
  import opened HashCapacity
  import opened ProbeRing

  class CNeoVM {
    var slots: Ring
    var count: nat
    var nextId: nat
    ghost var live: set<StringInfo>

    /** The slots hold `strings`, all reachable, and `count` of them. */
    ghost predicate Table(strings: set<StringInfo>)
      reads this`slots, this`count
    {
      PowerOfTwo(|slots|) && Probed(slots) && Holds(slots, strings) && count == Occupied(slots)
    }

    ghost predicate Canonical()
      reads this`live, this`nextId
    {
      && (forall a, b :: a in live && b in live && a.text == b.text ==> a == b)
      && (forall s :: s in live ==> s.id < nextId)
    }

    ghost predicate Valid()
      reads this
    {
      && Canonical()
      && if slots == [] then live == {} && count == 0
         else Table(live) && |slots| >= 64 && count * 4 <= |slots| * 3
    }

    constructor ()
      ensures Valid() && live == {}
    {
      slots, count, nextId, live := [], 0, 0, {};
    }

    /** The slot after `i`, around the end. */
    function Step(i: nat): nat
      requires |slots| > 0
      reads this`slots
    {
      BitAnd(i + 1, |slots| - 1)
    }

    lemma StepIsNext(i: nat)
      requires PowerOfTwo(|slots|) && i < |slots|
      ensures Step(i) == Next(slots, i)
    {
      MaskedSuccessor(i, |slots|);
    }

    /** The first gap from the home of `s`; there is one as long as the table is not full. */
    method ProbeGap(s: StringInfo) returns (index: nat)
      requires PowerOfTwo(|slots|) && Occupied(slots) < |slots|
      ensures index < |slots| && slots[index].None? && PathFull(slots, Home(slots, s), index)
    {
      MaskIsRemainder(s.text.hash, |slots|);
      index := BitAnd(s.text.hash, |slots| - 1);
      ghost var e := GapExists(slots);
      while slots[index].Some?
        invariant index < |slots| && PathFull(slots, Home(slots, s), index)
        decreases Ahead(slots, index, e)
      {
        StepIsNext(index);
        index := Step(index);
      }
    }

    method FindInternedString(text: Text) returns (found: Option<StringInfo>)
      requires Valid()
      ensures found.Some? ==> found.value in live && found.value.text == text
      ensures found.None? ==> forall s :: s in live ==> s.text != text
    {
      if slots == [] { return None; }
      MaskIsRemainder(text.hash, |slots|);
      var index: nat := BitAnd(text.hash, |slots| - 1);
      ghost var e := GapExists(slots);
      while true
        invariant index < |slots| && Passed(text, index)
        decreases Ahead(slots, index, e)
      {
        var candidate := slots[index];
        if candidate.None? {
          NotFound(text, index);
          return None;
        }
        if candidate.value.text == text { return candidate; }
        StepIsNext(index);
        index := Step(index);
      }
    }

    /** Every slot from the home of `text` up to `index` holds another text. */
    predicate Passed(text: Text, index: nat)
      requires |slots| > 0
      reads this`slots
    {
      forall x :: 0 <= x < |slots| && OnPath(text.hash % |slots|, x, index) ==> slots[x].Some? && slots[x].value.text != text
    }

    lemma NotFound(text: Text, gap: nat)
      requires Valid() && gap < |slots| && slots[gap].None? && Passed(text, gap)
      ensures forall s :: s in live ==> s.text != text
    {
      forall s | s in live ensures s.text != text {
        var i :| 0 <= i < |slots| && slots[i] == Some(s);
        BeforeGap(slots, i, gap);
      }
    }

    /** Puts a string into the first gap from its home. */
    method Place(s: StringInfo, ghost strings: set<StringInfo>)
      requires Table(strings) && count < |slots| && s !in strings
      modifies this`slots, this`count
      ensures Table(strings + {s}) && |slots| == |old(slots)| && count == old(count) + 1
    {
      var index := ProbeGap(s);
      Added(slots, strings, index, s);
      OccupiedUpdate(slots, index, Some(s));
      slots := slots[index := Some(s)];
      count := count + 1;
    }

    /** Moves every string to a new table, of the least power of two that is at least `capacity` and 64. */
    method RehashStringIntern(capacity: nat)
      requires (slots == [] && live == {} && count == 0) || (Table(live) && count * 4 <= capacity * 3)
      modifies this`slots, this`count
      ensures Table(live) && count == old(count) && count * 4 <= |slots| * 3
      ensures |slots| >= 64 && |slots| >= capacity && (|slots| == 64 || |slots| / 2 < capacity)
      ensures PowerOfTwo(capacity) && capacity >= 64 ==> |slots| == capacity
    {
      var least := if capacity < 64 then 64 else capacity;
      var powerOfTwo := 1;
      while powerOfTwo < least
        invariant PowerOfTwo(powerOfTwo) && (powerOfTwo == 1 || powerOfTwo / 2 < least)
        decreases least - powerOfTwo
      {
        powerOfTwo := powerOfTwo * 2;
      }
      PowersFromSixtyFour(powerOfTwo);
      if PowerOfTwo(capacity) && powerOfTwo > capacity { PowerBelow(capacity, powerOfTwo); }
      var oldSlots := slots;
      StartOver(powerOfTwo);
      MoveAll(oldSlots);
    }

    method StartOver(size: nat)
      requires PowerOfTwo(size)
      modifies this`slots, this`count
      ensures |slots| == size && count == 0 && Table({})
    {
      slots, count := seq(size, _ => None), 0;
      NoneOccupied(slots);
    }

    method MoveAll(from: Ring)
      requires Table({}) && count == 0 && Holds(from, live) && Occupied(from) < |slots|
      modifies this`slots, this`count
      ensures Table(live) && count == Occupied(from) && |slots| == |old(slots)|
    {
      ghost var moved: set<StringInfo> := {};
      for i := 0 to |from|
        invariant Table(moved) && count == Occupied(from[..i]) && |slots| == |old(slots)|
        invariant forall s :: s in moved <==> Some(s) in from[..i]
      {
        MoveNext(from, i);
        if from[i].Some? {
          Place(from[i].value, moved);
          moved := moved + {from[i].value};
        }
      }
      assert from[..|from|] == from;
      assert moved == live;
    }

    /** Adds a string whose text is not yet in the table, doubling the table at a load above three quarters. */
    method InsertInternedString(s: StringInfo)
      requires Valid() && s.id < nextId && forall a :: a in live ==> a.text != s.text
      modifies this`slots, this`count, this`live
      ensures Valid() && live == old(live) + {s} && count == old(count) + 1
      ensures |slots| == if old(slots) == [] then 64 else if (old(count) + 1) * 4 > |old(slots)| * 3 then 2 * |old(slots)| else |old(slots)|
    {
      if slots == [] || (count + 1) * 4 > |slots| * 3 {
        SixtyFour();
        if slots != [] { Doubled(|slots|); }
        RehashStringIntern(if slots == [] then 64 else |slots| * 2);
      }
      Place(s, live);
      live := live + {s};
    }

    /** The canonical string of a text: the one there is, or a new one. */
    method Intern(text: Text) returns (s: StringInfo)
      requires Valid()
      modifies this
      ensures Valid() && s in live && s.text == text
      ensures forall a :: a in old(live) && a.text == text ==> s == a && live == old(live)
      ensures live == old(live) + {s}
    {
      var existing := FindInternedString(text);
      if existing.Some? { return existing.value; }
      s := StringInfo(nextId, text);
      nextId := nextId + 1;
      InsertInternedString(s);
    }

    /** Takes a string out, puts the rest of its cluster back, and shrinks a table that has become sparse. */
    method RemoveInternedString(s: StringInfo)
      requires Valid()
      modifies this`slots, this`count, this`live
      ensures Valid() && live == old(live) - {s}
      ensures s !in old(live) ==> slots == old(slots)
      ensures s in old(live) ==> |slots| <= |old(slots)| && (|slots| / 2 <= 64 || |slots| / 4 * 3 < count * 4)
      ensures |slots| == |old(slots)| || (2 * |slots| < |old(slots)| && (|slots| == 64 || |slots| / 2 * 3 < count * 4))
    {
      if slots == [] { return; }
      var index := Locate(s);
      if slots[index].None? { return; }
      live := live - {s};
      CloseHole(index, s, live);
      Shrink();
    }

    /** The slot of `s`, or the first gap from its home if it is not in the table. */
    method Locate(s: StringInfo) returns (index: nat)
      requires Valid() && slots != []
      ensures index < |slots| && slots[index] == if s in live then Some(s) else None
    {
      MaskIsRemainder(s.text.hash, |slots|);
      index := BitAnd(s.text.hash, |slots| - 1);
      ghost var e := GapExists(slots);
      while slots[index] != Some(s)
        invariant index < |slots|
        invariant forall x :: 0 <= x < |slots| && OnPath(Home(slots, s), x, index) ==> slots[x].Some? && slots[x] != Some(s)
        decreases Ahead(slots, index, e)
      {
        if slots[index].None? {
          if s in live {
            var i :| 0 <= i < |slots| && slots[i] == Some(s);
            BeforeGap(slots, i, index);
          }
          return;
        }
        StepIsNext(index);
        index := Step(index);
      }
    }

    /** Empties the slot of `s`; the strings up to the next gap `e` have to be put back. */
    method OpenHole(hole: nat, ghost s: StringInfo, ghost rest: set<StringInfo>) returns (ghost e: nat)
      requires Table(rest + {s}) && s !in rest && hole < |slots| && slots[hole] == Some(s) && count < |slots|
      modifies this`slots, this`count
      ensures |slots| == |old(slots)| && PowerOfTwo(|slots|) && Holds(slots, rest)
      ensures count == Occupied(slots) == old(count) - 1
      ensures Repairing(slots, hole, Next(slots, hole), e)
    {
      ghost var g := GapExists(slots);
      e := NextGap(slots, hole, g);
      RepairStart(slots, hole, e);
      OccupiedUpdate(slots, hole, None);
      Emptied(slots, rest, hole, s);
      slots := slots[hole := None];
      count := count - 1;
    }

    /** Empties the slot of `s` and reinserts the strings behind it, up to the next gap. */
    method CloseHole(hole: nat, ghost s: StringInfo, ghost rest: set<StringInfo>)
      requires Table(rest + {s}) && s !in rest && hole < |slots| && slots[hole] == Some(s) && count < |slots|
      modifies this`slots, this`count
      ensures Table(rest) && |slots| == |old(slots)| && count == old(count) - 1
    {
      ghost var e := OpenHole(hole, s, rest);
      StepIsNext(hole);
      var cursor := Step(hole);
      while slots[cursor].Some?
        invariant |slots| == |old(slots)| && PowerOfTwo(|slots|) && Holds(slots, rest)
        invariant count == Occupied(slots) == old(count) - 1
        invariant Repairing(slots, hole, cursor, e)
        decreases Ahead(slots, cursor, e)
      {
        Reinsert(hole, cursor, e, rest);
        StepIsNext(cursor);
        cursor := Step(cursor);
      }
      RepairDone(slots, hole, e);
    }

    /** Moves one string of the cluster to the first gap from its home. */
    method Reinsert(ghost hole: nat, cursor: nat, ghost e: nat, ghost rest: set<StringInfo>)
      requires PowerOfTwo(|slots|) && Holds(slots, rest) && count == Occupied(slots)
      requires Repairing(slots, hole, cursor, e) && cursor != e && slots[cursor].Some?
      modifies this`slots, this`count
      ensures |slots| == |old(slots)| && Holds(slots, rest) && count == Occupied(slots) == old(count)
      ensures Repairing(slots, hole, Next(slots, cursor), e)
    {
      var displaced := slots[cursor].value;
      ghost var t := slots;
      OccupiedUpdate(slots, cursor, None);
      slots := slots[cursor := None];
      count := count - 1;
      OccupiedBelow(slots, cursor);
      var target := ProbeGap(displaced);
      OccupiedUpdate(slots, target, Some(displaced));
      RepairStep(t, hole, cursor, e, target);
      MovedHolds(t, rest, cursor, target);
      slots := slots[target := Some(displaced)];
      count := count + 1;
    }

    /** The least capacity that is sufficient for the strings there are. */
    method DesiredCapacity() returns (capacity: nat)
      ensures PowerOfTwo(capacity) && capacity >= 64 && count * 4 <= capacity * 3
      ensures capacity == 64 || capacity / 2 * 3 < count * 4
    {
      capacity := 64;
      SixtyFour();
      while count * 4 > capacity * 3
        invariant PowerOfTwo(capacity) && capacity >= 64
        invariant capacity == 64 || capacity / 2 * 3 < count * 4
        decreases count * 4 - capacity * 3
      {
        Doubled(capacity);
        capacity := capacity * 2;
      }
    }

    /** Rehashes to the least sufficient capacity when that is less than half the present one. */
    method Shrink()
      requires Valid() && slots != []
      modifies this`slots, this`count
      ensures Valid() && slots != [] && |slots| <= |old(slots)|
      ensures |slots| / 2 <= 64 || |slots| / 4 * 3 < count * 4
      ensures slots == old(slots) || (2 * |slots| < |old(slots)| && (|slots| == 64 || |slots| / 2 * 3 < count * 4))
    {
      var desiredCapacity := DesiredCapacity();
      if desiredCapacity < |slots| / 2 { RehashStringIntern(desiredCapacity); }
    }
  }
}
