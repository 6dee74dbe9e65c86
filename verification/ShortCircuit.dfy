/** Short-circuit lowering of `&&` / `||` chains: the code emitter with its backpatch lists, the
    fusion of two adjacent comparisons into one range jump, and a machine that runs the result. */
module ShortCircuit {
  import opened Collections

  // ---------------------------------------------------------------- source chains

  datatype Rel = Gr | Ge | Ls | Le | Eq | Ne

  /** What an operand leaves behind: a slot tested for `true`, or a comparison of two slots. */
  datatype Test = Truthy(slot: int) | Compare(rel: Rel, left: int, right: int)

  /** One operand of the chain: opaque code run first (calls, element reads, arithmetic), then a test. */
  datatype Atom = Atom(pre: seq<nat>, test: Test)

  datatype Connective = And | Or

  datatype Chain = Chain(atoms: seq<Atom>, ops: seq<Connective>)
  {
    predicate Valid() { |atoms| == |ops| + 1 }
  }

  // ---------------------------------------------------------------- the machine

  datatype Value = Int(i: int) | Bool(b: bool) | Other(tag: int)
  type Store = map<int, Value>

  /** The effect of an opaque operation; every theorem holds for every such function. */
  type Effects = (nat, Store) -> Store

  datatype Event = Ran(id: nat) | Compared(orEqual: bool, left: int, right: int) | Equated(left: int, right: int)

  datatype Range = Range(lower: int, upper: int, lowerInclusive: bool, upperInclusive: bool, upperFirst: bool)

  datatype Op =
    | Run(id: nat)
    | CompareOp(rel: Rel, left: int, right: int)
    | JumpCompare(rel: Rel, invert: bool, offset: int, left: int, right: int)
    | JumpFalse(offset: int, slot: int)
    | JumpTrue(offset: int, slot: int)
    | Jump(offset: int)
    | SetBool(slot: int, value: bool)
    | JumpRange(inside: bool, offset: int, test: int, index: nat)

  function Read(s: Store, slot: int): Value { if slot in s then s[slot] else Other(0) }

  /** `left > right` or `left >= right` on integers; anything else selects the error opcode. */
  function Ordered(s: Store, orEqual: bool, left: int, right: int): Option<bool> {
    match (Read(s, left), Read(s, right))
    case (Int(x), Int(y)) => Some(if orEqual then x >= y else x > y)
    case _ => None
  }

  /** The comparison the interpreter performs for a relation: `<` and `<=` swap their operands. */
  function RelEvent(rel: Rel, a: int, b: int): Event {
    match rel
    case Gr => Compared(false, a, b)
    case Ge => Compared(true, a, b)
    case Ls => Compared(false, b, a)
    case Le => Compared(true, b, a)
    case Eq => Equated(a, b)
    case Ne => Equated(a, b)
  }

  function RelHolds(s: Store, rel: Rel, a: int, b: int): Option<bool> {
    match rel
    case Gr => Ordered(s, false, a, b)
    case Ge => Ordered(s, true, a, b)
    case Ls => Ordered(s, false, b, a)
    case Le => Ordered(s, true, b, a)
    case Eq => Some(Read(s, a) == Read(s, b))
    case Ne => Some(Read(s, a) != Read(s, b))
  }

  datatype Verdict = Verdict(result: Option<bool>, events: seq<Event>)

  /** The range test in its declared order; `negated` is the form that rejects outside values. */
  function RangeTest(s: Store, r: Range, test: int, negated: bool): Verdict {
    var lowEvent := if negated then Compared(!r.lowerInclusive, r.lower, test) else Compared(r.lowerInclusive, test, r.lower);
    var highEvent := if negated then Compared(!r.upperInclusive, test, r.upper) else Compared(r.upperInclusive, r.upper, test);
    var first := if r.upperFirst then highEvent else lowEvent;
    var second := if r.upperFirst then lowEvent else highEvent;
    match Ordered(s, first.orEqual, first.left, first.right)
    case None => Verdict(None, [first])
    case Some(v) =>
      if v == negated then Verdict(Some(false), [first])
      else match Ordered(s, second.orEqual, second.left, second.right)
        case None => Verdict(None, [first, second])
        case Some(w) => Verdict(Some(w != negated), [first, second])
  }

  datatype Halt = Halt(pc: int, store: Store, trace: seq<Event>, trapped: bool)

  function Step(op: Op, ranges: seq<Range>, eff: Effects, pc: nat, s: Store, tr: seq<Event>): Halt {
    match op
    case Run(id) => Halt(pc + 1, eff(id, s), tr + [Ran(id)], false)
    case CompareOp(_, _, _) => Halt(pc + 1, s, tr, false)
    case JumpCompare(rel, invert, offset, a, b) =>
      (match RelHolds(s, rel, a, b)
       case None => Halt(pc, s, tr + [RelEvent(rel, a, b)], true)
       case Some(v) => Halt(if v == !invert then pc + 1 + offset else pc + 1, s, tr + [RelEvent(rel, a, b)], false))
    case JumpFalse(offset, slot) => Halt(if Read(s, slot) != Bool(true) then pc + 1 + offset else pc + 1, s, tr, false)
    case JumpTrue(offset, slot) => Halt(if Read(s, slot) == Bool(true) then pc + 1 + offset else pc + 1, s, tr, false)
    case Jump(offset) => Halt(pc + 1 + offset, s, tr, false)
    case SetBool(slot, value) => Halt(pc + 1, s[slot := Bool(value)], tr, false)
    case JumpRange(inside, offset, test, index) =>
      if index >= |ranges| then Halt(pc, s, tr, true)
      else
        var verdict := RangeTest(s, ranges[index], test, inside);
        match verdict.result
        case None => Halt(pc, s, tr + verdict.events, true)
        case Some(v) => Halt(if v == inside then pc + 1 + offset else pc + 1, s, tr + verdict.events, false)
  }

  /** Runs from `pc` until control leaves the buffer, jumps backwards or traps. */
  function Exec(code: seq<Op>, ranges: seq<Range>, eff: Effects, pc: nat, s: Store, tr: seq<Event>): Halt
    decreases if pc < |code| then |code| - pc else 0
  {
    if pc >= |code| then Halt(pc, s, tr, false)
    else
      var next := Step(code[pc], ranges, eff, pc, s, tr);
      if next.trapped || next.pc <= pc then next
      else Exec(code, ranges, eff, next.pc, next.store, next.trace)
  }

  // ---------------------------------------------------------------- reference meaning

  datatype Outcome = Done(value: bool, store: Store, trace: seq<Event>) | Trap(store: Store, trace: seq<Event>)

  predicate IsTrue(o: Outcome) { o.Done? && o.value }

  function RunPre(pre: seq<nat>, eff: Effects, s: Store): Store {
    if pre == [] then s else RunPre(pre[1..], eff, eff(pre[0], s))
  }

  function PreTrace(pre: seq<nat>, tr: seq<Event>): seq<Event> {
    if pre == [] then tr else PreTrace(pre[1..], tr + [Ran(pre[0])])
  }

  function EvalAtom(a: Atom, eff: Effects, s0: Store, tr0: seq<Event>): Outcome {
    var s, tr := RunPre(a.pre, eff, s0), PreTrace(a.pre, tr0);
    match a.test
    case Truthy(slot) => Done(Read(s, slot) == Bool(true), s, tr)
    case Compare(rel, l, r) =>
      match RelHolds(s, rel, l, r)
      case None => Trap(s, tr + [RelEvent(rel, l, r)])
      case Some(v) => Done(v, s, tr + [RelEvent(rel, l, r)])
  }

  /** An AND group: atoms left to right, stopping at the first false one. */
  function EvalAnd(group: seq<Atom>, eff: Effects, s: Store, tr: seq<Event>): Outcome {
    if group == [] then Done(true, s, tr)
    else
      var first := EvalAtom(group[0], eff, s, tr);
      if first.Trap? || !first.value then first else EvalAnd(group[1..], eff, first.store, first.trace)
  }

  /** The OR of AND groups: groups left to right, stopping at the first true one. */
  function EvalOr(groups: seq<seq<Atom>>, eff: Effects, s: Store, tr: seq<Event>): Outcome {
    if groups == [] then Done(false, s, tr)
    else
      var first := EvalAnd(groups[0], eff, s, tr);
      if first.Trap? || first.value then first else EvalOr(groups[1..], eff, first.store, first.trace)
  }

  /** The index just past the AND group that atom `i` belongs to. */
  function GroupEnd(ops: seq<Connective>, i: nat): (e: nat)
    requires i <= |ops|
    ensures i < e <= |ops| + 1
    ensures e <= |ops| ==> ops[e - 1] == Or
    ensures forall k :: i <= k < e - 1 ==> ops[k] == And
    decreases |ops| - i
  {
    if i == |ops| || ops[i] == Or then i + 1
    else
      assert ops[i] == And;
      var e := GroupEnd(ops, i + 1);
      assert forall k :: i <= k < e - 1 ==> k == i || ops[k] == And;
      e
  }

  /** `&&` binds tighter than `||`: the chain from atom `i` on, split at every `||`. */
  function Groups(c: Chain, i: nat): seq<seq<Atom>>
    requires c.Valid() && i <= |c.atoms|
    decreases |c.atoms| - i
  {
    if i == |c.atoms| then []
    else
      var e := GroupEnd(c.ops, i);
      [c.atoms[i..e]] + Groups(c, e)
  }

  function Meaning(c: Chain, eff: Effects, s: Store, tr: seq<Event>): Outcome
    requires c.Valid()
  {
    EvalOr(Groups(c, 0), eff, s, tr)
  }

  // ---------------------------------------------------------------- the layout of lowered code

  /** Code position of atom `i` when the chain is laid out from `base`. */
  function Pos(c: Chain, base: nat, i: nat): (p: nat)
    requires i <= |c.atoms|
    ensures base + i <= p
  {
    if i == 0 then base else Pos(c, base, i - 1) + |c.atoms[i - 1].pre| + 1
  }

  /** Position of the jump that tests atom `i`. */
  function TestPos(c: Chain, base: nat, i: nat): (p: nat)
    requires i < |c.atoms|
    ensures p == Pos(c, base, i) + |c.atoms[i].pre| == Pos(c, base, i + 1) - 1
  {
    Pos(c, base, i) + |c.atoms[i].pre|
  }

  lemma {:induction false} PosMonotone(c: Chain, base: nat, i: nat, j: nat)
    requires i <= j <= |c.atoms|
    ensures Pos(c, base, i) + (j - i) <= Pos(c, base, j)
    decreases j - i
  {
    if i < j { PosMonotone(c, base, i, j - 1); }
  }

  function FalseJump(t: Test, offset: int): Op {
    match t
    case Truthy(slot) => JumpFalse(offset, slot)
    case Compare(Eq, a, b) => JumpCompare(Ne, false, offset, a, b)
    case Compare(Ne, a, b) => JumpCompare(Eq, false, offset, a, b)
    case Compare(rel, a, b) => JumpCompare(rel, true, offset, a, b)
  }

  function TrueJump(t: Test, offset: int): Op {
    match t
    case Truthy(slot) => JumpTrue(offset, slot)
    case Compare(rel, a, b) => JumpCompare(rel, false, offset, a, b)
  }

  function FalseTarget(c: Chain, base: nat, i: nat, falsePos: int): int
    requires c.Valid() && i < |c.atoms|
  {
    var e := GroupEnd(c.ops, i);
    if e <= |c.ops| then Pos(c, base, e) else falsePos
  }

  /** The jump that belongs after atom `i` once every target is known. */
  function TestOp(c: Chain, base: nat, i: nat, truePos: int, falsePos: int): Op
    requires c.Valid() && i < |c.atoms|
  {
    var next := TestPos(c, base, i) + 1;
    if i < |c.ops| && c.ops[i] == Or then TrueJump(c.atoms[i].test, truePos - next)
    else FalseJump(c.atoms[i].test, FalseTarget(c, base, i, falsePos) - next)
  }

  predicate RunsAt(code: seq<Op>, pos: nat, pre: seq<nat>) {
    pos + |pre| <= |code| && forall k :: 0 <= k < |pre| ==> code[pos + k] == Run(pre[k])
  }

  /** Atom `i` has its final code. */
  predicate AtomLowered(code: seq<Op>, c: Chain, base: nat, i: nat, truePos: int, falsePos: int)
    requires c.Valid() && i < |c.atoms|
  {
    && RunsAt(code, Pos(c, base, i), c.atoms[i].pre)
    && TestPos(c, base, i) < |code|
    && code[TestPos(c, base, i)] == TestOp(c, base, i, truePos, falsePos)
  }

  predicate Lowered(code: seq<Op>, c: Chain, base: nat, from: nat, truePos: int, falsePos: int)
    requires c.Valid()
  {
    forall i :: from <= i < |c.atoms| ==> AtomLowered(code, c, base, i, truePos, falsePos)
  }

  // ---------------------------------------------------------------- the code computes the meaning

  lemma {:induction false} RunsExec(code: seq<Op>, ranges: seq<Range>, eff: Effects, pos: nat, pre: seq<nat>, s: Store, tr: seq<Event>)
    requires RunsAt(code, pos, pre)
    ensures Exec(code, ranges, eff, pos, s, tr)
         == Exec(code, ranges, eff, pos + |pre|, RunPre(pre, eff, s), PreTrace(pre, tr))
    decreases |pre|
  {
    if pre != [] {
      assert code[pos + 0] == Run(pre[0]);
      forall k | 0 <= k < |pre[1..]| ensures code[pos + 1 + k] == Run(pre[1..][k]) {
        assert code[pos + (k + 1)] == Run(pre[k + 1]);
      }
      RunsExec(code, ranges, eff, pos + 1, pre[1..], eff(pre[0], s), tr + [Ran(pre[0])]);
    }
  }

  /** How the meaning unfolds by one atom. */
  lemma MeaningStep(c: Chain, i: nat, eff: Effects, s: Store, tr: seq<Event>)
    requires c.Valid() && i < |c.atoms|
    ensures var here := EvalOr(Groups(c, i), eff, s, tr);
      var a := EvalAtom(c.atoms[i], eff, s, tr);
      if a.Trap? then here == a
      else if i == |c.ops| then here == a
      else if c.ops[i] == Or then here == (if a.value then a else EvalOr(Groups(c, i + 1), eff, a.store, a.trace))
      else here == EvalOr(Groups(c, if a.value then i + 1 else GroupEnd(c.ops, i)), eff, a.store, a.trace)
  {
    var e := GroupEnd(c.ops, i);
    var group := c.atoms[i..e];
    assert Groups(c, i) == [group] + Groups(c, e);
    assert group[0] == c.atoms[i] && group[1..] == c.atoms[i + 1..e];
    var a := EvalAtom(c.atoms[i], eff, s, tr);
    if i < |c.ops| && c.ops[i] == And {
      assert GroupEnd(c.ops, i + 1) == e;
      assert Groups(c, i + 1) == [group[1..]] + Groups(c, e);
      if !a.Trap? {
        if a.value { assert EvalAnd(group, eff, s, tr) == EvalAnd(group[1..], eff, a.store, a.trace); }
        else { assert EvalAnd(group, eff, s, tr) == a; }
      }
    } else {
      assert e == i + 1 && group == [c.atoms[i]];
      assert EvalAnd(group[1..], eff, a.store, a.trace) == Done(true, a.store, a.trace);
      assert EvalAnd(group, eff, s, tr) == a;
      assert ([group] + Groups(c, e))[1..] == Groups(c, e);
      if i == |c.ops| { assert Groups(c, e) == []; }
    }
  }

  /** A test's jump: taken when the test has the wanted value, passed by otherwise, and a trap is the atom's trap. */
  lemma JumpExec(code: seq<Op>, ranges: seq<Range>, eff: Effects, pc: nat, test: Test, onTrue: bool, target: nat, s: Store, tr: seq<Event>)
    requires pc < |code| && target > pc
    requires code[pc] == if onTrue then TrueJump(test, target - (pc + 1)) else FalseJump(test, target - (pc + 1))
    ensures var a := EvalAtom(Atom([], test), eff, s, tr);
      var h := Exec(code, ranges, eff, pc, s, tr);
      if a.Trap? then h.trapped && h.store == a.store && h.trace == a.trace
      else h == Exec(code, ranges, eff, if a.value == onTrue then target else pc + 1, a.store, a.trace)
  {
  }

  /** One atom's code, from its first opaque operation to the outcome of its jump. */
  lemma AtomExec(code: seq<Op>, ranges: seq<Range>, eff: Effects, c: Chain, base: nat, i: nat,
                 truePos: nat, falsePos: nat, s: Store, tr: seq<Event>)
    requires c.Valid() && i < |c.atoms| && AtomLowered(code, c, base, i, truePos, falsePos)
    requires truePos >= Pos(c, base, i + 1) && falsePos >= Pos(c, base, i + 1)
    ensures var a := EvalAtom(c.atoms[i], eff, s, tr);
      var h := Exec(code, ranges, eff, Pos(c, base, i), s, tr);
      if a.Trap? then h.trapped && h.store == a.store && h.trace == a.trace
      else
        var next: nat :=
          if i < |c.ops| && c.ops[i] == Or then (if a.value then truePos else Pos(c, base, i + 1))
          else if a.value then Pos(c, base, i + 1)
          else if GroupEnd(c.ops, i) <= |c.ops| then Pos(c, base, GroupEnd(c.ops, i)) else falsePos;
        h == Exec(code, ranges, eff, next, a.store, a.trace)
  {
    RunsExec(code, ranges, eff, Pos(c, base, i), c.atoms[i].pre, s, tr);
    var e := GroupEnd(c.ops, i);
    PosMonotone(c, base, i + 1, e);
    var atom, onTrue := c.atoms[i], i < |c.ops| && c.ops[i] == Or;
    JumpExec(code, ranges, eff, TestPos(c, base, i), atom.test, onTrue, if onTrue then truePos else FalseTarget(c, base, i, falsePos),
             RunPre(atom.pre, eff, s), PreTrace(atom.pre, tr));
  }

  lemma {:induction false} ChainExec(code: seq<Op>, ranges: seq<Range>, eff: Effects, c: Chain, base: nat, i: nat,
                                     falsePos: nat, s: Store, tr: seq<Event>)
    requires c.Valid() && i < |c.atoms| && Lowered(code, c, base, i, Pos(c, base, |c.atoms|), falsePos)
    requires falsePos >= Pos(c, base, |c.atoms|)
    ensures var o := EvalOr(Groups(c, i), eff, s, tr);
      var h := Exec(code, ranges, eff, Pos(c, base, i), s, tr);
      if o.Trap? then h.trapped && h.store == o.store && h.trace == o.trace
      else h == Exec(code, ranges, eff, if o.value then Pos(c, base, |c.atoms|) else falsePos, o.store, o.trace)
    decreases |c.atoms| - i
  {
    var truePos := Pos(c, base, |c.atoms|);
    var a := EvalAtom(c.atoms[i], eff, s, tr);
    PosMonotone(c, base, i + 1, |c.atoms|);
    AtomExec(code, ranges, eff, c, base, i, truePos, falsePos, s, tr);
    MeaningStep(c, i, eff, s, tr);
    if !a.Trap? && i < |c.ops| {
      if c.ops[i] == Or {
        if !a.value { ChainExec(code, ranges, eff, c, base, i + 1, falsePos, a.store, a.trace); }
      } else if a.value {
        ChainExec(code, ranges, eff, c, base, i + 1, falsePos, a.store, a.trace);
      } else {
        var e := GroupEnd(c.ops, i);
        if e <= |c.ops| {
          ChainExec(code, ranges, eff, c, base, e, falsePos, a.store, a.trace);
        }
      }
    }
  }

  // ---------------------------------------------------------------- range fusion

  /** A comparison read as a bound on one of its two slots. */
  datatype Bound = Bound(test: int, bound: int, lower: bool, inclusive: bool)

  function InvertRel(rel: Rel): Rel {
    match rel
    case Gr => Le
    case Ge => Ls
    case Ls => Ge
    case Le => Gr
    case Eq => Eq
    case Ne => Ne
  }

  /** The two readings of an emitted compare-and-jump, or none for every other operation. */
  function BuildRangeBoundCandidates(op: Op, jumpWhenTrue: bool, buildInsideRange: bool): seq<Bound> {
    match op
    case JumpCompare(rel, invert, _, left, right) =>
      if rel == Eq || rel == Ne then []
      else
        var r1 := if jumpWhenTrue == invert then InvertRel(rel) else rel;
        var r := if buildInsideRange then InvertRel(r1) else r1;
        var inclusive := r == Le || r == Ge;
        var leftIsLower := r == Gr || r == Ge;
        [Bound(left, right, leftIsLower, inclusive), Bound(right, left, !leftIsLower, inclusive)]
    case _ => []
  }

  predicate Fits(a: Bound, b: Bound) { a.test == b.test && a.lower != b.lower }

  function RangeOf(first: Bound, second: Bound): Range {
    var lower, upper := if first.lower then first else second, if first.lower then second else first;
    Range(lower.bound, upper.bound, lower.inclusive, upper.inclusive, !first.lower)
  }

  /** Whether two comparison operands can be read as the two ends of one interval. */
  ghost predicate Fusible(a: Op, b: Op, inside: bool) {
    exists x, y :: x in BuildRangeBoundCandidates(a, inside, inside)
                && y in BuildRangeBoundCandidates(b, false, inside) && Fits(x, y)
  }

  /** `range` decides slot `test` exactly as the two comparisons would, in their order. */
  ghost predicate RangeDecides(range: Range, test: int, first: Test, second: Test, inside: bool) {
    forall s: Store :: DecidesIn(range, test, first, second, inside, s)
  }

  predicate DecidesIn(range: Range, test: int, first: Test, second: Test, inside: bool, s: Store) {
    first.Compare? && second.Compare? &&
    var one, two := RelEvent(first.rel, first.left, first.right), RelEvent(second.rel, second.left, second.right);
    var verdict := RangeTest(s, range, test, inside);
    match RelHolds(s, first.rel, first.left, first.right)
    case None => verdict == Verdict(None, [one])
    case Some(v) =>
      if v == inside then verdict == Verdict(Some(false), [one])
      else match RelHolds(s, second.rel, second.left, second.right)
        case None => verdict == Verdict(None, [one, two])
        case Some(w) => verdict == Verdict(Some(w != inside), [one, two])
  }

  /** A fitting pair of readings is decided by one range test, whichever side comes first. */
  lemma FittingPairDecides(first: Test, second: Test, inside: bool, off1: int, off2: int, x: Bound, y: Bound)
    requires first.Compare? && second.Compare?
    requires x in BuildRangeBoundCandidates(if inside then TrueJump(first, off1) else FalseJump(first, off1), inside, inside)
    requires y in BuildRangeBoundCandidates(FalseJump(second, off2), false, inside)
    requires Fits(x, y)
    ensures RangeDecides(RangeOf(x, y), x.test, first, second, inside)
  {
    forall s: Store ensures DecidesIn(RangeOf(x, y), x.test, first, second, inside, s) {
      FittingPairDecidesIn(first, second, inside, off1, off2, x, y, s);
    }
  }

  lemma FittingPairDecidesInside(first: Test, second: Test, off1: int, off2: int, x: Bound, y: Bound, s: Store)
    requires first.Compare? && second.Compare?
    requires x in BuildRangeBoundCandidates(TrueJump(first, off1), true, true)
    requires y in BuildRangeBoundCandidates(FalseJump(second, off2), false, true)
    requires Fits(x, y)
    ensures DecidesIn(RangeOf(x, y), x.test, first, second, true, s)
  {
    var r1, r2 := InvertRel(first.rel), InvertRel(second.rel);
    assert x == Bound(first.left, first.right, r1 in {Gr, Ge}, r1 in {Le, Ge})
        || x == Bound(first.right, first.left, r1 !in {Gr, Ge}, r1 in {Le, Ge});
    assert y == Bound(second.left, second.right, r2 in {Gr, Ge}, r2 in {Le, Ge})
        || y == Bound(second.right, second.left, r2 !in {Gr, Ge}, r2 in {Le, Ge});
  }

  lemma FittingPairDecidesOutside(first: Test, second: Test, off1: int, off2: int, x: Bound, y: Bound, s: Store)
    requires first.Compare? && second.Compare?
    requires x in BuildRangeBoundCandidates(FalseJump(first, off1), false, false)
    requires y in BuildRangeBoundCandidates(FalseJump(second, off2), false, false)
    requires Fits(x, y)
    ensures DecidesIn(RangeOf(x, y), x.test, first, second, false, s)
  {
    var r1, r2 := first.rel, second.rel;
    assert x == Bound(first.left, first.right, r1 in {Gr, Ge}, r1 in {Le, Ge})
        || x == Bound(first.right, first.left, r1 !in {Gr, Ge}, r1 in {Le, Ge});
    assert y == Bound(second.left, second.right, r2 in {Gr, Ge}, r2 in {Le, Ge})
        || y == Bound(second.right, second.left, r2 !in {Gr, Ge}, r2 in {Le, Ge});
  }

  lemma FittingPairDecidesIn(first: Test, second: Test, inside: bool, off1: int, off2: int, x: Bound, y: Bound, s: Store)
    requires first.Compare? && second.Compare?
    requires x in BuildRangeBoundCandidates(if inside then TrueJump(first, off1) else FalseJump(first, off1), inside, inside)
    requires y in BuildRangeBoundCandidates(FalseJump(second, off2), false, inside)
    requires Fits(x, y)
    ensures DecidesIn(RangeOf(x, y), x.test, first, second, inside, s)
  {
    if inside {
      FittingPairDecidesInside(first, second, off1, off2, x, y, s);
    } else {
      FittingPairDecidesOutside(first, second, off1, off2, x, y, s);
    }
  }

  // ---------------------------------------------------------------- fused branch code

  /** The shapes the fusion accepts: exactly two atoms under `&&`, or one `||` followed by one atom. */
  predicate FusedShape(c: Chain, inside: bool) {
    && c.Valid() && |c.ops| >= 1
    && c.atoms[|c.ops|].pre == []
    && (if inside then c.ops[|c.ops| - 1] == Or && forall k :: 0 <= k < |c.ops| - 1 ==> c.ops[k] == And
        else |c.ops| == 1 && c.ops[0] == And)
  }

  /** The code after fusion: the last comparison is gone and the one before it tests the whole range. */
  ghost predicate FusedAt(code: seq<Op>, ranges: seq<Range>, c: Chain, base: nat, inside: bool, falsePos: nat)
    requires FusedShape(c, inside)
  {
    var last := |c.ops|;
    var at := TestPos(c, base, last - 1);
    && |code| == at + 1
    && (forall k :: 0 <= k < last - 1 ==> AtomLowered(code, c, base, k, |code|, falsePos))
    && RunsAt(code, Pos(c, base, last - 1), c.atoms[last - 1].pre)
    && code[at].JumpRange? && code[at].inside == inside && code[at].offset == falsePos - (at + 1)
    && code[at].index < |ranges|
    && RangeDecides(ranges[code[at].index], code[at].test, c.atoms[last - 1].test, c.atoms[last].test, inside)
  }

  /** The fused operation alone gives the meaning of the last two atoms. */
  lemma FusedPairExec(code: seq<Op>, ranges: seq<Range>, eff: Effects, c: Chain, base: nat, inside: bool,
                      falsePos: nat, s: Store, tr: seq<Event>)
    requires FusedShape(c, inside) && FusedAt(code, ranges, c, base, inside, falsePos) && falsePos >= |code|
    ensures var o := EvalOr(Groups(c, |c.ops| - 1), eff, s, tr);
      var h := Exec(code, ranges, eff, Pos(c, base, |c.ops| - 1), s, tr);
      if o.Trap? then h.trapped && h.store == o.store && h.trace == o.trace
      else h == Halt(if o.value then |code| else falsePos, o.store, o.trace, false)
  {
    var i := |c.ops| - 1;
    var first, second := c.atoms[i].test, c.atoms[i + 1].test;
    var at := TestPos(c, base, i);
    RunsExec(code, ranges, eff, Pos(c, base, i), c.atoms[i].pre, s, tr);
    var s1, tr1 := RunPre(c.atoms[i].pre, eff, s), PreTrace(c.atoms[i].pre, tr);
    MeaningStep(c, i, eff, s, tr);
    var a := EvalAtom(c.atoms[i], eff, s, tr);
    if !a.Trap? { MeaningStep(c, i + 1, eff, a.store, a.trace); }
    assert GroupEnd(c.ops, i + 1) == i + 2 && Groups(c, i + 2) == [];
    assert DecidesIn(ranges[code[at].index], code[at].test, first, second, inside, s1);
    var one, two := RelEvent(first.rel, first.left, first.right), RelEvent(second.rel, second.left, second.right);
    assert tr1 + [one, two] == (tr1 + [one]) + [two];
    if !inside { assert GroupEnd(c.ops, i) == i + 2; }
  }

  /** In the `||` shape, a false atom before the last one of the first group leaves for the body. */
  lemma {:induction false} FusedPrefixExec(code: seq<Op>, ranges: seq<Range>, eff: Effects, c: Chain, base: nat, i: nat,
                                           falsePos: nat, s: Store, tr: seq<Event>)
    requires FusedShape(c, true) && FusedAt(code, ranges, c, base, true, falsePos) && falsePos >= |code|
    requires i < |c.ops|
    ensures var p := EvalAnd(c.atoms[i..|c.ops| - 1], eff, s, tr);
      var h := Exec(code, ranges, eff, Pos(c, base, i), s, tr);
      if p.Trap? then h.trapped && h.store == p.store && h.trace == p.trace
      else if p.value then h == Exec(code, ranges, eff, Pos(c, base, |c.ops| - 1), p.store, p.trace)
      else h == Halt(|code|, p.store, p.trace, false)
    decreases |c.ops| - i
  {
    var n := |c.ops|;
    if i < n - 1 {
      var group := c.atoms[i..n - 1];
      assert group[0] == c.atoms[i] && group[1..] == c.atoms[i + 1..n - 1];
      var a := EvalAtom(c.atoms[i], eff, s, tr);
      PosMonotone(c, base, i + 1, n);
      AtomExec(code, ranges, eff, c, base, i, |code|, falsePos, s, tr);
      assert GroupEnd(c.ops, i) == n by { assert c.ops[n - 1] == Or; }
      if !a.Trap? && a.value {
        FusedPrefixExec(code, ranges, eff, c, base, i + 1, falsePos, a.store, a.trace);
      }
    } else {
      assert c.atoms[i..n - 1] == [];
    }
  }

  /** The first group minus its last atom, evaluated on its own. */
  function Prefix(c: Chain, eff: Effects, s: Store, tr: seq<Event>): Outcome
    requires c.Valid() && |c.ops| >= 1
  {
    EvalAnd(c.atoms[..|c.ops| - 1], eff, s, tr)
  }

  lemma {:induction false} MeaningAfterPrefix(c: Chain, eff: Effects, i: nat, s: Store, tr: seq<Event>)
    requires FusedShape(c, true) && i < |c.ops|
    ensures var p := EvalAnd(c.atoms[i..|c.ops| - 1], eff, s, tr);
      var o := EvalOr(Groups(c, i), eff, s, tr);
      if p.Trap? then o == p
      else if p.value then o == EvalOr(Groups(c, |c.ops| - 1), eff, p.store, p.trace)
      else o == EvalAtom(c.atoms[|c.ops|], eff, p.store, p.trace)
    decreases |c.ops| - i
  {
    var n := |c.ops|;
    var group := c.atoms[i..n - 1];
    MeaningStep(c, i, eff, s, tr);
    if i < n - 1 {
      assert group[0] == c.atoms[i] && group[1..] == c.atoms[i + 1..n - 1];
      var a := EvalAtom(c.atoms[i], eff, s, tr);
      assert GroupEnd(c.ops, i) == n by { assert c.ops[n - 1] == Or; }
      if !a.Trap? {
        if a.value { MeaningAfterPrefix(c, eff, i + 1, a.store, a.trace); }
        else { MeaningStep(c, n, eff, a.store, a.trace); }
      }
    } else {
      assert group == [];
    }
  }

  // ---------------------------------------------------------------- main results

  /** Unfused branch code: the body is reached exactly when the chain is true, after the same
      evaluations in the same order. */
  lemma BranchCodeComputesMeaning(code: seq<Op>, ranges: seq<Range>, eff: Effects, c: Chain, base: nat,
                                  falsePos: nat, s: Store)
    requires c.Valid() && |code| == Pos(c, base, |c.atoms|) && falsePos >= |code|
    requires Lowered(code, c, base, 0, |code|, falsePos)
    ensures var o := Meaning(c, eff, s, []);
      var h := Exec(code, ranges, eff, base, s, []);
      if o.Trap? then h.trapped && h.store == o.store && h.trace == o.trace
      else h == Halt(if o.value then |code| else falsePos, o.store, o.trace, false)
  {
    ChainExec(code, ranges, eff, c, base, 0, falsePos, s, []);
  }

  /** Fused code is faithful for `&&`, and for `||` when the first group is a single atom. */
  lemma FusedCodeComputesMeaning(code: seq<Op>, ranges: seq<Range>, eff: Effects, c: Chain, base: nat, inside: bool,
                                 falsePos: nat, s: Store)
    requires FusedShape(c, inside) && FusedAt(code, ranges, c, base, inside, falsePos) && falsePos >= |code|
    requires |c.atoms| == 2
    ensures var o := Meaning(c, eff, s, []);
      var h := Exec(code, ranges, eff, base, s, []);
      if o.Trap? then h.trapped && h.store == o.store && h.trace == o.trace
      else h == Halt(if o.value then |code| else falsePos, o.store, o.trace, false)
  {
    FusedPairExec(code, ranges, eff, c, base, inside, falsePos, s, []);
  }

  /** The run went where the outcome says: a fault at the same point, or the target of its value. */
  predicate Goes(h: Halt, o: Outcome, bodyPos: int, falsePos: int) {
    if o.Trap? then h.trapped && h.store == o.store && h.trace == o.trace
    else !h.trapped && h.store == o.store && h.pc == if o.value then bodyPos else falsePos
  }

  /** And it made the same evaluations on the way. */
  predicate Agrees(h: Halt, o: Outcome, bodyPos: int, falsePos: int) {
    Goes(h, o, bodyPos, falsePos) && h.trace == o.trace
  }

  /** Fused code with more atoms in the first group, for every state, faults included. It goes where it should
      exactly when the atoms before the pair are true or one of them faults, or the last comparison is true
      anyway; it makes the right evaluations exactly in the first two cases. Otherwise the body is reached, and
      the last comparison, with the fault it may cause, is what was left out. */
  lemma FusedCodeExactly(code: seq<Op>, ranges: seq<Range>, eff: Effects, c: Chain, base: nat, falsePos: nat, s: Store)
    requires FusedShape(c, true) && FusedAt(code, ranges, c, base, true, falsePos) && falsePos > |code|
    ensures var o := Meaning(c, eff, s, []);
      var p := Prefix(c, eff, s, []);
      var h := Exec(code, ranges, eff, base, s, []);
      && (Goes(h, o, |code|, falsePos) <==> p.Trap? || p.value || IsTrue(EvalAtom(c.atoms[|c.ops|], eff, p.store, p.trace)))
      && (Agrees(h, o, |code|, falsePos) <==> p.Trap? || p.value)
    ensures var o := Meaning(c, eff, s, []);
      var p := Prefix(c, eff, s, []);
      var last := c.atoms[|c.ops|].test;
      p.Done? && !p.value ==>
        && last.Compare? && Exec(code, ranges, eff, base, s, []) == Halt(|code|, p.store, p.trace, false)
        && o.store == p.store && o.trace == p.trace + [RelEvent(last.rel, last.left, last.right)]
  {
    assert c.atoms[0..|c.ops| - 1] == c.atoms[..|c.ops| - 1];
    FusedPrefixExec(code, ranges, eff, c, base, 0, falsePos, s, []);
    MeaningAfterPrefix(c, eff, 0, s, []);
    var p := Prefix(c, eff, s, []);
    if p.Done? && p.value { FusedPairExec(code, ranges, eff, c, base, true, falsePos, p.store, p.trace); }
    if p.Done? && !p.value { LastLeftOut(code, ranges, eff, c, base, falsePos, p.store, p.trace); }
  }

  /** The last atom is a comparison with nothing before it: what evaluating it adds is one event. */
  lemma LastLeftOut(code: seq<Op>, ranges: seq<Range>, eff: Effects, c: Chain, base: nat, falsePos: nat, s: Store, tr: seq<Event>)
    requires FusedShape(c, true) && FusedAt(code, ranges, c, base, true, falsePos)
    ensures var last := c.atoms[|c.ops|].test;
      var o := EvalAtom(c.atoms[|c.ops|], eff, s, tr);
      last.Compare? && o.store == s && o.trace == tr + [RelEvent(last.rel, last.left, last.right)] && o.trace != tr
  {
    var at := TestPos(c, base, |c.ops| - 1);
    assert DecidesIn(ranges[code[at].index], code[at].test, c.atoms[|c.ops| - 1].test, c.atoms[|c.ops|].test, true, s);
    var last := c.atoms[|c.ops|].test;
    assert |tr + [RelEvent(last.rel, last.left, last.right)]| != |tr|;
  }

  /** The value form: after the chain, `true` is stored and the `false` path skipped. */
  predicate ValueCode(code: seq<Op>, c: Chain, base: nat, result: int)
    requires c.Valid()
  {
    var end := Pos(c, base, |c.atoms|);
    && |code| == end + 3
    && Lowered(code, c, base, 0, end, end + 2)
    && code[end] == SetBool(result, true) && code[end + 1] == Jump(1) && code[end + 2] == SetBool(result, false)
  }

  /** The value form stores the chain's value and changes nothing else. */
  lemma ValueCodeComputesMeaning(code: seq<Op>, ranges: seq<Range>, eff: Effects, c: Chain, base: nat, result: int, s: Store)
    requires c.Valid() && ValueCode(code, c, base, result)
    ensures var o := Meaning(c, eff, s, []);
      var h := Exec(code, ranges, eff, base, s, []);
      if o.Trap? then h.trapped && h.store == o.store && h.trace == o.trace
      else h == Halt(|code|, o.store[result := Bool(o.value)], o.trace, false)
  {
    var end := Pos(c, base, |c.atoms|);
    ChainExec(code, ranges, eff, c, base, 0, end + 2, s, []);
    var o := Meaning(c, eff, s, []);
    if !o.Trap? {
      var s1 := o.store[result := Bool(o.value)];
      assert Exec(code, ranges, eff, end + 3, s1, o.trace) == Halt(|code|, s1, o.trace, false);
      assert Exec(code, ranges, eff, end + 1, s1, o.trace) == Halt(|code|, s1, o.trace, false);
    }
  }

  /** The chain `flag && x < lo || x >= hi`, its flag in slot 1, x in slot 2, the bounds in slots 3 and 4. */
  function FlagOrRange(): Chain {
    Chain([Atom([], Truthy(1)), Atom([], Compare(Ls, 2, 3)), Atom([], Compare(Ge, 2, 4))], [And, Or])
  }

  function FlagOrRangeFused(): seq<Op> { [JumpFalse(1, 1), JumpRange(true, 7, 2, 0)] }

  function FlagOrRangeRanges(): seq<Range> { [Range(3, 4, true, false, false)] }

  lemma FlagOrRangeRuns(eff: Effects, s: Store)
    requires Read(s, 1) == Bool(false)
    ensures FusedShape(FlagOrRange(), true) && FusedAt(FlagOrRangeFused(), FlagOrRangeRanges(), FlagOrRange(), 0, true, 9)
    ensures Meaning(FlagOrRange(), eff, s, []) == EvalAtom(Atom([], Compare(Ge, 2, 4)), eff, s, [])
    ensures Exec(FlagOrRangeFused(), FlagOrRangeRanges(), eff, 0, s, []) == Halt(2, s, [], false)
  {
    var c, code, ranges := FlagOrRange(), FlagOrRangeFused(), FlagOrRangeRanges();
    assert GroupEnd(c.ops, 0) == 2 && GroupEnd(c.ops, 1) == 2 && GroupEnd(c.ops, 2) == 3;
    assert Pos(c, 0, 1) == 1 && Pos(c, 0, 2) == 2 && Pos(c, 0, 3) == 3;
    assert RangeDecides(ranges[0], 2, c.atoms[1].test, c.atoms[2].test, true);
    assert AtomLowered(code, c, 0, 0, 2, 9);
    assert FusedAt(code, ranges, c, 0, true, 9);
    MeaningStep(c, 0, eff, s, []);
    MeaningStep(c, 2, eff, s, []);
    assert Exec(code, ranges, eff, 0, s, []) == Exec(code, ranges, eff, 2, s, []);
  }

  /** With the flag false and x below both bounds the chain is false; the fused code runs the body. */
  lemma FusedCodeReachesBodyOnFalseChain(eff: Effects)
    ensures var s: Store := map[1 := Bool(false), 2 := Int(0), 3 := Int(10), 4 := Int(20)];
      var code := FlagOrRangeFused();
      && FusedShape(FlagOrRange(), true) && FusedAt(code, FlagOrRangeRanges(), FlagOrRange(), 0, true, 9)
      && Meaning(FlagOrRange(), eff, s, []).Done? && !Meaning(FlagOrRange(), eff, s, []).value
      && !Exec(code, FlagOrRangeRanges(), eff, 0, s, []).trapped && Exec(code, FlagOrRangeRanges(), eff, 0, s, []).pc == |code|
  {
    FlagOrRangeRuns(eff, map[1 := Bool(false), 2 := Int(0), 3 := Int(10), 4 := Int(20)]);
  }

  /** With the flag false and x no number the chain faults; the fused code runs the body without a fault. */
  lemma FusedCodeMissesFault(eff: Effects)
    ensures var s: Store := map[1 := Bool(false), 2 := Bool(true), 3 := Int(10), 4 := Int(20)];
      var code := FlagOrRangeFused();
      && FusedShape(FlagOrRange(), true) && FusedAt(code, FlagOrRangeRanges(), FlagOrRange(), 0, true, 9)
      && Meaning(FlagOrRange(), eff, s, []).Trap?
      && !Exec(code, FlagOrRangeRanges(), eff, 0, s, []).trapped && Exec(code, FlagOrRangeRanges(), eff, 0, s, []).pc == |code|
  {
    FlagOrRangeRuns(eff, map[1 := Bool(false), 2 := Bool(true), 3 := Int(10), 4 := Int(20)]);
  }

  // ---------------------------------------------------------------- backpatching

  function WithOffset(op: Op, offset: int): Op {
    match op
    case JumpCompare(rel, invert, _, a, b) => JumpCompare(rel, invert, offset, a, b)
    case JumpFalse(_, slot) => JumpFalse(offset, slot)
    case JumpTrue(_, slot) => JumpTrue(offset, slot)
    case Jump(_) => Jump(offset)
    case JumpRange(inside, _, test, index) => JumpRange(inside, offset, test, index)
    case _ => op
  }

  /** `code` with every jump of the list sent to `dest`. */
  function Patched(code: seq<Op>, jumps: seq<nat>, dest: int): (r: seq<Op>)
    ensures |r| == |code|
  {
    seq(|code|, p requires 0 <= p < |code| => if p in jumps then WithOffset(code[p], dest - (p + 1)) else code[p])
  }

  /** Atom `i` once emitted: its target is known if its group has ended, else its offset is still zero. */
  predicate AtomEmitted(code: seq<Op>, c: Chain, base: nat, i: nat, closed: nat)
    requires c.Valid() && i < |c.atoms|
  {
    var at := TestPos(c, base, i);
    && at < |code|
    && RunsAt(code, Pos(c, base, i), c.atoms[i].pre)
    && code[at] == (if i < |c.ops| && c.ops[i] == Or then TrueJump(c.atoms[i].test, 0)
                    else if GroupEnd(c.ops, i) <= closed then
                      FalseJump(c.atoms[i].test, Pos(c, base, GroupEnd(c.ops, i)) - (at + 1))
                    else FalseJump(c.atoms[i].test, 0))
  }

  predicate Emitted(code: seq<Op>, c: Chain, base: nat, n: nat, closed: nat)
    requires c.Valid() && n <= |c.atoms|
  {
    forall i :: 0 <= i < n ==> AtomEmitted(code, c, base, i, closed)
  }

  /** The positions of the jumps emitted for `||`, in order. */
  function TrueList(c: Chain, base: nat, n: nat): (r: seq<nat>)
    requires c.Valid() && n <= |c.atoms|
    ensures forall k :: 0 <= k < n && k < |c.ops| && c.ops[k] == Or ==> TestPos(c, base, k) in r
    ensures forall p :: p in r ==> exists k :: 0 <= k < n && k < |c.ops| && c.ops[k] == Or && p == TestPos(c, base, k)
  {
    if n == 0 then []
    else if n - 1 < |c.ops| && c.ops[n - 1] == Or then TrueList(c, base, n - 1) + [TestPos(c, base, n - 1)]
    else TrueList(c, base, n - 1)
  }

  /** The positions of the false jumps of atoms `from .. to`. */
  function FalseList(c: Chain, base: nat, from: nat, to: nat): (r: seq<nat>)
    requires from <= to <= |c.atoms|
    ensures |r| == to - from
    ensures forall k :: from <= k < to ==> r[k - from] == TestPos(c, base, k)
  {
    if from == to then [] else FalseList(c, base, from, to - 1) + [TestPos(c, base, to - 1)]
  }

  /** First atom of the last group. */
  predicate GroupStart(c: Chain, g: nat, i: nat)
    requires c.Valid()
  {
    && g <= i <= |c.ops|
    && (g == 0 || c.ops[g - 1] == Or)
    && forall k :: g <= k < i ==> c.ops[k] == And
  }

  /** Closing a group: patching its false jumps to the next group turns pending atoms into closed ones. */
  lemma CloseGroup(code: seq<Op>, c: Chain, base: nat, g: nat, i: nat)
    requires c.Valid() && GroupStart(c, g, i) && i < |c.ops| && c.ops[i] == Or
    requires Emitted(code, c, base, i + 1, g)
    ensures Emitted(Patched(code, FalseList(c, base, g, i), Pos(c, base, i + 1)), c, base, i + 1, i + 1)
  {
    var jumps := FalseList(c, base, g, i);
    var code' := Patched(code, jumps, Pos(c, base, i + 1));
    var closed := i + 1;
    forall k | 0 <= k <= i ensures AtomEmitted(code', c, base, k, closed) {
      assert AtomEmitted(code, c, base, k, g);
      ListedOnlyOwn(c, base, g, i, k);
      assert GroupEnd(c.ops, k) <= i + 1 by { GroupEndBound(c, k, i); }
      if k < g { assert GroupEnd(c.ops, k) <= g by { GroupEndBound(c, k, g - 1); } }
      else if k < i { assert jumps[k - g] == TestPos(c, base, k); }
    }
  }

  lemma GroupEndBound(c: Chain, k: nat, or: nat)
    requires c.Valid() && k <= or < |c.ops| && c.ops[or] == Or
    ensures GroupEnd(c.ops, k) <= or + 1
  {
  }

  /** A false list touches the test of atom `k` only if it lists atom `k`, and never its opaque code. */
  lemma ListedOnlyOwn(c: Chain, base: nat, g: nat, i: nat, k: nat)
    requires g <= i <= |c.atoms| && k < |c.atoms|
    ensures TestPos(c, base, k) in FalseList(c, base, g, i) <==> g <= k < i
    ensures forall p :: Pos(c, base, k) <= p < TestPos(c, base, k) ==> p !in FalseList(c, base, g, i)
  {
    var jumps := FalseList(c, base, g, i);
    forall j | 0 <= j < |jumps|
      ensures jumps[j] == TestPos(c, base, k) <==> g + j == k
      ensures !(Pos(c, base, k) <= jumps[j] < TestPos(c, base, k))
    {
      var m := g + j;
      assert jumps[m - g] == TestPos(c, base, m);
      if m < k { PosMonotone(c, base, m + 1, k); }
      else if k < m { PosMonotone(c, base, k + 1, m); }
    }
    if g <= k < i { assert jumps[k - g] == TestPos(c, base, k); }
  }

  /** Sending the last group's false jumps to `falsePos`, and the true jumps to the end, lowers the chain. */
  lemma FinishLowering(code: seq<Op>, c: Chain, base: nat, g: nat, truePos: int, falsePos: int)
    requires c.Valid() && GroupStart(c, g, |c.ops|)
    requires Emitted(code, c, base, |c.atoms|, g)
    ensures Lowered(Patched(Patched(code, TrueList(c, base, |c.atoms|), truePos), FalseList(c, base, g, |c.atoms|), falsePos),
                    c, base, 0, truePos, falsePos)
  {
    var code1 := Patched(code, TrueList(c, base, |c.atoms|), truePos);
    var code2 := Patched(code1, FalseList(c, base, g, |c.atoms|), falsePos);
    forall k | 0 <= k < |c.atoms| ensures AtomLowered(code2, c, base, k, truePos, falsePos) {
      assert AtomEmitted(code, c, base, k, g);
      FinishAtom(code, c, base, g, k, truePos, falsePos);
    }
  }

  lemma FinishAtom(code: seq<Op>, c: Chain, base: nat, g: nat, k: nat, truePos: int, falsePos: int)
    requires c.Valid() && GroupStart(c, g, |c.ops|) && k < |c.atoms|
    requires AtomEmitted(code, c, base, k, g)
    ensures AtomLowered(Patched(Patched(code, TrueList(c, base, |c.atoms|), truePos), FalseList(c, base, g, |c.atoms|), falsePos),
                        c, base, k, truePos, falsePos)
  {
    var n := |c.atoms|;
    var trues, falses := TrueList(c, base, n), FalseList(c, base, g, n);
    ListedOnlyOwn(c, base, g, n, k);
    TrueListOnlyOwn(c, base, n, k);
    if k < g { GroupEndBound(c, k, g - 1); }
    FinishAtomWith(code, c, base, g, k, trues, falses, truePos, falsePos);
  }

  lemma FinishAtomWith(code: seq<Op>, c: Chain, base: nat, g: nat, k: nat, trues: seq<nat>, falses: seq<nat>, truePos: int, falsePos: int)
    requires c.Valid() && g <= |c.ops| && k < |c.atoms|
    requires if k < g then GroupEnd(c.ops, k) <= g else GroupEnd(c.ops, k) == |c.ops| + 1
    requires AtomEmitted(code, c, base, k, g)
    requires TestPos(c, base, k) in trues <==> k < |c.ops| && c.ops[k] == Or
    requires TestPos(c, base, k) in falses <==> g <= k
    requires forall p :: Pos(c, base, k) <= p < TestPos(c, base, k) ==> p !in trues
    requires forall p :: Pos(c, base, k) <= p < TestPos(c, base, k) ==> p !in falses
    ensures AtomLowered(Patched(Patched(code, trues, truePos), falses, falsePos), c, base, k, truePos, falsePos)
  {
    var at := TestPos(c, base, k);
    var code1 := Patched(code, trues, truePos);
    PatchedAtom(code, trues, truePos, Pos(c, base, k), c.atoms[k].pre);
    assert at < |code1|;
    PatchedAtom(code1, falses, falsePos, Pos(c, base, k), c.atoms[k].pre);
  }

  /** Patching a list that names none of an atom's opaque operations touches at most its jump. */
  lemma PatchedAtom(code: seq<Op>, jumps: seq<nat>, dest: int, pos: nat, pre: seq<nat>)
    requires RunsAt(code, pos, pre) && pos + |pre| < |code|
    requires forall p :: pos <= p < pos + |pre| ==> p !in jumps
    ensures RunsAt(Patched(code, jumps, dest), pos, pre)
    ensures var at := pos + |pre|;
      Patched(code, jumps, dest)[at] == if at in jumps then WithOffset(code[at], dest - (at + 1)) else code[at]
  {
    var code' := Patched(code, jumps, dest);
    forall k | 0 <= k < |pre| ensures code'[pos + k] == Run(pre[k]) {
      assert code[pos + k] == Run(pre[k]);
      assert pos + k !in jumps;
    }
  }

  lemma TrueListEntry(c: Chain, base: nat, n: nat, k: nat, p: nat)
    requires c.Valid() && n <= |c.atoms| && k < |c.atoms| && p in TrueList(c, base, n)
    ensures p == TestPos(c, base, k) ==> k < n && k < |c.ops| && c.ops[k] == Or
    ensures !(Pos(c, base, k) <= p < TestPos(c, base, k))
  {
    var m :| 0 <= m < n && m < |c.ops| && c.ops[m] == Or && p == TestPos(c, base, m);
    if m < k { PosMonotone(c, base, m + 1, k); }
    else if k < m { PosMonotone(c, base, k + 1, m); }
  }

  lemma TrueListOnlyOwn(c: Chain, base: nat, n: nat, k: nat)
    requires c.Valid() && n <= |c.atoms| && k < |c.atoms|
    ensures TestPos(c, base, k) in TrueList(c, base, n) <==> k < n && k < |c.ops| && c.ops[k] == Or
    ensures forall p :: Pos(c, base, k) <= p < TestPos(c, base, k) ==> p !in TrueList(c, base, n)
  {
    forall p | p in TrueList(c, base, n)
      ensures p == TestPos(c, base, k) ==> k < n && k < |c.ops| && c.ops[k] == Or
      ensures !(Pos(c, base, k) <= p < TestPos(c, base, k))
    {
      TrueListEntry(c, base, n, k, p);
    }
  }

  /** The code of one atom whose jump is not yet resolved. */
  function AtomCode(a: Atom, jumpWhenTrue: bool): (r: seq<Op>)
    ensures |r| == |a.pre| + 1
  {
    seq(|a.pre|, k requires 0 <= k < |a.pre| => Run(a.pre[k]))
    + [if jumpWhenTrue then TrueJump(a.test, 0) else FalseJump(a.test, 0)]
  }

  /** Appending atom `i` keeps what was emitted and adds the atom with its group still open. */
  lemma AppendAtom(code: seq<Op>, c: Chain, base: nat, g: nat, i: nat)
    requires c.Valid() && i < |c.atoms| && GroupStart(c, g, i) && |code| == Pos(c, base, i)
    requires Emitted(code, c, base, i, g)
    ensures Emitted(code + AtomCode(c.atoms[i], i < |c.ops| && c.ops[i] == Or), c, base, i + 1, g)
  {
    var code' := code + AtomCode(c.atoms[i], i < |c.ops| && c.ops[i] == Or);
    forall k | 0 <= k < |c.atoms| && k <= i ensures AtomEmitted(code', c, base, k, g) {
      if k < i {
        assert AtomEmitted(code, c, base, k, g);
        PosMonotone(c, base, k + 1, i);
      }
    }
  }

  /** The scan with atoms `.. i` emitted and the group that starts at `g` still open. */
  predicate Scanned(code: seq<Op>, c: Chain, base: nat, g: nat, i: nat, trueJumps: seq<nat>, falseJumps: seq<nat>)
    requires c.Valid() && i <= |c.atoms|
  {
    && |code| == Pos(c, base, i)
    && GroupStart(c, g, if i <= |c.ops| then i else |c.ops|)
    && Emitted(code, c, base, i, g)
    && trueJumps == TrueList(c, base, i)
    && falseJumps == FalseList(c, base, g, i)
  }

  lemma ScanAnd(code: seq<Op>, c: Chain, base: nat, g: nat, i: nat, trueJumps: seq<nat>, falseJumps: seq<nat>)
    requires c.Valid() && i < |c.atoms| && Scanned(code, c, base, g, i, trueJumps, falseJumps)
    requires i < |c.ops| ==> c.ops[i] == And
    ensures Scanned(code + AtomCode(c.atoms[i], false), c, base, g, i + 1, trueJumps, falseJumps + [TestPos(c, base, i)])
  {
    AppendAtom(code, c, base, g, i);
  }

  lemma ScanOr(code: seq<Op>, c: Chain, base: nat, g: nat, i: nat, trueJumps: seq<nat>, falseJumps: seq<nat>)
    requires c.Valid() && i < |c.ops| && c.ops[i] == Or && Scanned(code, c, base, g, i, trueJumps, falseJumps)
    ensures forall p :: p in falseJumps ==> base <= p < |code|
    ensures Scanned(Patched(code + AtomCode(c.atoms[i], true), falseJumps, Pos(c, base, i + 1)),
                    c, base, i + 1, i + 1, trueJumps + [TestPos(c, base, i)], [])
  {
    AppendAtom(code, c, base, g, i);
    CloseGroup(code + AtomCode(c.atoms[i], true), c, base, g, i);
    JumpsInCode(code, c, base, i, g);
  }

  lemma JumpsInCode(code: seq<Op>, c: Chain, base: nat, n: nat, g: nat)
    requires c.Valid() && g <= n <= |c.atoms| && |code| == Pos(c, base, n)
    ensures forall p :: p in FalseList(c, base, g, n) ==> base <= p < |code|
    ensures forall p :: p in TrueList(c, base, n) ==> base <= p < |code|
  {
    forall p | p in FalseList(c, base, g, n) ensures base <= p < |code| {
      var falses := FalseList(c, base, g, n);
      var j :| 0 <= j < |falses| && falses[j] == p;
      assert falses[(g + j) - g] == TestPos(c, base, g + j);
      PosMonotone(c, base, g + j + 1, n);
    }
    forall p | p in TrueList(c, base, n) ensures base <= p < |code| {
      var m :| 0 <= m < n && m < |c.ops| && c.ops[m] == Or && p == TestPos(c, base, m);
      PosMonotone(c, base, m + 1, n);
    }
  }

  lemma PatchedPrefix(code: seq<Op>, jumps: seq<nat>, dest: int, base: nat)
    requires base <= |code| && forall p :: p in jumps ==> base <= p
    ensures Patched(code, jumps, dest)[..base] == code[..base]
  {
  }

  /** Whether the two lists of unresolved jumps have one of the two shapes that may be fused. */
  lemma JumpListShape(c: Chain, base: nat, g: nat)
    requires c.Valid() && |c.ops| >= 1 && GroupStart(c, g, |c.ops|) && c.atoms[|c.ops|].pre == []
    ensures |TrueList(c, base, |c.atoms|)| == 1 && |FalseList(c, base, g, |c.atoms|)| == 1 <==> FusedShape(c, true)
    ensures |TrueList(c, base, |c.atoms|)| == 0 && |FalseList(c, base, g, |c.atoms|)| == 2 <==> FusedShape(c, false)
    ensures FusedShape(c, true) ==> g == |c.ops| && TrueList(c, base, |c.atoms|) == [TestPos(c, base, |c.ops| - 1)]
    ensures FusedShape(c, false) ==> g == 0
  {
    var n := |c.ops|;
    if FusedShape(c, true) { NoOrList(c, base, n - 1); }
    if FusedShape(c, false) { NoOrList(c, base, 1); }
    if g > 0 {
      TrueListOnlyOwn(c, base, n, g - 1);
      if |TrueList(c, base, n)| == 1 && g == n {
        assert TrueList(c, base, n) == TrueList(c, base, n - 1) + [TestPos(c, base, n - 1)];
        forall k | 0 <= k < n - 1 ensures c.ops[k] == And { TrueListOnlyOwn(c, base, n - 1, k); }
      }
    } else {
      NoOrList(c, base, n);
    }
  }

  lemma {:induction false} NoOrList(c: Chain, base: nat, n: nat)
    requires c.Valid() && n <= |c.ops| && forall k :: 0 <= k < n ==> c.ops[k] == And
    ensures TrueList(c, base, n) == []
  {
    if n > 0 { NoOrList(c, base, n - 1); }
  }

  /** Replacing the last two tests by the range jump gives fused code, wherever the false jump goes. */
  lemma FusedScan(code: seq<Op>, ranges: seq<Range>, c: Chain, base: nat, g: nat, inside: bool, op: Op, falsePos: nat)
    requires FusedShape(c, inside) && Emitted(code, c, base, |c.atoms|, g) && (inside ==> g == |c.ops|)
    requires op.JumpRange? && op.inside == inside && op.index < |ranges|
    requires RangeDecides(ranges[op.index], op.test, c.atoms[|c.ops| - 1].test, c.atoms[|c.ops|].test, inside)
    ensures var at := TestPos(c, base, |c.ops| - 1);
      at < |code| && FusedAt(Patched(code[..at] + [op], [at], falsePos), ranges, c, base, inside, falsePos)
  {
    var last := |c.ops|;
    var at := TestPos(c, base, last - 1);
    assert AtomEmitted(code, c, base, last - 1, g);
    var code' := Patched(code[..at] + [op], [at], falsePos);
    CutKeepsRuns(code, op, at, falsePos, Pos(c, base, last - 1), c.atoms[last - 1].pre);
    forall k | 0 <= k < |c.atoms| && k < last - 1 ensures AtomLowered(code', c, base, k, |code'|, falsePos) {
      FusedScanAtom(code, c, base, k, op, falsePos);
    }
  }

  lemma FusedScanAtom(code: seq<Op>, c: Chain, base: nat, k: nat, op: Op, falsePos: nat)
    requires FusedShape(c, true) && Emitted(code, c, base, |c.atoms|, |c.ops|) && k < |c.ops| - 1
    ensures var at := TestPos(c, base, |c.ops| - 1);
      at < |code| && AtomLowered(Patched(code[..at] + [op], [at], falsePos), c, base, k, at + 1, falsePos)
  {
    var last := |c.ops|;
    var at := TestPos(c, base, last - 1);
    assert AtomEmitted(code, c, base, last - 1, last);
    assert AtomEmitted(code, c, base, k, last);
    PosMonotone(c, base, k + 1, last - 1);
    CutKeepsRuns(code, op, at, falsePos, Pos(c, base, k), c.atoms[k].pre);
    assert GroupEnd(c.ops, k) == last by { GroupEndBound(c, k, last - 1); assert c.ops[last - 1] == Or; }
  }

  /** Cutting the code at `at` and patching only position `at` keeps everything before it. */
  lemma CutKeepsRuns(code: seq<Op>, op: Op, at: nat, dest: int, pos: nat, pre: seq<nat>)
    requires at < |code| && RunsAt(code, pos, pre) && pos + |pre| <= at
    ensures var code' := Patched(code[..at] + [op], [at], dest);
      RunsAt(code', pos, pre) && (pos + |pre| < at ==> code'[pos + |pre|] == code[pos + |pre|])
  {
    var code' := Patched(code[..at] + [op], [at], dest);
    forall k | 0 <= k < |pre| ensures code'[pos + k] == Run(pre[k]) {
      assert code[pos + k] == Run(pre[k]);
    }
  }

  /** The comparison says that the slot's value is greater than another one, or not less. */
  predicate FromBelow(t: Test, slot: int) {
    t.Compare? && ((t.left == slot && t.rel in {Gr, Ge}) || (t.right == slot && t.rel in {Ls, Le}))
  }

  /** That it is less, or not greater. */
  predicate FromAbove(t: Test, slot: int) {
    t.Compare? && ((t.left == slot && t.rel in {Ls, Le}) || (t.right == slot && t.rel in {Gr, Ge}))
  }

  predicate Between(a: Test, b: Test, slot: int) {
    (FromBelow(a, slot) && FromAbove(b, slot)) || (FromAbove(a, slot) && FromBelow(b, slot))
  }

  ghost predicate BoundTogether(a: Test, b: Test) { exists slot: int :: Between(a, b, slot) }

  /** The chain has a fusible shape and its last two comparisons bound one slot, one from below and one from above. */
  ghost predicate CanFuse(c: Chain, inside: bool) {
    FusedShape(c, inside) &&
    var a, b := c.atoms[|c.ops| - 1].test, c.atoms[|c.ops|].test;
    BoundTogether(a, b)
  }

  /** The readings of a test's jump, for the jumps of both kinds of fusion. */
  function ReadingsOf(t: Test, onTrue: bool, inside: bool): seq<Bound> {
    BuildRangeBoundCandidates(if onTrue then TrueJump(t, 0) else FalseJump(t, 0), onTrue, inside)
  }

  ghost predicate HasReading(readings: seq<Bound>, slot: int, lower: bool) {
    exists x :: x in readings && x.test == slot && x.lower == lower
  }

  /** A slot is read as a lower end exactly if the comparison bounds it from below, or from above for the range
      that is to be left out. */
  lemma ReadingsAreBounds(t: Test, onTrue: bool, inside: bool, slot: int, lower: bool)
    ensures HasReading(ReadingsOf(t, onTrue, inside), slot, lower) <==> if lower != inside then FromBelow(t, slot) else FromAbove(t, slot)
  {
    var readings := ReadingsOf(t, onTrue, inside);
    if t.Compare? && t.rel != Eq && t.rel != Ne {
      var r := if inside then InvertRel(t.rel) else t.rel;
      var left, right := Bound(t.left, t.right, r in {Gr, Ge}, r in {Le, Ge}), Bound(t.right, t.left, r !in {Gr, Ge}, r in {Le, Ge});
      assert readings == [left, right];
      assert left in readings && right in readings;
    } else {
      assert readings == [];
    }
  }

  /** Two tests have readings that fit exactly if they bound one slot from both sides. */
  lemma FusibleIsBounded(a: Test, b: Test, inside: bool)
    ensures Fusible(if inside then TrueJump(a, 0) else FalseJump(a, 0), FalseJump(b, 0), inside) <==> BoundTogether(a, b)
  {
    var first, second := ReadingsOf(a, inside, inside), ReadingsOf(b, false, inside);
    if BoundTogether(a, b) {
      var slot: int :| Between(a, b, slot);
      var lower := if FromBelow(a, slot) && FromAbove(b, slot) then !inside else inside;
      ReadingsAreBounds(a, inside, inside, slot, lower);
      ReadingsAreBounds(b, false, inside, slot, !lower);
      var x :| x in first && x.test == slot && x.lower == lower;
      var y :| y in second && y.test == slot && y.lower == !lower;
      assert Fits(x, y);
    }
    if x, y :| x in first && y in second && Fits(x, y) {
      ReadingsAreBounds(a, inside, inside, x.test, x.lower);
      ReadingsAreBounds(b, false, inside, y.test, y.lower);
      assert HasReading(first, x.test, x.lower) && HasReading(second, y.test, y.lower);
      assert Between(a, b, x.test);
    }
  }

  /** A fusible chain passes the shape test and the adjacency test. */
  lemma FusibleChainPasses(code: seq<Op>, c: Chain, base: nat, g: nat, trueJumps: seq<nat>, falseJumps: seq<nat>, inside: bool)
    requires CanFuse(c, inside) && Scanned(code, c, base, g, |c.atoms|, trueJumps, falseJumps)
    ensures var last := TestPos(c, base, |c.ops| - 1);
      && (if inside then trueJumps == [last] && falseJumps == [last + 1] else trueJumps == [] && falseJumps == [last, last + 1])
      && |code| == last + 2
  {
    var n := |c.ops|;
    JumpListShape(c, base, g);
    assert falseJumps[n - g] == TestPos(c, base, n) == TestPos(c, base, n - 1) + 1;
    if !inside { assert falseJumps[(n - 1) - g] == TestPos(c, base, n - 1); }
  }

  /** What the position tests of the fusion establish about the two operations they look at. */
  lemma FusibleJumps(code: seq<Op>, c: Chain, base: nat, g: nat, trueJumps: seq<nat>, falseJumps: seq<nat>,
                     first: nat, second: nat, isOr: bool)
    requires c.Valid() && |c.ops| >= 1 && Scanned(code, c, base, g, |c.atoms|, trueJumps, falseJumps)
    requires if isOr then trueJumps == [first] && falseJumps == [second] else trueJumps == [] && falseJumps == [first, second]
    requires second == first + 1 && |code| == second + 1
    ensures FusedShape(c, isOr) && first == TestPos(c, base, |c.ops| - 1)
    ensures var a, b := c.atoms[|c.ops| - 1].test, c.atoms[|c.ops|].test;
      code[first] == (if isOr then TrueJump(a, 0) else FalseJump(a, 0)) && code[second] == FalseJump(b, 0)
  {
    var n := |c.ops|;
    assert falseJumps[n - g] == TestPos(c, base, n);
    if isOr {
      assert g == n && c.ops[n - 1] == Or;
      assert TestPos(c, base, n - 1) in trueJumps;
    } else {
      assert g == n - 1;
      assert falseJumps[(n - 1) - g] == TestPos(c, base, n - 1);
    }
    JumpListShape(c, base, g);
    assert AtomEmitted(code, c, base, n - 1, g);
    assert AtomEmitted(code, c, base, n, g);
  }

  lemma FusedBranch(scanned: seq<Op>, code: seq<Op>, ranges: seq<Range>, c: Chain, base: nat, g: nat, inside: bool, jump: nat)
    requires FusedShape(c, inside) && g <= |c.atoms| && jump == TestPos(c, base, |c.ops| - 1)
    requires Scanned(scanned, c, base, g, |c.atoms|, TrueList(c, base, |c.atoms|), FalseList(c, base, g, |c.atoms|))
    requires
      && jump < |scanned| && |code| == jump + 1 && code[..jump] == scanned[..jump]
      && code[jump].JumpRange? && code[jump].inside == inside && code[jump].index < |ranges|
      && RangeDecides(ranges[code[jump].index], code[jump].test, c.atoms[|c.ops| - 1].test, c.atoms[|c.ops|].test, inside)
    ensures base < |code| && code[..base] == scanned[..base]
    ensures forall falsePos: nat :: FusedAt(Patched(code, [jump], falsePos), ranges, c, base, inside, falsePos)
  {
    JumpListShape(c, base, g);
    assert code == scanned[..jump] + [code[jump]];
    forall falsePos: nat ensures FusedAt(Patched(code, [jump], falsePos), ranges, c, base, inside, falsePos) {
      FusedScan(scanned, ranges, c, base, g, inside, code[jump], falsePos);
    }
    assert code[..base] == scanned[..jump][..base] == scanned[..base];
  }

  /** Patching jumps of a prefix leaves the tail alone. */
  lemma PatchedTail(code: seq<Op>, tail: seq<Op>, jumps1: seq<nat>, jumps2: seq<nat>, dest1: int, dest2: int)
    requires forall p :: p in jumps1 || p in jumps2 ==> p < |code|
    ensures Patched(Patched(code + tail, jumps1, dest1), jumps2, dest2) == Patched(Patched(code, jumps1, dest1), jumps2, dest2) + tail
  {
  }

  lemma LoweredKept(code: seq<Op>, code': seq<Op>, c: Chain, base: nat, truePos: int, falsePos: int)
    requires c.Valid() && Lowered(code, c, base, 0, truePos, falsePos)
    requires |code| <= |code'| && code'[..|code|] == code
    ensures Lowered(code', c, base, 0, truePos, falsePos)
  {
    forall i | 0 <= i < |c.atoms| ensures AtomLowered(code', c, base, i, truePos, falsePos) {
      assert AtomLowered(code, c, base, i, truePos, falsePos);
    }
  }

  // ---------------------------------------------------------------- the emitter

  class Emitter {
    var code: seq<Op>
    var ranges: seq<Range>

    constructor ()
      ensures code == [] && ranges == []
    {
      code, ranges := [], [];
    }

    /** Fills in the offset of one earlier jump. */
    method SetJumpOffset(jump: nat, dest: int)
      requires jump < |code|
      modifies this`code
      ensures code == old(code)[jump := WithOffset(old(code)[jump], dest - (jump + 1))]
    {
      code := code[jump := WithOffset(code[jump], dest - (jump + 1))];
    }

    method PatchAll(jumps: seq<nat>, dest: int)
      requires forall j :: j in jumps ==> j < |code|
      modifies this`code
      ensures code == Patched(old(code), jumps, dest)
    {
      for k := 0 to |jumps|
        invariant |code| == |old(code)|
        invariant code == Patched(old(code), jumps[..k], dest)
      {
        assert jumps[k] in jumps;
        assert jumps[..k + 1] == jumps[..k] + [jumps[k]];
        SetJumpOffset(jumps[k], dest);
      }
      assert jumps[..|jumps|] == jumps;
    }

    /** Parses one operand: its own code, and for a comparison the unfused compare. */
    method EmitOperand(a: Atom)
      modifies this`code
      ensures code == old(code) + seq(|a.pre|, k requires 0 <= k < |a.pre| => Run(a.pre[k]))
                    + (if a.test.Compare? then [CompareOp(a.test.rel, a.test.left, a.test.right)] else [])
    {
      for k := 0 to |a.pre|
        invariant code == old(code) + seq(k, j requires 0 <= j < k => Run(a.pre[j]))
      {
        code := code + [Run(a.pre[k])];
      }
      if a.test.Compare? { code := code + [CompareOp(a.test.rel, a.test.left, a.test.right)]; }
    }

    /** Turns the operand just parsed into a jump: a comparison is overwritten in place by the combined
        operation, anything else gets a separate test. Returns the position to patch. */
    method EmitTest(a: Atom, jumpWhenTrue: bool) returns (jump: nat)
      requires a.test.Compare? ==> |code| > 0 && code[|code| - 1] == CompareOp(a.test.rel, a.test.left, a.test.right)
      modifies this`code
      ensures var kept := if a.test.Compare? then old(code)[..|old(code)| - 1] else old(code);
        && jump == |kept|
        && code == kept + [if jumpWhenTrue then TrueJump(a.test, 0) else FalseJump(a.test, 0)]
    {
      match a.test {
        case Truthy(slot) =>
          code := code + [if jumpWhenTrue then JumpTrue(0, slot) else JumpFalse(0, slot)];
        case Compare(rel, l, r) =>
          var inverse := if rel == Eq then Ne else if rel == Ne then Eq else rel;
          code := code[..|code| - 1]
                + [JumpCompare(if jumpWhenTrue then rel else inverse, !jumpWhenTrue && rel != Eq && rel != Ne, 0, l, r)];
      }
      jump := |code| - 1;
    }

    method EmitAtom(a: Atom, jumpWhenTrue: bool) returns (jump: nat)
      modifies this`code
      ensures code == old(code) + AtomCode(a, jumpWhenTrue)
      ensures jump == |old(code)| + |a.pre|
    {
      EmitOperand(a);
      jump := EmitTest(a, jumpWhenTrue);
    }

    method ScanAndOperand(c: Chain, i: nat, trueJumps: seq<nat>, falseJumps: seq<nat>, ghost base: nat, ghost g: nat)
      returns (falseJumps': seq<nat>)
      requires c.Valid() && i < |c.atoms| && (i < |c.ops| ==> c.ops[i] == And)
      requires Scanned(code, c, base, g, i, trueJumps, falseJumps)
      modifies this`code
      ensures Scanned(code, c, base, g, i + 1, trueJumps, falseJumps')
      ensures old(code) <= code
    {
      ScanAnd(code, c, base, g, i, trueJumps, falseJumps);
      var jump := EmitAtom(c.atoms[i], false);
      falseJumps' := falseJumps + [jump];
    }

    method ScanOrOperand(c: Chain, i: nat, trueJumps: seq<nat>, falseJumps: seq<nat>, ghost base: nat, ghost g: nat)
      returns (trueJumps': seq<nat>)
      requires c.Valid() && i < |c.ops| && c.ops[i] == Or && base <= |code|
      requires Scanned(code, c, base, g, i, trueJumps, falseJumps)
      modifies this`code
      ensures Scanned(code, c, base, i + 1, i + 1, trueJumps', [])
      ensures base <= |code| && code[..base] == old(code)[..base]
    {
      ScanOr(code, c, base, g, i, trueJumps, falseJumps);
      var jump := EmitAtom(c.atoms[i], true);
      trueJumps' := trueJumps + [jump];
      PatchedPrefix(code, falseJumps, |code|, base);
      PatchAll(falseJumps, |code|);
    }

    /** The scan over the operands: every `||` closes the group before it by patching its false jumps. */
    method LowerChain(c: Chain) returns (trueJumps: seq<nat>, falseJumps: seq<nat>, ghost g: nat)
      requires c.Valid() && |c.ops| >= 1
      modifies this`code
      ensures |old(code)| <= |code| && code[..|old(code)|] == old(code)
      ensures Scanned(code, c, |old(code)|, g, |c.atoms|, trueJumps, falseJumps)
    {
      ghost var base := |code|;
      trueJumps, falseJumps, g := [], [], 0;
      for i := 0 to |c.ops|
        invariant base <= |code| && code[..base] == old(code)
        invariant Scanned(code, c, base, g, i, trueJumps, falseJumps)
      {
        if c.ops[i] == And {
          falseJumps := ScanAndOperand(c, i, trueJumps, falseJumps, base, g);
        } else {
          trueJumps := ScanOrOperand(c, i, trueJumps, falseJumps, base, g);
          falseJumps, g := [], i + 1;
        }
      }
      falseJumps := ScanAndOperand(c, |c.ops|, trueJumps, falseJumps, base, g);
    }

    /** The first pair of readings, in the order of the two nested loops, that bound one slot from both sides. */
    method FindPair(first: seq<Bound>, second: seq<Bound>) returns (found: bool, x: Bound, y: Bound)
      ensures found ==> x in first && y in second && Fits(x, y)
      ensures !found ==> forall a, b :: a in first && b in second ==> !Fits(a, b)
    {
      found, x, y := false, Bound(0, 0, false, false), Bound(0, 0, false, false);
      var i := 0;
      while i < |first| && !found
        invariant 0 <= i <= |first|
        invariant found ==> x in first && y in second && Fits(x, y)
        invariant !found ==> forall a, b :: a in first[..i] && b in second ==> !Fits(a, b)
        decreases |first| - i, if found then 0 else 1
      {
        var j := 0;
        while j < |second|
          invariant 0 <= j <= |second| && !found
          invariant forall b :: b in second[..j] ==> !Fits(first[i], b)
        {
          if Fits(first[i], second[j]) {
            found, x, y := true, first[i], second[j];
            break;
          }
          j := j + 1;
        }
        i := i + 1;
      }
      if !found { assert first[..i] == first; }
    }

    /** Replaces two adjacent comparisons by one range jump when the jump lists have a fusible shape. */
    method TryFuseRangeJump(trueJumps: seq<nat>, falseJumps: seq<nat>, ghost c: Chain, ghost base: nat, ghost g: nat)
      returns (fused: bool, jump: nat, ghost inside: bool)
      requires c.Valid() && |c.ops| >= 1 && Scanned(code, c, base, g, |c.atoms|, trueJumps, falseJumps)
      modifies this`code, this`ranges
      ensures fused ==>
        && FusedShape(c, inside) && jump == TestPos(c, base, |c.ops| - 1) < |old(code)|
        && |code| == jump + 1 && code[..jump] == old(code)[..jump] && code[jump].JumpRange? && code[jump].inside == inside
        && old(ranges) <= ranges && code[jump].index < |ranges|
        && RangeDecides(ranges[code[jump].index], code[jump].test, c.atoms[|c.ops| - 1].test, c.atoms[|c.ops|].test, inside)
      ensures !fused ==> code == old(code) && ranges == old(ranges)
      ensures if fused then |old(ranges)| <= 65535 && CanFuse(c, inside) else |ranges| > 65535 || (!CanFuse(c, true) && !CanFuse(c, false))
    {
      fused, jump, inside := false, 0, false;
      forall b | CanFuse(c, b)
        ensures if b then |trueJumps| == 1 && |falseJumps| == 1 else |trueJumps| == 0 && |falseJumps| == 2
        ensures |code| == TestPos(c, base, |c.ops| - 1) + 2 && falseJumps[|falseJumps| - 1] == TestPos(c, base, |c.ops| - 1) + 1
      {
        FusibleChainPasses(code, c, base, g, trueJumps, falseJumps, b);
      }
      var first, second, isOr;
      if |trueJumps| == 1 && |falseJumps| == 1 { first, second, isOr := trueJumps[0], falseJumps[0], true; }
      else if |trueJumps| == 0 && |falseJumps| == 2 { first, second, isOr := falseJumps[0], falseJumps[1], false; }
      else { return; }
      if second != first + 1 || |code| != second + 1 { return; }
      FusibleJumps(code, c, base, g, trueJumps, falseJumps, first, second, isOr);
      var found, x, y := FindPair(BuildRangeBoundCandidates(code[first], isOr, isOr),
                                  BuildRangeBoundCandidates(code[second], false, isOr));
      FusibleIsBounded(c.atoms[|c.ops| - 1].test, c.atoms[|c.ops|].test, isOr);
      if !found || |ranges| > 65535 { return; }
      FittingPairDecides(c.atoms[|c.ops| - 1].test, c.atoms[|c.ops|].test, isOr, code[first].offset, code[second].offset, x, y);
      var index := |ranges|;
      ranges := ranges + [RangeOf(x, y)];
      code := code[..first] + [JumpRange(isOr, 0, x.test, index)];
      fused, jump, inside := true, first, isOr;
    }

    /** Branch form: true falls through to the body, the returned jumps wait for the caller's false target. */
    method ParseBranch(c: Chain) returns (falseJumps: seq<nat>, fused: bool, ghost inside: bool)
      requires c.Valid() && |c.ops| >= 1
      modifies this`code, this`ranges
      ensures |old(code)| <= |code| && code[..|old(code)|] == old(code)
      ensures old(ranges) <= ranges
      ensures forall j :: j in falseJumps ==> |old(code)| <= j < |code|
      ensures if fused then |old(ranges)| <= 65535 && CanFuse(c, inside) else |old(ranges)| > 65535 || (!CanFuse(c, true) && !CanFuse(c, false))
      ensures !fused ==>
        && |code| == Pos(c, |old(code)|, |c.atoms|)
        && forall falsePos: nat :: Lowered(Patched(code, falseJumps, falsePos), c, |old(code)|, 0, |code|, falsePos)
      ensures fused ==>
        && FusedShape(c, inside)
        && forall falsePos: nat :: FusedAt(Patched(code, falseJumps, falsePos), ranges, c, |old(code)|, inside, falsePos)
    {
      ghost var base := |code|;
      var trueJumps;
      ghost var g;
      trueJumps, falseJumps, g := LowerChain(c);
      ghost var scanned := code;
      JumpsInCode(code, c, base, |c.atoms|, g);
      var jump;
      fused, jump, inside := TryFuseRangeJump(trueJumps, falseJumps, c, base, g);
      if fused {
        falseJumps := [jump];
        FusedBranch(scanned, code, ranges, c, base, g, inside, jump);
      } else {
        PatchedPrefix(code, trueJumps, |code|, base);
        PatchAll(trueJumps, |code|);
        forall falsePos: nat ensures Lowered(Patched(code, falseJumps, falsePos), c, base, 0, |code|, falsePos) {
          FinishLowering(scanned, c, base, g, |code|, falsePos);
        }
      }
    }

    /** Value form: the chain's value is left in `result`. */
    method ParseValue(c: Chain, result: int)
      requires c.Valid() && |c.ops| >= 1
      modifies this`code
      ensures |old(code)| <= |code| && code[..|old(code)|] == old(code)
      ensures ValueCode(code, c, |old(code)|, result)
    {
      ghost var base := |code|;
      var trueJumps, falseJumps;
      ghost var g;
      trueJumps, falseJumps, g := LowerChain(c);
      ghost var scanned := code;
      JumpsInCode(code, c, base, |c.atoms|, g);
      var truePos := |code|;
      code := code + [SetBool(result, true), Jump(0)];
      var endJump, falsePos := truePos + 1, truePos + 2;
      PatchedTail(scanned, [SetBool(result, true), Jump(0)], trueJumps, falseJumps, truePos, falsePos);
      PatchAll(trueJumps, truePos);
      PatchAll(falseJumps, falsePos);
      code := code + [SetBool(result, false)];
      SetJumpOffset(endJump, |code|);
      FinishLowering(scanned, c, base, g, truePos, falsePos);
      LoweredKept(Patched(Patched(scanned, trueJumps, truePos), falseJumps, falsePos), code, c, base, truePos, falsePos);
      PatchedPrefix(scanned, trueJumps, truePos, base);
      PatchedPrefix(Patched(scanned, trueJumps, truePos), falseJumps, falsePos, base);
    }
  }
  lemma FlagOrRangeFuses()
    ensures CanFuse(FlagOrRange(), true)
  {
    var c := FlagOrRange();
    assert Between(c.atoms[1].test, c.atoms[2].test, 2);
  }

  lemma FlagFalseRuns(code: seq<Op>, ranges: seq<Range>, eff: Effects, s: Store)
    requires FusedShape(FlagOrRange(), true) && FusedAt(code, ranges, FlagOrRange(), 0, true, 9) && |code| == 2
    requires Read(s, 1) == Bool(false)
    ensures Exec(code, ranges, eff, 0, s, []) == Halt(2, s, [], false)
  {
    var c := FlagOrRange();
    FlagOrRangeRuns(eff, s);
    FusedCodeExactly(code, ranges, eff, c, 0, 9, s);
    assert c.atoms[..1] == [c.atoms[0]];
    assert EvalAtom(c.atoms[0], eff, s, []) == Done(false, s, []);
  }

  /** The emitter itself fuses that chain, whose flag is false here: what it emits reaches the body, whatever x is,
      while the chain's value is the last comparison's. */
  method FlagOrRangeEmitted(ghost eff: Effects, ghost s: Store) returns (code: seq<Op>, ranges: seq<Range>)
    requires Read(s, 1) == Bool(false)
    ensures Exec(code, ranges, eff, 0, s, []) == Halt(|code|, s, [], false)
    ensures Meaning(FlagOrRange(), eff, s, []) == EvalAtom(Atom([], Compare(Ge, 2, 4)), eff, s, [])
  {
    FlagOrRangeFuses();
    FlagOrRangeRuns(eff, s);
    var emitter := new Emitter();
    var falseJumps, fused;
    ghost var inside;
    falseJumps, fused, inside := emitter.ParseBranch(FlagOrRange());
    ghost var emitted := emitter.code;
    assert FusedAt(Patched(emitted, falseJumps, 9), emitter.ranges, FlagOrRange(), 0, inside, 9);
    emitter.PatchAll(falseJumps, 9);
    code, ranges := emitter.code, emitter.ranges;
    assert Pos(FlagOrRange(), 0, 1) == 1;
    FlagFalseRuns(code, ranges, eff, s);
  }
}
