/** Function bodies as code over the slots of a frame, and what loading loop constants once at entry does to them. */
module HoistedCode {

  const LOCALTMP_BEGIN: int := 10000
  const STATIC_BEGIN: int := 15000
  const CALLARG_BEGIN: int := 30000
  const RETURN_SLOT: int := 32767
  const HOIST_MAX: nat := 32

  /** The operations that matter here by name. The others, and the jumps whose operands are never replaced, come
      with the list of operands they name: fields, slots of a group, captured variables. */
  datatype Opcode =
    | Mov | MovMinus | Add2 | Add3 | Sub3 | Mul3 | And | StrAdd | ToInt | CltRead | CltMov
    | CompareJump(relation: nat) | RangeJump(inside: bool) | Jump(kind: nat, named: seq<int>) | Other(code: nat, named: seq<int>)

  datatype Instr = Instr(op: Opcode, n1: int, n2: int, n3: int)

  /** An entry of the table of range descriptors. */
  datatype Range = Range(owner: nat, lower: int, upper: int)

  predicate IsStatic(n: int) { STATIC_BEGIN <= n < CALLARG_BEGIN }

  /** Constants and globals, which are negative, are no slots. */
  predicate IsSlot(n: int) { n >= 0 && !IsStatic(n) }

  /** The jumps whose first field is an offset relative to the next operation. */
  predicate IsRelativeJump(op: Opcode) { op.CompareJump? || op.RangeJump? || op.Jump? }

  /** The pass's own table of the second fields it may rename. */
  predicate Mask2(op: Opcode) {
    op.Mov? || op.MovMinus? || op.Add2? || op.Add3? || op.Sub3? || op.Mul3? || op.And? || op.CompareJump? || op.StrAdd?
    || op.ToInt? || op.CltRead? || op.CltMov?
  }

  /** And of the third fields. */
  predicate Mask3(op: Opcode) {
    op.Add3? || op.Sub3? || op.Mul3? || op.And? || op.CompareJump? || op.StrAdd? || op.CltMov?
  }

  /** The operands an operation only reads and that may name a constant; zero where there is none. */
  function Reads(i: Instr, ranges: seq<Range>): (int, int) {
    match i.op
    case Mov | MovMinus | Add2 | ToInt | CltRead => (i.n2, 0)
    case Add3 | Sub3 | Mul3 | And | StrAdd | CltMov | CompareJump(_) => (i.n2, i.n3)
    case RangeJump(_) => if 0 <= i.n3 < |ranges| then (ranges[i.n3].lower, ranges[i.n3].upper) else (0, 0)
    case Jump(_, _) | Other(_, _) => (0, 0)
  }

  /** All other operands it names, to read or to write. */
  function Named(i: Instr): seq<int> {
    match i.op
    case CltRead => [i.n1, i.n3]
    case CompareJump(_) => []
    case RangeJump(_) => [i.n2]
    case Jump(_, named) => named
    case Other(_, named) => named
    case _ => [i.n1]
  }

  /** The instruction apart from the operands that may name a constant. The fields of all other operations are
      given to the machine as they are: there they can be immediates, counts, offsets or function numbers. */
  function View(i: Instr): Instr {
    match i.op
    case Mov | MovMinus | Add2 | ToInt | CltRead => i.(n2 := 0)
    case Add3 | Sub3 | Mul3 | And | StrAdd | CltMov | CompareJump(_) => i.(n2 := 0, n3 := 0)
    case RangeJump(_) | Jump(_, _) | Other(_, _) => i
  }

  // ---------------------------------------------------------------- the frame

  /** The counts that fix a function's frame. */
  datatype Frame = Frame(args: nat, locals: nat, temps: nat)
  {
    /** The first slot above the frame: where a callee returns its result, its arguments behind it. */
    function Stack(): nat { 1 + args + locals + temps }

    function Above(j: nat): nat { Stack() + j }

    /** Where a slot operand ends up in the frame. */
    function Final(n: int): int {
      if n == RETURN_SLOT then Stack()
      else if n >= CALLARG_BEGIN then n - CALLARG_BEGIN + Stack()
      else if n >= LOCALTMP_BEGIN then n - LOCALTMP_BEGIN + locals
      else n
    }

    /** The slot operands of a function with these counts. */
    predicate Names(n: int) {
      || 0 <= n <= args + locals
      || LOCALTMP_BEGIN + 1 + args <= n < LOCALTMP_BEGIN + 1 + args + temps
      || CALLARG_BEGIN < n <= RETURN_SLOT
    }

    /** The counts stay below what the compiler's range checks allow. */
    predicate Fits() { args + locals < LOCALTMP_BEGIN && LOCALTMP_BEGIN + 1 + args + temps <= STATIC_BEGIN }

    predicate Knows(n: int) { IsSlot(n) ==> Names(n) }
  }

  /** No two slot operands share a place: arguments and locals, hidden ones included, lie below the temporaries,
      those below the return slot, that below the arguments of a call. */
  lemma FrameSlotsAreApart(frame: Frame, a: int, b: int)
    requires frame.Fits() && frame.Names(a) && frame.Names(b) && a != b
    ensures frame.Final(a) != frame.Final(b)
    ensures 0 <= frame.Final(a) && (frame.Final(a) < frame.Stack() <==> a < STATIC_BEGIN)
  {
  }

  /** Every operand in the body is one the frame has. */
  ghost predicate Allocated(code: seq<Instr>, ranges: seq<Range>, frame: Frame) {
    forall k :: 0 <= k < |code| ==>
      && frame.Knows(Reads(code[k], ranges).0) && frame.Knows(Reads(code[k], ranges).1)
      && forall n :: n in Named(code[k]) ==> frame.Knows(n)
  }

  // ---------------------------------------------------------------- running

  datatype Control = Go(delta: int) | Stop

  /** What an operation leaves: values for the operands it names, the slots above the frame, everything else. */
  datatype Effect<M, V> = Effect(values: seq<V>, window: seq<V>, m: M, control: Control)

  /** An arbitrary meaning for the operations. `M` is all there is besides slots and constants; `reach` is how many
      slots above its frame a call may use. */
  datatype Machine<!M, !V> = Machine(
    statics: int -> V,
    global: (M, int) -> V,
    reach: nat,
    exec: (Instr, V, V, seq<V>, seq<V>, M) -> Effect<M, V>)

  /** All slots, hidden ones too, are in one store. */
  datatype State<M, V> = Running(pc: int, store: int -> V, m: M) | Done(result: V, m: M) | Fault

  function Fetch<M, V>(mach: Machine<M, V>, frame: Frame, store: int -> V, m: M, n: int): V {
    if IsStatic(n) then mach.statics(n) else if n < 0 then mach.global(m, n) else store(frame.Final(n))
  }

  function FetchAll<M, V>(mach: Machine<M, V>, frame: Frame, store: int -> V, m: M, ns: seq<int>): seq<V> {
    seq(|ns|, k requires 0 <= k < |ns| => Fetch(mach, frame, store, m, ns[k]))
  }

  function Window<V>(store: int -> V, frame: Frame, reach: nat): seq<V> { seq(reach, j requires 0 <= j => store(frame.Above(j))) }

  function Put<V>(store: int -> V, slot: int, v: V): int -> V { k => if k == slot then v else store(k) }

  function PutAll<V>(store: int -> V, frame: Frame, ns: seq<int>, vs: seq<V>): int -> V
    decreases |ns|
  {
    if ns == [] || vs == [] then store
    else PutAll(if IsSlot(ns[0]) then Put(store, frame.Final(ns[0]), vs[0]) else store, frame, ns[1..], vs[1..])
  }

  function PutWindow<V>(store: int -> V, frame: Frame, window: seq<V>): int -> V {
    k => if frame.Stack() <= k < frame.Stack() + |window| then window[k - frame.Stack()] else store(k)
  }

  /** A move to a slot moves; what other operations do is up to the machine. */
  function Perform<M, V>(mach: Machine<M, V>, frame: Frame, i: Instr, ranges: seq<Range>, store: int -> V, m: M): Effect<M, V> {
    var x, y := Fetch(mach, frame, store, m, Reads(i, ranges).0), Fetch(mach, frame, store, m, Reads(i, ranges).1);
    var window := Window(store, frame, mach.reach);
    if i.op.Mov? && IsSlot(i.n1) then Effect([x], window, m, Go(0))
    else mach.exec(View(i), x, y, FetchAll(mach, frame, store, m, Named(i)), window, m)
  }

  /** The store an operation leaves. */
  function Written<M, V>(frame: Frame, i: Instr, store: int -> V, e: Effect<M, V>): int -> V {
    PutAll(PutWindow(store, frame, e.window), frame, Named(i), e.values)
  }

  ghost function Step<M, V>(mach: Machine<M, V>, frame: Frame, code: seq<Instr>, ranges: seq<Range>, s: State<M, V>): State<M, V> {
    if !s.Running? then s
    else if !(0 <= s.pc < |code|) then Fault
    else
      var e := Perform(mach, frame, code[s.pc], ranges, s.store, s.m);
      var store := Written(frame, code[s.pc], s.store, e);
      match e.control
      case Go(delta) => Running(s.pc + 1 + delta, store, e.m)
      case Stop => Done(store(0), e.m)
  }

  ghost function Run<M, V>(mach: Machine<M, V>, frame: Frame, code: seq<Instr>, ranges: seq<Range>, s: State<M, V>, n: nat): State<M, V> {
    if n == 0 then s else Step(mach, frame, code, ranges, Run(mach, frame, code, ranges, s, n - 1))
  }

  lemma {:induction false} PutAllFrames<V>(store: int -> V, frame: Frame, ns: seq<int>, vs: seq<V>, k: int)
    requires forall n :: n in ns && IsSlot(n) ==> frame.Final(n) != k
    ensures PutAll(store, frame, ns, vs)(k) == store(k)
    decreases |ns|
  {
    if ns != [] && vs != [] {
      assert ns[0] in ns && forall n :: n in ns[1..] ==> n in ns;
      PutAllFrames(if IsSlot(ns[0]) then Put(store, frame.Final(ns[0]), vs[0]) else store, frame, ns[1..], vs[1..], k);
    }
  }

  /** The frame condition: whatever the machine, an operation changes no slot of the frame that it does not name. */
  lemma WritesOnlyNamed<M, V>(mach: Machine<M, V>, frame: Frame, code: seq<Instr>, ranges: seq<Range>, s: State<M, V>, k: int)
    requires s.Running? && 0 <= s.pc < |code| && k < frame.Stack()
    requires forall n :: n in Named(code[s.pc]) && IsSlot(n) ==> frame.Final(n) != k
    ensures var t := Step(mach, frame, code, ranges, s); t.Running? ==> t.store(k) == s.store(k)
  {
    var e := Perform(mach, frame, code[s.pc], ranges, s.store, s.m);
    PutAllFrames(PutWindow(s.store, frame, e.window), frame, Named(code[s.pc]), e.values, k);
  }

  // ---------------------------------------------------------------- rewriting

  function Renamed(n: int, remap: map<int, int>): int { if n in remap then remap[n] else n }

  function RewrittenInstr(i: Instr, remap: map<int, int>): Instr {
    Instr(i.op, i.n1, if Mask2(i.op) then Renamed(i.n2, remap) else i.n2, if Mask3(i.op) then Renamed(i.n3, remap) else i.n3)
  }

  /** Which operands are renamed, operation by operation: never the operation or the first field, and nothing at
      all in an operation that is not listed. */
  predicate OnlyOperandsRenamed(before: Instr, after: Instr, remap: map<int, int>) {
    match before.op
    case Mov | MovMinus | Add2 | ToInt | CltRead => after == before.(n2 := Renamed(before.n2, remap))
    case Add3 | Sub3 | Mul3 | And | StrAdd | CltMov | CompareJump(_) =>
      after == before.(n2 := Renamed(before.n2, remap), n3 := Renamed(before.n3, remap))
    case RangeJump(_) | Jump(_, _) | Other(_, _) => after == before
  }

  lemma RewritingRenamesOperands(i: Instr, remap: map<int, int>)
    ensures OnlyOperandsRenamed(i, RewrittenInstr(i, remap), remap)
  {
  }

  function Rewritten(code: seq<Instr>, remap: map<int, int>): (r: seq<Instr>)
    ensures |r| == |code| && forall k :: 0 <= k < |code| ==> r[k] == RewrittenInstr(code[k], remap)
  {
    seq(|code|, k requires 0 <= k < |code| => RewrittenInstr(code[k], remap))
  }

  function RewrittenRange(range: Range, remap: map<int, int>): Range {
    Range(range.owner, Renamed(range.lower, remap), Renamed(range.upper, remap))
  }

  /** `after` is the descriptor table `before` with some constants replaced by their hidden slots. */
  predicate RangesKept(before: seq<Range>, after: seq<Range>, remap: map<int, int>) {
    |after| == |before| && forall r :: 0 <= r < |before| ==> after[r] == before[r] || after[r] == RewrittenRange(before[r], remap)
  }

  function Prologue(pairs: seq<(int, int)>): (r: seq<Instr>)
    ensures |r| == |pairs| && forall k :: 0 <= k < |pairs| ==> r[k] == Instr(Mov, pairs[k].0, pairs[k].1, 0)
  {
    seq(|pairs|, k requires 0 <= k < |pairs| => Instr(Mov, pairs[k].0, pairs[k].1, 0))
  }

  /** The frame with hidden slots behind its locals. */
  function Widened(frame: Frame, count: nat): Frame { frame.(locals := frame.locals + count) }

  /** Constants are replaced by slots that the widened frame has and the old one has not, each by its own. */
  ghost predicate RemapOk(remap: map<int, int>, frame: Frame, count: nat) {
    && (forall v :: v in remap ==> IsStatic(v) && frame.args + frame.locals < remap[v] <= frame.args + frame.locals + count)
    && forall u, v :: u in remap && v in remap && remap[u] == remap[v] ==> u == v
  }

  /** The prologue loads each replaced constant into its slot. */
  ghost predicate Loads(pairs: seq<(int, int)>, remap: map<int, int>) {
    && (forall k :: 0 <= k < |pairs| ==> pairs[k].1 in remap && remap[pairs[k].1] == pairs[k].0)
    && (forall v :: v in remap ==> (remap[v], v) in pairs)
  }

  /** Each hidden slot holds its constant. */
  ghost predicate Loaded<M, V>(mach: Machine<M, V>, remap: map<int, int>, store: int -> V) {
    forall v :: v in remap ==> store(remap[v]) == mach.statics(v)
  }

  /** What the function can name it finds in both stores, each laid out for its frame; so does a callee. */
  ghost predicate Alike<V>(frame: Frame, wide: Frame, store: int -> V, store': int -> V) {
    && (forall n :: frame.Names(n) ==> store'(wide.Final(n)) == store(frame.Final(n)))
    && forall j :: 0 <= j ==> store'(wide.Above(j)) == store(frame.Above(j))
  }

  // ---------------------------------------------------------------- nothing overwrites a hidden slot

  /** Writing what the function can name leaves the stores alike and every hidden slot alone. */
  lemma PutKeeps<M, V>(mach: Machine<M, V>, frame: Frame, count: nat, remap: map<int, int>, store: int -> V, store': int -> V, n: int, v: V)
    requires Widened(frame, count).Fits() && RemapOk(remap, frame, count) && frame.Names(n)
    requires Alike(frame, Widened(frame, count), store, store') && Loaded(mach, remap, store')
    ensures var wide := Widened(frame, count);
      Alike(frame, wide, Put(store, frame.Final(n), v), Put(store', wide.Final(n), v))
      && Loaded(mach, remap, Put(store', wide.Final(n), v))
  {
    var wide := Widened(frame, count);
    var after, after' := Put(store, frame.Final(n), v), Put(store', wide.Final(n), v);
    forall a | frame.Names(a) ensures after'(wide.Final(a)) == after(frame.Final(a)) {
      if a != n {
        FrameSlotsAreApart(frame, a, n);
        FrameSlotsAreApart(wide, a, n);
      }
    }
    forall j | 0 <= j ensures after'(wide.Above(j)) == after(frame.Above(j)) {
      assert store'(wide.Above(j)) == store(frame.Above(j));
      assert wide.Above(j) == wide.Final(n) <==> frame.Above(j) == frame.Final(n);
    }
    forall u | u in remap ensures after'(remap[u]) == mach.statics(u) { FrameSlotsAreApart(wide, remap[u], n); }
  }

  lemma {:induction false} PutAllKeeps<M, V>(mach: Machine<M, V>, frame: Frame, count: nat, remap: map<int, int>,
                                             store: int -> V, store': int -> V, ns: seq<int>, vs: seq<V>)
    requires Widened(frame, count).Fits() && RemapOk(remap, frame, count) && forall n :: n in ns ==> frame.Knows(n)
    requires Alike(frame, Widened(frame, count), store, store') && Loaded(mach, remap, store')
    ensures var wide := Widened(frame, count);
      Alike(frame, wide, PutAll(store, frame, ns, vs), PutAll(store', wide, ns, vs))
      && Loaded(mach, remap, PutAll(store', wide, ns, vs))
    decreases |ns|
  {
    if ns != [] && vs != [] {
      var wide := Widened(frame, count);
      assert ns[0] in ns && forall n :: n in ns[1..] ==> n in ns;
      if IsSlot(ns[0]) {
        PutKeeps(mach, frame, count, remap, store, store', ns[0], vs[0]);
        PutAllKeeps(mach, frame, count, remap, Put(store, frame.Final(ns[0]), vs[0]), Put(store', wide.Final(ns[0]), vs[0]), ns[1..], vs[1..]);
      } else {
        PutAllKeeps(mach, frame, count, remap, store, store', ns[1..], vs[1..]);
      }
    }
  }

  /** What a call leaves above the frame lies above the hidden slots as well. */
  lemma PutWindowKeeps<M, V>(mach: Machine<M, V>, frame: Frame, count: nat, remap: map<int, int>, store: int -> V, store': int -> V, window: seq<V>)
    requires Widened(frame, count).Fits() && RemapOk(remap, frame, count)
    requires Alike(frame, Widened(frame, count), store, store') && Loaded(mach, remap, store')
    ensures var wide := Widened(frame, count);
      Alike(frame, wide, PutWindow(store, frame, window), PutWindow(store', wide, window))
      && Loaded(mach, remap, PutWindow(store', wide, window))
  {
    var wide := Widened(frame, count);
    var after, after' := PutWindow(store, frame, window), PutWindow(store', wide, window);
    forall a | frame.Names(a) ensures after'(wide.Final(a)) == after(frame.Final(a)) {
      assert store'(wide.Final(a)) == store(frame.Final(a));
      assert wide.Final(a) - wide.Stack() == frame.Final(a) - frame.Stack() || (frame.Final(a) < frame.Stack() && wide.Final(a) < wide.Stack());
    }
    forall j | 0 <= j ensures after'(wide.Above(j)) == after(frame.Above(j)) {
      assert store'(wide.Above(j)) == store(frame.Above(j));
    }
  }

  // ---------------------------------------------------------------- the simulation

  lemma WindowAgrees<V>(frame: Frame, wide: Frame, store: int -> V, store': int -> V, reach: nat)
    requires Alike(frame, wide, store, store')
    ensures Window(store', wide, reach) == Window(store, frame, reach)
  {
    forall j | 0 <= j < reach ensures Window(store', wide, reach)[j] == Window(store, frame, reach)[j] {
      assert store'(wide.Above(j)) == store(frame.Above(j));
    }
  }

  /** An operand of the body reads the same value before and after renaming. */
  lemma FetchAgrees<M, V>(mach: Machine<M, V>, frame: Frame, count: nat, remap: map<int, int>, store: int -> V, store': int -> V, m: M, n: int)
    requires Widened(frame, count).Fits() && RemapOk(remap, frame, count) && frame.Knows(n)
    requires Alike(frame, Widened(frame, count), store, store') && Loaded(mach, remap, store')
    ensures Fetch(mach, Widened(frame, count), store', m, Renamed(n, remap)) == Fetch(mach, frame, store, m, n)
    ensures Fetch(mach, Widened(frame, count), store', m, n) == Fetch(mach, frame, store, m, n)
  {
  }

  lemma FetchAllAgree<M, V>(mach: Machine<M, V>, frame: Frame, count: nat, remap: map<int, int>, store: int -> V, store': int -> V, m: M, ns: seq<int>)
    requires Widened(frame, count).Fits() && RemapOk(remap, frame, count) && forall n :: n in ns ==> frame.Knows(n)
    requires Alike(frame, Widened(frame, count), store, store') && Loaded(mach, remap, store')
    ensures FetchAll(mach, Widened(frame, count), store', m, ns) == FetchAll(mach, frame, store, m, ns)
  {
    var wide := Widened(frame, count);
    forall k | 0 <= k < |ns| ensures FetchAll(mach, wide, store', m, ns)[k] == FetchAll(mach, frame, store, m, ns)[k] {
      assert ns[k] in ns;
      FetchAgrees(mach, frame, count, remap, store, store', m, ns[k]);
    }
  }

  lemma ReadsRenamed(i: Instr, ranges: seq<Range>, ranges': seq<Range>, remap: map<int, int>)
    requires RangesKept(ranges, ranges', remap) && 0 !in remap
    ensures var (a, b) := Reads(i, ranges);
      var (a', b') := Reads(RewrittenInstr(i, remap), ranges');
      (a' == a || a' == Renamed(a, remap)) && (b' == b || b' == Renamed(b, remap))
    ensures View(RewrittenInstr(i, remap)) == View(i) && Named(RewrittenInstr(i, remap)) == Named(i)
  {
  }

  /** The rewritten operation has the same effect in the widened frame. */
  lemma PerformAgrees<M, V>(mach: Machine<M, V>, frame: Frame, count: nat, i: Instr, ranges: seq<Range>, ranges': seq<Range>,
                            remap: map<int, int>, store: int -> V, store': int -> V, m: M)
    requires Widened(frame, count).Fits() && RemapOk(remap, frame, count) && RangesKept(ranges, ranges', remap)
    requires frame.Knows(Reads(i, ranges).0) && frame.Knows(Reads(i, ranges).1) && forall n :: n in Named(i) ==> frame.Knows(n)
    requires Alike(frame, Widened(frame, count), store, store') && Loaded(mach, remap, store')
    ensures Perform(mach, Widened(frame, count), RewrittenInstr(i, remap), ranges', store', m) == Perform(mach, frame, i, ranges, store, m)
  {
    ReadsRenamed(i, ranges, ranges', remap);
    FetchAgrees(mach, frame, count, remap, store, store', m, Reads(i, ranges).0);
    FetchAgrees(mach, frame, count, remap, store, store', m, Reads(i, ranges).1);
    FetchAllAgree(mach, frame, count, remap, store, store', m, Named(i));
    WindowAgrees(frame, Widened(frame, count), store, store', mach.reach);
  }

  /** Running state for running state, shifted by the prologue; a fault of the original promises nothing. */
  ghost predicate Matches<M, V>(mach: Machine<M, V>, frame: Frame, remap: map<int, int>, shift: nat, s: State<M, V>, t: State<M, V>) {
    match s
    case Running(pc, store, m) =>
      && t.Running? && t.pc == pc + shift && t.m == m
      && Alike(frame, Widened(frame, shift), store, t.store) && Loaded(mach, remap, t.store)
    case Done(result, m) => t == Done(result, m)
    case Fault => true
  }

  /** What makes a rewriting with its prologue one that hoists. */
  ghost predicate Hoists(code: seq<Instr>, ranges: seq<Range>, ranges': seq<Range>, frame: Frame, remap: map<int, int>, pairs: seq<(int, int)>) {
    && Allocated(code, ranges, frame) && RangesKept(ranges, ranges', remap)
    && Widened(frame, |pairs|).Fits() && RemapOk(remap, frame, |pairs|) && Loads(pairs, remap)
  }

  lemma StepMatches<M, V>(mach: Machine<M, V>, frame: Frame, code: seq<Instr>, ranges: seq<Range>, ranges': seq<Range>, remap: map<int, int>,
                          pairs: seq<(int, int)>, s: State<M, V>, t: State<M, V>)
    requires Hoists(code, ranges, ranges', frame, remap, pairs)
    requires Matches(mach, frame, remap, |pairs|, s, t)
    ensures Matches(mach, frame, remap, |pairs|, Step(mach, frame, code, ranges, s),
                    Step(mach, Widened(frame, |pairs|), Prologue(pairs) + Rewritten(code, remap), ranges', t))
  {
    if s.Running? && 0 <= s.pc < |code| {
      var i, count := code[s.pc], |pairs|;
      assert (Prologue(pairs) + Rewritten(code, remap))[t.pc] == RewrittenInstr(i, remap);
      ReadsRenamed(i, ranges, ranges', remap);
      PerformAgrees(mach, frame, count, i, ranges, ranges', remap, s.store, t.store, s.m);
      var e := Perform(mach, frame, i, ranges, s.store, s.m);
      PutWindowKeeps(mach, frame, count, remap, s.store, t.store, e.window);
      PutAllKeeps(mach, frame, count, remap, PutWindow(s.store, frame, e.window),
                  PutWindow(t.store, Widened(frame, count), e.window), Named(i), e.values);
      assert frame.Names(0);
    }
  }

  /** The first `n` moves of the prologue have loaded their slots, and nothing the body can name has changed. */
  ghost predicate Entering<M, V>(mach: Machine<M, V>, frame: Frame, pairs: seq<(int, int)>, start: int -> V, m: M, n: nat, s: State<M, V>)
    requires n <= |pairs|
  {
    && s.Running? && s.pc == n && s.m == m && Alike(frame, Widened(frame, |pairs|), start, s.store)
    && forall j :: 0 <= j < n ==> s.store(pairs[j].0) == mach.statics(pairs[j].1)
  }

  lemma LoadStep<M, V>(mach: Machine<M, V>, frame: Frame, code: seq<Instr>, ranges: seq<Range>, remap: map<int, int>,
                       pairs: seq<(int, int)>, start: int -> V, m: M, n: nat, s: State<M, V>)
    requires Widened(frame, |pairs|).Fits() && RemapOk(remap, frame, |pairs|) && Loads(pairs, remap)
    requires n < |pairs| && Entering(mach, frame, pairs, start, m, n, s)
    ensures Entering(mach, frame, pairs, start, m, n + 1, Step(mach, Widened(frame, |pairs|), Prologue(pairs) + code, ranges, s))
  {
    var wide := Widened(frame, |pairs|);
    var slot, constant := pairs[n].0, pairs[n].1;
    var i := (Prologue(pairs) + code)[n];
    assert i == Instr(Mov, slot, constant, 0) && remap[constant] == slot;
    var e := Perform(mach, wide, i, ranges, s.store, m);
    var t := Written(wide, i, s.store, e);
    forall k ensures t(k) == if k == slot then mach.statics(constant) else s.store(k) { MoveWrites(mach, wide, i, ranges, s.store, m, k); }
    forall a | frame.Names(a) ensures t(wide.Final(a)) == start(frame.Final(a)) { FrameSlotsAreApart(wide, a, slot); }
    forall j | 0 <= j ensures t(wide.Above(j)) == start(frame.Above(j)) { FrameSlotsAreApart(wide, slot, 0); }
    forall j | 0 <= j < n ensures t(pairs[j].0) == mach.statics(pairs[j].1) {
      assert pairs[j].0 == slot ==> remap[pairs[j].1] == remap[constant];
    }
  }

  /** A move to a slot writes that slot and no other. */
  lemma MoveWrites<M, V>(mach: Machine<M, V>, frame: Frame, i: Instr, ranges: seq<Range>, store: int -> V, m: M, k: int)
    requires i.op.Mov? && IsSlot(i.n1)
    ensures Written(frame, i, store, Perform(mach, frame, i, ranges, store, m))(k)
         == if k == frame.Final(i.n1) then Fetch(mach, frame, store, m, i.n2) else store(k)
  {
    var e := Perform(mach, frame, i, ranges, store, m);
    var under := PutWindow(store, frame, e.window);
    assert e.window == Window(store, frame, mach.reach);
    assert frame.Stack() <= k ==> frame.Above(k - frame.Stack()) == k;
    assert under(k) == store(k);
    assert Named(i) == [i.n1] && e.values == [Fetch(mach, frame, store, m, i.n2)];
    assert PutAll(Put(under, frame.Final(i.n1), e.values[0]), frame, Named(i)[1..], e.values[1..]) == Put(under, frame.Final(i.n1), e.values[0]);
  }

  lemma {:induction false} PrologueRuns<M, V>(mach: Machine<M, V>, frame: Frame, code: seq<Instr>, ranges: seq<Range>, remap: map<int, int>,
                                              pairs: seq<(int, int)>, start: int -> V, m: M, s: State<M, V>, n: nat)
    requires Widened(frame, |pairs|).Fits() && RemapOk(remap, frame, |pairs|) && Loads(pairs, remap)
    requires n <= |pairs| && Entering(mach, frame, pairs, start, m, 0, s)
    ensures Entering(mach, frame, pairs, start, m, n, Run(mach, Widened(frame, |pairs|), Prologue(pairs) + code, ranges, s, n))
  {
    if n > 0 {
      PrologueRuns(mach, frame, code, ranges, remap, pairs, start, m, s, n - 1);
      var last := Run(mach, Widened(frame, |pairs|), Prologue(pairs) + code, ranges, s, n - 1);
      LoadStep(mach, frame, code, ranges, remap, pairs, start, m, n - 1, last);
    }
  }

  /** Both runs are at their first operation, and what the function can name they find alike. */
  ghost predicate Begin<M, V>(frame: Frame, count: nat, s: State<M, V>, t: State<M, V>) {
    s.Running? && t.Running? && s.pc == t.pc == 0 && s.m == t.m && Alike(frame, Widened(frame, count), s.store, t.store)
  }

  /** After the prologue each hidden slot holds its constant, and the function finds everything else as before. */
  lemma PrologueLoads<M, V>(mach: Machine<M, V>, frame: Frame, code: seq<Instr>, ranges: seq<Range>, remap: map<int, int>,
                            pairs: seq<(int, int)>, s: State<M, V>, t: State<M, V>)
    requires Widened(frame, |pairs|).Fits() && RemapOk(remap, frame, |pairs|) && Loads(pairs, remap) && Begin(frame, |pairs|, s, t)
    ensures Matches(mach, frame, remap, |pairs|, s, Run(mach, Widened(frame, |pairs|), Prologue(pairs) + code, ranges, t, |pairs|))
  {
    PrologueRuns(mach, frame, code, ranges, remap, pairs, s.store, s.m, t, |pairs|);
    var entered := Run(mach, Widened(frame, |pairs|), Prologue(pairs) + code, ranges, t, |pairs|);
    forall v | v in remap ensures entered.store(remap[v]) == mach.statics(v) {
      var j :| 0 <= j < |pairs| && pairs[j] == (remap[v], v);
    }
  }

  /** For every meaning of the operations, every start and every number of steps, the rewritten function with its
      prologue, in the widened frame, is where the original is, with everything the original has, and ends as it ends. */
  lemma {:induction false} HoistingPreservesMeaning<M, V>(mach: Machine<M, V>, frame: Frame, code: seq<Instr>, ranges: seq<Range>,
                                                          ranges': seq<Range>, remap: map<int, int>, pairs: seq<(int, int)>,
                                                          s: State<M, V>, t: State<M, V>, n: nat)
    requires Hoists(code, ranges, ranges', frame, remap, pairs) && Begin(frame, |pairs|, s, t)
    ensures Matches(mach, frame, remap, |pairs|, Run(mach, frame, code, ranges, s, n),
                    Run(mach, Widened(frame, |pairs|), Prologue(pairs) + Rewritten(code, remap), ranges', t, |pairs| + n))
  {
    if n == 0 {
      PrologueLoads(mach, frame, Rewritten(code, remap), ranges', remap, pairs, s, t);
    } else {
      HoistingPreservesMeaning(mach, frame, code, ranges, ranges', remap, pairs, s, t, n - 1);
      StepMatches(mach, frame, code, ranges, ranges', remap, pairs, Run(mach, frame, code, ranges, s, n - 1),
                  Run(mach, Widened(frame, |pairs|), Prologue(pairs) + Rewritten(code, remap), ranges', t, |pairs| + n - 1));
    }
  }

  ghost predicate SameDescriptors(code: seq<Instr>, ranges: seq<Range>, ranges': seq<Range>) {
    |ranges'| == |ranges|
    && forall k :: 0 <= k < |code| && code[k].op.RangeJump? && 0 <= code[k].n3 < |ranges| ==> ranges'[code[k].n3] == ranges[code[k].n3]
  }

  /** Equality, state by state. */
  ghost predicate SameState<M, V>(s: State<M, V>, t: State<M, V>) {
    match s
    case Running(pc, store, m) => t.Running? && t.pc == pc && t.store == store && t.m == m
    case _ => t == s
  }

  lemma StepUnaffected<M, V>(mach: Machine<M, V>, frame: Frame, code: seq<Instr>, ranges: seq<Range>, ranges': seq<Range>,
                             s: State<M, V>, t: State<M, V>)
    requires SameDescriptors(code, ranges, ranges') && SameState(s, t)
    ensures SameState(Step(mach, frame, code, ranges, s), Step(mach, frame, code, ranges', t))
  {
    if s.Running? && 0 <= s.pc < |code| { assert Reads(code[s.pc], ranges') == Reads(code[s.pc], ranges); }
  }

  /** A function that uses no rewritten descriptor runs as before. */
  lemma {:induction false} OtherFunctionsUnaffected<M, V>(mach: Machine<M, V>, frame: Frame, code: seq<Instr>, ranges: seq<Range>,
                                                          ranges': seq<Range>, s: State<M, V>, n: nat)
    requires SameDescriptors(code, ranges, ranges')
    ensures SameState(Run(mach, frame, code, ranges, s, n), Run(mach, frame, code, ranges', s, n))
  {
    if n > 0 {
      OtherFunctionsUnaffected(mach, frame, code, ranges, ranges', s, n - 1);
      StepUnaffected(mach, frame, code, ranges, ranges', Run(mach, frame, code, ranges, s, n - 1), Run(mach, frame, code, ranges', s, n - 1));
    }
  }
}

/** The pass that chooses and replaces the constants. */
module LoopHoisting {
  import opened HoistedCode

  datatype StaticType = IntValue | FloatValue | BoolValue | StringValue | OtherValue

  predicate Loadable(t: StaticType) { t.IntValue? || t.FloatValue? || t.BoolValue? }

  /** Operation `i` jumps back over `k`: both belong to one loop. */
  predicate LoopsOver(code: seq<Instr>, i: nat, k: nat)
    requires i < |code|
  {
    (code[i].op.CompareJump? || code[i].op.RangeJump? || code[i].op.Jump?) && code[i].n1 < 0 && i + 1 + code[i].n1 <= k <= i
  }

  /** One of the first `n` operations jumps back over `k`. */
  ghost predicate LoopedBy(code: seq<Instr>, n: nat, k: nat)
    requires n <= |code|
  {
    exists i :: 0 <= i < n && LoopsOver(code, i, k)
  }

  ghost predicate InLoop(code: seq<Instr>, k: nat) { LoopedBy(code, |code|, k) }

  /** How often one instruction reads constant `v`; descriptors of other functions are not looked at. */
  function UsesIn(i: Instr, ranges: seq<Range>, fun: nat, v: int): nat
    requires IsStatic(v)
  {
    if i.op.RangeJump? && !(0 <= i.n3 < |ranges| && ranges[i.n3].owner == fun) then 0
    else (if Reads(i, ranges).0 == v then 1 else 0) + (if Reads(i, ranges).1 == v then 1 else 0)
  }

  /** How often the first `n` operations read constant `v` inside loops. */
  ghost function Uses(code: seq<Instr>, ranges: seq<Range>, fun: nat, v: int, n: nat): nat
    requires n <= |code| && IsStatic(v)
  {
    if n == 0 then 0
    else Uses(code, ranges, fun, v, n - 1) + (if InLoop(code, n - 1) then UsesIn(code[n - 1], ranges, fun, v) else 0)
  }

  /** The counts recorded so far. */
  ghost predicate Counts(used: map<int, nat>, code: seq<Instr>, ranges: seq<Range>, fun: nat, n: nat)
    requires n <= |code|
  {
    && Positive(used)
    && forall v :: IsStatic(v) ==> Uses(code, ranges, fun, v, n) == Count(used, v)
  }

  predicate Positive(used: map<int, nat>) { forall v :: v in used ==> IsStatic(v) && used[v] > 0 }

  function Count(used: map<int, nat>, v: int): nat { if v in used then used[v] else 0 }

  /** Counts one operand if it is a constant. */
  function CountOne(used: map<int, nat>, n: int): (r: map<int, nat>)
    requires Positive(used)
    ensures Positive(r) && forall v :: IsStatic(v) ==> Count(r, v) == Count(used, v) + if v == n then 1 else 0
  {
    if IsStatic(n) then used[n := Count(used, n) + 1] else used
  }

  lemma LoopedNext(code: seq<Instr>, n: nat, k: nat)
    requires n < |code|
    ensures LoopedBy(code, n + 1, k) <==> LoopedBy(code, n, k) || LoopsOver(code, n, k)
  {
  }

  /** The better candidate has more uses, and of equal ones the higher operand. */
  predicate Before(a: (nat, int), b: (nat, int)) { a.0 > b.0 || (a.0 == b.0 && a.1 > b.1) }

  function InsertSorted(s: seq<(nat, int)>, c: (nat, int)): (r: seq<(nat, int)>)
    requires Sorted(s) && c !in s
    ensures Sorted(r) && forall x :: x in r <==> x in s || x == c
  {
    if s == [] then [c]
    else if Before(c, s[0]) then [c] + s
    else
      var rest := InsertSorted(s[1..], c);
      assert forall x :: x in rest ==> Before(s[0], x) by { BeforeAll(s, c); }
      [s[0]] + rest
  }

  ghost predicate Sorted(s: seq<(nat, int)>) { forall i, j :: 0 <= i < j < |s| ==> Before(s[i], s[j]) }

  lemma BeforeAll(s: seq<(nat, int)>, c: (nat, int))
    requires Sorted(s) && s != [] && c != s[0] && !Before(c, s[0])
    ensures Before(s[0], c) && forall x :: x in s[1..] ==> Before(s[0], x)
  {
  }

  /** The first `n` operations refer to descriptor `r`. */
  ghost predicate RefersTo(code: seq<Instr>, n: nat, r: nat)
    requires n <= |code|
  {
    exists k :: 0 <= k < n && code[k].op.RangeJump? && code[k].n3 == r
  }

  /** The function's own descriptors, and no others, are renamed. */
  ghost predicate RangesRewritten(before: seq<Range>, after: seq<Range>, code: seq<Instr>, n: nat, fun: nat, remap: map<int, int>)
    requires n <= |code|
  {
    |after| == |before| && forall r :: 0 <= r < |before| ==>
      after[r] == if before[r].owner == fun && RefersTo(code, n, r) then RewrittenRange(before[r], remap) else before[r]
  }

  /** Constant `u` goes before `v`: it is read more often in loops, or as often and has the higher number. */
  ghost predicate Outranks(u: int, v: int, code: seq<Instr>, ranges: seq<Range>, fun: nat)
    requires IsStatic(u) && IsStatic(v)
  {
    var x, y := Uses(code, ranges, fun, u, |code|), Uses(code, ranges, fun, v, |code|);
    x > y || (x == y && u > v)
  }

  /** Each hoisted constant can be loaded and is read in a loop, and goes before the hoisted ones behind it and
      before every other such constant; none is left out unless the limit on hoisted constants or on local slots
      cut the list short. */
  ghost predicate Chosen(prologue: seq<(int, int)>, code: seq<Instr>, ranges: seq<Range>, types: seq<StaticType>, fun: nat, next: nat) {
    && (forall k :: 0 <= k < |prologue| ==> Wanted(prologue[k].1, code, ranges, types, fun))
    && (forall j, k :: 0 <= j < k < |prologue| ==> Outranks(prologue[j].1, prologue[k].1, code, ranges, fun))
    && forall v :: Wanted(v, code, ranges, types, fun) && (forall k :: 0 <= k < |prologue| ==> prologue[k].1 != v) ==>
         && (|prologue| == 32 || next >= LOCALTMP_BEGIN)
         && forall k :: 0 <= k < |prologue| ==> Outranks(prologue[k].1, v, code, ranges, fun)
  }

  ghost predicate Wanted(v: int, code: seq<Instr>, ranges: seq<Range>, types: seq<StaticType>, fun: nat) {
    && IsStatic(v) && v - STATIC_BEGIN < |types| && types[v - STATIC_BEGIN] in {IntValue, FloatValue, BoolValue}
    && Uses(code, ranges, fun, v, |code|) > 0
  }

  predicate IsCandidate(used: map<int, nat>, types: seq<StaticType>, c: (nat, int)) {
    && c.1 in used && c.0 == used[c.1]
    && 0 <= c.1 - STATIC_BEGIN < |types| && Loadable(types[c.1 - STATIC_BEGIN])
  }

  /** The ranked candidates are exactly the wanted constants, with their uses. */
  ghost predicate Ranking(cand: seq<(nat, int)>, code: seq<Instr>, ranges: seq<Range>, types: seq<StaticType>, fun: nat) {
    && Sorted(cand)
    && (forall i :: 0 <= i < |cand| ==> Wanted(cand[i].1, code, ranges, types, fun) && cand[i].0 == Uses(code, ranges, fun, cand[i].1, |code|))
    && forall v :: Wanted(v, code, ranges, types, fun) ==> (Uses(code, ranges, fun, v, |code|), v) in cand
  }

  lemma CandidatesAre(used: map<int, nat>, cand: seq<(nat, int)>, code: seq<Instr>, ranges: seq<Range>, types: seq<StaticType>, fun: nat)
    requires Counts(used, code, ranges, fun, |code|) && Sorted(cand) && forall c :: c in cand <==> IsCandidate(used, types, c)
    ensures Ranking(cand, code, ranges, types, fun)
    ensures forall i, j :: 0 <= i < j < |cand| ==> cand[i].1 != cand[j].1
  {
    forall i | 0 <= i < |cand| ensures Wanted(cand[i].1, code, ranges, types, fun) && cand[i].0 == Uses(code, ranges, fun, cand[i].1, |code|) {
      assert cand[i] in cand;
      assert Count(used, cand[i].1) == cand[i].0;
    }
    forall v | Wanted(v, code, ranges, types, fun) ensures (Uses(code, ranges, fun, v, |code|), v) in cand {
      assert Count(used, v) > 0;
    }
  }

  lemma ChosenFromRank(all: seq<(nat, int)>, prologue: seq<(int, int)>, code: seq<Instr>, ranges: seq<Range>, types: seq<StaticType>,
                       fun: nat, next: nat)
    requires Ranking(all, code, ranges, types, fun) && |prologue| <= |all| && |prologue| <= HOIST_MAX
    requires forall k :: 0 <= k < |prologue| ==> prologue[k].1 == all[k].1
    requires |prologue| < |all| ==> |prologue| == HOIST_MAX || next >= LOCALTMP_BEGIN
    ensures Chosen(prologue, code, ranges, types, fun, next)
  {
    forall v | Wanted(v, code, ranges, types, fun) && forall k :: 0 <= k < |prologue| ==> prologue[k].1 != v
      ensures |prologue| == HOIST_MAX || next >= LOCALTMP_BEGIN
      ensures forall k :: 0 <= k < |prologue| ==> Outranks(prologue[k].1, v, code, ranges, fun)
    {
      var i :| 0 <= i < |all| && all[i] == (Uses(code, ranges, fun, v, |code|), v);
    }
  }

  /** Only relative jumps go back, each by its own offset. */
  ghost predicate JumpsAsWritten<M(!new), V(!new)>(mach: Machine<M, V>, i: Instr) {
    forall x, y, values, window, m ::
      var control := mach.exec(View(i), x, y, values, window, m).control;
      control.Go? && control.delta < 0 ==> (i.op.CompareJump? || i.op.RangeJump? || i.op.Jump?) && control.delta == i.n1
  }

  lemma BackOverIt<M(!new), V(!new)>(mach: Machine<M, V>, frame: Frame, code: seq<Instr>, ranges: seq<Range>, s: State<M, V>, k: nat)
    requires k < |code| && s.Running? && k <= s.pc < |code| && JumpsAsWritten(mach, code[s.pc])
    ensures var t := Step(mach, frame, code, ranges, s); t.Running? && t.pc <= k ==> InLoop(code, k)
  {
    var t := Step(mach, frame, code, ranges, s);
    if t.Running? && t.pc <= k { assert LoopsOver(code, s.pc, k); }
  }

  /** What a call executes again lies in a marked loop: a constant that is read there a second time was counted. */
  lemma {:induction false} RepeatedIsInLoop<M(!new), V(!new)>(mach: Machine<M, V>, frame: Frame, code: seq<Instr>, ranges: seq<Range>,
                                                  s: State<M, V>, k: nat, n: nat)
    requires k < |code| && s.Running? && s.pc == k && forall i :: 0 <= i < |code| ==> JumpsAsWritten(mach, code[i])
    requires n > 0
    ensures var t := Run(mach, frame, code, ranges, s, n); t.Running? && t.pc <= k ==> InLoop(code, k)
    decreases n
  {
    var before := Run(mach, frame, code, ranges, s, n - 1);
    if n > 1 { RepeatedIsInLoop(mach, frame, code, ranges, s, k, n - 1); }
    if before.Running? && k <= before.pc < |code| { BackOverIt(mach, frame, code, ranges, before, k); }
  }

  lemma {:induction false} NoLoopNoUses(code: seq<Instr>, ranges: seq<Range>, fun: nat)
    requires forall k :: 0 <= k < |code| ==> !InLoop(code, k)
    ensures forall v :: IsStatic(v) ==> Uses(code, ranges, fun, v, |code|) == 0
  {
    forall v | IsStatic(v) ensures Uses(code, ranges, fun, v, |code|) == 0 { NoUses(code, ranges, fun, v, |code|); }
  }

  lemma {:induction false} NoUses(code: seq<Instr>, ranges: seq<Range>, fun: nat, v: int, n: nat)
    requires n <= |code| && IsStatic(v) && forall k :: 0 <= k < |code| ==> !InLoop(code, k)
    ensures Uses(code, ranges, fun, v, n) == 0
  {
    if n > 0 { NoUses(code, ranges, fun, v, n - 1); }
  }

  lemma ReferNext(code: seq<Instr>, n: nat, next: nat, r: nat)
    requires n < |code| && next == n + 1
    ensures RefersTo(code, next, r) <==> RefersTo(code, n, r) || (code[n].op.RangeJump? && code[n].n3 == r)
  {
  }

  /** The first candidates have their slots, one after the other from `base` on. */
  ghost predicate Allotted(cand: seq<(nat, int)>, base: nat, remap: map<int, int>, prologue: seq<(int, int)>) {
    && |prologue| <= |cand|
    && (forall k :: 0 <= k < |prologue| ==> prologue[k] == (base + k, cand[k].1))
    && (forall k :: 0 <= k < |prologue| ==> cand[k].1 in remap && remap[cand[k].1] == base + k)
    && forall v :: v in remap ==> base <= remap[v] < base + |prologue| && cand[remap[v] - base].1 == v
  }

  lemma AllottedNext(cand: seq<(nat, int)>, base: nat, remap: map<int, int>, prologue: seq<(int, int)>)
    requires forall i, j :: 0 <= i < j < |cand| ==> cand[i].1 != cand[j].1
    requires Allotted(cand, base, remap, prologue) && |prologue| < |cand|
    ensures var slot, constant := base + |prologue|, cand[|prologue|].1;
      Allotted(cand, base, remap[constant := slot], prologue + [(slot, constant)])
  {
  }

  lemma AllottedHoists(cand: seq<(nat, int)>, frame: Frame, remap: map<int, int>, prologue: seq<(int, int)>)
    requires forall i :: 0 <= i < |cand| ==> IsStatic(cand[i].1)
    requires Allotted(cand, 1 + frame.args + frame.locals, remap, prologue)
    ensures RemapOk(remap, frame, |prologue|) && Loads(prologue, remap)
  {
    var base := 1 + frame.args + frame.locals;
    forall v | v in remap ensures (remap[v], v) in prologue { assert prologue[remap[v] - base] == (remap[v], v); }
  }

  class SFunctions {
    var ranges: seq<Range>
    var staticTypes: seq<StaticType>
    var fun: nat
    var args: nat
    var localVarCount: nat
    var localTempMax: nat

    function Current(): Frame
      reads this
    {
      Frame(args, localVarCount, localTempMax)
    }

    /** Marks the operations that lie inside a loop. */
    method MarkLoops(ops: array<Instr>) returns (inLoop: seq<bool>, anyLoop: bool)
      ensures |inLoop| == ops.Length && forall k :: 0 <= k < ops.Length ==> (inLoop[k] <==> InLoop(ops[..], k))
      ensures !anyLoop ==> forall k :: 0 <= k < ops.Length ==> !inLoop[k]
    {
      inLoop := seq(ops.Length, _ => false);
      anyLoop := false;
      ghost var code := ops[..];
      for i := 0 to ops.Length
        invariant |inLoop| == ops.Length
        invariant forall k :: 0 <= k < ops.Length ==> (inLoop[k] <==> LoopedBy(code, i, k))
        invariant !anyLoop ==> forall k :: 0 <= k < ops.Length ==> !inLoop[k]
      {
        ghost var before := inLoop;
        var off := ops[i].n1;
        if IsRelativeJump(ops[i].op) && off < 0 {
          var target := if i + 1 + off < 0 then 0 else i + 1 + off;
          for k := target to i + 1
            invariant |inLoop| == ops.Length
            invariant forall x :: 0 <= x < ops.Length ==> (inLoop[x] <==> before[x] || target <= x < k)
          {
            inLoop := inLoop[k := true];
          }
          anyLoop := true;
        }
        forall k | 0 <= k < ops.Length ensures inLoop[k] <==> LoopedBy(code, i + 1, k) {
          LoopedNext(code, i, k);
          assert inLoop[k] <==> before[k] || LoopsOver(code, i, k);
        }
      }
    }

    /** Counts the constants one operation reads. */
    method CountReads(op: Instr, used0: map<int, nat>) returns (used: map<int, nat>)
      requires Positive(used0)
      ensures Positive(used) && forall v :: IsStatic(v) ==> Count(used, v) == Count(used0, v) + UsesIn(op, ranges, fun, v)
    {
      used := used0;
      if Mask2(op.op) { used := CountOne(used, op.n2); }
      if Mask3(op.op) { used := CountOne(used, op.n3); }
      if op.op.RangeJump? && 0 <= op.n3 < |ranges| && ranges[op.n3].owner == fun {
        used := CountOne(used, ranges[op.n3].lower);
        used := CountOne(used, ranges[op.n3].upper);
      }
    }

    /** Counts the reads of every constant inside loops. */
    method CountUses(ops: array<Instr>, inLoop: seq<bool>) returns (used: map<int, nat>)
      requires |inLoop| == ops.Length && forall k :: 0 <= k < ops.Length ==> (inLoop[k] <==> InLoop(ops[..], k))
      ensures Counts(used, ops[..], ranges, fun, ops.Length)
    {
      used := map[];
      for i := 0 to ops.Length
        invariant Counts(used, ops[..], ranges, fun, i)
      {
        if inLoop[i] { used := CountReads(ops[i], used); }
      }
    }

    /** The loadable constants that are used in loops, best first. */
    method RankCandidates(used: map<int, nat>) returns (cand: seq<(nat, int)>)
      ensures Sorted(cand) && forall c :: c in cand <==> IsCandidate(used, staticTypes, c)
    {
      cand := [];
      for index := 0 to |staticTypes|
        invariant Sorted(cand)
        invariant forall c :: c in cand <==> IsCandidate(used, staticTypes, c) && c.1 < STATIC_BEGIN + index
      {
        var v := STATIC_BEGIN + index;
        if v in used && Loadable(staticTypes[index]) {
          cand := InsertSorted(cand, (used[v], v));
        }
      }
    }

    method AllocLocalVar() returns (slot: nat)
      requires 1 + args + localVarCount < LOCALTMP_BEGIN
      modifies this`localVarCount
      ensures slot == 1 + args + old(localVarCount) && localVarCount == old(localVarCount) + 1
    {
      slot := 1 + args + localVarCount;
      localVarCount := localVarCount + 1;
    }

    /** Gives the next constant the next local slot. */
    method AllocateNext(cand: seq<(nat, int)>, ghost base: nat, remap0: map<int, int>, prologue0: seq<(int, int)>)
      returns (remap: map<int, int>, prologue: seq<(int, int)>)
      requires forall i, j :: 0 <= i < j < |cand| ==> cand[i].1 != cand[j].1
      requires Allotted(cand, base, remap0, prologue0) && |prologue0| < |cand|
      requires base + |prologue0| == 1 + args + localVarCount < LOCALTMP_BEGIN
      modifies this`localVarCount
      ensures Allotted(cand, base, remap, prologue) && |prologue| == |prologue0| + 1 && localVarCount == old(localVarCount) + 1
    {
      AllottedNext(cand, base, remap0, prologue0);
      var constant := cand[|prologue0|].1;
      var slot := AllocLocalVar();
      remap, prologue := remap0[constant := slot], prologue0 + [(slot, constant)];
    }

    /** Gives every chosen constant the next local slot, as long as there are any. */
    method AllocateSlots(cand: seq<(nat, int)>) returns (remap: map<int, int>, prologue: seq<(int, int)>)
      requires forall i :: 0 <= i < |cand| ==> IsStatic(cand[i].1)
      requires forall i, j :: 0 <= i < j < |cand| ==> cand[i].1 != cand[j].1
      requires Current().Fits()
      modifies this`localVarCount
      ensures RemapOk(remap, old(Current()), |prologue|) && Loads(prologue, remap) && |prologue| <= |cand|
      ensures forall k :: 0 <= k < |prologue| ==> prologue[k] == (1 + args + old(localVarCount) + k, cand[k].1)
      ensures Current() == Widened(old(Current()), |prologue|) && Current().Fits()
      ensures |prologue| < |cand| ==> 1 + args + localVarCount >= LOCALTMP_BEGIN
    {
      remap, prologue := map[], [];
      ghost var start, base := Current(), 1 + args + localVarCount;
      for c := 0 to |cand|
        invariant |prologue| == c && localVarCount == start.locals + c && args + localVarCount < LOCALTMP_BEGIN
        invariant Allotted(cand, base, remap, prologue)
      {
        if 1 + args + localVarCount >= LOCALTMP_BEGIN { break; }
        remap, prologue := AllocateNext(cand, base, remap, prologue);
      }
      AllottedHoists(cand, start, remap, prologue);
    }

    /** Renames one operation's operands, and its descriptor's bounds if the descriptor is the function's own. */
    method RewriteOne(ops: array<Instr>, i: nat, remap: map<int, int>, ghost code: seq<Instr>, ghost before: seq<Range>)
      requires forall v :: v in remap ==> IsStatic(v) && !IsStatic(remap[v])
      requires i < ops.Length == |code| && ops[i] == code[i]
      requires RangesRewritten(before, ranges, code, i, fun, remap)
      modifies ops, this`ranges
      ensures forall k :: 0 <= k < ops.Length && k != i ==> ops[k] == old(ops[k])
      ensures ops[i] == RewrittenInstr(code[i], remap)
      ensures RangesRewritten(before, ranges, code, i + 1, fun, remap)
    {
      var op := ops[i];
      if Mask2(op.op) { op := op.(n2 := Renamed(op.n2, remap)); }
      if Mask3(op.op) { op := op.(n3 := Renamed(op.n3, remap)); }
      ops[i] := op;
      if op.op.RangeJump? && 0 <= op.n3 < |ranges| && ranges[op.n3].owner == fun {
        ranges := ranges[op.n3 := RewrittenRange(ranges[op.n3], remap)];
      }
      ghost var next := i + 1;
      forall r | 0 <= r < |before|
        ensures ranges[r] == if before[r].owner == fun && RefersTo(code, next, r) then RewrittenRange(before[r], remap) else before[r]
      {
        ReferNext(code, i, next, r);
      }
    }

    /** Finds the constants worth hoisting and hands out their slots. */
    method ChooseConstants(ops: array<Instr>) returns (names: map<int, int>, prologue: seq<(int, int)>)
      requires Current().Fits()
      modifies this`localVarCount
      ensures RemapOk(names, old(Current()), |prologue|) && Loads(prologue, names) && |prologue| <= HOIST_MAX
      ensures Current() == Widened(old(Current()), |prologue|) && Current().Fits()
      ensures Chosen(prologue, ops[..], ranges, staticTypes, fun, 1 + args + localVarCount)
    {
      var inLoop, anyLoop := MarkLoops(ops);
      if !anyLoop {
        NoLoopNoUses(ops[..], ranges, fun);
        return map[], [];
      }
      var used := CountUses(ops, inLoop);
      var cand := RankCandidates(used);
      ghost var all := cand;
      if |cand| > HOIST_MAX { cand := cand[..HOIST_MAX]; }
      CandidatesAre(used, all, ops[..], ranges, staticTypes, fun);
      names, prologue := AllocateSlots(cand);
      ChosenFromRank(all, prologue, ops[..], ranges, staticTypes, fun, 1 + args + localVarCount);
    }

    /** Replaces loop constants by hidden local slots. The prologue that must be put in front loads them; the
        code is rewritten in place. */
    method HoistLoopConstants(ops: array<Instr>) returns (prologue: seq<(int, int)>, ghost remap: map<int, int>)
      requires Current().Fits() && Allocated(ops[..], ranges, Current())
      modifies ops, this`ranges, this`localVarCount
      ensures Hoists(old(ops[..]), old(ranges), ranges, old(Current()), remap, prologue) && |prologue| <= 32
      ensures Current() == Widened(old(Current()), |prologue|)
      ensures ops[..] == Rewritten(old(ops[..]), remap)
      ensures forall k :: 0 <= k < ops.Length ==> OnlyOperandsRenamed(old(ops[..])[k], ops[k], remap)
      ensures RangesRewritten(old(ranges), ranges, old(ops[..]), ops.Length, fun, remap)
      ensures Chosen(prologue, old(ops[..]), old(ranges), staticTypes, fun, 1 + args + localVarCount)
    {
      ghost var code, before := ops[..], ranges;
      var names: map<int, int>;
      names, prologue := ChooseConstants(ops);
      remap := names;
      for i := 0 to ops.Length
        invariant forall k :: i <= k < ops.Length ==> ops[k] == code[k]
        invariant forall k :: 0 <= k < i ==> ops[k] == RewrittenInstr(code[k], remap)
        invariant RangesRewritten(before, ranges, code, i, fun, remap)
        invariant Current() == Widened(old(Current()), |prologue|)
      {
        RewriteOne(ops, i, names, code, before);
      }
      forall k | 0 <= k < ops.Length ensures OnlyOperandsRenamed(code[k], ops[k], remap) { RewritingRenamesOperands(code[k], remap); }
    }
  }
}
