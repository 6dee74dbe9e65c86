/** Structured statements, the code they are lowered to, and when the lowering may drop jumps because a block
    always returns. */
module StructuredCode {
  import opened Collections

  datatype Stmt =
    | Act(id: nat)
    | Return(value: nat)
    | Break
    | Continue
    | Block(inner: Stmts)
    | If(cond: nat, then_: Stmts)
    | IfElse(cond: nat, then_: Stmts, else_: Stmts)
    | While(cond: nat, body: Stmts)
  datatype Stmts = Nil | Cons(head: Stmt, tail: Stmts)

  // ---------------------------------------------------------------- meaning

  /** An arbitrary meaning of the actions and conditions over states `S`; a condition may change the state. */
  datatype Machine<!S> = Machine(act: (nat, S) -> S, test: (nat, S) -> (S, bool))

  datatype Outcome = Normal | Broke | Continued | Returned(value: nat)

  /** The statement's outcome and final state, if it ends within `fuel` turns of its loops. */
  function Exec<S>(mach: Machine<S>, s: Stmt, st: S, fuel: nat): Option<(Outcome, S)>
    decreases fuel, s
  {
    match s
    case Act(id) => Some((Normal, mach.act(id, st)))
    case Return(v) => Some((Returned(v), st))
    case Break => Some((Broke, st))
    case Continue => Some((Continued, st))
    case Block(b) => ExecAll(mach, b, st, fuel)
    case If(c, t) =>
      var (st', yes) := mach.test(c, st);
      if yes then ExecAll(mach, t, st', fuel) else Some((Normal, st'))
    case IfElse(c, t, e) =>
      var (st', yes) := mach.test(c, st);
      if yes then ExecAll(mach, t, st', fuel) else ExecAll(mach, e, st', fuel)
    case While(c, b) =>
      var (st', yes) := mach.test(c, st);
      if !yes then Some((Normal, st'))
      else if fuel == 0 then None
      else
        match ExecAll(mach, b, st', fuel - 1)
        case None => None
        case Some((Broke, st2)) => Some((Normal, st2))
        case Some((Returned(v), st2)) => Some((Returned(v), st2))
        case Some((_, st2)) => Exec(mach, s, st2, fuel - 1)
  }

  function ExecAll<S>(mach: Machine<S>, b: Stmts, st: S, fuel: nat): Option<(Outcome, S)>
    decreases fuel, b
  {
    match b
    case Nil => Some((Normal, st))
    case Cons(s, rest) =>
      match Exec(mach, s, st, fuel)
      case None => None
      case Some((Normal, st')) => ExecAll(mach, rest, st', fuel)
      case Some(r) => Some(r)
  }

  // ---------------------------------------------------------------- the analysis

  /** Jumps out of the statement to the end, or to the next turn, of the loop around it. */
  function Breaks(s: Stmt): nat {
    match s
    case Break => 1
    case Block(b) => BreaksAll(b)
    case If(_, t) => BreaksAll(t)
    case IfElse(_, t, e) => BreaksAll(t) + BreaksAll(e)
    case _ => 0
  }

  function BreaksAll(b: Stmts): nat { match b case Nil => 0 case Cons(s, rest) => Breaks(s) + BreaksAll(rest) }

  function Continues(s: Stmt): nat {
    match s
    case Continue => 1
    case Block(b) => ContinuesAll(b)
    case If(_, t) => ContinuesAll(t)
    case IfElse(_, t, e) => ContinuesAll(t) + ContinuesAll(e)
    case _ => 0
  }

  function ContinuesAll(b: Stmts): nat { match b case Nil => 0 case Cons(s, rest) => Continues(s) + ContinuesAll(rest) }

  predicate Returns(s: Stmt)
    decreases s, 0
  {
    match s
    case Return(_) => true
    case Block(b) => BlockReturns(b)
    case IfElse(_, t, e) => BlockReturns(t) && BlockReturns(e)
    case _ => false
  }

  predicate SomeReturns(b: Stmts)
    decreases b, 0
  {
    match b case Nil => false case Cons(s, rest) => Returns(s) || SomeReturns(rest)
  }

  /** Some statement of the block always returns, and nothing in it jumps out of the loop around it. */
  predicate BlockReturns(b: Stmts)
    decreases b, 1
  {
    SomeReturns(b) && BreaksAll(b) == 0 && ContinuesAll(b) == 0
  }

  /** Without such jumps a statement does not end by one. */
  lemma {:induction false} NoJumpNoLeave<S>(mach: Machine<S>, s: Stmt, st: S, fuel: nat)
    ensures var r := Exec(mach, s, st, fuel);
      r.Some? ==> (r.value.0.Broke? ==> Breaks(s) > 0) && (r.value.0.Continued? ==> Continues(s) > 0)
    decreases fuel, s
  {
    match s {
      case Block(b) => { NoJumpNoLeaveAll(mach, b, st, fuel); }
      case If(c, t) => { NoJumpNoLeaveAll(mach, t, mach.test(c, st).0, fuel); }
      case IfElse(c, t, e) => {
        NoJumpNoLeaveAll(mach, t, mach.test(c, st).0, fuel);
        NoJumpNoLeaveAll(mach, e, mach.test(c, st).0, fuel);
      }
      case While(c, b) => {
        if fuel > 0 {
          var r := ExecAll(mach, b, mach.test(c, st).0, fuel - 1);
          if r.Some? { NoJumpNoLeave(mach, s, r.value.1, fuel - 1); }
        }
      }
      case _ => {}
    }
  }

  lemma {:induction false} NoJumpNoLeaveAll<S>(mach: Machine<S>, b: Stmts, st: S, fuel: nat)
    ensures var r := ExecAll(mach, b, st, fuel);
      r.Some? ==> (r.value.0.Broke? ==> BreaksAll(b) > 0) && (r.value.0.Continued? ==> ContinuesAll(b) > 0)
    decreases fuel, b
  {
    if b.Cons? {
      NoJumpNoLeave(mach, b.head, st, fuel);
      var r := Exec(mach, b.head, st, fuel);
      if r.Some? { NoJumpNoLeaveAll(mach, b.tail, r.value.1, fuel); }
    }
  }

  /** The analysis is sound: what is reported to always return, returns whenever it ends. */
  lemma {:induction false} AlwaysReturnsIsSound<S>(mach: Machine<S>, b: Stmts, st: S, fuel: nat)
    requires BlockReturns(b)
    ensures var r := ExecAll(mach, b, st, fuel);
      r.Some? ==> r.value.0.Returned?
  {
    NotNormal(mach, b, st, fuel);
    NoJumpNoLeaveAll(mach, b, st, fuel);
  }

  lemma {:induction false} NotNormal<S>(mach: Machine<S>, b: Stmts, st: S, fuel: nat)
    requires SomeReturns(b)
    ensures var r := ExecAll(mach, b, st, fuel);
      r.Some? ==> !r.value.0.Normal?
    decreases fuel, b
  {
    var r := Exec(mach, b.head, st, fuel);
    if Returns(b.head) { StmtNotNormal(mach, b.head, st, fuel); }
    else if r.Some? { NotNormal(mach, b.tail, r.value.1, fuel); }
  }

  lemma {:induction false} StmtNotNormal<S>(mach: Machine<S>, s: Stmt, st: S, fuel: nat)
    requires Returns(s)
    ensures var r := Exec(mach, s, st, fuel);
      r.Some? ==> !r.value.0.Normal?
    decreases fuel, s
  {
    match s {
      case Block(b) => { NotNormal(mach, b, st, fuel); }
      case IfElse(c, t, e) => {
        NotNormal(mach, t, mach.test(c, st).0, fuel);
        NotNormal(mach, e, mach.test(c, st).0, fuel);
      }
      case _ => {}
    }
  }

  /** Tests that answer as a list in the state says, and actions that do nothing. */
  function Oracle(): Machine<seq<bool>> {
    Machine((id, answers) => answers, (c, answers) => if answers == [] then ([], false) else (answers[1..], answers[0]))
  }

  /** Answers that lead through the block to its end. */
  function WayThrough(b: Stmts): seq<bool>
    decreases b
  {
    match b case Nil => [] case Cons(s, rest) => WayThroughOne(s) + WayThrough(rest)
  }

  function WayThroughOne(s: Stmt): seq<bool>
    decreases s
  {
    match s
    case Block(b) => WayThrough(b)
    case If(_, _) | While(_, _) => [false]
    case IfElse(_, t, e) => if SomeReturns(t) then [false] + WayThrough(e) else [true] + WayThrough(t)
    case _ => []
  }

  lemma {:induction false} PassesThrough(b: Stmts, after: seq<bool>, fuel: nat)
    requires !SomeReturns(b) && BreaksAll(b) == 0 && ContinuesAll(b) == 0
    ensures ExecAll(Oracle(), b, WayThrough(b) + after, fuel) == Some((Normal, after))
    decreases b
  {
    if b.Nil? {
      assert WayThrough(b) + after == after;
    } else {
      assert WayThrough(b) + after == WayThroughOne(b.head) + (WayThrough(b.tail) + after);
      PassesThroughOne(b.head, WayThrough(b.tail) + after, fuel);
      PassesThrough(b.tail, after, fuel);
    }
  }

  lemma {:induction false} PassesThroughOne(s: Stmt, after: seq<bool>, fuel: nat)
    requires !Returns(s) && Breaks(s) == 0 && Continues(s) == 0
    ensures Exec(Oracle(), s, WayThroughOne(s) + after, fuel) == Some((Normal, after))
    decreases s
  {
    var answers := WayThroughOne(s) + after;
    match s {
      case Block(b) => { PassesThrough(b, after, fuel); }
      case IfElse(_, t, e) => {
        var way := if SomeReturns(t) then e else t;
        assert answers[1..] == WayThrough(way) + after;
        PassesThrough(way, after, fuel);
      }
      case If(_, _) => { assert answers[1..] == after; }
      case While(_, _) => { assert answers[1..] == after; }
      case Act(_) => { assert answers == after; }
      case _ => {}
    }
  }

  /** The analysis is exact: a block without jumps out of it is reported if and only if, whatever the actions and
      conditions mean, it returns whenever it ends. */
  lemma AlwaysReturnsIsExact(b: Stmts)
    requires BreaksAll(b) == 0 && ContinuesAll(b) == 0
    ensures BlockReturns(b) <==>
      forall answers, fuel: nat :: var r := ExecAll(Oracle(), b, answers, fuel); r.Some? ==> r.value.0.Returned?
  {
    if BlockReturns(b) {
      forall answers, fuel: nat
        ensures var r := ExecAll(Oracle(), b, answers, fuel); r.Some? ==> r.value.0.Returned?
      {
        AlwaysReturnsIsSound(Oracle(), b, answers, fuel);
      }
    } else {
      PassesThrough(b, [], 0);
    }
  }

  // ---------------------------------------------------------------- code

  datatype Op = Do(id: nat) | Ret(value: nat) | Jmp(offset: int) | JmpFalse(cond: nat, offset: int) | JmpTrue(cond: nat, offset: int)

  datatype State<S> = Running(pc: int, st: S) | Halted(value: nat, st: S) | Fallen

  function Step<S>(mach: Machine<S>, code: seq<Op>, s: State<S>): State<S> {
    if !s.Running? then s
    else if !(0 <= s.pc < |code|) then Fallen
    else
      match code[s.pc]
      case Do(id) => Running(s.pc + 1, mach.act(id, s.st))
      case Ret(v) => Halted(v, s.st)
      case Jmp(off) => Running(s.pc + 1 + off, s.st)
      case JmpFalse(c, off) => var (st, yes) := mach.test(c, s.st); Running(if yes then s.pc + 1 else s.pc + 1 + off, st)
      case JmpTrue(c, off) => var (st, yes) := mach.test(c, s.st); Running(if yes then s.pc + 1 + off else s.pc + 1, st)
  }

  function Run<S>(mach: Machine<S>, code: seq<Op>, s: State<S>, n: nat): State<S>
    decreases n
  {
    if n == 0 then s else Run(mach, code, Step(mach, code, s), n - 1)
  }

  lemma {:induction false} RunSplit<S>(mach: Machine<S>, code: seq<Op>, s: State<S>, a: nat, b: nat)
    ensures Run(mach, code, s, a + b) == Run(mach, code, Run(mach, code, s, a), b)
    decreases a
  {
    if a > 0 { RunSplit(mach, code, Step(mach, code, s), a - 1, b); }
  }

  /** The jump over an else part, which `drop` leaves out behind a block that always returns. */
  function Skip(t: Stmts, drop: bool): nat { if drop && BlockReturns(t) then 0 else 1 }

  function Size(s: Stmt, drop: bool): nat {
    match s
    case Block(b) => SizeAll(b, drop)
    case If(_, t) => 1 + SizeAll(t, drop)
    case IfElse(_, t, e) => 1 + SizeAll(t, drop) + Skip(t, drop) + SizeAll(e, drop)
    case While(_, b) => 1 + SizeAll(b, drop) + 1
    case _ => 1
  }

  function SizeAll(b: Stmts, drop: bool): nat {
    match b case Nil => 0 case Cons(s, rest) => Size(s, drop) + SizeAll(rest, drop)
  }

  /** Where a jump out of a loop goes: not yet known, or a position. */
  function Offset(at: nat, target: Option<int>): int { if target.Some? then target.value - (at + 1) else 0 }

  /** From `at` on stands the code of `s`; its breaks go to `brk`, its continues to `cont`. */
  predicate At(code: seq<Op>, at: nat, s: Stmt, brk: Option<int>, cont: Option<int>, drop: bool)
    decreases s, 1
  {
    && at + Size(s, drop) <= |code|
    && match s
       case Act(id) => code[at] == Do(id)
       case Return(v) => code[at] == Ret(v)
       case Break => code[at] == Jmp(Offset(at, brk))
       case Continue => code[at] == Jmp(Offset(at, cont))
       case Block(b) => AtAll(code, at, b, brk, cont, drop)
       case If(c, t) => code[at] == JmpFalse(c, SizeAll(t, drop)) && AtAll(code, at + 1, t, brk, cont, drop)
       case IfElse(c, t, e) => AtElse(code, at, s, brk, cont, drop)
       case While(c, b) =>
         var check := at + 1 + SizeAll(b, drop);
         && code[at] == Jmp(SizeAll(b, drop))
         && AtAll(code, at + 1, b, Some(check + 1), Some(check), drop)
         && code[check] == JmpTrue(c, -(SizeAll(b, drop) + 1))
  }

  predicate AtElse(code: seq<Op>, at: nat, s: Stmt, brk: Option<int>, cont: Option<int>, drop: bool)
    requires s.IfElse? && at + Size(s, drop) <= |code|
    decreases s, 0
  {
    var t, e := s.then_, s.else_;
    && code[at] == JmpFalse(s.cond, SizeAll(t, drop) + Skip(t, drop))
    && AtAll(code, at + 1, t, brk, cont, drop)
    && (Skip(t, drop) == 1 ==> code[at + 1 + SizeAll(t, drop)] == Jmp(SizeAll(e, drop)))
    && AtAll(code, at + 1 + SizeAll(t, drop) + Skip(t, drop), e, brk, cont, drop)
  }

  predicate AtAll(code: seq<Op>, at: nat, b: Stmts, brk: Option<int>, cont: Option<int>, drop: bool)
    decreases b
  {
    match b
    case Nil => at <= |code|
    case Cons(s, rest) => At(code, at, s, brk, cont, drop) && AtAll(code, at + Size(s, drop), rest, brk, cont, drop)
  }

  /** Where the machine is once a statement whose code ends at `end` has ended. */
  function Exit<S>(r: (Outcome, S), end: int, brk: int, cont: int): State<S> {
    match r.0
    case Normal => Running(end, r.1)
    case Broke => Running(brk, r.1)
    case Continued => Running(cont, r.1)
    case Returned(v) => Halted(v, r.1)
  }

  ghost predicate Arrives<S(!new)>(mach: Machine<S>, code: seq<Op>, s: State<S>, t: State<S>) { exists n: nat :: Run(mach, code, s, n) == t }

  lemma ArrivesAt<S(!new)>(mach: Machine<S>, code: seq<Op>, s: State<S>)
    ensures Arrives(mach, code, s, s) && Arrives(mach, code, s, Step(mach, code, s))
  {
    assert Run(mach, code, s, 0) == s;
    assert Run(mach, code, s, 1) == Run(mach, code, Step(mach, code, s), 0);
  }

  lemma ArrivesVia<S(!new)>(mach: Machine<S>, code: seq<Op>, s: State<S>, t: State<S>, u: State<S>)
    requires Arrives(mach, code, s, t) && Arrives(mach, code, t, u)
    ensures Arrives(mach, code, s, u)
  {
    var a: nat :| Run(mach, code, s, a) == t;
    var b: nat :| Run(mach, code, t, b) == u;
    RunSplit(mach, code, s, a, b);
  }

  /** One step and then the rest. */
  lemma ArrivesAfterStep<S(!new)>(mach: Machine<S>, code: seq<Op>, s: State<S>, u: State<S>)
    requires Arrives(mach, code, Step(mach, code, s), u)
    ensures Arrives(mach, code, s, u)
  {
    ArrivesAt(mach, code, s);
    ArrivesVia(mach, code, s, Step(mach, code, s), u);
  }

  /** The code of a statement does what the statement does. */
  lemma {:induction false} CodeFollows<S(!new)>(mach: Machine<S>, code: seq<Op>, at: nat, s: Stmt, brk: int, cont: int, drop: bool, st: S, fuel: nat)
    requires At(code, at, s, Some(brk), Some(cont), drop) && Exec(mach, s, st, fuel).Some?
    ensures Arrives(mach, code, Running(at, st), Exit(Exec(mach, s, st, fuel).value, at + Size(s, drop), brk, cont))
    decreases fuel, s, 0
  {
    ArrivesAt(mach, code, Running(at, st));
    match s {
      case Block(b) => { AllFollows(mach, code, at, b, brk, cont, drop, st, fuel); }
      case If(c, t) => {
        var (st', yes) := mach.test(c, st);
        if yes {
          AllFollows(mach, code, at + 1, t, brk, cont, drop, st', fuel);
          ArrivesAfterStep(mach, code, Running(at, st), Exit(Exec(mach, s, st, fuel).value, at + Size(s, drop), brk, cont));
        }
      }
      case IfElse(c, t, e) => { ElseFollows(mach, code, at, s, brk, cont, drop, st, fuel); }
      case While(c, b) => {
        var check := at + 1 + SizeAll(b, drop);
        assert Step(mach, code, Running(at, st)) == Running(check, st);
        LoopFollows(mach, code, at, s, brk, cont, drop, st, fuel);
        ArrivesAfterStep(mach, code, Running(at, st), Exit(Exec(mach, s, st, fuel).value, at + Size(s, drop), brk, cont));
      }
      case _ => {}
    }
  }

  lemma {:induction false} ElseFollows<S(!new)>(mach: Machine<S>, code: seq<Op>, at: nat, s: Stmt, brk: int, cont: int, drop: bool, st: S, fuel: nat)
    requires s.IfElse? && At(code, at, s, Some(brk), Some(cont), drop) && Exec(mach, s, st, fuel).Some?
    ensures Arrives(mach, code, Running(at, st), Exit(Exec(mach, s, st, fuel).value, at + Size(s, drop), brk, cont))
    decreases fuel, s, -1
  {
    var (st', yes) := mach.test(s.cond, st);
    var goal := Exit(Exec(mach, s, st, fuel).value, at + Size(s, drop), brk, cont);
    var elseAt := at + 1 + SizeAll(s.then_, drop) + Skip(s.then_, drop);
    if yes {
      AllFollows(mach, code, at + 1, s.then_, brk, cont, drop, st', fuel);
      var mid := Exit(ExecAll(mach, s.then_, st', fuel).value, at + 1 + SizeAll(s.then_, drop), brk, cont);
      if mid != goal {
        if Skip(s.then_, drop) == 0 { AlwaysReturnsIsSound(mach, s.then_, st', fuel); }
        assert goal == Step(mach, code, mid);
        ArrivesAt(mach, code, mid);
        ArrivesVia(mach, code, Running(at + 1, st'), mid, goal);
      }
    } else {
      AllFollows(mach, code, elseAt, s.else_, brk, cont, drop, st', fuel);
    }
    ArrivesAfterStep(mach, code, Running(at, st), goal);
  }

  /** The loop from its check on. */
  lemma {:induction false} LoopFollows<S(!new)>(mach: Machine<S>, code: seq<Op>, at: nat, s: Stmt, brk: int, cont: int, drop: bool, st: S, fuel: nat)
    requires s.While? && At(code, at, s, Some(brk), Some(cont), drop) && Exec(mach, s, st, fuel).Some?
    ensures Arrives(mach, code, Running(at + 1 + SizeAll(s.body, drop), st), Exit(Exec(mach, s, st, fuel).value, at + Size(s, drop), brk, cont))
    decreases fuel, s, -1
  {
    var check := at + 1 + SizeAll(s.body, drop);
    var (st', yes) := mach.test(s.cond, st);
    var goal := Exit(Exec(mach, s, st, fuel).value, at + Size(s, drop), brk, cont);
    ArrivesAt(mach, code, Running(check, st));
    if yes {
      AllFollows(mach, code, at + 1, s.body, check + 1, check, drop, st', fuel - 1);
      var r := ExecAll(mach, s.body, st', fuel - 1).value;
      var mid := Exit(r, check, check + 1, check);
      if r.0.Normal? || r.0.Continued? {
        LoopFollows(mach, code, at, s, brk, cont, drop, r.1, fuel - 1);
        ArrivesVia(mach, code, Running(at + 1, st'), mid, goal);
      }
      assert Step(mach, code, Running(check, st)) == Running(at + 1, st');
      ArrivesAfterStep(mach, code, Running(check, st), goal);
    }
  }

  lemma {:induction false} AllFollows<S(!new)>(mach: Machine<S>, code: seq<Op>, at: nat, b: Stmts, brk: int, cont: int, drop: bool, st: S, fuel: nat)
    requires AtAll(code, at, b, Some(brk), Some(cont), drop) && ExecAll(mach, b, st, fuel).Some?
    ensures Arrives(mach, code, Running(at, st), Exit(ExecAll(mach, b, st, fuel).value, at + SizeAll(b, drop), brk, cont))
    decreases fuel, b, 0
  {
    ArrivesAt(mach, code, Running(at, st));
    if b.Cons? {
      CodeFollows(mach, code, at, b.head, brk, cont, drop, st, fuel);
      var r := Exec(mach, b.head, st, fuel).value;
      if r.0.Normal? {
        AllFollows(mach, code, at + Size(b.head, drop), b.tail, brk, cont, drop, r.1, fuel);
        ArrivesVia(mach, code, Running(at, st), Running(at + Size(b.head, drop), r.1),
                   Exit(ExecAll(mach, b, st, fuel).value, at + SizeAll(b, drop), brk, cont));
      }
    }
  }

  // ---------------------------------------------------------------- nothing but what the statement does

  lemma {:induction false} MoreFuel<S>(mach: Machine<S>, s: Stmt, st: S, f: nat, g: nat)
    requires f <= g && Exec(mach, s, st, f).Some?
    ensures Exec(mach, s, st, g) == Exec(mach, s, st, f)
    decreases f, s
  {
    match s {
      case Block(b) => { MoreFuelAll(mach, b, st, f, g); }
      case If(c, t) => { if mach.test(c, st).1 { MoreFuelAll(mach, t, mach.test(c, st).0, f, g); } }
      case IfElse(c, t, e) => {
        if mach.test(c, st).1 { MoreFuelAll(mach, t, mach.test(c, st).0, f, g); } else { MoreFuelAll(mach, e, mach.test(c, st).0, f, g); }
      }
      case While(c, b) => {
        if mach.test(c, st).1 {
          MoreFuelAll(mach, b, mach.test(c, st).0, f - 1, g - 1);
          var r := ExecAll(mach, b, mach.test(c, st).0, f - 1).value;
          if r.0.Normal? || r.0.Continued? { MoreFuel(mach, s, r.1, f - 1, g - 1); }
        }
      }
      case _ => {}
    }
  }

  lemma {:induction false} MoreFuelAll<S>(mach: Machine<S>, b: Stmts, st: S, f: nat, g: nat)
    requires f <= g && ExecAll(mach, b, st, f).Some?
    ensures ExecAll(mach, b, st, g) == ExecAll(mach, b, st, f)
    decreases f, b
  {
    if b.Cons? {
      MoreFuel(mach, b.head, st, f, g);
      var r := Exec(mach, b.head, st, f).value;
      if r.0.Normal? { MoreFuelAll(mach, b.tail, r.1, f, g); }
    }
  }

  /** After `n` steps the machine is still inside the code, or the statement has ended within them, after `m`
      steps. The code does nothing the statement does not do, and never stops on its own. */
  ghost predicate Tracked<S>(mach: Machine<S>, code: seq<Op>, from: int, low: int, end: int, r: Option<(Outcome, S)>, brk: int, cont: int,
                             st: S, n: nat, m: nat) {
    if m <= n then r.Some? && Run(mach, code, Running(from, st), m) == Exit(r.value, end, brk, cont)
    else var now := Run(mach, code, Running(from, st), n); now.Running? && low <= now.pc < end
  }

  lemma {:induction false} CodeProgress<S>(mach: Machine<S>, code: seq<Op>, at: nat, s: Stmt, brk: int, cont: int, drop: bool, st: S, n: nat)
    returns (m: nat, fuel: nat)
    requires At(code, at, s, Some(brk), Some(cont), drop)
    ensures Tracked(mach, code, at, at, at + Size(s, drop), Exec(mach, s, st, fuel), brk, cont, st, n, m)
    decreases n, s, 1
  {
    m, fuel := 1, 0;
    match s {
      case Block(b) => { m, fuel := AllProgress(mach, code, at, b, brk, cont, drop, st, n); }
      case If(c, t) => {
        if n > 0 && mach.test(c, st).1 {
          m, fuel := AllProgress(mach, code, at + 1, t, brk, cont, drop, mach.test(c, st).0, n - 1);
          m := m + 1;
        }
      }
      case IfElse(c, t, e) => { m, fuel := ElseProgress(mach, code, at, s, brk, cont, drop, st, n); }
      case While(c, b) => {
        if n > 0 {
          m, fuel := LoopProgress(mach, code, at, s, brk, cont, drop, st, n - 1);
          m := m + 1;
        }
      }
      case _ => {
        if n > 0 { assert Run(mach, code, Running(at, st), 1) == Run(mach, code, Step(mach, code, Running(at, st)), 0); }
      }
    }
  }

  lemma {:induction false} ElseProgress<S>(mach: Machine<S>, code: seq<Op>, at: nat, s: Stmt, brk: int, cont: int, drop: bool, st: S, n: nat)
    returns (m: nat, fuel: nat)
    requires s.IfElse? && At(code, at, s, Some(brk), Some(cont), drop)
    ensures Tracked(mach, code, at, at, at + Size(s, drop), Exec(mach, s, st, fuel), brk, cont, st, n, m)
    decreases n, s, 0
  {
    m, fuel := 1, 0;
    if n > 0 {
      var (st', yes) := mach.test(s.cond, st);
      if yes {
        m, fuel := AllProgress(mach, code, at + 1, s.then_, brk, cont, drop, st', n - 1);
        if m <= n - 1 {
          var r := ExecAll(mach, s.then_, st', fuel).value;
          if r.0.Normal? {
            if Skip(s.then_, drop) == 0 { AlwaysReturnsIsSound(mach, s.then_, st', fuel); }
            RunSplit(mach, code, Running(at + 1, st'), m, 1);
            var mid := Running(at + 1 + SizeAll(s.then_, drop), r.1);
            assert Run(mach, code, mid, 1) == Run(mach, code, Step(mach, code, mid), 0);
            m := m + 1;
          }
        }
        m := m + 1;
      } else {
        m, fuel := AllProgress(mach, code, at + 1 + SizeAll(s.then_, drop) + Skip(s.then_, drop), s.else_, brk, cont, drop, st', n - 1);
        m := m + 1;
      }
    }
  }

  lemma {:induction false} LoopProgress<S>(mach: Machine<S>, code: seq<Op>, at: nat, s: Stmt, brk: int, cont: int, drop: bool, st: S, n: nat)
    returns (m: nat, fuel: nat)
    requires s.While? && At(code, at, s, Some(brk), Some(cont), drop)
    ensures Tracked(mach, code, at + 1 + SizeAll(s.body, drop), at, at + Size(s, drop), Exec(mach, s, st, fuel), brk, cont, st, n, m)
    decreases n, s, 0
  {
    m, fuel := 1, 0;
    var check := at + 1 + SizeAll(s.body, drop);
    if n > 0 {
      var (st', yes) := mach.test(s.cond, st);
      var next := Step(mach, code, Running(check, st));
      if yes {
        var k, f := AllProgress(mach, code, at + 1, s.body, check + 1, check, drop, st', n - 1);
        m, fuel := k + 1, f + 1;
        if k <= n - 1 {
          var r := ExecAll(mach, s.body, st', f).value;
          if r.0.Normal? || r.0.Continued? {
            var k2, f2 := LoopProgress(mach, code, at, s, brk, cont, drop, r.1, n - 1 - k);
            m, fuel := 1 + k + k2, 1 + f + f2;
            RunSplit(mach, code, Running(at + 1, st'), k, if k2 <= n - 1 - k then k2 else n - 1 - k);
            MoreFuelAll(mach, s.body, st', f, f + f2);
            if k2 <= n - 1 - k { MoreFuel(mach, s, r.1, f2, f + f2); }
          }
        }
      } else {
        assert Run(mach, code, Running(check, st), 1) == Run(mach, code, next, 0);
      }
    }
  }

  lemma {:induction false} AllProgress<S>(mach: Machine<S>, code: seq<Op>, at: nat, b: Stmts, brk: int, cont: int, drop: bool, st: S, n: nat)
    returns (m: nat, fuel: nat)
    requires AtAll(code, at, b, Some(brk), Some(cont), drop)
    ensures Tracked(mach, code, at, at, at + SizeAll(b, drop), ExecAll(mach, b, st, fuel), brk, cont, st, n, m)
    decreases n, b, 1
  {
    m, fuel := 0, 0;
    if b.Cons? {
      m, fuel := CodeProgress(mach, code, at, b.head, brk, cont, drop, st, n);
      if m <= n {
        var r := Exec(mach, b.head, st, fuel).value;
        if r.0.Normal? {
          var k, f := AllProgress(mach, code, at + Size(b.head, drop), b.tail, brk, cont, drop, r.1, n - m);
          RunSplit(mach, code, Running(at, st), m, if k <= n - m then k else n - m);
          MoreFuel(mach, b.head, st, fuel, fuel + f);
          if k <= n - m { MoreFuelAll(mach, b.tail, r.1, f, fuel + f); }
          m, fuel := m + k, fuel + f;
        }
      }
    }
  }

  // ---------------------------------------------------------------- whole functions

  /** What a call gives: the returned value, or the default value 0 at the end of the body. */
  function FunctionResult<S>(mach: Machine<S>, body: Stmts, st: S, fuel: nat): Option<(nat, S)> {
    match ExecAll(mach, body, st, fuel)
    case Some((Returned(v), st')) => Some((v, st'))
    case Some((Normal, st')) => Some((0, st'))
    case _ => None
  }

  /** The body's code, followed by the default return unless that may be dropped. */
  predicate FunctionCode(code: seq<Op>, body: Stmts, drop: bool) {
    && AtAll(code, 0, body, None, None, drop)
    && if drop && BlockReturns(body) then |code| == SizeAll(body, drop)
       else |code| == SizeAll(body, drop) + 1 && code[SizeAll(body, drop)] == Ret(0)
  }

  /** Outside loops there are no jumps whose target would matter. */
  lemma {:induction false} TargetsUnused(code: seq<Op>, at: nat, s: Stmt, brk: Option<int>, cont: Option<int>, drop: bool)
    requires Breaks(s) == 0 && Continues(s) == 0 && At(code, at, s, None, None, drop)
    ensures At(code, at, s, brk, cont, drop)
    decreases s
  {
    match s {
      case Block(b) => { TargetsUnusedAll(code, at, b, brk, cont, drop); }
      case If(c, t) => { TargetsUnusedAll(code, at + 1, t, brk, cont, drop); }
      case IfElse(c, t, e) => {
        TargetsUnusedAll(code, at + 1, t, brk, cont, drop);
        TargetsUnusedAll(code, at + 1 + SizeAll(t, drop) + Skip(t, drop), e, brk, cont, drop);
      }
      case _ => {}
    }
  }

  lemma {:induction false} TargetsUnusedAll(code: seq<Op>, at: nat, b: Stmts, brk: Option<int>, cont: Option<int>, drop: bool)
    requires BreaksAll(b) == 0 && ContinuesAll(b) == 0 && AtAll(code, at, b, None, None, drop)
    ensures AtAll(code, at, b, brk, cont, drop)
    decreases b
  {
    if b.Cons? {
      TargetsUnused(code, at, b.head, brk, cont, drop);
      TargetsUnusedAll(code, at + Size(b.head, drop), b.tail, brk, cont, drop);
    }
  }

  lemma {:induction false} HaltedStays<S>(mach: Machine<S>, code: seq<Op>, s: State<S>, n: nat)
    requires s.Halted?
    ensures Run(mach, code, s, n) == s
  {
    if n > 0 { HaltedStays(mach, code, s, n - 1); }
  }

  /** Where a function is after `n` steps: somewhere in its code, or halted with its result. */
  lemma FunctionProgress<S>(mach: Machine<S>, code: seq<Op>, body: Stmts, drop: bool, st: S, n: nat) returns (fuel: nat)
    requires FunctionCode(code, body, drop) && BreaksAll(body) == 0 && ContinuesAll(body) == 0
    ensures var now := Run(mach, code, Running(0, st), n);
      || (now.Running? && 0 <= now.pc < |code|)
      || (now.Halted? && FunctionResult(mach, body, st, fuel) == Some((now.value, now.st)))
  {
    TargetsUnusedAll(code, 0, body, Some(0), Some(0), drop);
    var m;
    m, fuel := AllProgress(mach, code, 0, body, 0, 0, drop, st, n);
    if m <= n {
      var r := ExecAll(mach, body, st, fuel).value;
      NoJumpNoLeaveAll(mach, body, st, fuel);
      if drop && BlockReturns(body) { AlwaysReturnsIsSound(mach, body, st, fuel); }
      RunSplit(mach, code, Running(0, st), m, n - m);
      var end := Exit(r, SizeAll(body, drop), 0, 0);
      if end.Halted? { HaltedStays(mach, code, end, n - m); }
      else if n > m { HaltedStays(mach, code, Step(mach, code, end), n - m - 1); }
    }
  }

  /** Execution never falls off the end of a function, whether or not the default return was dropped. */
  lemma NeverFallsOff<S>(mach: Machine<S>, code: seq<Op>, body: Stmts, drop: bool, st: S, n: nat)
    requires FunctionCode(code, body, drop) && BreaksAll(body) == 0 && ContinuesAll(body) == 0
    ensures !Run(mach, code, Running(0, st), n).Fallen?
  {
    var fuel := FunctionProgress(mach, code, body, drop, st, n);
  }

  ghost predicate Gives<S>(mach: Machine<S>, body: Stmts, st: S, r: (nat, S)) { exists fuel: nat :: FunctionResult(mach, body, st, fuel) == Some(r) }

  /** A call halts exactly when the body ends, with the body's result and final state. */
  lemma FunctionComputesBody<S(!new)>(mach: Machine<S>, code: seq<Op>, body: Stmts, drop: bool, st: S, r: (nat, S))
    requires FunctionCode(code, body, drop) && BreaksAll(body) == 0 && ContinuesAll(body) == 0
    ensures Arrives(mach, code, Running(0, st), Halted(r.0, r.1)) <==> Gives(mach, body, st, r)
  {
    if Arrives(mach, code, Running(0, st), Halted(r.0, r.1)) {
      var n: nat :| Run(mach, code, Running(0, st), n) == Halted(r.0, r.1);
      var fuel := FunctionProgress(mach, code, body, drop, st, n);
    }
    if Gives(mach, body, st, r) {
      var fuel: nat :| FunctionResult(mach, body, st, fuel) == Some(r);
      TargetsUnusedAll(code, 0, body, Some(0), Some(0), drop);
      AllFollows(mach, code, 0, body, 0, 0, drop, st, fuel);
      NoJumpNoLeaveAll(mach, body, st, fuel);
      var end := Exit(ExecAll(mach, body, st, fuel).value, SizeAll(body, drop), 0, 0);
      if end.Running? {
        if drop && BlockReturns(body) { AlwaysReturnsIsSound(mach, body, st, fuel); }
        ArrivesAt(mach, code, end);
        ArrivesVia(mach, code, Running(0, st), end, Halted(r.0, r.1));
      }
    }
  }

  /** Dropping jumps behind blocks that always return, and the default return of a body that does, changes
      the result of no call. */
  lemma DroppingChangesNothing<S(!new)>(mach: Machine<S>, full: seq<Op>, short: seq<Op>, body: Stmts, st: S, r: (nat, S))
    requires FunctionCode(full, body, false) && FunctionCode(short, body, true) && BreaksAll(body) == 0 && ContinuesAll(body) == 0
    ensures Arrives(mach, full, Running(0, st), Halted(r.0, r.1)) <==> Arrives(mach, short, Running(0, st), Halted(r.0, r.1))
  {
    FunctionComputesBody(mach, full, body, false, st, r);
    FunctionComputesBody(mach, short, body, true, st, r);
  }

  // ---------------------------------------------------------------- jumps still to be resolved

  /** The positions of the breaks, in order. */
  function BreakPositions(s: Stmt, at: nat): (r: seq<nat>)
    decreases s
  {
    match s
    case Break => [at]
    case Block(b) => BreakPositionsAll(b, at)
    case If(_, t) => BreakPositionsAll(t, at + 1)
    case IfElse(_, t, e) => BreakPositionsAll(t, at + 1) + BreakPositionsAll(e, at + 1 + SizeAll(t, true) + Skip(t, true))
    case _ => []
  }

  function BreakPositionsAll(b: Stmts, at: nat): seq<nat>
    decreases b
  {
    match b case Nil => [] case Cons(s, rest) => BreakPositions(s, at) + BreakPositionsAll(rest, at + Size(s, true))
  }

  function ContinuePositions(s: Stmt, at: nat): seq<nat>
    decreases s
  {
    match s
    case Continue => [at]
    case Block(b) => ContinuePositionsAll(b, at)
    case If(_, t) => ContinuePositionsAll(t, at + 1)
    case IfElse(_, t, e) => ContinuePositionsAll(t, at + 1) + ContinuePositionsAll(e, at + 1 + SizeAll(t, true) + Skip(t, true))
    case _ => []
  }

  function ContinuePositionsAll(b: Stmts, at: nat): seq<nat>
    decreases b
  {
    match b case Nil => [] case Cons(s, rest) => ContinuePositions(s, at) + ContinuePositionsAll(rest, at + Size(s, true))
  }

  /** The lists hold one position for each jump, all inside the statement's code. */
  lemma {:induction false} PositionsWithin(s: Stmt, at: nat)
    ensures |BreakPositions(s, at)| == Breaks(s) && |ContinuePositions(s, at)| == Continues(s)
    ensures forall p :: p in BreakPositions(s, at) || p in ContinuePositions(s, at) ==> at <= p < at + Size(s, true)
    decreases s
  {
    match s {
      case Block(b) => { PositionsWithinAll(b, at); }
      case If(c, t) => { PositionsWithinAll(t, at + 1); }
      case IfElse(c, t, e) => {
        PositionsWithinAll(t, at + 1);
        PositionsWithinAll(e, at + 1 + SizeAll(t, true) + Skip(t, true));
      }
      case _ => {}
    }
  }

  lemma {:induction false} PositionsWithinAll(b: Stmts, at: nat)
    ensures |BreakPositionsAll(b, at)| == BreaksAll(b) && |ContinuePositionsAll(b, at)| == ContinuesAll(b)
    ensures forall p :: p in BreakPositionsAll(b, at) || p in ContinuePositionsAll(b, at) ==> at <= p < at + SizeAll(b, true)
    decreases b
  {
    if b.Cons? {
      PositionsWithin(b.head, at);
      PositionsWithinAll(b.tail, at + Size(b.head, true));
    }
  }

  /** Between `low` and `high`, `after` is `before` with the listed jumps resolved. */
  predicate Resolved(before: seq<Op>, after: seq<Op>, low: nat, high: nat, breaks: seq<nat>, continues: seq<nat>, brk: int, cont: int) {
    && high <= |before| && high <= |after|
    && forall p :: low <= p < high ==>
         after[p] == if p in breaks then Jmp(brk - (p + 1)) else if p in continues then Jmp(cont - (p + 1)) else before[p]
  }

  /** Inside one part only that part's jumps are listed. */
  predicate Lists(whole: seq<nat>, part: seq<nat>, low: nat, high: nat) {
    forall p :: low <= p < high ==> (p in whole <==> p in part)
  }

  lemma {:induction false} ResolvedAt(before: seq<Op>, after: seq<Op>, at: nat, s: Stmt, breaks: seq<nat>, continues: seq<nat>, brk: int, cont: int)
    requires At(before, at, s, None, None, true) && Resolved(before, after, at, at + Size(s, true), breaks, continues, brk, cont)
    requires Lists(breaks, BreakPositions(s, at), at, at + Size(s, true))
    requires Lists(continues, ContinuePositions(s, at), at, at + Size(s, true))
    ensures At(after, at, s, Some(brk), Some(cont), true)
    decreases s, 1
  {
    match s {
      case Block(b) => { ResolvedAtAll(before, after, at, b, breaks, continues, brk, cont); }
      case If(c, t) => {
        PositionsWithinAll(t, at + 1);
        assert at !in BreakPositions(s, at) && at !in ContinuePositions(s, at);
        ResolvedAtAll(before, after, at + 1, t, breaks, continues, brk, cont);
      }
      case IfElse(c, t, e) => { ResolvedElse(before, after, at, s, breaks, continues, brk, cont); }
      case While(c, b) => {
        assert forall p :: at <= p < at + Size(s, true) ==> after[p] == before[p];
        SameAt(before, after, at, s, None, None, true);
      }
      case Break => { assert at in BreakPositions(s, at); }
      case Continue => { assert at in ContinuePositions(s, at) && at !in BreakPositions(s, at); }
      case _ => { assert at !in BreakPositions(s, at) && at !in ContinuePositions(s, at); }
    }
  }

  lemma {:induction false} ResolvedElse(before: seq<Op>, after: seq<Op>, at: nat, s: Stmt, breaks: seq<nat>, continues: seq<nat>, brk: int, cont: int)
    requires s.IfElse?
    requires At(before, at, s, None, None, true) && Resolved(before, after, at, at + Size(s, true), breaks, continues, brk, cont)
    requires Lists(breaks, BreakPositions(s, at), at, at + Size(s, true))
    requires Lists(continues, ContinuePositions(s, at), at, at + Size(s, true))
    ensures At(after, at, s, Some(brk), Some(cont), true)
    decreases s, 0
  {
    var t, e := s.then_, s.else_;
    var elseAt := at + 1 + SizeAll(t, true) + Skip(t, true);
    PositionsWithinAll(t, at + 1);
    PositionsWithinAll(e, elseAt);
    var bs, cs := BreakPositions(s, at), ContinuePositions(s, at);
    assert bs == BreakPositionsAll(t, at + 1) + BreakPositionsAll(e, elseAt);
    assert cs == ContinuePositionsAll(t, at + 1) + ContinuePositionsAll(e, elseAt);
    assert at !in bs && at !in cs;
    assert Skip(t, true) == 1 ==> at + 1 + SizeAll(t, true) !in bs && at + 1 + SizeAll(t, true) !in cs;
    ResolvedAtAll(before, after, at + 1, t, breaks, continues, brk, cont);
    ResolvedAtAll(before, after, elseAt, e, breaks, continues, brk, cont);
  }

  lemma {:induction false} ResolvedAtAll(before: seq<Op>, after: seq<Op>, at: nat, b: Stmts, breaks: seq<nat>, continues: seq<nat>, brk: int, cont: int)
    requires AtAll(before, at, b, None, None, true) && Resolved(before, after, at, at + SizeAll(b, true), breaks, continues, brk, cont)
    requires Lists(breaks, BreakPositionsAll(b, at), at, at + SizeAll(b, true))
    requires Lists(continues, ContinuePositionsAll(b, at), at, at + SizeAll(b, true))
    ensures AtAll(after, at, b, Some(brk), Some(cont), true)
    decreases b, 1
  {
    if b.Cons? {
      PositionsWithin(b.head, at);
      PositionsWithinAll(b.tail, at + Size(b.head, true));
      ResolvedAt(before, after, at, b.head, breaks, continues, brk, cont);
      ResolvedAtAll(before, after, at + Size(b.head, true), b.tail, breaks, continues, brk, cont);
    }
  }

  lemma {:induction false} SameAt(before: seq<Op>, after: seq<Op>, at: nat, s: Stmt, brk: Option<int>, cont: Option<int>, drop: bool)
    requires At(before, at, s, brk, cont, drop) && at + Size(s, drop) <= |after|
    requires forall p :: at <= p < at + Size(s, drop) ==> after[p] == before[p]
    ensures At(after, at, s, brk, cont, drop)
    decreases s
  {
    match s {
      case Block(b) => { SameAtAll(before, after, at, b, brk, cont, drop); }
      case If(c, t) => { SameAtAll(before, after, at + 1, t, brk, cont, drop); }
      case IfElse(c, t, e) => {
        SameAtAll(before, after, at + 1, t, brk, cont, drop);
        SameAtAll(before, after, at + 1 + SizeAll(t, drop) + Skip(t, drop), e, brk, cont, drop);
      }
      case While(c, b) => { SameAtAll(before, after, at + 1, b, Some(at + 2 + SizeAll(b, drop)), Some(at + 1 + SizeAll(b, drop)), drop); }
      case _ => {}
    }
  }

  lemma {:induction false} SameAtAll(before: seq<Op>, after: seq<Op>, at: nat, b: Stmts, brk: Option<int>, cont: Option<int>, drop: bool)
    requires AtAll(before, at, b, brk, cont, drop) && at + SizeAll(b, drop) <= |before| && at + SizeAll(b, drop) <= |after|
    requires forall p :: at <= p < at + SizeAll(b, drop) ==> after[p] == before[p]
    ensures AtAll(after, at, b, brk, cont, drop)
    decreases b
  {
    if b.Cons? {
      SameAt(before, after, at, b.head, brk, cont, drop);
      SameAtAll(before, after, at + Size(b.head, drop), b.tail, brk, cont, drop);
    }
  }
}

/** The emission: jumps are written before their targets are known and filled in later. */
module AlwaysReturns {
  import opened Collections
  import opened StructuredCode

  function Snoc(b: Stmts, s: Stmt): Stmts { match b case Nil => Cons(s, Nil) case Cons(h, t) => Cons(h, Snoc(t, s)) }

  function Append(b: Stmts, c: Stmts): Stmts { match b case Nil => c case Cons(h, t) => Cons(h, Append(t, c)) }

  lemma {:induction false} AppendSnoc(b: Stmts, s: Stmt, rest: Stmts)
    ensures Append(Snoc(b, s), rest) == Append(b, Cons(s, rest))
  {
    if b.Cons? { AppendSnoc(b.tail, s, rest); }
  }

  lemma {:induction false} AppendNil(b: Stmts)
    ensures Append(b, Nil) == b
  {
    if b.Cons? { AppendNil(b.tail); }
  }

  lemma {:induction false} JumpsAppend(b: Stmts, c: Stmts)
    ensures BreaksAll(Append(b, c)) == BreaksAll(b) + BreaksAll(c) && ContinuesAll(Append(b, c)) == ContinuesAll(b) + ContinuesAll(c)
  {
    if b.Cons? { JumpsAppend(b.tail, c); }
  }

  lemma NextStatement(b: Stmts, done: Stmts, rest: Stmts)
    requires Append(done, rest) == b && rest.Cons?
    ensures Append(Snoc(done, rest.head), rest.tail) == b
    ensures BreaksAll(Snoc(done, rest.head)) == BreaksAll(done) + Breaks(rest.head) <= BreaksAll(b)
    ensures ContinuesAll(Snoc(done, rest.head)) == ContinuesAll(done) + Continues(rest.head) <= ContinuesAll(b)
  {
    AppendSnoc(done, rest.head, rest.tail);
    JumpsAppend(done, rest);
    JumpsAppend(done, Cons(rest.head, Nil));
    AppendSnoc(done, rest.head, Nil);
    AppendNil(Snoc(done, rest.head));
  }

  /** `after` continues `before` with the code of `b`, its jumps out of the loop around it still open. */
  predicate Wrote(before: seq<Op>, after: seq<Op>, b: Stmts) {
    before <= after && |after| == |before| + SizeAll(b, true) && AtAll(after, |before|, b, None, None, true)
  }

  predicate WroteOne(before: seq<Op>, after: seq<Op>, s: Stmt) {
    before <= after && |after| == |before| + Size(s, true) && At(after, |before|, s, None, None, true)
  }

  /** The statements `done` are written, their open jumps listed, and it is known whether one of them returns. */
  predicate Parsed(before: seq<Op>, after: seq<Op>, done: Stmts, breaks: seq<nat>, continues: seq<nat>, breaks': seq<nat>,
                   continues': seq<nat>, blockReturns: bool) {
    && Wrote(before, after, done) && blockReturns == SomeReturns(done)
    && breaks' == breaks + BreakPositionsAll(done, |before|) && continues' == continues + ContinuePositionsAll(done, |before|)
  }

  /** One more statement behind a block. */
  lemma {:induction false} WroteNext(before: seq<Op>, mid: seq<Op>, after: seq<Op>, b: Stmts, s: Stmt)
    requires Wrote(before, mid, b) && WroteOne(mid, after, s)
    ensures Wrote(before, after, Snoc(b, s))
    ensures BreakPositionsAll(Snoc(b, s), |before|) == BreakPositionsAll(b, |before|) + BreakPositions(s, |mid|)
    ensures ContinuePositionsAll(Snoc(b, s), |before|) == ContinuePositionsAll(b, |before|) + ContinuePositions(s, |mid|)
    ensures SomeReturns(Snoc(b, s)) <==> SomeReturns(b) || Returns(s)
  {
    SnocSize(b, s);
    SnocReturns(b, s);
    SnocBreaks(b, s, |before|);
    SnocContinues(b, s, |before|);
    SnocAt(mid, after, |before|, b, s);
  }

  lemma ParsedNext(before: seq<Op>, mid: seq<Op>, after: seq<Op>, done: Stmts, s: Stmt, breaks: seq<nat>, continues: seq<nat>,
                   breaks': seq<nat>, continues': seq<nat>, blockReturns: bool)
    requires Parsed(before, mid, done, breaks, continues, breaks', continues', blockReturns) && WroteOne(mid, after, s)
    ensures Parsed(before, after, Snoc(done, s), breaks, continues, breaks' + BreakPositions(s, |mid|),
                   continues' + ContinuePositions(s, |mid|), blockReturns || Returns(s))
  {
    WroteNext(before, mid, after, done, s);
    Joined(breaks, BreakPositionsAll(done, |before|), BreakPositions(s, |mid|), breaks', BreakPositionsAll(Snoc(done, s), |before|));
    Joined(continues, ContinuePositionsAll(done, |before|), ContinuePositions(s, |mid|), continues', ContinuePositionsAll(Snoc(done, s), |before|));
  }

  lemma Joined(a: seq<nat>, b: seq<nat>, c: seq<nat>, ab: seq<nat>, bc: seq<nat>)
    requires ab == a + b && bc == b + c
    ensures ab + c == a + bc
  {
  }

  lemma {:induction false} SnocSize(b: Stmts, s: Stmt)
    ensures SizeAll(Snoc(b, s), true) == SizeAll(b, true) + Size(s, true)
  {
    if b.Cons? { SnocSize(b.tail, s); }
  }

  lemma {:induction false} SnocReturns(b: Stmts, s: Stmt)
    ensures SomeReturns(Snoc(b, s)) <==> SomeReturns(b) || Returns(s)
  {
    if b.Cons? { SnocReturns(b.tail, s); }
  }

  lemma {:induction false} SnocBreaks(b: Stmts, s: Stmt, at: nat)
    ensures BreakPositionsAll(Snoc(b, s), at) == BreakPositionsAll(b, at) + BreakPositions(s, at + SizeAll(b, true))
  {
    if b.Cons? { SnocBreaks(b.tail, s, at + Size(b.head, true)); }
  }

  lemma {:induction false} SnocContinues(b: Stmts, s: Stmt, at: nat)
    ensures ContinuePositionsAll(Snoc(b, s), at) == ContinuePositionsAll(b, at) + ContinuePositions(s, at + SizeAll(b, true))
  {
    if b.Cons? { SnocContinues(b.tail, s, at + Size(b.head, true)); }
  }

  lemma {:induction false} SnocAt(mid: seq<Op>, after: seq<Op>, at: nat, b: Stmts, s: Stmt)
    requires AtAll(mid, at, b, None, None, true) && at + SizeAll(b, true) == |mid| && mid <= after
    requires At(after, |mid|, s, None, None, true)
    ensures AtAll(after, at, Snoc(b, s), None, None, true)
    decreases b
  {
    match b
    case Nil =>
      assert Snoc(b, s) == Cons(s, Nil);
    case Cons(h, rest) =>
      SameAt(mid, after, at, h, None, None, true);
      SnocAt(mid, after, at + Size(h, true), rest, s);
      assert Snoc(b, s) == Cons(h, Snoc(rest, s));
  }

  /** `after` continues `before` with the first half of an if with an else part. */
  predicate ThenWritten(before: seq<Op>, after: seq<Op>, c: nat, t: Stmts) {
    && before <= after && |after| == |before| + 1 + SizeAll(t, true) + Skip(t, true)
    && after[|before|] == JmpFalse(c, SizeAll(t, true) + Skip(t, true))
    && AtAll(after, |before| + 1, t, None, None, true)
    && (Skip(t, true) == 1 ==> after[|after| - 1] == Jmp(0))
  }

  lemma ElseFinished(before: seq<Op>, begin: seq<Op>, end: seq<Op>, code: seq<Op>, c: nat, t: Stmts, e: Stmts)
    requires ThenWritten(before, begin, c, t) && Wrote(begin, end, e)
    requires code == if BlockReturns(t) then end else end[|begin| - 1 := Jmp(|end| - |begin|)]
    ensures WroteOne(before, code, IfElse(c, t, e))
  {
    ThenKept(before, begin, code, c, t);
    ElseKept(begin, end, code, e);
    assert AtElse(code, |before|, IfElse(c, t, e), None, None, true);
  }

  lemma ThenKept(before: seq<Op>, begin: seq<Op>, code: seq<Op>, c: nat, t: Stmts)
    requires ThenWritten(before, begin, c, t) && |code| >= |begin|
    requires forall p :: 0 <= p < |before| + 1 + SizeAll(t, true) ==> code[p] == begin[p]
    ensures before <= code && code[|before|] == JmpFalse(c, SizeAll(t, true) + Skip(t, true))
    ensures AtAll(code, |before| + 1, t, None, None, true)
  {
    SameAtAll(begin, code, |before| + 1, t, None, None, true);
  }

  lemma ElseKept(begin: seq<Op>, end: seq<Op>, code: seq<Op>, e: Stmts)
    requires Wrote(begin, end, e) && |code| == |end| && forall p :: |begin| <= p < |end| ==> code[p] == end[p]
    ensures AtAll(code, |begin|, e, None, None, true)
  {
    SameAtAll(end, code, |begin|, e, None, None, true);
  }

  lemma ElseLists(breaks: seq<nat>, continues: seq<nat>, c: nat, t: Stmts, e: Stmts, at: nat)
    ensures var elseAt := at + 1 + SizeAll(t, true) + Skip(t, true);
      && breaks + BreakPositionsAll(t, at + 1) + BreakPositionsAll(e, elseAt) == breaks + BreakPositions(IfElse(c, t, e), at)
      && continues + ContinuePositionsAll(t, at + 1) + ContinuePositionsAll(e, elseAt) == continues + ContinuePositions(IfElse(c, t, e), at)
  {
  }

  /** The listed positions hold open jumps. */
  lemma {:induction false} OpenJumps(code: seq<Op>, at: nat, b: Stmts)
    requires AtAll(code, at, b, None, None, true)
    ensures forall p :: p in BreakPositionsAll(b, at) ==> p < |code| && code[p] == Jmp(0)
    ensures forall p :: p in ContinuePositionsAll(b, at) ==> p < |code| && code[p] == Jmp(0)
    decreases b
  {
    if b.Cons? {
      OpenJump(code, at, b.head);
      OpenJumps(code, at + Size(b.head, true), b.tail);
    }
  }

  lemma {:induction false} OpenJump(code: seq<Op>, at: nat, s: Stmt)
    requires At(code, at, s, None, None, true)
    ensures forall p :: p in BreakPositions(s, at) ==> p < |code| && code[p] == Jmp(0)
    ensures forall p :: p in ContinuePositions(s, at) ==> p < |code| && code[p] == Jmp(0)
    decreases s
  {
    match s {
      case Block(b) => { OpenJumps(code, at, b); }
      case If(c, t) => { OpenJumps(code, at + 1, t); }
      case IfElse(c, t, e) => {
        var elseAt := at + 1 + SizeAll(t, true) + Skip(t, true);
        OpenJumps(code, at + 1, t);
        OpenJumps(code, elseAt, e);
        assert BreakPositions(s, at) == BreakPositionsAll(t, at + 1) + BreakPositionsAll(e, elseAt);
        assert ContinuePositions(s, at) == ContinuePositionsAll(t, at + 1) + ContinuePositionsAll(e, elseAt);
      }
      case _ => {}
    }
  }

  class SFunctionInfo {
    var code: seq<Op>

    /** Writes a jump whose target is not known yet; returns its position. */
    method PushJump(op: Op) returns (position: nat)
      modifies this
      ensures position == |old(code)| && code == old(code) + [op]
    {
      position := |code|;
      code := code + [op];
    }

    /** Fills in the target of a jump written before: taken from there it now leads to `dest`. */
    method SetJumpOffset(position: nat, dest: nat)
      requires position < |code| && (code[position].Jmp? || code[position].JmpFalse?)
      modifies this
      ensures |code| == |old(code)| && (code[position].Jmp? || code[position].JmpFalse?) && position + 1 + code[position].offset == dest
      ensures code == old(code)[position := if old(code)[position].Jmp? then Jmp(dest - (position + 1))
                                            else JmpFalse(old(code)[position].cond, dest - (position + 1))]
    {
      var offset := dest - (position + 1);
      code := code[position := match code[position] case JmpFalse(c, _) => JmpFalse(c, offset) case _ => Jmp(offset)];
    }

    /** Sends every listed jump to `dest`. */
    method SetAll(positions: seq<nat>, dest: nat)
      requires forall p :: p in positions ==> p < |code| && code[p].Jmp?
      modifies this
      ensures |code| == |old(code)|
      ensures forall p :: 0 <= p < |code| ==> code[p] == if p in positions then Jmp(dest - (p + 1)) else old(code)[p]
    {
      for i := 0 to |positions|
        invariant |code| == |old(code)|
        invariant forall p :: p in positions ==> code[p].Jmp?
        invariant forall p :: 0 <= p < |code| ==> code[p] == if p in positions[..i] then Jmp(dest - (p + 1)) else old(code)[p]
      {
        assert positions[i] in positions && positions[..i + 1] == positions[..i] + [positions[i]];
        SetJumpOffset(positions[i], dest);
      }
      assert positions[..|positions|] == positions;
    }

    /** Parses one statement. `breaks` and `continues` collect the open jumps of the loop around it. */
    method ParseStatement(s: Stmt, breaks: seq<nat>, continues: seq<nat>, inLoop: bool)
      returns (ok: bool, breaks': seq<nat>, continues': seq<nat>, returns_: bool)
      modifies this
      ensures ok <==> inLoop || (Breaks(s) == 0 && Continues(s) == 0)
      ensures inLoop || s.While? ==> ok
      ensures ok ==> WroteOne(old(code), code, s) && returns_ == Returns(s)
      ensures ok ==> breaks' == breaks + BreakPositions(s, |old(code)|) && continues' == continues + ContinuePositions(s, |old(code)|)
      decreases s, 1
    {
      ok, breaks', continues', returns_ := true, breaks, continues, false;
      match s {
        case Act(id) => { code := code + [Do(id)]; }
        case Return(v) => {
          code := code + [Ret(v)];
          returns_ := true;
        }
        case Break => {
          if !inLoop { return false, breaks, continues, false; }
          var p := PushJump(Jmp(0));
          breaks' := breaks + [p];
        }
        case Continue => {
          if !inLoop { return false, breaks, continues, false; }
          var p := PushJump(Jmp(0));
          continues' := continues + [p];
        }
        case Block(b) => { ok, breaks', continues', returns_ := ParseMiddleArea(b, breaks, continues, inLoop); }
        case If(c, t) => { ok, breaks', continues' := ParseIf(c, t, breaks, continues, inLoop); }
        case IfElse(c, t, e) => { ok, breaks', continues', returns_ := ParseIfElse(c, t, e, breaks, continues, inLoop); }
        case While(c, b) => { ok := ParseWhile(c, b); }
      }
    }

    /** Parses the statements of a block, and reports whether it always returns: some statement does, and the
        lists of open jumps did not grow. */
    method ParseMiddleArea(b: Stmts, breaks: seq<nat>, continues: seq<nat>, inLoop: bool)
      returns (ok: bool, breaks': seq<nat>, continues': seq<nat>, returns_: bool)
      modifies this
      ensures ok <==> inLoop || (BreaksAll(b) == 0 && ContinuesAll(b) == 0)
      ensures ok ==> Wrote(old(code), code, b) && returns_ == BlockReturns(b)
      ensures ok ==> breaks' == breaks + BreakPositionsAll(b, |old(code)|) && continues' == continues + ContinuePositionsAll(b, |old(code)|)
      decreases b, 0
    {
      breaks', continues' := breaks, continues;
      var blockReturns := false;
      var rest := b;
      ghost var done := Nil;
      while rest.Cons?
        invariant Append(done, rest) == b && (rest == b || rest < b)
        invariant Parsed(old(code), code, done, breaks, continues, breaks', continues', blockReturns)
        invariant inLoop || (BreaksAll(done) == 0 && ContinuesAll(done) == 0)
        decreases rest
      {
        NextStatement(b, done, rest);
        ok, breaks', continues', blockReturns := ParseNext(done, rest.head, breaks, continues, breaks', continues', inLoop, blockReturns, old(code));
        if !ok { return false, breaks', continues', false; }
        done, rest := Snoc(done, rest.head), rest.tail;
      }
      AppendNil(done);
      PositionsWithinAll(b, |old(code)|);
      ok := true;
      returns_ := blockReturns && |breaks'| == |breaks| && |continues'| == |continues|;
    }

    /** Parses the next statement of a block. */
    method ParseNext(ghost done: Stmts, s: Stmt, ghost breaks0: seq<nat>, ghost continues0: seq<nat>, breaks: seq<nat>, continues: seq<nat>,
                     inLoop: bool, blockReturns: bool, ghost before: seq<Op>)
      returns (ok: bool, breaks': seq<nat>, continues': seq<nat>, blockReturns': bool)
      requires Parsed(before, code, done, breaks0, continues0, breaks, continues, blockReturns)
      modifies this
      ensures ok <==> inLoop || (Breaks(s) == 0 && Continues(s) == 0)
      ensures ok ==> Parsed(before, code, Snoc(done, s), breaks0, continues0, breaks', continues', blockReturns')
      decreases s, 2
    {
      ghost var mid := code;
      var statementReturns;
      ok, breaks', continues', statementReturns := ParseStatement(s, breaks, continues, inLoop);
      blockReturns' := blockReturns || statementReturns;
      if ok { ParsedNext(before, mid, code, done, s, breaks0, continues0, breaks, continues, blockReturns); }
    }

    method ParseIf(c: nat, t: Stmts, breaks: seq<nat>, continues: seq<nat>, inLoop: bool)
      returns (ok: bool, breaks': seq<nat>, continues': seq<nat>)
      modifies this
      ensures ok <==> inLoop || (BreaksAll(t) == 0 && ContinuesAll(t) == 0)
      ensures ok ==> WroteOne(old(code), code, If(c, t))
      ensures ok ==> breaks' == breaks + BreakPositionsAll(t, |old(code)| + 1) && continues' == continues + ContinuePositionsAll(t, |old(code)| + 1)
      decreases t, 1
    {
      var jmp1 := PushJump(JmpFalse(c, 0));
      ghost var begin := code;
      var thenReturns;
      ok, breaks', continues', thenReturns := ParseMiddleArea(t, breaks, continues, inLoop);
      if !ok { return; }
      assert code[jmp1] == begin[jmp1];
      ghost var mid := code;
      SetJumpOffset(jmp1, |code|);
      SameAtAll(mid, code, |begin|, t, None, None, true);
    }

    /** A jump behind the first block is written only if that block may fall through. */
    method ParseIfElse(c: nat, t: Stmts, e: Stmts, breaks: seq<nat>, continues: seq<nat>, inLoop: bool)
      returns (ok: bool, breaks': seq<nat>, continues': seq<nat>, returns_: bool)
      modifies this
      ensures ok <==> inLoop || (BreaksAll(t) + BreaksAll(e) == 0 && ContinuesAll(t) + ContinuesAll(e) == 0)
      ensures ok ==> WroteOne(old(code), code, IfElse(c, t, e)) && returns_ == (BlockReturns(t) && BlockReturns(e))
      ensures ok ==> |code| == |old(code)| + 1 + SizeAll(t, true) + (if BlockReturns(t) then 0 else 1) + SizeAll(e, true)
      ensures ok ==> breaks' == breaks + BreakPositions(IfElse(c, t, e), |old(code)|)
      ensures ok ==> continues' == continues + ContinuePositions(IfElse(c, t, e), |old(code)|)
      decreases IfElse(c, t, e), 0
    {
      returns_ := false;
      var thenReturns;
      ok, breaks', continues', thenReturns := ParseThen(c, t, breaks, continues, inLoop);
      if !ok { return; }
      ok, breaks', continues', returns_ := ParseElse(c, t, e, breaks', continues', inLoop, thenReturns, old(code));
      ElseLists(breaks, continues, c, t, e, |old(code)|);
    }

    method ParseElse(c: nat, t: Stmts, e: Stmts, breaks: seq<nat>, continues: seq<nat>, inLoop: bool, thenReturns: bool, ghost before: seq<Op>)
      returns (ok: bool, breaks': seq<nat>, continues': seq<nat>, returns_: bool)
      requires ThenWritten(before, code, c, t) && thenReturns == BlockReturns(t)
      modifies this
      ensures ok <==> inLoop || (BreaksAll(e) == 0 && ContinuesAll(e) == 0)
      ensures ok ==> WroteOne(before, code, IfElse(c, t, e)) && returns_ == (thenReturns && BlockReturns(e))
      ensures ok ==> breaks' == breaks + BreakPositionsAll(e, |old(code)|)
      ensures ok ==> continues' == continues + ContinuePositionsAll(e, |old(code)|)
      decreases e, 1
    {
      returns_ := false;
      var jmp2 := if thenReturns then 0 else |code| - 1;
      var elseReturns;
      ok, breaks', continues', elseReturns := ParseMiddleArea(e, breaks, continues, inLoop);
      if !ok { return; }
      returns_ := thenReturns && elseReturns;
      FinishElse(c, t, e, jmp2, thenReturns, before, old(code));
    }

    /** Writes the conditional jump, the first block, and the jump behind it unless the block always returns. */
    method ParseThen(c: nat, t: Stmts, breaks: seq<nat>, continues: seq<nat>, inLoop: bool)
      returns (ok: bool, breaks': seq<nat>, continues': seq<nat>, thenReturns: bool)
      modifies this
      ensures ok <==> inLoop || (BreaksAll(t) == 0 && ContinuesAll(t) == 0)
      ensures ok ==> ThenWritten(old(code), code, c, t) && thenReturns == BlockReturns(t)
      ensures ok ==> breaks' == breaks + BreakPositionsAll(t, |old(code)| + 1) && continues' == continues + ContinuePositionsAll(t, |old(code)| + 1)
      decreases t, 1
    {
      var jmp1 := PushJump(JmpFalse(c, 0));
      ghost var begin := code;
      ok, breaks', continues', thenReturns := ParseMiddleArea(t, breaks, continues, inLoop);
      if !ok { return; }
      ghost var mid := code;
      if !thenReturns { var jmp2 := PushJump(Jmp(0)); }
      assert code[jmp1] == begin[jmp1];
      SetJumpOffset(jmp1, |code|);
      SameAtAll(mid, code, |begin|, t, None, None, true);
    }

    /** Fills in the jump over the second block. */
    method FinishElse(c: nat, t: Stmts, e: Stmts, jmp2: nat, thenReturns: bool, ghost before: seq<Op>, ghost begin: seq<Op>)
      requires ThenWritten(before, begin, c, t) && thenReturns == BlockReturns(t) && Wrote(begin, code, e)
      requires !thenReturns ==> jmp2 == |begin| - 1
      modifies this
      ensures WroteOne(before, code, IfElse(c, t, e))
    {
      ghost var end := code;
      if !thenReturns {
        assert code[jmp2] == begin[jmp2];
        SetJumpOffset(jmp2, |code|);
      }
      ElseFinished(before, begin, end, code, c, t, e);
    }

    /** The condition stands behind the body; breaks go past it, continues to it. */
    method ParseWhile(c: nat, b: Stmts) returns (ok: bool)
      modifies this
      ensures ok && WroteOne(old(code), code, While(c, b))
      decreases b, 1
    {
      var jmp1 := PushJump(Jmp(0));
      var top := |code|;
      ghost var begin := code;
      var breaks, continues, returns_;
      ok, breaks, continues, returns_ := ParseMiddleArea(b, [], [], true);
      if !ok { return; }
      CloseLoop(c, b, jmp1, top, breaks, continues);
    }

    /** Resolves the entry jump and the open jumps of the body, and writes the condition. */
    method CloseLoop(c: nat, ghost b: Stmts, jmp1: nat, top: nat, breaks: seq<nat>, continues: seq<nat>)
      requires top == jmp1 + 1 <= |code| && code[jmp1] == Jmp(0)
      requires AtAll(code, top, b, None, None, true) && |code| == top + SizeAll(b, true)
      requires breaks == BreakPositionsAll(b, top) && continues == ContinuePositionsAll(b, top)
      modifies this
      ensures |code| == |old(code)| + 1 && code[..jmp1] == old(code)[..jmp1]
      ensures At(code, jmp1, While(c, b), None, None, true)
    {
      ghost var before := code;
      OpenJumps(code, top, b);
      PositionsWithinAll(b, top);
      var check := |code|;
      SetJumpOffset(jmp1, check);
      SetAll(continues, check);
      code := code + [JmpTrue(c, top - (check + 1))];
      SetAll(breaks, |code|);
      ResolvedAtAll(before, code, top, b, breaks, continues, check + 1, check);
    }

    /** Emits a whole function; the default return is written only if the body may end without returning. */
    method ParseFunctionBody(body: Stmts) returns (ok: bool)
      modifies this
      ensures ok <==> BreaksAll(body) == 0 && ContinuesAll(body) == 0
      ensures ok ==> FunctionCode(code, body, true)
    {
      code := [];
      var breaks, continues, bodyAlwaysReturns;
      ok, breaks, continues, bodyAlwaysReturns := ParseMiddleArea(body, [], [], false);
      if ok && !bodyAlwaysReturns {
        ghost var before := code;
        code := code + [Ret(0)];
        SameAtAll(before, code, 0, body, None, None, true);
      }
    }
  }
}
