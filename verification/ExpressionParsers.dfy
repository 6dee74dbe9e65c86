/** Flat operator expressions, the one tree that precedence and left associativity give them, and its value. */
module ExpressionTrees {
  import opened Collections
  import opened IntegerArithmetic

  /** The priority in the operator table: a lower number binds tighter. */
  function Priority(op: Op): (p: nat)
    ensures 4 <= p <= 15
  {
    match op
    case Mul => 4 case Div => 4 case Rem => 4
    case Add => 5 case Sub => 5
    case Shl => 6 case Shr => 6 case Concat => 6
    case Relational => 7
    case Equality => 8
    case And => 9
    case Xor => 10
    case Or => 11
    case Assign => 15
  }

  /** The precedence of C, tightest operators first, with the concatenation among the shifts. */
  const LEVELS: seq<set<Op>> :=
    [{Mul, Div, Rem}, {Add, Sub}, {Shl, Shr, Concat}, {Relational}, {Equality}, {And}, {Xor}, {Or}, {Assign}]

  /** Every operator has its place there, and the table orders any two of them by their places. */
  lemma PrecedenceOfC(a: Op, b: Op) returns (i: nat, j: nat)
    ensures i < |LEVELS| && j < |LEVELS| && a in LEVELS[i] && b in LEVELS[j]
    ensures Priority(a) < Priority(b) <==> i < j
    ensures Priority(a) == Priority(b) <==> i == j
  {
    i, j := if a == Assign then 8 else Priority(a) - 4, if b == Assign then 8 else Priority(b) - 4;
  }

  /** `Leaf(i)` is the `i`-th operand; operator `ops[i]` stands between operands `i` and `i + 1`. */
  datatype Expr = Leaf(index: nat) | Bin(op: Op, left: Expr, right: Expr)

  function First(t: Expr): nat { match t case Leaf(i) => i case Bin(_, l, _) => First(l) }

  function Last(t: Expr): nat { match t case Leaf(i) => i case Bin(_, _, r) => Last(r) }

  /** Read from left to right, `t` is the part of the expression from `First(t)` to `Last(t)`. */
  predicate Covers(t: Expr, ops: seq<Op>) {
    match t
    case Leaf(i) => i <= |ops|
    case Bin(op, l, r) => Covers(l, ops) && Covers(r, ops) && Last(l) + 1 == First(r) && Last(l) < |ops| && ops[Last(l)] == op
  }

  function RootPriority(t: Expr): nat { match t case Leaf(_) => 0 case Bin(op, _, _) => Priority(op) }

  /** Tighter operators below looser ones, equally tight ones grouped to the left. */
  predicate Respects(t: Expr) {
    match t
    case Leaf(_) => true
    case Bin(op, l, r) => Respects(l) && Respects(r) && RootPriority(l) <= Priority(op) && RootPriority(r) < Priority(op)
  }

  /** The last of the loosest operators between operands `lo` and `hi`. */
  function LastLoosest(ops: seq<Op>, lo: nat, hi: nat): (k: nat)
    requires lo < hi <= |ops|
    ensures lo <= k < hi
  {
    if hi == lo + 1 then lo
    else
      var k := LastLoosest(ops, lo, hi - 1);
      if Priority(ops[hi - 1]) >= Priority(ops[k]) then hi - 1 else k
  }

  /** No operator is looser, and none behind it is as loose. */
  predicate IsLastLoosest(ops: seq<Op>, lo: nat, hi: nat, k: nat)
    requires hi <= |ops|
  {
    && lo <= k < hi
    && (forall i :: lo <= i < k ==> Priority(ops[i]) <= Priority(ops[k]))
    && (forall i :: k < i < hi ==> Priority(ops[i]) < Priority(ops[k]))
  }

  lemma {:induction false} LastLoosestIs(ops: seq<Op>, lo: nat, hi: nat)
    requires lo < hi <= |ops|
    ensures IsLastLoosest(ops, lo, hi, LastLoosest(ops, lo, hi))
  {
    if hi > lo + 1 { LastLoosestIs(ops, lo, hi - 1); }
  }

  lemma OneLastLoosest(ops: seq<Op>, lo: nat, hi: nat, k: nat)
    requires lo < hi <= |ops| && IsLastLoosest(ops, lo, hi, k)
    ensures LastLoosest(ops, lo, hi) == k
  {
    LastLoosestIs(ops, lo, hi);
  }

  /** The tree of operands `lo` to `hi`. */
  function Tree(ops: seq<Op>, lo: nat, hi: nat): (t: Expr)
    requires lo <= hi <= |ops|
    decreases hi - lo
  {
    if lo == hi then Leaf(lo)
    else
      var k := LastLoosest(ops, lo, hi);
      Bin(ops[k], Tree(ops, lo, k), Tree(ops, k + 1, hi))
  }

  lemma {:induction false} TreeFits(ops: seq<Op>, lo: nat, hi: nat)
    requires lo <= hi <= |ops|
    ensures First(Tree(ops, lo, hi)) == lo && Last(Tree(ops, lo, hi)) == hi
    ensures Covers(Tree(ops, lo, hi), ops) && Respects(Tree(ops, lo, hi))
    decreases hi - lo
  {
    if lo < hi {
      var k := LastLoosest(ops, lo, hi);
      LastLoosestIs(ops, lo, hi);
      TreeFits(ops, lo, k);
      TreeFits(ops, k + 1, hi);
      RootIsOneOf(ops, lo, k);
      RootIsOneOf(ops, k + 1, hi);
    }
  }

  lemma RootIsOneOf(ops: seq<Op>, lo: nat, hi: nat)
    requires lo <= hi <= |ops|
    ensures lo == hi ==> RootPriority(Tree(ops, lo, hi)) == 0
    ensures lo < hi ==> RootPriority(Tree(ops, lo, hi)) == Priority(ops[LastLoosest(ops, lo, hi)])
  {
  }

  lemma {:induction false} CoversInterval(t: Expr, ops: seq<Op>)
    requires Covers(t, ops)
    ensures First(t) <= Last(t) <= |ops|
    ensures t.Bin? ==> First(t) <= Last(t.left) < Last(t)
  {
    if t.Bin? {
      CoversInterval(t.left, ops);
      CoversInterval(t.right, ops);
    }
  }

  /** The root of a respecting tree is as loose as any of its operators. */
  lemma {:induction false} RootIsLoosest(t: Expr, ops: seq<Op>, i: nat)
    requires Covers(t, ops) && Respects(t) && First(t) <= i < Last(t)
    ensures i < |ops| && Priority(ops[i]) <= RootPriority(t)
  {
    CoversInterval(t, ops);
    if i < Last(t.left) { RootIsLoosest(t.left, ops, i); }
    else if i > Last(t.left) { RootIsLoosest(t.right, ops, i); }
  }

  /** There is only one respecting tree over an expression. */
  lemma {:induction false} RespectingTreeIsUnique(t: Expr, u: Expr, ops: seq<Op>)
    requires Covers(t, ops) && Respects(t) && Covers(u, ops) && Respects(u)
    requires First(t) == First(u) && Last(t) == Last(u)
    ensures t == u
  {
    CoversInterval(t, ops);
    CoversInterval(u, ops);
    if t.Bin? && u.Bin? {
      RootSplits(t, ops);
      RootSplits(u, ops);
      RespectingTreeIsUnique(t.left, u.left, ops);
      RespectingTreeIsUnique(t.right, u.right, ops);
    }
  }

  lemma RootSplits(t: Expr, ops: seq<Op>)
    requires Covers(t, ops) && Respects(t) && t.Bin?
    ensures First(t) <= Last(t.left) < Last(t) <= |ops| && LastLoosest(ops, First(t), Last(t)) == Last(t.left)
  {
    CoversInterval(t, ops);
    CoversInterval(t.left, ops);
    CoversInterval(t.right, ops);
    var lo, k, hi := First(t), Last(t.left), Last(t);
    forall i | lo <= i < k ensures Priority(ops[i]) <= Priority(ops[k]) { RootIsLoosest(t.left, ops, i); }
    forall i | k < i < hi ensures Priority(ops[i]) < Priority(ops[k]) { RootIsLoosest(t.right, ops, i); }
    OneLastLoosest(ops, lo, hi, k);
  }

  // ---------------------------------------------------------------- values

  /** What an operator makes of two integers. */
  type Operation = (Op, int, int) -> Option<int>

  /** The operation is the arithmetic of script integers. */
  ghost predicate IsArithmetic(apply: Operation) {
    forall op, a, b {:trigger Apply(op, a, b)} :: apply(op, a, b) == Apply(op, a, b)
  }

  /** Operands that are literals are integers of 64 bits. */
  predicate InRangeOrNone(x: Option<int>) { x.Some? ==> InRange(x.value) }

  /** The value of a tree over literal operands; none if an operand is no literal or an operator has no value. */
  function Eval(t: Expr, leaves: seq<Option<int>>, apply: Operation): Option<int> {
    match t
    case Leaf(i) => if i < |leaves| then leaves[i] else None
    case Bin(op, l, r) => Combine(op, Eval(l, leaves, apply), Eval(r, leaves, apply), apply)
  }

  function Combine(op: Op, a: Option<int>, b: Option<int>, apply: Operation): Option<int> {
    if a.Some? && b.Some? then apply(op, a.value, b.value) else None
  }

  lemma EvalNode(ops: seq<Op>, leaves: seq<Option<int>>, apply: Operation, lo: nat, hi: nat, k: nat)
    requires lo < hi <= |ops| && k == LastLoosest(ops, lo, hi)
    ensures Eval(Tree(ops, lo, hi), leaves, apply)
         == Combine(ops[k], Eval(Tree(ops, lo, k), leaves, apply), Eval(Tree(ops, k + 1, hi), leaves, apply), apply)
  {
  }
}

/** The operator-stack reducer for general expressions and the precedence climber for constants. */
module ExpressionParsers {
  import opened Collections
  import opened IntegerArithmetic
  import opened ExpressionTrees

  datatype Operand = Operand(tree: Expr, literal: Option<int>)

  predicate NoAssign(operators: seq<Op>) { forall i :: 0 <= i < |operators| ==> operators[i] != Assign }

  /** Folds an operator over two number literals; everything else is left to run time. */
  method TryFoldLiteralBinOp(a: Option<int>, op: Op, b: Option<int>) returns (folded: Option<int>)
    requires InRangeOrNone(a) && InRangeOrNone(b)
    ensures folded.Some? <==> a.Some? && b.Some? && Defined(op, a.value, b.value)
    ensures folded.Some? ==> Means(op, a.value, b.value, folded.value)
    ensures folded == if a.Some? && b.Some? then Apply(op, a.value, b.value) else None
  {
    if a.Some? && b.Some? { ApplyMeans(op, a.value, b.value); }
    if a.None? || b.None? { return None; }
    var x, y := a.value, b.value;
    match op {
      case Add => { return Some(Wrap(x + y)); }
      case Sub => { return Some(Wrap(x - y)); }
      case Mul => { return Some(Wrap(x * y)); }
      case Div => {
        if y == 0 || (x == INT_MIN && y == -1) { return None; }
        return Some(TruncDiv(x, y));
      }
      case Rem => {
        if y == 0 || (x == INT_MIN && y == -1) { return None; }
        return Some(TruncRem(x, y));
      }
      case Shl => {
        if y < 0 || y >= 64 { return None; }
        return Some(Wrap(x * Power2(y)));
      }
      case Shr => {
        if y < 0 || y >= 64 { return None; }
        return Some(x / Power2(y));
      }
      case Xor => { return Some(BitWise(Xor, x, y, 63)); }
      case And => { return Some(BitWise(And, x, y, 63)); }
      case Or => { return Some(BitWise(Or, x, y, 63)); }
      case _ => { return None; }
    }
  }

  // ---------------------------------------------------------------- the operator stack

  /** Operands cover the expression read so far without a gap, each between the operators beside it. */
  predicate Stacked(operands: seq<Operand>, operators: seq<Op>, ops: seq<Op>, leaves: seq<Option<int>>, apply: Operation) {
    && |operands| == |operators| + 1
    && First(operands[0].tree) == 0
    && (forall j :: 0 <= j < |operands| ==> OperandOk(operands[j], ops, leaves, apply))
    && (forall j :: 0 <= j < |operators| ==> Beside(operands, operators, ops, j))
  }

  predicate OperandOk(x: Operand, ops: seq<Op>, leaves: seq<Option<int>>, apply: Operation) {
    Covers(x.tree, ops) && Respects(x.tree) && x.literal == Eval(x.tree, leaves, apply) && InRangeOrNone(x.literal)
  }

  predicate Beside(operands: seq<Operand>, operators: seq<Op>, ops: seq<Op>, j: nat)
    requires j < |operators| && |operands| > j + 1
  {
    var l, r := operands[j].tree, operands[j + 1].tree;
    && Last(l) + 1 == First(r) && Last(l) < |ops| && ops[Last(l)] == operators[j]
    && RootPriority(l) <= Priority(operators[j]) && RootPriority(r) < Priority(operators[j])
  }

  /** Looser operators lie deeper; an assignment may lie on top of anything. */
  predicate Falling(operators: seq<Op>) {
    forall i, j :: 0 <= i < j < |operators| ==>
      Priority(operators[j]) < Priority(operators[i]) || (j == |operators| - 1 && operators[j] == Assign && operators[i] != Assign)
  }

  /** Merging at `f` the leftmost tightest operator keeps the stack in order. */
  lemma Merged(operands: seq<Operand>, operators: seq<Op>, ops: seq<Op>, leaves: seq<Option<int>>, apply: Operation, f: nat, literal: Option<int>)
    requires Stacked(operands, operators, ops, leaves, apply) && Falling(operators) && f < |operators|
    requires forall i :: 0 <= i < |operators| ==> Priority(operators[f]) <= Priority(operators[i])
    requires literal == Eval(Bin(operators[f], operands[f].tree, operands[f + 1].tree), leaves, apply) && InRangeOrNone(literal)
    ensures var merged := Operand(Bin(operators[f], operands[f].tree, operands[f + 1].tree), literal);
      && Stacked(RemoveAt(operands[f := merged], f + 1), RemoveAt(operators, f), ops, leaves, apply)
      && Falling(RemoveAt(operators, f))
      && Last(RemoveAt(operands[f := merged], f + 1)[|operators| - 1].tree) == Last(operands[|operators|].tree)
  {
    var merged := Operand(Bin(operators[f], operands[f].tree, operands[f + 1].tree), literal);
    var operands', operators' := RemoveAt(operands[f := merged], f + 1), RemoveAt(operators, f);
    assert forall j :: 0 <= j < |operands'| ==> operands'[j] == if j < f then operands[j] else if j == f then merged else operands[j + 1];
    assert Beside(operands, operators, ops, f);
    MergedFalling(operators, f);
    forall j | 0 <= j < |operators'| ensures Beside(operands', operators', ops, j) {
      assert Beside(operands, operators, ops, if j < f then j else j + 1);
      if j == f - 1 { TighterThanBelow(operators, f); }
    }
  }

  lemma TighterThanBelow(operators: seq<Op>, f: nat)
    requires Falling(operators) && 0 < f < |operators|
    requires forall i :: 0 <= i < |operators| ==> Priority(operators[f]) <= Priority(operators[i])
    ensures Priority(operators[f]) < Priority(operators[f - 1])
  {
  }

  lemma MergedFalling(operators: seq<Op>, f: nat)
    requires Falling(operators) && f < |operators|
    ensures Falling(RemoveAt(operators, f))
    ensures forall j :: 0 <= j < |operators| - 1 ==> RemoveAt(operators, f)[j] == operators[if j < f then j else j + 1]
  {
  }

  class ExpressionJob {
    var operands: seq<Operand>
    var operators: seq<Op>
    ghost var ops: seq<Op>
    ghost var leaves: seq<Option<int>>
    const apply: Operation

    constructor ()
      ensures IsArithmetic(apply)
    {
      apply := Apply;
      operands, operators := [], [];
    }

    /** The stacks are in order and reach up to operand `last`. */
    ghost predicate Reached(last: nat)
      reads this
    {
      && Stacked(operands, operators, ops, leaves, apply) && Falling(operators) && Last(operands[|operators|].tree) == last
      && IsArithmetic(apply)
    }

    /** The tree on top of the stack. */
    ghost function Top(): Expr
      requires |operands| == |operators| + 1
      reads this
    {
      operands[|operators|].tree
    }

    /** The leftmost of the tightest operators. */
    method FindTightest() returns (find: nat, priority: nat)
      requires operators != []
      ensures find < |operators| && priority == Priority(operators[find])
      ensures forall i :: 0 <= i < |operators| ==> priority <= Priority(operators[i])
      ensures forall i :: 0 <= i < find ==> priority < Priority(operators[i])
    {
      find, priority := 0, 100;
      for i := 0 to |operators|
        invariant find <= i && (i > 0 ==> find < i) && priority == (if i > 0 then Priority(operators[find]) else 100)
        invariant i > 0 ==> priority == Priority(operators[find])
        invariant forall j :: 0 <= j < i ==> priority <= Priority(operators[j])
        invariant forall j :: 0 <= j < find ==> priority < Priority(operators[j])
      {
        if i == 0 || priority > Priority(operators[i]) {
          find, priority := i, Priority(operators[i]);
        }
      }
    }

    /** Merges the two operands beside operator `find`, folding number literals. */
    method MergeAt(find: nat, ghost last: nat)
      requires Reached(last) && find < |operators|
      requires forall i :: 0 <= i < |operators| ==> Priority(operators[find]) <= Priority(operators[i])
      modifies this`operands, this`operators
      ensures Reached(last) && operators == RemoveAt(old(operators), find)
      ensures RootPriority(Top()) <= RootPriority(old(Top())) || RootPriority(Top()) == Priority(old(operators)[find])
    {
      var op := operators[find];
      var a, b := operands[find], operands[find + 1];
      var literal := FoldAt(find, a, b);
      Merged(operands, operators, ops, leaves, apply, find, literal);
      operators := RemoveAt(operators, find);
      operands := RemoveAt(operands[find := Operand(Bin(op, a.tree, b.tree), literal)], find + 1);
    }

    method FoldAt(find: nat, a: Operand, b: Operand) returns (literal: Option<int>)
      requires Stacked(operands, operators, ops, leaves, apply) && find < |operators| && a == operands[find] && b == operands[find + 1]
      requires IsArithmetic(apply)
      ensures literal == Eval(Bin(operators[find], a.tree, b.tree), leaves, apply) && InRangeOrNone(literal)
    {
      assert OperandOk(operands[find], ops, leaves, apply) && OperandOk(operands[find + 1], ops, leaves, apply);
      literal := TryFoldLiteralBinOp(a.literal, operators[find], b.literal);
    }

    /** Merges every operator at least as tight as `maximumPriority`, tightest first. */
    method Reduce(maximumPriority: nat, ghost last: nat)
      requires Reached(last) && RootPriority(Top()) <= maximumPriority
      modifies this`operands, this`operators
      ensures Reached(last) && RootPriority(Top()) <= maximumPriority
      ensures forall i :: 0 <= i < |operators| ==> Priority(operators[i]) > maximumPriority
      ensures NoAssign(old(operators)) ==> NoAssign(operators)
      ensures maximumPriority >= 15 ==> operators == []
    {
      while operators != []
        invariant Reached(last) && RootPriority(Top()) <= maximumPriority
        invariant NoAssign(old(operators)) ==> NoAssign(operators)
        decreases |operators|
      {
        var find, priority := FindTightest();
        if priority > maximumPriority { return; }
        MergeAt(find, last);
      }
    }

    /** Pushes an operator and the operand behind it. */
    method Push(op: Op, operand: Operand, ghost last: nat)
      requires Reached(last) && last < |ops| && ops[last] == op && operand.tree == Leaf(last + 1) && OperandOk(operand, ops, leaves, apply)
      requires RootPriority(Top()) <= Priority(op)
      requires op == Assign || forall i :: 0 <= i < |operators| ==> Priority(operators[i]) > Priority(op)
      requires NoAssign(operators)
      modifies this`operands, this`operators
      ensures Reached(last + 1) && Top() == Leaf(last + 1)
      ensures operators == old(operators) + [op]
    {
      ghost var xs, os := operands, operators;
      operators := operators + [op];
      operands := operands + [operand];
      forall j | 0 <= j < |operators| ensures Beside(operands, operators, ops, j) {
        if j < |os| { assert Beside(xs, os, ops, j); }
      }
    }

    /** Parses a flat expression in which an assignment can only be the last operator. The tree is the one
        precedence and left associativity give; its literal value is known exactly when the tree has one. */
    method Parse(source: seq<Op>, values: seq<Option<int>>) returns (result: Operand)
      requires |values| == |source| + 1 && forall i :: 0 <= i < |source| - 1 ==> source[i] != Assign
      requires IsArithmetic(apply) && forall i :: 0 <= i < |values| ==> InRangeOrNone(values[i])
      modifies this
      ensures result.tree == Tree(source, 0, |source|) && result.literal == Eval(result.tree, values, apply)
    {
      ops, leaves := source, values;
      operands, operators := [Operand(Leaf(0), values[0])], [];
      for i := 0 to |source|
        invariant ops == source && leaves == values && Reached(i) && Top() == Leaf(i)
        invariant i < |source| ==> NoAssign(operators)
      {
        var op := source[i];
        if op != Assign { ReduceBelow(op, i); }
        Push(op, Operand(Leaf(i + 1), values[i + 1]), i);
      }
      Reduce(100, |source|);
      assert OperandOk(operands[0], ops, leaves, apply);
      TreeFits(ops, 0, |source|);
      RespectingTreeIsUnique(operands[0].tree, Tree(ops, 0, |source|), ops);
      return operands[0];
    }

    /** Before an operator is pushed, everything at least as tight is merged. */
    method ReduceBelow(op: Op, ghost last: nat)
      requires Reached(last) && Top().Leaf? && op != Assign && NoAssign(operators)
      modifies this`operands, this`operators
      ensures Reached(last) && RootPriority(Top()) <= Priority(op)
      ensures NoAssign(operators) && forall i :: 0 <= i < |operators| ==> Priority(operators[i]) > Priority(op)
    {
      Reduce(Priority(op), last);
    }
  }

  // ---------------------------------------------------------------- the constant parser

  /** Binding strength in constant expressions: a higher number binds tighter, zero is no operator there. */
  function ConstBinOpPrec(op: Op): nat {
    match op
    case Add => 5 case Sub => 5
    case Mul => 6 case Div => 6 case Rem => 6
    case Xor => 2
    case Shl => 4 case Shr => 4
    case And => 3
    case Or => 1
    case _ => 0
  }

  /** The two tables order the shared operators alike. */
  lemma TablesAgree(a: Op, b: Op)
    requires ConstBinOpPrec(a) > 0 && ConstBinOpPrec(b) > 0
    ensures ConstBinOpPrec(a) > ConstBinOpPrec(b) <==> Priority(a) < Priority(b)
  {
  }

  method EvalConstBinOp(a: int, op: Op, b: int) returns (r: Option<int>)
    requires ConstBinOpPrec(op) > 0 && InRange(a) && InRange(b)
    ensures r.Some? <==> Defined(op, a, b)
    ensures r.Some? ==> Means(op, a, b, r.value)
    ensures r == Apply(op, a, b)
  {
    ApplyMeans(op, a, b);
    if op == Add || op == Sub || op == Mul {
      return Some(if op == Add then Wrap(a + b) else if op == Sub then Wrap(a - b) else Wrap(a * b));
    }
    if op == Div || op == Rem {
      if b == 0 { return None; }
      if a == INT_MIN && b == -1 { return None; }
      return Some(if op == Div then TruncDiv(a, b) else TruncRem(a, b));
    }
    if (op == Shl || op == Shr) && !(0 <= b < 64) { return None; }
    return Some(if op == Xor then BitWise(Xor, a, b, 63)
                else if op == Shl then Wrap(a * Power2(b))
                else if op == Shr then a / Power2(b)
                else if op == And then BitWise(And, a, b, 63)
                else BitWise(Or, a, b, 63));
  }

  /** Where a constant expression that started at operand `lo` ends. */
  function Extent(ops: seq<Op>, lo: nat, minPrec: nat): (hi: nat)
    requires lo <= |ops|
    ensures lo <= hi <= |ops|
    decreases |ops| - lo
  {
    if lo == |ops| || ConstBinOpPrec(ops[lo]) == 0 || ConstBinOpPrec(ops[lo]) < minPrec then lo
    else Extent(ops, lo + 1, minPrec)
  }

  lemma {:induction false} ExtentIs(ops: seq<Op>, lo: nat, minPrec: nat, hi: nat)
    requires lo <= |ops| && hi == Extent(ops, lo, minPrec)
    ensures forall i :: lo <= i < hi ==> ConstBinOpPrec(ops[i]) > 0 && ConstBinOpPrec(ops[i]) >= minPrec
    ensures hi < |ops| ==> ConstBinOpPrec(ops[hi]) == 0 || ConstBinOpPrec(ops[hi]) < minPrec
    decreases |ops| - lo
  {
    if lo < hi { ExtentIs(ops, lo + 1, minPrec, hi); }
  }

  /** Every operator before `cur` binds at least as tight as the one at `cur`. */
  predicate Climbing(ops: seq<Op>, lo: nat, cur: nat, hi: nat)
    requires lo <= cur <= hi <= |ops|
  {
    cur < hi ==> forall i :: lo <= i < cur ==> Priority(ops[i]) <= Priority(ops[cur])
  }

  /** What the loop appends is the root of the longer tree. */
  lemma RootAtCursor(ops: seq<Op>, lo: nat, cur: nat, next: nat, hi: nat, minPrec: nat)
    requires lo <= cur < hi <= |ops| && hi == Extent(ops, lo, minPrec) && Climbing(ops, lo, cur, hi)
    requires next == Extent(ops, cur + 1, ConstBinOpPrec(ops[cur]) + 1)
    ensures cur < next <= hi && LastLoosest(ops, lo, next) == cur && Climbing(ops, lo, next, hi)
  {
    ExtentIs(ops, lo, minPrec, hi);
    ExtentIs(ops, cur + 1, ConstBinOpPrec(ops[cur]) + 1, next);
    forall i | cur < i < next && i < hi ensures Priority(ops[i]) < Priority(ops[cur]) { TablesAgree(ops[i], ops[cur]); }
    OneLastLoosest(ops, lo, next, cur);
    if next < hi { TablesAgree(ops[cur], ops[next]); }
  }

  /** The tree up to a point where the parser climbs back is a part of every longer tree. */
  lemma {:induction false} FailureSpreads(ops: seq<Op>, values: seq<Option<int>>, apply: Operation, lo: nat, cur: nat, hi: nat, end: nat)
    requires lo <= cur <= hi <= end <= |ops| && Climbing(ops, lo, cur, end) && Eval(Tree(ops, lo, cur), values, apply) == None
    ensures Eval(Tree(ops, lo, hi), values, apply) == None
    decreases hi
  {
    if cur < hi {
      var k := LastLoosest(ops, lo, hi);
      LastLoosestIs(ops, lo, hi);
      EvalNode(ops, values, apply, lo, hi, k);
      FailureSpreads(ops, values, apply, lo, cur, k, end);
    }
  }

  /** The operands from `lo` to `at` are parsed, of those up to `hi`, and their tree has the value `out`. */
  ghost predicate Parsed(ops: seq<Op>, values: seq<Option<int>>, apply: Operation, lo: nat, at: nat, hi: nat, out: Option<int>) {
    lo <= at <= hi <= |ops| && Climbing(ops, lo, at, hi) && out == Eval(Tree(ops, lo, at), values, apply)
  }

  /** One turn of the loop: the value of the longer tree, and what its failure means for the whole. */
  lemma OneOperator(ops: seq<Op>, values: seq<Option<int>>, apply: Operation, lo: nat, cur: nat, next: nat, hi: nat, minPrec: nat,
                    left: Option<int>, right: Option<int>)
    requires Parsed(ops, values, apply, lo, cur, hi, left) && cur < hi && hi == Extent(ops, lo, minPrec)
    requires next == Extent(ops, cur + 1, ConstBinOpPrec(ops[cur]) + 1) && right == Eval(Tree(ops, cur + 1, next), values, apply)
    ensures cur < next <= hi && Parsed(ops, values, apply, lo, next, hi, Combine(ops[cur], left, right, apply))
    ensures Combine(ops[cur], left, right, apply).None? ==> Eval(Tree(ops, lo, hi), values, apply).None?
  {
    RootAtCursor(ops, lo, cur, next, hi, minPrec);
    EvalNode(ops, values, apply, lo, next, cur);
    if Eval(Tree(ops, lo, next), values, apply).None? { FailureSpreads(ops, values, apply, lo, next, hi, hi); }
  }

  class ConstJob {
    const ops: seq<Op>
    const values: seq<Option<int>>
    const apply: Operation
    var at: nat

    constructor (ops: seq<Op>, values: seq<Option<int>>)
      requires |values| == |ops| + 1 && forall i :: 0 <= i < |values| ==> InRangeOrNone(values[i])
      ensures this.ops == ops && this.values == values && at == 0 && Literals() && IsArithmetic(apply)
    {
      this.ops, this.values, apply, at := ops, values, Apply, 0;
    }

    ghost predicate Literals() {
      |values| == |ops| + 1 && (forall i :: 0 <= i < |values| ==> InRangeOrNone(values[i]))
    }

    /** Precedence climbing: reads the operands from `at` on for as long as the operators bind at least as
        tight as `minPrec`. It succeeds exactly when the one respecting tree over them has a value. */
    method ParseConstExpr(minPrec: nat) returns (out: Option<int>)
      requires Literals() && IsArithmetic(apply) && at <= |ops|
      modifies this`at
      ensures InRangeOrNone(out)
      ensures out == Eval(Tree(ops, old(at), Extent(ops, old(at), minPrec)), values, apply)
      ensures out.Some? ==> at == Extent(ops, old(at), minPrec)
      decreases |ops| - at, 1
    {
      ghost var lo := at;
      ghost var hi := Extent(ops, lo, minPrec);
      ExtentIs(ops, lo, minPrec, hi);
      out := values[at];
      if out.None? {
        FailureSpreads(ops, values, apply, lo, lo, hi, hi);
        return;
      }
      while at < |ops|
        invariant out.Some? && Parsed(ops, values, apply, lo, at, hi, out) && InRangeOrNone(out)
        decreases |ops| - at
      {
        var op := ops[at];
        var prec := ConstBinOpPrec(op);
        if prec == 0 || prec < minPrec { return; }
        out := ParseRightSide(out.value, lo, hi, minPrec);
        if out.None? { return; }
      }
    }

    /** Reads the operator at `at` and its right side, and applies it. */
    method ParseRightSide(left: int, ghost lo: nat, ghost hi: nat, ghost minPrec: nat) returns (out: Option<int>)
      requires Literals() && IsArithmetic(apply) && Parsed(ops, values, apply, lo, at, hi, Some(left)) && InRange(left)
      requires at < hi == Extent(ops, lo, minPrec)
      modifies this`at
      ensures out.Some? ==> old(at) < at && Parsed(ops, values, apply, lo, at, hi, out)
      ensures out.None? ==> Eval(Tree(ops, lo, hi), values, apply).None?
      ensures InRangeOrNone(out)
      decreases |ops| - at, 0
    {
      var op := ops[at];
      ghost var cur := at;
      at := at + 1;
      var rhs := ParseConstExpr(ConstBinOpPrec(op) + 1);
      OneOperator(ops, values, apply, lo, cur, Extent(ops, cur + 1, ConstBinOpPrec(op) + 1), hi, minPrec, Some(left), rhs);
      if rhs.None? { return None; }
      ExtentIs(ops, lo, minPrec, hi);
      out := EvalConstBinOp(left, op, rhs.value);
    }
  }

  /** Both parsers give a flat expression over the shared operators the same tree and, if its operands are integer
      literals, the same value. */
  method BothParsersAgree(ops: seq<Op>, values: seq<Option<int>>) returns (general: Operand, constant: Option<int>)
    requires |values| == |ops| + 1 && forall i :: 0 <= i < |ops| ==> ConstBinOpPrec(ops[i]) > 0
    requires forall i :: 0 <= i < |values| ==> InRangeOrNone(values[i])
    ensures general.tree == Tree(ops, 0, |ops|) && general.literal == constant == Value(Tree(ops, 0, |ops|), values)
  {
    ghost var tree, hi := Tree(ops, 0, |ops|), Extent(ops, 0, 0);
    ExtentIs(ops, 0, 0, hi);
    var job := new ExpressionJob();
    general := job.Parse(ops, values);
    ArithmeticValue(tree, values, job.apply, general.literal);
    var climber := new ConstJob(ops, values);
    constant := climber.ParseConstExpr(0);
    ArithmeticValue(tree, values, climber.apply, constant);
  }

  /** The value of a tree in the arithmetic of script integers. */
  function Value(t: Expr, values: seq<Option<int>>): Option<int> { Eval(t, values, Apply) }

  lemma ArithmeticValue(t: Expr, values: seq<Option<int>>, f: Operation, value: Option<int>)
    requires IsArithmetic(f) && value == Eval(t, values, f)
    ensures value == Value(t, values)
  {
    ApplyIsArithmetic();
    SameArithmetic(t, values, f, Apply);
  }

  lemma ApplyIsArithmetic()
    ensures IsArithmetic(Apply)
  {
  }

  lemma {:induction false} SameArithmetic(t: Expr, values: seq<Option<int>>, f: Operation, g: Operation)
    requires IsArithmetic(f) && IsArithmetic(g)
    ensures Eval(t, values, f) == Eval(t, values, g)
  {
    match t
    case Leaf(_) =>
    case Bin(op, l, r) =>
      SameArithmetic(l, values, f, g);
      SameArithmetic(r, values, f, g);
      var a, b := Eval(l, values, f), Eval(r, values, f);
      if a.Some? && b.Some? { SameValue(op, a.value, b.value, f, g); }
  }

  lemma SameValue(op: Op, a: int, b: int, f: Operation, g: Operation)
    requires IsArithmetic(f) && IsArithmetic(g)
    ensures f(op, a, b) == g(op, a, b)
  {
    assert f(op, a, b) == Apply(op, a, b);
  }
}
