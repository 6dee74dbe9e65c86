/** The operators of expressions, and what the arithmetic ones do to script integers: 64 bits, two's complement,
    wrapping, division toward zero. */
module IntegerArithmetic {
  import opened Collections

  datatype Op = Mul | Div | Rem | Add | Sub | Shl | Shr | Concat | Relational | Equality | And | Xor | Or | Assign

  const INT_MIN: int := -0x8000_0000_0000_0000
  const TWO64: int := 0x1_0000_0000_0000_0000

  predicate InRange(x: int) { INT_MIN <= x < -INT_MIN }

  /** The 64-bit two's complement number with the same low bits. */
  function Wrap(x: int): (r: int)
    ensures InRange(r)
  {
    (x - INT_MIN) % TWO64 + INT_MIN
  }

  /** Division and remainder that round toward zero. */
  function TruncDiv(a: int, b: int): int
    requires b != 0
  {
    if a >= 0 then (if b > 0 then a / b else -(a / (-b))) else if b > 0 then -((-a) / b) else (-a) / (-b)
  }

  function TruncRem(a: int, b: int): int
    requires b != 0
  {
    a - TruncDiv(a, b) * b
  }

  function Power2(n: nat): (r: nat)
    ensures r > 0
  {
    if n == 0 then 1 else 2 * Power2(n - 1)
  }

  /** The bits of two numbers combined place by place, from the sign bit down. */
  function BitWise(op: Op, a: int, b: int, places: nat): int
    decreases places
  {
    if places == 0 then -Digit(Joined(op, a < 0, b < 0))
    else 2 * BitWise(op, a / 2, b / 2, places - 1) + Digit(Joined(op, a % 2 == 1, b % 2 == 1))
  }

  function Digit(bit: bool): int { if bit then 1 else 0 }

  function Joined(op: Op, a: bool, b: bool): bool {
    match op case And => a && b case Or => a || b case Xor => a != b case _ => false
  }

  /** The value of one operator on integers where it has one. */
  function Apply(op: Op, a: int, b: int): Option<int> {
    match op
    case Mul => Some(Wrap(a * b))
    case Add => Some(Wrap(a + b))
    case Sub => Some(Wrap(a - b))
    case Div => if b == 0 || (a == INT_MIN && b == -1) then None else Some(TruncDiv(a, b))
    case Rem => if b == 0 || (a == INT_MIN && b == -1) then None else Some(TruncRem(a, b))
    case Shl => if 0 <= b < 64 then Some(Wrap(a * Power2(b))) else None
    case Shr => if 0 <= b < 64 then Some(a / Power2(b)) else None
    case And => Some(BitWise(And, a, b, 63))
    case Xor => Some(BitWise(Xor, a, b, 63))
    case Or => Some(BitWise(Or, a, b, 63))
    case _ => None
  }

  // ---------------------------------------------------------------- what the operators mean

  /** Same low 64 bits. */
  predicate Congruent(x: int, y: int) { (x - y) % TWO64 == 0 }

  /** Bit `k` of a two's complement number. */
  predicate Bit(x: int, k: nat)
    decreases k
  {
    if k == 0 then x % 2 == 1 else Bit(x / 2, k - 1)
  }

  function Abs(x: int): nat { if x < 0 then -x else x }

  /** `q` and `r` are quotient and remainder of a division toward zero: the remainder has the dividend's sign. */
  predicate Divides(a: int, b: int, q: int, r: int) {
    a == q * b + r && Abs(r) < Abs(b) && (r == 0 || (r < 0 <==> a < 0))
  }

  /** When an operator has a value at all. */
  predicate Defined(op: Op, a: int, b: int) {
    match op
    case Div => b != 0 && !(a == INT_MIN && b == -1)
    case Rem => b != 0 && !(a == INT_MIN && b == -1)
    case Shl => 0 <= b < 64
    case Shr => 0 <= b < 64
    case _ => op == Mul || op == Add || op == Sub || op == And || op == Xor || op == Or
  }

  /** What the value of an operator is, by its meaning rather than by how it is computed. */
  ghost predicate Means(op: Op, a: int, b: int, r: int)
    requires Defined(op, a, b)
  {
    InRange(r) &&
    match op
    case Mul => Congruent(r, a * b)
    case Add => Congruent(r, a + b)
    case Sub => Congruent(r, a - b)
    case Div => Divides(a, b, r, a - r * b)
    case Rem => exists q: int :: Divides(a, b, q, r)
    case Shl => Congruent(r, a * Power2(b))
    case Shr => r * Power2(b) <= a < r * Power2(b) + Power2(b)
    case And => forall k: nat :: k < 64 ==> (Bit(r, k) <==> Bit(a, k) && Bit(b, k))
    case Or => forall k: nat :: k < 64 ==> (Bit(r, k) <==> Bit(a, k) || Bit(b, k))
    case Xor => forall k: nat :: k < 64 ==> (Bit(r, k) <==> Bit(a, k) != Bit(b, k))
  }

  /** A bit is a digit of the number written in powers of two. */
  lemma {:induction false} BitIsDigit(x: int, k: nat)
    ensures Bit(x, k) <==> (x / Power2(k)) % 2 == 1
    decreases k
  {
    if k > 0 {
      BitIsDigit(x / 2, k - 1);
      HalvedFirst(x, Power2(k - 1));
    }
  }

  lemma HalvedFirst(x: int, p: nat)
    requires p > 0
    ensures x / (2 * p) == (x / 2) / p
  {
    var q := (x / 2) / p;
    var r := x / 2 - q * p;
    assert 0 <= r < p by { assert x / 2 == q * p + (x / 2) % p; }
    assert x == q * (2 * p) + (2 * r + x % 2) && 0 <= 2 * r + x % 2 < 2 * p;
    OneQuotient(x, 2 * p, x / (2 * p), q);
  }

  /** What the bit operators have to do with each other and with sums. */
  lemma {:induction false} BitsSum(a: int, b: int, places: nat)
    requires Fits(a, places) && Fits(b, places)
    ensures BitWise(And, a, b, places) + BitWise(Or, a, b, places) == a + b
    ensures BitWise(Or, a, b, places) - BitWise(And, a, b, places) == BitWise(Xor, a, b, places)
    decreases places
  {
    if places > 0 { BitsSum(a / 2, b / 2, places - 1); }
  }

  lemma WrapIsCongruent(x: int)
    ensures Congruent(Wrap(x), x)
  {
  }

  lemma TruncDivides(a: int, b: int)
    requires b != 0
    ensures Divides(a, b, TruncDiv(a, b), TruncRem(a, b))
  {
    var q := Quotient(Abs(a), Abs(b));
    Signs(q, b);
  }

  /** Division of numbers without a sign. */
  lemma Quotient(n: nat, d: nat) returns (q: nat)
    requires d > 0
    ensures q == n / d && 0 <= n - q * d < d
  {
    q := n / d;
    assert n == q * d + n % d;
  }

  lemma Signs(x: int, y: int)
    ensures (-x) * y == -(x * y) && x * (-y) == -(x * y)
  {
  }

  lemma QuotientInRange(a: int, b: int, q: int, r: int)
    requires InRange(a) && b != 0 && !(a == INT_MIN && b == -1) && Divides(a, b, q, r)
    ensures InRange(q)
  {
    if b == 1 || b == -1 {
      assert r == 0;
    } else {
      assert Abs(q) * 2 <= Abs(q) * Abs(b) by { MulAtLeast(Abs(q), 2, Abs(b)); }
      SameSize(q, b);
      assert Abs(q * b) <= Abs(a) by { ProductBelow(a, b, q, r); }
    }
  }

  lemma MulAtLeast(x: nat, y: nat, z: nat)
    requires y <= z
    ensures x * y <= x * z
  {
  }

  lemma SameSize(x: int, y: int)
    ensures Abs(x * y) == Abs(x) * Abs(y)
  {
  }

  lemma ProductBelow(a: int, b: int, q: int, r: int)
    requires Divides(a, b, q, r)
    ensures Abs(q * b) <= Abs(a)
  {
    SameSize(q, b);
    if q != 0 { MulAtLeast(Abs(b), 1, Abs(q)); }
  }

  /** A number of `places` bits beside the sign. */
  predicate Fits(x: int, places: nat) {
    var p: int := Power2(places);
    -p <= x < p
  }

  lemma {:induction false} BitWiseJoins(op: Op, a: int, b: int, places: nat, k: nat)
    requires op == And || op == Or || op == Xor
    requires Fits(a, places) && Fits(b, places)
    ensures Fits(BitWise(op, a, b, places), places)
    ensures op == And ==> (Bit(BitWise(op, a, b, places), k) <==> Bit(a, k) && Bit(b, k))
    ensures op == Or ==> (Bit(BitWise(op, a, b, places), k) <==> Bit(a, k) || Bit(b, k))
    ensures op == Xor ==> (Bit(BitWise(op, a, b, places), k) <==> Bit(a, k) != Bit(b, k))
    decreases places, k
  {
    if places == 0 {
      SignBits(a, k);
      SignBits(b, k);
      SignBits(BitWise(op, a, b, 0), k);
    } else {
      BitWiseJoins(op, a / 2, b / 2, places - 1, if k > 0 then k - 1 else 0);
    }
  }

  lemma {:induction false} SignBits(x: int, k: nat)
    requires x == 0 || x == -1
    ensures Bit(x, k) <==> x == -1
  {
    if k > 0 { SignBits(x / 2, k - 1); }
  }

  lemma {:induction false} BitsDetermine(x: int, y: int, places: nat)
    requires Fits(x, places) && Fits(y, places)
    requires forall k: nat :: k <= places ==> (Bit(x, k) <==> Bit(y, k))
    ensures x == y
    decreases places
  {
    assert Bit(x, 0) <==> Bit(y, 0);
    if places > 0 {
      forall k: nat | k <= places - 1 ensures Bit(x / 2, k) <==> Bit(y / 2, k) { assert Bit(x, k + 1) <==> Bit(y, k + 1); }
      BitsDetermine(x / 2, y / 2, places - 1);
    }
  }

  lemma Power63()
    ensures Power2(63) == -INT_MIN
  {
    assert Power2(8) == 256;
    assert Power2(16) == 0x1_0000;
    assert Power2(24) == 0x100_0000;
    assert Power2(32) == 0x1_0000_0000;
    assert Power2(40) == 0x100_0000_0000;
    assert Power2(48) == 0x1_0000_0000_0000;
    assert Power2(56) == 0x100_0000_0000_0000;
  }

  lemma ShiftedInRange(a: int, p: nat)
    requires InRange(a) && p > 0
    ensures InRange(a / p) && (a / p) * p <= a < (a / p) * p + p
  {
    assert a == (a / p) * p + a % p;
  }

  /** The operators compute what they mean. */
  lemma ApplyMeans(op: Op, a: int, b: int)
    requires InRange(a) && InRange(b)
    ensures Apply(op, a, b).Some? <==> Defined(op, a, b)
    ensures Defined(op, a, b) ==> Means(op, a, b, Apply(op, a, b).value)
  {
    match op
    case Mul => WrapIsCongruent(a * b);
    case Add => WrapIsCongruent(a + b);
    case Sub => WrapIsCongruent(a - b);
    case Div => if Defined(op, a, b) { DivisionMeans(a, b); }
    case Rem => if Defined(op, a, b) { DivisionMeans(a, b); }
    case Shl => if Defined(op, a, b) { WrapIsCongruent(a * Power2(b)); }
    case Shr => if Defined(op, a, b) { ShiftedInRange(a, Power2(b)); }
    case And => BitsMean(And, a, b);
    case Xor => BitsMean(Xor, a, b);
    case Or => BitsMean(Or, a, b);
    case _ =>
  }

  lemma DivisionMeans(a: int, b: int)
    requires InRange(a) && InRange(b) && Defined(Div, a, b)
    ensures Means(Div, a, b, TruncDiv(a, b)) && Means(Rem, a, b, TruncRem(a, b))
  {
    TruncDivides(a, b);
    QuotientInRange(a, b, TruncDiv(a, b), TruncRem(a, b));
  }

  lemma BitsMean(op: Op, a: int, b: int)
    requires InRange(a) && InRange(b) && (op == And || op == Or || op == Xor)
    ensures Means(op, a, b, BitWise(op, a, b, 63))
  {
    Power63();
    BitWiseJoins(op, a, b, 63, 0);
    var r := BitWise(op, a, b, 63);
    forall k: nat | k < 64
      ensures op == And ==> (Bit(r, k) <==> Bit(a, k) && Bit(b, k))
      ensures op == Or ==> (Bit(r, k) <==> Bit(a, k) || Bit(b, k))
      ensures op == Xor ==> (Bit(r, k) <==> Bit(a, k) != Bit(b, k))
    {
      BitWiseJoins(op, a, b, 63, k);
    }
  }

  /** The meaning leaves only one value. */
  lemma OneMeaning(op: Op, a: int, b: int, r: int, q: int)
    requires Defined(op, a, b) && Means(op, a, b, r) && Means(op, a, b, q)
    ensures r == q
  {
    match op
    case Mul => OneCongruent(a * b, r, q);
    case Add => OneCongruent(a + b, r, q);
    case Sub => OneCongruent(a - b, r, q);
    case Div => OneDivision(a, b, r, a - r * b, q, a - q * b);
    case Rem => OneRemainder(a, b, r, q);
    case Shl => OneCongruent(a * Power2(b), r, q);
    case Shr => OneQuotient(a, Power2(b), r, q);
    case _ => OneBits(r, q);
  }

  lemma OneCongruent(x: int, r: int, q: int)
    requires InRange(r) && InRange(q) && Congruent(r, x) && Congruent(q, x)
    ensures r == q
  {
  }

  lemma OneBits(r: int, q: int)
    requires InRange(r) && InRange(q) && forall k: nat :: k < 64 ==> (Bit(r, k) <==> Bit(q, k))
    ensures r == q
  {
    Power63();
    BitsDetermine(r, q, 63);
  }

  lemma OneRemainder(a: int, b: int, r: int, q: int)
    requires (exists x: int :: Divides(a, b, x, r)) && exists y: int :: Divides(a, b, y, q)
    ensures r == q
  {
    var x: int :| Divides(a, b, x, r);
    var y: int :| Divides(a, b, y, q);
    OneDivision(a, b, x, r, y, q);
  }

  lemma OneDivision(a: int, b: int, q: int, r: int, q': int, r': int)
    requires Divides(a, b, q, r) && Divides(a, b, q', r')
    ensures q == q' && r == r'
  {
    Apart(q, q', b);
    assert Abs(r' - r) < Abs(b);
    SmallMultiple(Abs(q - q'), Abs(b));
  }

  lemma OneQuotient(a: int, p: nat, q: int, q': int)
    requires p > 0 && q * p <= a < q * p + p && q' * p <= a < q' * p + p
    ensures q == q'
  {
    Apart(q, q', p);
    SmallMultiple(Abs(q - q'), p);
  }

  lemma Apart(x: int, y: int, z: int)
    ensures Abs(x * z - y * z) == Abs(x - y) * Abs(z)
  {
    assert (x - y) * z == x * z - y * z;
    SameSize(x - y, z);
  }

  lemma SmallMultiple(x: nat, y: nat)
    requires x * y < y
    ensures x == 0
  {
    if x >= 1 { MulAtLeast(y, 1, x); }
  }
}
