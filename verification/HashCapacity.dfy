/** The capacities of the hash tables and the mask that picks a slot. */
module HashCapacity {

  const MAX_HASH_CAPACITY: nat := 0x4000_0000
  const MAX_HASH_ITEMS: nat := MAX_HASH_CAPACITY / 4 * 3

  predicate PowerOfTwo(n: nat) { n == 1 || (n > 1 && n % 2 == 0 && PowerOfTwo(n / 2)) }

  /** Bitwise conjunction of two unsigned numbers. */
  function BitAnd(a: nat, b: nat): nat {
    if a == 0 || b == 0 then 0 else 2 * BitAnd(a / 2, b / 2) + (if a % 2 == 1 && b % 2 == 1 then 1 else 0)
  }

  /** Masking with a power of two less one is the remainder by that power. */
  lemma {:induction false} MaskIsRemainder(h: nat, n: nat)
    requires PowerOfTwo(n)
    ensures BitAnd(h, n - 1) == h % n
  {
    if n == 1 || h == 0 {
      assert h % 1 == 0;
    } else {
      MaskIsRemainder(h / 2, n / 2);
      HalfRemainder(h, n);
      HalfMask(h, n);
    }
  }

  lemma HalfMask(h: nat, n: nat)
    requires n > 1 && n % 2 == 0 && h > 0
    ensures BitAnd(h, n - 1) == 2 * BitAnd(h / 2, n / 2 - 1) + h % 2
  {
    var k := n / 2;
    HalfOdd(k);
    AndOdd(h, 2 * k - 1, k - 1);
  }

  lemma AndOdd(a: nat, b: nat, half: nat)
    requires a > 0 && b % 2 == 1 && b / 2 == half
    ensures BitAnd(a, b) == 2 * BitAnd(a / 2, half) + a % 2
  {
  }

  lemma HalfOdd(k: nat)
    requires k > 0
    ensures (2 * k - 1) / 2 == k - 1 && (2 * k - 1) % 2 == 1
  {
  }

  /** Masking the successor of a slot wraps around the end. */
  lemma MaskedSuccessor(i: nat, n: nat)
    requires PowerOfTwo(n) && i < n
    ensures BitAnd(i + 1, n - 1) == if i + 1 == n then 0 else i + 1
  {
    var next := i + 1;
    MaskIsRemainder(next, n);
    if next == n { RemainderIs(next, n, 1, 0); } else { RemainderIs(next, n, 0, next); }
  }

  lemma HalfRemainder(h: nat, n: nat)
    requires n > 1 && n % 2 == 0
    ensures h % n == 2 * ((h / 2) % (n / 2)) + h % 2
  {
    var half := n / 2;
    var q, r := (h / 2) / half, (h / 2) % half;
    assert h / 2 == q * half + r;
    assert q * n == 2 * (q * half);
    RemainderIs(h, n, q, 2 * r + h % 2);
  }

  lemma RemainderIs(h: nat, n: nat, q: nat, r: nat)
    requires r < n && h == q * n + r
    ensures h % n == r
  {
    var d := h / n;
    assert h == d * n + h % n;
    if q < d { NextMultiple(q, d, n); } else if d < q { NextMultiple(d, q, n); }
  }

  lemma NextMultiple(a: nat, b: nat, n: nat)
    requires a < b
    ensures a * n + n <= b * n
  {
    if a + 1 < b { NextMultiple(a, b - 1, n); }
    Successor(b - 1, n);
  }

  lemma Successor(a: nat, n: nat)
    ensures (a + 1) * n == a * n + n
  {
  }

  /** Two powers of two on either side of half the limit: doubling never jumps over the limit. */
  lemma {:induction false} PowerBelow(n: nat, m: nat)
    requires PowerOfTwo(n) && PowerOfTwo(m) && n < m
    ensures 2 * n <= m
  {
    if n > 1 { PowerBelow(n / 2, m / 2); }
  }

  /** The powers of two above 32 are 64 and those from 128 on. */
  lemma PowersFromSixtyFour(n: nat)
    requires PowerOfTwo(n) && n > 32
    ensures n == 64 || n >= 128
  {
    SixtyFour();
    PowerBelow(32, n);
    if n > 64 { PowerBelow(64, n); }
  }

  lemma SixtyFour()
    ensures PowerOfTwo(64)
  {
    assert PowerOfTwo(4);
    assert PowerOfTwo(16);
  }

  datatype Capacity = TooLarge | Capacity(slots: nat)

  /** The next capacity; fails once doubling would exceed the limit. */
  function GrowHashCapacity(current: nat): (r: Capacity)
    ensures current > 0 && PowerOfTwo(current) && r.Capacity? ==> PowerOfTwo(r.slots)
    ensures r.Capacity? ==> r.slots == if current == 0 then 2 else current + current
    ensures r.TooLarge? <==> 2 * current > MAX_HASH_CAPACITY
  {
    if current == 0 then Capacity(2)
    else if current > MAX_HASH_CAPACITY / 2 then TooLarge
    else Capacity(current * 2)
  }

  /** The least capacity that keeps `count` items at a load of three quarters. The only failure is a count
      above the item limit: the doubling inside never reaches the capacity limit. */
  method HashCapacityForItems(count: nat) returns (r: Capacity)
    ensures (r.TooLarge? <==> count > MAX_HASH_ITEMS) && (r.TooLarge? <==> count * 4 > MAX_HASH_CAPACITY * 3)
    ensures r.Capacity? ==> PowerOfTwo(r.slots) && 2 <= r.slots <= MAX_HASH_CAPACITY && r.slots * 3 >= count * 4
    ensures r.Capacity? && r.slots > 2 ==> r.slots / 2 * 3 < count * 4
  {
    if count > MAX_HASH_ITEMS { return TooLarge; }
    var capacity := 2;
    while capacity * 3 < count * 4
      invariant PowerOfTwo(capacity) && 2 <= capacity <= MAX_HASH_CAPACITY
      invariant capacity > 2 ==> capacity / 2 * 3 < count * 4
      decreases MAX_HASH_CAPACITY - capacity
    {
      LimitIsPower();
      PowerBelow(capacity, MAX_HASH_CAPACITY);
      var grown := GrowHashCapacity(capacity);
      capacity := grown.slots;
    }
    return Capacity(capacity);
  }

  lemma LimitIsPower()
    ensures PowerOfTwo(MAX_HASH_CAPACITY)
  {
    Times64(1);
    Times64(64);
    Times64(64 * 64);
    Times64(64 * 64 * 64);
    Times64(64 * 64 * 64 * 64);
  }

  lemma Times64(n: nat)
    requires PowerOfTwo(n)
    ensures PowerOfTwo(64 * n)
  {
    Times4(n);
    Times4(4 * n);
    Times4(16 * n);
  }

  lemma Times4(n: nat)
    requires PowerOfTwo(n)
    ensures PowerOfTwo(4 * n)
  {
    Doubled(n);
    Doubled(2 * n);
  }

  lemma Doubled(n: nat)
    requires PowerOfTwo(n)
    ensures PowerOfTwo(2 * n)
  {
    assert (2 * n) / 2 == n;
  }
}
