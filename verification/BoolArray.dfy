/** Eight booleans in a byte. */
module PackedBits {
  /** The bit `1 << k`. */
  function Mask(k: nat): bv8
    requires k < 8
  {
    match k case 0 => 0x01 case 1 => 0x02 case 2 => 0x04 case 3 => 0x08 case 4 => 0x10 case 5 => 0x20 case 6 => 0x40 case _ => 0x80
  }

  predicate Bit(byte: bv8, k: nat)
    requires k < 8
  {
    byte & Mask(k) != 0
  }

  function WithBit(byte: bv8, k: nat, value: bool): bv8
    requires k < 8
  {
    if value then byte | Mask(k) else byte & !Mask(k)
  }

  /** The first of the eight is the lowest bit. */
  lemma MaskIsShifted(k: nat)
    requires k < 8
    ensures Mask(k) == 1 << k
  {
    if k == 0 { assert Mask(k) == 1 << 0; }
    else if k == 1 { assert Mask(k) == 1 << 1; }
    else if k == 2 { assert Mask(k) == 1 << 2; }
    else if k == 3 { assert Mask(k) == 1 << 3; }
    else if k == 4 { assert Mask(k) == 1 << 4; }
    else if k == 5 { assert Mask(k) == 1 << 5; }
    else if k == 6 { assert Mask(k) == 1 << 6; }
  }

  lemma MasksApart(j: nat, k: nat)
    requires j < 8 && k < 8
    ensures Mask(k) != 0 && (j != k ==> Mask(j) & Mask(k) == 0)
  {
  }

  lemma SetThenTest(byte: bv8, m: bv8)
    requires m != 0
    ensures (byte | m) & m != 0 && (byte & !m) & m == 0
  {
    assert (byte | m) & m == m;
  }

  lemma SetAndTestApart(byte: bv8, m: bv8, n: bv8)
    requires m & n == 0
    ensures (byte | m) & n == byte & n && (byte & !m) & n == byte & n
  {
  }

  /** Writing one bit of a byte leaves the other seven. */
  lemma OnlyThatBit(byte: bv8, j: nat, k: nat, value: bool)
    requires j < 8 && k < 8
    ensures Bit(WithBit(byte, k, value), j) == if j == k then value else Bit(byte, j)
  {
    MasksApart(k, j);
    if j == k { SetThenTest(byte, Mask(k)); } else { SetAndTestApart(byte, Mask(k), Mask(j)); }
  }

  lemma WholeByte(k: nat)
    requires k < 8
    ensures Bit(0xFF, k) && !Bit(0, k)
  {
    MasksApart(k, k);
  }

  /** Bit `i` of a run of bytes. */
  predicate BitAt(bytes: seq<bv8>, i: nat)
    requires i < 8 * |bytes|
  {
    Bit(bytes[i / 8], i % 8)
  }

  lemma OnlyThatPlace(bytes: seq<bv8>, i: nat, j: nat, value: bool)
    requires i < 8 * |bytes| && j < 8 * |bytes|
    ensures BitAt(bytes[i / 8 := WithBit(bytes[i / 8], i % 8, value)], j) == if j == i then value else BitAt(bytes, j)
  {
    if i / 8 == j / 8 {
      OnlyThatBit(bytes[i / 8], j % 8, i % 8, value);
    }
  }

  /** The first `count` bits of a run of bytes. */
  function Bits(bytes: seq<bv8>, count: nat): (r: seq<bool>)
    requires count <= 8 * |bytes|
    ensures |r| == count && forall i :: 0 <= i < count ==> r[i] == BitAt(bytes, i)
  {
    seq(count, i requires 0 <= i < count => BitAt(bytes, i))
  }

  lemma SetOne(bytes: seq<bv8>, count: nat, i: nat, value: bool)
    requires i < count <= 8 * |bytes|
    ensures Bits(bytes[i / 8 := WithBit(bytes[i / 8], i % 8, value)], count) == Bits(bytes, count)[i := value]
  {
    var after := bytes[i / 8 := WithBit(bytes[i / 8], i % 8, value)];
    forall j | 0 <= j < count ensures BitAt(after, j) == if j == i then value else BitAt(bytes, j) {
      OnlyThatPlace(bytes, i, j, value);
    }
  }

  /** Bits `begin` to `end` are `value`, all others as in `before`. */
  ghost predicate Filled(before: seq<bv8>, after: seq<bv8>, begin: nat, end: nat, value: bool) {
    && |after| == |before|
    && forall i :: 0 <= i < 8 * |before| ==> BitAt(after, i) == if begin <= i < end then value else BitAt(before, i)
  }

  lemma FillOne(before: seq<bv8>, bytes: seq<bv8>, begin: nat, i: nat, value: bool)
    requires Filled(before, bytes, begin, i, value) && begin <= i < 8 * |bytes|
    ensures Filled(before, bytes[i / 8 := WithBit(bytes[i / 8], i % 8, value)], begin, i + 1, value)
  {
    var after := bytes[i / 8 := WithBit(bytes[i / 8], i % 8, value)];
    forall j | 0 <= j < 8 * |before| ensures BitAt(after, j) == if begin <= j < i + 1 then value else BitAt(before, j) {
      OnlyThatPlace(bytes, i, j, value);
    }
  }

  /** The byte whose bits are all `value`. */
  function Repeated(value: bool): bv8 {
    if value then 0xFF else 0x00
  }

  /** Filling whole bytes fills their bits. */
  lemma FillBytes(before: seq<bv8>, bytes: seq<bv8>, after: seq<bv8>, begin: nat, from: nat, to: nat, value: bool)
    requires begin <= 8 * from && from <= to <= |bytes| == |after| && Filled(before, bytes, begin, 8 * from, value)
    requires forall k :: 0 <= k < |bytes| ==> after[k] == if from <= k < to then Repeated(value) else bytes[k]
    ensures Filled(before, after, begin, 8 * to, value)
  {
    forall j | 0 <= j < 8 * |before| ensures BitAt(after, j) == if begin <= j < 8 * to then value else BitAt(before, j) {
      if from <= j / 8 < to {
        WholeByte(j % 8);
      } else {
        assert BitAt(after, j) == BitAt(bytes, j);
      }
    }
  }

  /** What a list of booleans becomes: cut off, or filled up with `value`. */
  function Resized(contents: seq<bool>, n: nat, value: bool): (r: seq<bool>)
    ensures |r| == n
  {
    if n <= |contents| then contents[..n] else contents + seq(n - |contents|, i => value)
  }

  lemma SameBits(before: seq<bv8>, after: seq<bv8>, count: nat)
    requires count <= 8 * |before| && |before| <= |after| && after[..|before|] == before
    ensures Bits(after, count) == Bits(before, count)
  {
    forall i | 0 <= i < count ensures BitAt(after, i) == BitAt(before, i) {
      assert before[i / 8] == after[..|before|][i / 8];
    }
  }

  lemma ResizedBits(before: seq<bv8>, kept: seq<bv8>, after: seq<bv8>, oldCount: nat, n: nat, value: bool)
    requires oldCount <= 8 * |before| && |before| <= |kept| && n <= 8 * |kept| && kept[..|before|] == before
    requires Filled(kept, after, oldCount, n, value)
    ensures Bits(after, n) == Resized(Bits(before, oldCount), n, value)
  {
    forall i | 0 <= i < n ensures BitAt(after, i) == if i < oldCount then BitAt(before, i) else value {
      if i < oldCount { assert before[i / 8] == kept[..|before|][i / 8] == kept[i / 8]; }
    }
  }
}

/** The dense boolean array of the virtual machine. */
module BoolArrays {
  import opened PackedBits

  const INT32_MAX: int := 0x7fff_ffff

  class ArrayInfo {
    var data: array<bv8>
    var count: nat
    var capacity: nat
    var initialBool: bool
    var version: nat

    ghost predicate Valid()
      reads this
    {
      count <= capacity && data.Length == (capacity + 7) / 8
    }

    ghost function Contents(): (r: seq<bool>)
      requires Valid()
      reads this, data
      ensures |r| == count
    {
      Bits(data[..], count)
    }

    method GetBool(index: nat) returns (value: bool)
      requires Valid() && index < count
      ensures value == Contents()[index]
    {
      value := Bit(data[index / 8], index % 8);
    }

    method SetBool(index: nat, value: bool)
      requires Valid() && index < capacity
      modifies data
      ensures data[..] == old(data[..])[index / 8 := WithBit(old(data[index / 8]), index % 8, value)]
      ensures index < count ==> Contents() == old(Contents())[index := value]
    {
      data[index / 8] := WithBit(data[index / 8], index % 8, value);
      if index < count { SetOne(old(data[..]), count, index, value); }
    }

    /** Whole bytes at once. */
    method Memset(from: nat, to: nat, value: bv8)
      requires from <= to <= data.Length
      modifies data
      ensures forall k :: 0 <= k < data.Length ==> data[k] == if from <= k < to then value else old(data[k])
    {
      var i := from;
      while i < to
        invariant from <= i <= to
        invariant forall k :: 0 <= k < data.Length ==> data[k] == if from <= k < i then value else old(data[k])
      {
        data[i] := value;
        i := i + 1;
      }
    }

    /** Sets the bits from `begin0` to `end` to the initial value: single bits, then whole bytes, then single bits. */
    method SetInitialRange(begin0: nat, end: nat)
      requires Valid() && begin0 <= end <= capacity
      modifies data
      ensures Filled(old(data[..]), data[..], begin0, end, initialBool)
    {
      ghost var before := data[..];
      var begin := begin0;
      while begin < end && begin % 8 != 0
        invariant begin0 <= begin <= end
        invariant Filled(before, data[..], begin0, begin, initialBool)
      {
        FillOne(before, data[..], begin0, begin, initialBool);
        SetBool(begin, initialBool);
        begin := begin + 1;
      }
      if begin < end {
        var fullByteEnd := end / 8 * 8;
        ghost var bytes := data[..];
        Memset(begin / 8, fullByteEnd / 8, Repeated(initialBool));
        FillBytes(before, bytes, data[..], begin0, begin / 8, end / 8, initialBool);
        begin := fullByteEnd;
      }
      while begin < end
        invariant begin0 <= begin <= end
        invariant Filled(before, data[..], begin0, begin, initialBool)
      {
        FillOne(before, data[..], begin0, begin, initialBool);
        SetBool(begin, initialBool);
        begin := begin + 1;
      }
    }

    /** Makes room for `newCapacity` elements in a zeroed buffer. */
    method Reserve(newCapacity: nat)
      requires Valid()
      modifies this`data, this`capacity
      ensures Valid() && capacity == (if newCapacity <= old(capacity) then old(capacity) else newCapacity)
      ensures data == old(data) || fresh(data)
      ensures Contents() == old(Contents())
      ensures old(data).Length <= data.Length && data[..old(data).Length] == old(data[..])
    {
      ghost var before := data[..];
      if newCapacity > capacity {
        var replacement := new bv8[(newCapacity + 7) / 8](i => 0);
        var i := 0;
        while i < data.Length
          invariant 0 <= i <= data.Length <= replacement.Length
          invariant data[..] == before && replacement[..i] == before[..i]
        {
          replacement[i] := data[i];
          i := i + 1;
        }
        assert before[..|before|] == before;
        data, capacity := replacement, newCapacity;
      }
      assert data[..|before|] == before;
      SameBits(before, data[..], count);
    }

    /** Changes the number of elements; new ones get the initial value, whatever was there before. */
    method Resize(size: int) returns (changed: bool)
      requires Valid() && size <= INT32_MAX
      modifies this, data
      ensures Valid() && initialBool == old(initialBool)
      ensures var n := if size < 0 then 0 else size;
        && Contents() == Resized(old(Contents()), n, initialBool)
        && changed == (n != old(count)) && version == old(version) + (if changed then 1 else 0)
      ensures var n, grown := if size < 0 then 0 else size, if old(capacity) == 0 then 4 else old(capacity) + old(capacity) / 2;
        capacity == if n <= old(capacity) then old(capacity) else if n < grown <= INT32_MAX then grown else n
    {
      var newCount: nat := if size < 0 then 0 else size;
      if newCount == count { return false; }
      var oldCount := count;
      ghost var before := data[..];
      if newCount > capacity {
        var grown := if capacity == 0 then 4 else capacity + capacity / 2;
        Reserve(if grown > newCount && grown <= INT32_MAX then grown else newCount);
      }
      ghost var kept := data[..];
      if newCount > oldCount {
        SetInitialRange(oldCount, newCount);
      }
      ResizedBits(before, kept, data[..], oldCount, newCount, initialBool);
      count := newCount;
      version := version + 1;
      changed := true;
    }
  }
}
