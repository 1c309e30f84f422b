/** The byte layer shared by every codec: machine-width integers, their
    little-endian form, and the standard library's byte reader.
 */
module Bytes {

  type Byte = n: int | 0 <= n < 0x100
  type U16 = n: int | 0 <= n < 0x1_0000
  type U32 = n: int | 0 <= n < 0x1_0000_0000

  datatype Option<+T> = None | Some(value: T)

  /** The truncating conversions `uint8(n)`, `uint16(n)` and `uint32(n)`. */
  function Low8(n: nat): Byte { n % 0x100 }

  function Low16(n: nat): U16 { n % 0x1_0000 }

  function Low32(n: nat): U32 { n % 0x1_0000_0000 }

  const TWO_63: int := 0x8000_0000_0000_0000
  const TWO_64: int := 0x1_0000_0000_0000_0000

  /** A value reduced to a signed 64-bit integer. */
  function Wrap64(n: int): int {
    var m := n % TWO_64;
    if m < TWO_63 then m else m - TWO_64
  }

  /** How many bytes a count of 16-bit words stands for. */
  function WordBytes(words: Byte): nat {
    var n: int := words;
    2 * n
  }

  function Zeros(n: nat): (z: seq<Byte>)
    ensures |z| == n
  {
    seq(n, _ => 0)
  }

  function Put16(v: U16): (b: seq<Byte>)
    ensures |b| == 2
  {
    [v % 0x100, v / 0x100]
  }

  function Put32(v: U32): (b: seq<Byte>)
    ensures |b| == 4
  {
    Put16(v % 0x1_0000) + Put16(v / 0x1_0000)
  }

  function Get16(b: seq<Byte>, i: nat): U16
    requires i + 2 <= |b|
  {
    var low: int, high: int := b[i], b[i + 1];
    low + 0x100 * high
  }

  function Get32(b: seq<Byte>, i: nat): U32
    requires i + 4 <= |b|
  {
    var low: int, high: int := Get16(b, i), Get16(b, i + 2);
    low + 0x1_0000 * high
  }

  lemma GetPut16(b: seq<Byte>, i: nat, v: U16)
    requires i + 2 <= |b| && b[i..i + 2] == Put16(v)
    ensures Get16(b, i) == v
  {
    assert b[i] == b[i..i + 2][0] && b[i + 1] == b[i..i + 2][1];
  }

  lemma GetPut32(b: seq<Byte>, i: nat, v: U32)
    requires i + 4 <= |b| && b[i..i + 4] == Put32(v)
    ensures Get32(b, i) == v
  {
    assert b[i..i + 2] == b[i..i + 4][..2] == Put16(v % 0x1_0000);
    assert b[i + 2..i + 4] == b[i..i + 4][2..] == Put16(v / 0x1_0000);
    GetPut16(b, i, v % 0x1_0000);
    GetPut16(b, i + 2, v / 0x1_0000);
  }

  lemma PutGet16(b: seq<Byte>, i: nat)
    requires i + 2 <= |b|
    ensures Put16(Get16(b, i)) == b[i..i + 2]
  {
  }

  lemma PutGet32(b: seq<Byte>, i: nat)
    requires i + 4 <= |b|
    ensures Put32(Get32(b, i)) == b[i..i + 4]
  {
    PutGet16(b, i);
    PutGet16(b, i + 2);
    assert b[i..i + 4] == b[i..i + 2] + b[i + 2..i + 4];
  }

  /** An integer read from a slice is the one read at the shifted index. */
  lemma GetSlice(b: seq<Byte>, lo: nat, hi: nat, i: nat)
    requires lo <= hi <= |b|
    ensures i + 2 <= hi - lo ==> Get16(b[lo..hi], i) == Get16(b, lo + i)
    ensures i + 4 <= hi - lo ==> Get32(b[lo..hi], i) == Get32(b, lo + i)
  {
  }

  lemma AddNothing(a: seq<Byte>)
    ensures a + [] == a && [] + a == a
  {
  }

  lemma AddAssociates(a: seq<Byte>, b: seq<Byte>, c: seq<Byte>)
    ensures (a + b) + c == a + (b + c)
  {
  }

  /** A cursor over immutable bytes, as the codecs use it: a fixed-size read
      succeeds whole or not at all, `Read` fills what it can and fails only
      at the end of the data.
   */
  class Reader {
    const data: seq<Byte>
    var pos: nat

    ghost predicate Valid()
      reads this
    {
      pos <= |data|
    }

    function Rest(): seq<Byte>
      requires Valid()
      reads this
    {
      data[pos..]
    }

    constructor (data: seq<Byte>)
      ensures Valid() && this.data == data && pos == 0
    {
      this.data := data;
      pos := 0;
    }

    method ReadU8() returns (r: Option<Byte>)
      requires Valid()
      modifies this
      ensures Valid()
      ensures r.Some? <==> old(pos) + 1 <= |data|
      ensures r.Some? ==> pos == old(pos) + 1 && r.value == data[old(pos)]
    {
      if |data| < pos + 1 { return None; }
      r := Some(data[pos]);
      pos := pos + 1;
    }

    method ReadU16() returns (r: Option<U16>)
      requires Valid()
      modifies this
      ensures Valid()
      ensures r.Some? <==> old(pos) + 2 <= |data|
      ensures r.Some? ==> pos == old(pos) + 2 && r.value == Get16(data, old(pos))
    {
      if |data| < pos + 2 { return None; }
      r := Some(Get16(data, pos));
      pos := pos + 2;
    }

    method ReadU32() returns (r: Option<U32>)
      requires Valid()
      modifies this
      ensures Valid()
      ensures r.Some? <==> old(pos) + 4 <= |data|
      ensures r.Some? ==> pos == old(pos) + 4 && r.value == Get32(data, old(pos))
    {
      if |data| < pos + 4 { return None; }
      r := Some(Get32(data, pos));
      pos := pos + 4;
    }

    method ReadFull(n: nat) returns (r: Option<seq<Byte>>)
      requires Valid()
      modifies this
      ensures Valid()
      ensures r.Some? <==> old(pos) + n <= |data|
      ensures r.Some? ==> pos == old(pos) + n && r.value == data[old(pos)..old(pos) + n]
    {
      if |data| < pos + n { return None; }
      r := Some(data[pos..pos + n]);
      pos := pos + n;
    }

    /** `Read` into a zeroed buffer of n bytes: a short read leaves the tail
        zero, and an exhausted reader is an error even when n is 0.
     */
    method Read(n: nat) returns (r: Option<seq<Byte>>)
      requires Valid()
      modifies this
      ensures Valid()
      ensures r.Some? <==> old(pos) < |data|
      ensures r.Some? ==> pos == old(pos) + Filled(|data| - old(pos), n)
      ensures r.Some? ==> r.value == ZeroFill(data[old(pos)..], n)
    {
      if |data| <= pos { return None; }
      r := Some(ZeroFill(data[pos..], n));
      pos := pos + Filled(|data| - pos, n);
    }
  }

  /** How many of the n bytes of a buffer a single read fills. */
  function Filled(available: nat, n: nat): nat {
    if available < n then available else n
  }

  function ZeroFill(rest: seq<Byte>, n: nat): (b: seq<Byte>)
    ensures |b| == n
  {
    rest[..Filled(|rest|, n)] + Zeros(n - Filled(|rest|, n))
  }
}
