/** Bytes, the option and result types, and the big-endian integers of the wire formats. */
module Bytes {
  type Byte = x: int | 0 <= x < 0x100

  datatype Option<+T> = None | Some(value: T)

  datatype Result<+T, +E> = Ok(value: T) | Err(error: E)

  const U16_LIMIT: nat := 0x1_0000
  const U32_LIMIT: nat := 0x1_0000_0000
  const U64_LIMIT: nat := 0x1_0000_0000_0000_0000

  type Word64 = x: int | 0 <= x < 0x1_0000_0000_0000_0000

  function Min(a: int, b: int): int {
    if a < b then a else b
  }

  function FromU16(s: seq<Byte>): (n: nat)
    requires |s| == 2
    ensures n < U16_LIMIT
  {
    (s[0] as int) * 0x100 + s[1] as int
  }

  function U16(n: nat): (s: seq<Byte>)
    requires n < U16_LIMIT
    ensures |s| == 2 && FromU16(s) == n
  {
    [n / 0x100, n % 0x100]
  }

  function FromU32(s: seq<Byte>): (n: nat)
    requires |s| == 4
    ensures n < U32_LIMIT
  {
    ((s[0] as int) * 0x100 + s[1] as int) * U16_LIMIT + (s[2] as int) * 0x100 + s[3] as int
  }

  function U32(n: nat): (s: seq<Byte>)
    requires n < U32_LIMIT
    ensures |s| == 4 && FromU32(s) == n
  {
    var high, low := n / U16_LIMIT, n % U16_LIMIT;
    [high / 0x100, high % 0x100, low / 0x100, low % 0x100]
  }

  function FromU64(s: seq<Byte>): (n: nat)
    requires |s| == 8
    ensures n < U64_LIMIT
  {
    FromU32(s[..4]) * U32_LIMIT + FromU32(s[4..])
  }

  function U64(n: nat): (s: seq<Byte>)
    requires n < U64_LIMIT
    ensures |s| == 8 && FromU64(s) == n
  {
    var s := U32(n / U32_LIMIT) + U32(n % U32_LIMIT);
    assert s[..4] == U32(n / U32_LIMIT) && s[4..] == U32(n % U32_LIMIT);
    s
  }

  /** The most significant byte comes first. */
  lemma BigEndian16(n: nat)
    requires n < 0x1_0000
    ensures n == 0x100 * U16(n)[0] as int + U16(n)[1] as int
  {
  }

  lemma BigEndian32(n: nat)
    requires n < 0x1_0000_0000
    ensures var s := U32(n);
      n == 0x100_0000 * s[0] as int + 0x1_0000 * s[1] as int + 0x100 * s[2] as int + s[3] as int
  {
    var high, low := n / 0x1_0000, n % 0x1_0000;
    assert n == 0x1_0000 * high + low;
    assert high == 0x100 * (high / 0x100) + high % 0x100 && low == 0x100 * (low / 0x100) + low % 0x100;
  }

  lemma BigEndian64(n: nat)
    requires n < 0x1_0000_0000_0000_0000
    ensures U64(n) == U32(n / 0x1_0000_0000) + U32(n % 0x1_0000_0000)
  {
  }

  /** What was read is written back as it was. */
  lemma HalfBack(s: seq<Byte>)
    requires |s| == 2
    ensures U16(FromU16(s)) == s
  {
  }

  lemma WordBack(s: seq<Byte>)
    requires |s| == 4
    ensures U32(FromU32(s)) == s
  {
  }

  lemma LongBack(s: seq<Byte>)
    requires |s| == 8
    ensures U64(FromU64(s)) == s
  {
    var high, low := FromU32(s[..4]), FromU32(s[4..]);
    WordBack(s[..4]);
    WordBack(s[4..]);
    TwoWords(high, low);
    assert U64(FromU64(s)) == U32(high) + U32(low) == s[..4] + s[4..] == s;
  }

  lemma TwoWords(high: nat, low: nat)
    requires high < U32_LIMIT && low < U32_LIMIT
    ensures var n := high * U32_LIMIT + low;
      n < U64_LIMIT && n / U32_LIMIT == high && n % U32_LIMIT == low
  {
  }

  lemma SliceInside(pre: seq<Byte>, c: seq<Byte>, post: seq<Byte>, lo: nat, hi: nat)
    requires lo <= hi <= |c|
    ensures (pre + c + post)[|pre| + lo..|pre| + hi] == c[lo..hi]
  {
  }

  lemma ReadOn(data: seq<Byte>, pos: nat, first: seq<Byte>, rest: seq<Byte>)
    requires pos <= |data| && data[pos..] == first + rest
    ensures data == data[..pos] + first + rest
    ensures pos + |first| <= |data| && data[pos + |first|..] == rest
  {
    assert data == data[..pos] + data[pos..];
    assert data[pos + |first|..] == data[pos..][|first|..];
  }

  lemma Assoc<T>(a: seq<T>, b: seq<T>, c: seq<T>)
    ensures a + (b + c) == a + b + c
  {
  }
}
