/** Bytes and the fixed-width integers built from them. */
module Bytes {

  type byte = b: int | 0 <= b < 0x100
  type u16 = v: int | 0 <= v < 0x1_0000
  type u32 = v: int | 0 <= v < 0x1_0000_0000
  type i32 = v: int | -0x8000_0000 <= v < 0x8000_0000

  /** The two's-complement bit pattern of a signed word, and back. */
  function AsU32(v: i32): (r: u32)
  {
    if v < 0 then v + 0x1_0000_0000 else v
  }

  function AsI32(v: u32): (r: i32)
    ensures AsU32(r) == v
  {
    if v < 0x8000_0000 then v else v - 0x1_0000_0000
  }

  function Be16(v: u16): (r: seq<byte>)
    ensures |r| == 2
  {
    [v / 0x100, v % 0x100]
  }

  function FromBe16(s: seq<byte>): (r: u16)
    requires |s| == 2
    ensures Be16(r) == s
  {
    var hi: int := s[0];
    hi * 0x100 + s[1]
  }

  function Le16(v: u16): (r: seq<byte>)
    ensures |r| == 2
  {
    [v % 0x100, v / 0x100]
  }

  function FromLe16(s: seq<byte>): (r: u16)
    requires |s| == 2
    ensures Le16(r) == s
  {
    var hi: int := s[1];
    s[0] + hi * 0x100
  }

  function Be32(v: u32): (r: seq<byte>)
    ensures |r| == 4
  {
    Be16(v / 0x1_0000) + Be16(v % 0x1_0000)
  }

  function FromBe32(s: seq<byte>): (r: u32)
    requires |s| == 4
    ensures Be32(r) == s
  {
    assert s == s[..2] + s[2..];
    var hi, lo: int := FromBe16(s[..2]), FromBe16(s[2..]);
    Halves(hi, lo);
    hi * 0x1_0000 + lo
  }

  lemma Halves(hi: int, lo: int)
    requires 0 <= hi < 0x1_0000 && 0 <= lo < 0x1_0000
    ensures var v := hi * 0x1_0000 + lo; 0 <= v < 0x1_0000_0000 && v / 0x1_0000 == hi && v % 0x1_0000 == lo
  {
  }

  function Le32(v: u32): (r: seq<byte>)
    ensures |r| == 4
  {
    Le16(v % 0x1_0000) + Le16(v / 0x1_0000)
  }

  function FromLe32(s: seq<byte>): (r: u32)
    requires |s| == 4
  {
    var hi: int := FromLe16(s[2..]);
    FromLe16(s[..2]) + hi * 0x1_0000
  }

  lemma FromLe32Back(s: seq<byte>)
    requires |s| == 4
    ensures Le32(FromLe32(s)) == s
  {
    Halves(FromLe16(s[2..]), FromLe16(s[..2]));
    hide FromLe16, Le16;
    assert s == s[..2] + s[2..];
  }

  lemma Be16RoundTrip(v: u16)
    ensures FromBe16(Be16(v)) == v
  {
  }

  lemma Be32RoundTrip(v: u32)
    ensures FromBe32(Be32(v)) == v
  {
  }

  lemma Le16RoundTrip(v: u16)
    ensures FromLe16(Le16(v)) == v
  {
  }

  lemma Le32RoundTrip(v: u32)
    ensures FromLe32(Le32(v)) == v
  {
  }

  lemma SliceOfSlice(w: seq<byte>, i: nat, j: nat, a: nat, b: nat)
    requires i <= j <= |w| && a <= b <= j - i
    ensures w[i..j][a..b] == w[i + a..i + b]
  {
    var s := w[i..j];
    forall x | a <= x < b ensures s[x] == w[i + x] {
    }
  }

  // ---- The value of octets, most or least significant first ----

  function BigEndian(bytes: seq<byte>): nat
  {
    if bytes == [] then 0 else BigEndian(bytes[..|bytes| - 1]) * 0x100 + bytes[|bytes| - 1]
  }

  function LittleEndian(bytes: seq<byte>): nat
  {
    if bytes == [] then 0 else bytes[0] + 0x100 * LittleEndian(bytes[1..])
  }

  /** The signed word and its bit pattern are congruent modulo 2^32. */
  lemma SignedWord(v: i32)
    ensures (AsU32(v) - v) % 0x1_0000_0000 == 0 && AsI32(AsU32(v)) == v
  {
  }

  lemma BigEndianTwo(x: byte, y: byte)
    ensures BigEndian([x, y]) == x * 0x100 + y
  {
    assert [x, y][..1] == [x] && [x][..0] == [];
    assert BigEndian([x]) == x;
  }

  lemma LittleEndianTwo(x: byte, y: byte)
    ensures LittleEndian([x, y]) == x + 0x100 * y
  {
    assert [x, y][1..] == [y] && [y][1..] == [];
    assert LittleEndian([y]) == y;
  }

  lemma {:induction false} LittleEndianConcat(a: seq<byte>, b: seq<byte>, power: nat)
    requires |a| == 2 && power == 0x1_0000
    ensures LittleEndian(a + b) == LittleEndian(a) + power * LittleEndian(b)
  {
    assert a == [a[0], a[1]];
    LittleEndianTwo(a[0], a[1]);
    assert (a + b)[1..] == [a[1]] + b && ([a[1]] + b)[1..] == b;
  }

  lemma BigEndianConcat(a: seq<byte>, b: seq<byte>)
    requires |b| == 2
    ensures BigEndian(a + b) == BigEndian(a) * 0x1_0000 + BigEndian(b)
  {
    assert b == [b[0], b[1]];
    BigEndianTwo(b[0], b[1]);
    assert (a + b)[..|a| + 1] == a + [b[0]] && (a + [b[0]])[..|a|] == a;
  }

  /** Words are written most significant octet first ... */
  lemma BigEndianWords(v: u16, w: u32)
    ensures BigEndian(Be16(v)) == v && BigEndian(Be32(w)) == w
  {
    BigEndianTwo(v / 0x100, v % 0x100);
    var hi, lo := w / 0x1_0000, w % 0x1_0000;
    BigEndianTwo(hi / 0x100, hi % 0x100);
    BigEndianTwo(lo / 0x100, lo % 0x100);
    BigEndianConcat(Be16(hi), Be16(lo));
    hide BigEndian;
  }

  /** ... or least significant octet first. */
  lemma LittleEndianWords(v: u16, w: u32)
    ensures LittleEndian(Le16(v)) == v && LittleEndian(Le32(w)) == w
  {
    LittleEndianTwo(v % 0x100, v / 0x100);
    var hi, lo := w / 0x1_0000, w % 0x1_0000;
    LittleEndianTwo(hi % 0x100, hi / 0x100);
    LittleEndianTwo(lo % 0x100, lo / 0x100);
    LittleEndianConcat(Le16(lo), Le16(hi), 0x1_0000);
    hide LittleEndian;
  }
}
