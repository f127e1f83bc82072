/**
 * The inline helpers of the system utility header: FourCC packing,
 * file-extension extraction and little-endian integer decoding.
 *
 * A 32-bit C++ integer is represented by its bit pattern, a natural number
 * below 2^32; `<<` and `|` are written out on those patterns (`Shl32`,
 * `BitOr`) so that the bodies follow the C++ shift-and-or expressions and
 * keep their wrap-around. A `char` is a signed 8-bit value, as on the
 * platforms the framework targets; `uint8_t` is a `Byte`.
 */
module SysUtil {

  /** A C++ `char`, signed. */
  type SChar = x: int | -128 <= x < 128

  /** A `uint8_t`. */
  type Byte = x: int | 0 <= x < 256

  const TWO_32: nat := 0x1_0000_0000

  /** `std::string::npos`, the largest `size_t`. */
  const NPOS: int := 0xFFFF_FFFF_FFFF_FFFF

  /** Arithmetic on `size_t` is modulo 2^64. */
  const SIZE_T_MODULUS: int := 0x1_0000_0000_0000_0000

  // ---------------------------------------------------------------------------
  // Bit patterns

  function Pow2(k: nat): nat
  {
    if k == 0 then 1 else 2 * Pow2(k - 1)
  }

  /** Bitwise or of two non-negative integers, one bit at a time. */
  function BitOr(x: nat, y: nat): nat
    decreases x + y
  {
    if x == 0 then y
    else if y == 0 then x
    else 2 * BitOr(x / 2, y / 2) + (if x % 2 == 1 || y % 2 == 1 then 1 else 0)
  }

  /** `x << k` on a 32-bit pattern: bits shifted past bit 31 are lost. */
  function Shl32(x: nat, k: nat): (r: nat)
    ensures r < TWO_32
  {
    (x * Pow2(k)) % TWO_32
  }

  /** Or-ing a value into the zero low bits of a shifted one is addition. */
  lemma {:induction false} BitOrDisjoint(m: nat, k: nat, y: nat)
    requires y < Pow2(k)
    ensures BitOr(m * Pow2(k), y) == m * Pow2(k) + y
    decreases k
  {
    if k == 0 {
      assert y == 0;
    } else if m == 0 || y == 0 {
    } else {
      var x := m * Pow2(k);
      assert x == 2 * (m * Pow2(k - 1));
      assert x / 2 == m * Pow2(k - 1) && x % 2 == 0;
      BitOrDisjoint(m, k - 1, y / 2);
    }
  }

  /** Or-ing anything below 2^n into the all-ones pattern of n bits leaves it all ones. */
  lemma {:induction false} BitOrAllOnes(x: nat, n: nat)
    requires x < Pow2(n)
    ensures BitOr(x, Pow2(n) - 1) == Pow2(n) - 1
    decreases n
  {
    if n == 0 {
    } else if x == 0 {
    } else {
      var ones := Pow2(n) - 1;
      assert ones / 2 == Pow2(n - 1) - 1 && ones % 2 == 1;
      BitOrAllOnes(x / 2, n - 1);
    }
  }

  /** Byte `k` (0 = least significant) of a pattern: `(w >> 8k) & 0xFF`. */
  function ByteOf(w: nat, k: nat): (r: Byte)
  {
    Pow2Positive(8 * k);
    (w / Pow2(8 * k)) % 256
  }

  lemma Pow2Positive(k: nat)
    ensures Pow2(k) > 0
  {
  }

  // ---------------------------------------------------------------------------
  // mc_const

  /** Integer promotion of a signed char to `int`, as a 32-bit pattern (sign extension). */
  function Promote(c: SChar): (r: nat)
    ensures r < TWO_32
    ensures r % 256 == c % 256
    ensures 0 <= c ==> r == c
    ensures c < 0 ==> r == TWO_32 + c && r / 0x100 == 0xFF_FFFF
  {
    c % TWO_32
  }

  /**
   * `mc_const(a, b, c, d)` as written: every char is promoted to `int`
   * (sign-extended) before it is shifted and or-ed into place.
   */
  function McConst(a: SChar, b: SChar, c: SChar, d: SChar): nat
  {
    BitOr(BitOr(BitOr(Shl32(Promote(a), 24), Shl32(Promote(b), 16)), Shl32(Promote(c), 8)), Promote(d))
  }

  /** Packs four byte values big-endian; shared by `mc_const` and `read_int`. */
  lemma PackDisjoint(a: Byte, b: Byte, c: Byte, d: Byte)
    ensures BitOr(BitOr(BitOr(Shl32(a, 24), Shl32(b, 16)), Shl32(c, 8)), d)
         == a * 0x100_0000 + b * 0x1_0000 + c * 0x100 + d
  {
    Pow2Value8();
    Pow2Value();
    ShlNoWrap(a, 24);
    ShlNoWrap(b, 16);
    ShlNoWrap(c, 8);
    var ab: nat := a * 0x100 + b;
    var abc: nat := ab * 0x100 + c;
    BitOrDisjoint(a, 24, b * 0x1_0000);
    assert a * 0x100_0000 + b * 0x1_0000 == ab * Pow2(16);
    BitOrDisjoint(ab, 16, c * 0x100);
    assert ab * Pow2(16) + c * 0x100 == abc * Pow2(8);
    BitOrDisjoint(abc, 8, d);
    assert abc * Pow2(8) + d == a * 0x100_0000 + b * 0x1_0000 + c * 0x100 + d;
  }

  lemma ShlNoWrap(x: Byte, k: nat)
    requires k == 8 || k == 16 || k == 24
    ensures Shl32(x, k) == x * Pow2(k)
  {
    if k == 8 {
      Pow2Value8();
      ModSmall(x * 0x100);
    } else if k == 16 {
      Pow2Value();
      ModSmall(x * 0x1_0000);
    } else {
      Pow2Value();
      ModSmall(x * 0x100_0000);
    }
  }

  lemma Pow2Value8()
    ensures Pow2(8) == 0x100
  {
    assert Pow2(4) == 16;
  }

  lemma Pow2Value()
    ensures Pow2(16) == 0x1_0000 && Pow2(24) == 0x100_0000
  {
    Pow2Value8();
    Pow2Mul(8, 8);
    Pow2Mul(16, 8);
  }

  lemma {:induction false} Pow2Mul(j: nat, k: nat)
    ensures Pow2(j + k) == Pow2(j) * Pow2(k)
    decreases k
  {
    if k > 0 {
      Pow2Mul(j, k - 1);
    }
  }

  /** The four bytes of a big-endian packed word, most significant first. */
  lemma UnpackBytes(a: Byte, b: Byte, c: Byte, d: Byte)
    ensures ByteOf(a * 0x100_0000 + b * 0x1_0000 + c * 0x100 + d, 3) == a
    ensures ByteOf(a * 0x100_0000 + b * 0x1_0000 + c * 0x100 + d, 2) == b
    ensures ByteOf(a * 0x100_0000 + b * 0x1_0000 + c * 0x100 + d, 1) == c
    ensures ByteOf(a * 0x100_0000 + b * 0x1_0000 + c * 0x100 + d, 0) == d
  {
    Pow2Value8();
    Pow2Value();
    var w: int := a * 0x100_0000 + b * 0x1_0000 + c * 0x100 + d;
    var ab: nat := a * 0x100 + b;
    var abc: nat := ab * 0x100 + c;
    assert 8 * 3 == 24 && 8 * 2 == 16 && 8 * 1 == 8 && 8 * 0 == 0;
    assert w == a * 0x100_0000 + (b * 0x1_0000 + c * 0x100 + d);
    assert w == ab * 0x1_0000 + (c * 0x100 + d);
    assert w == abc * 0x100 + d;
    DivMod24(a, b * 0x1_0000 + c * 0x100 + d);
    DivMod8(0, a);
    DivMod16(ab, c * 0x100 + d);
    DivMod8(a, b);
    DivMod8(abc, d);
    DivMod8(ab, c);
  }

  /** Division by 2^8 undoes `q * 2^8 + r` for r below 2^8. */
  lemma DivMod8(q: nat, r: nat)
    requires r < 0x100
    ensures (q * 0x100 + r) / 0x100 == q && (q * 0x100 + r) % 0x100 == r
  {
  }

  /** Division by 2^16 undoes `q * 2^16 + r` for r below 2^16. */
  lemma DivMod16(q: nat, r: nat)
    requires r < 0x1_0000
    ensures (q * 0x1_0000 + r) / 0x1_0000 == q
  {
  }

  /** Division by 2^24 undoes `q * 2^24 + r` for r below 2^24. */
  lemma DivMod24(q: nat, r: nat)
    requires r < 0x100_0000
    ensures (q * 0x100_0000 + r) / 0x100_0000 == q
  {
  }

  /**
   * For ASCII characters, `mc_const` is the big-endian packing of the four
   * codes, a*2^24 + b*2^16 + c*2^8 + d, and reading its bytes back from the
   * most significant recovers the four characters.
   */
  lemma McConstAscii(a: SChar, b: SChar, c: SChar, d: SChar)
    requires 0 <= a && 0 <= b && 0 <= c && 0 <= d
    ensures McConst(a, b, c, d) == a * 0x100_0000 + b * 0x1_0000 + c * 0x100 + d
    ensures ByteOf(McConst(a, b, c, d), 3) == a && ByteOf(McConst(a, b, c, d), 2) == b
    ensures ByteOf(McConst(a, b, c, d), 1) == c && ByteOf(McConst(a, b, c, d), 0) == d
  {
    PackDisjoint(a, b, c, d);
    UnpackBytes(a, b, c, d);
  }

  /**
   * As written, a character with the high bit set is sign-extended and its
   * ones overwrite the bytes above it: whatever the first three chars,
   * `mc_const(a, b, c, '\xFF')` is 0xFFFFFFFF, so `mc_const('A', 'B', 'C', '\xFF')`
   * loses 'A', 'B' and 'C'.
   */
  lemma McConstSmearsHighBit(a: SChar, b: SChar, c: SChar)
    ensures McConst(a, b, c, -1) == 0xFFFF_FFFF
    ensures ByteOf(McConst(a, b, c, -1), 3) == 0xFF
  {
    assert Pow2(32) == TWO_32 by { Pow2Value(); Pow2Mul(24, 8); Pow2Value8(); }
    var x, y, z := Shl32(Promote(a), 24), Shl32(Promote(b), 16), Shl32(Promote(c), 8);
    BitOrBound(x, y, 32);
    BitOrBound(BitOr(x, y), z, 32);
    BitOrAllOnes(BitOr(BitOr(x, y), z), 32);
    assert Promote(-1) == TWO_32 - 1;
    ByteOfAllOnes();
  }

  lemma ByteOfAllOnes()
    ensures ByteOf(0xFFFF_FFFF, 3) == 0xFF
  {
    Pow2Value();
    assert 8 * 3 == 24;
    assert 0xFFFF_FFFF / 0x100_0000 == 0xFF;
  }

  /** The bitwise or of two n-bit values is an n-bit value. */
  lemma {:induction false} BitOrBound(x: nat, y: nat, n: nat)
    requires x < Pow2(n) && y < Pow2(n)
    ensures BitOr(x, y) < Pow2(n)
    decreases n
  {
    if n > 0 && x != 0 && y != 0 {
      BitOrBound(x / 2, y / 2, n - 1);
    }
  }

  /** `mc_const` with every char taken as an unsigned byte (`uint8_t`) before shifting. */
  function McConstBytes(a: SChar, b: SChar, c: SChar, d: SChar): nat
  {
    BitOr(BitOr(BitOr(Shl32(a % 256, 24), Shl32(b % 256, 16)), Shl32(c % 256, 8)), d % 256)
  }

  /**
   * The corrected packing is exactly a*2^24 + b*2^16 + c*2^8 + d over the
   * bytes of the four chars, so it round-trips every char modulo 256, and it
   * agrees with `mc_const` on ASCII characters.
   */
  lemma McConstBytesRoundTrip(a: SChar, b: SChar, c: SChar, d: SChar)
    ensures McConstBytes(a, b, c, d) == (a % 256) * 0x100_0000 + (b % 256) * 0x1_0000 + (c % 256) * 0x100 + d % 256
    ensures ByteOf(McConstBytes(a, b, c, d), 3) == a % 256
    ensures ByteOf(McConstBytes(a, b, c, d), 2) == b % 256
    ensures ByteOf(McConstBytes(a, b, c, d), 1) == c % 256
    ensures ByteOf(McConstBytes(a, b, c, d), 0) == d % 256
    ensures 0 <= a && 0 <= b && 0 <= c && 0 <= d ==> McConstBytes(a, b, c, d) == McConst(a, b, c, d)
  {
    McConstBytesValue(a, b, c, d);
    UnpackBytes(a % 256, b % 256, c % 256, d % 256);
    if 0 <= a && 0 <= b && 0 <= c && 0 <= d {
      McConstBytesAscii(a, b, c, d);
    }
  }

  lemma McConstBytesValue(a: SChar, b: SChar, c: SChar, d: SChar)
    ensures McConstBytes(a, b, c, d) == (a % 256) * 0x100_0000 + (b % 256) * 0x1_0000 + (c % 256) * 0x100 + d % 256
  {
    PackDisjoint(a % 256, b % 256, c % 256, d % 256);
  }

  lemma McConstBytesAscii(a: SChar, b: SChar, c: SChar, d: SChar)
    requires 0 <= a && 0 <= b && 0 <= c && 0 <= d
    ensures McConstBytes(a, b, c, d) == McConst(a, b, c, d)
  {
    assert Promote(a) == a % 256 && Promote(b) == b % 256 && Promote(c) == c % 256 && Promote(d) == d % 256;
  }

  // ---------------------------------------------------------------------------
  // get_extension

  /**
   * `std::string::rfind(c)`: the index of the last occurrence of `c`, or
   * `NPOS` when there is none.
   */
  function RFind(s: string, c: char): (pos: int)
    requires |s| < NPOS
    ensures pos == NPOS <==> c !in s
    ensures pos != NPOS ==> 0 <= pos < |s| && s[pos] == c && c !in s[pos + 1..]
    decreases |s|
  {
    if |s| == 0 then NPOS
    else if s[|s| - 1] == c then |s| - 1
    else
      var pos := RFind(s[..|s| - 1], c);
      assert pos != NPOS ==> s[pos + 1..] == s[..|s| - 1][pos + 1..] + [s[|s| - 1]];
      pos
  }

  /**
   * `get_extension(filename)`: the text after the last '.', computed as
   * `filename.substr(filename.rfind('.') + 1)` with `size_t` wrap-around,
   * so a name without '.' is returned whole.
   */
  function GetExtension(filename: string): (ext: string)
    requires |filename| < NPOS
    ensures |ext| <= |filename| && filename[|filename| - |ext|..] == ext
    ensures '.' !in ext
    ensures '.' in filename ==> |ext| < |filename| && filename[|filename| - |ext| - 1] == '.'
    ensures '.' !in filename ==> ext == filename
  {
    var start := (RFind(filename, '.') + 1) % SIZE_T_MODULUS;
    filename[start..]
  }

  /** A name that ends in '.' has an empty extension. */
  lemma ExtensionOfTrailingDot(filename: string)
    requires |filename| < NPOS
    requires |filename| > 0 && filename[|filename| - 1] == '.'
    ensures GetExtension(filename) == ""
  {
  }

  /** Joining a base name, a '.' and a dot-free extension, then extracting the extension, gives it back. */
  lemma ExtensionRoundTrip(base: string, ext: string)
    requires |base| + 1 + |ext| < NPOS
    requires '.' !in ext
    ensures GetExtension(base + "." + ext) == ext
  {
    var s := base + "." + ext;
    assert s[|base|] == '.';
    assert s[|base| + 1..] == ext;
  }

  // ---------------------------------------------------------------------------
  // read_short / read_int

  /**
   * `read_short(ptr)` at `buf[pos..]`: the bytes are promoted to `int`,
   * combined with `<<` and `|`, and truncated to `uint16_t`.
   */
  function ReadShort(buf: seq<Byte>, pos: nat): (r: nat)
    requires pos + 2 <= |buf|
  {
    BitOr(Shl32(buf[pos + 1], 8), buf[pos]) % 0x1_0000
  }

  /**
   * `read_int(ptr)` at `buf[pos..]`. The shift of the top byte may leave the
   * range of a signed `int`; its bit pattern is kept, as the conversion to
   * `uint32_t` does.
   */
  function ReadInt(buf: seq<Byte>, pos: nat): (r: nat)
    requires pos + 4 <= |buf|
  {
    BitOr(BitOr(BitOr(Shl32(buf[pos + 3], 24), Shl32(buf[pos + 2], 16)), Shl32(buf[pos + 1], 8)), buf[pos])
      % TWO_32
  }

  /** `read_short` is the little-endian value of two bytes, so it is below 65536. */
  lemma ReadShortValue(buf: seq<Byte>, pos: nat)
    requires pos + 2 <= |buf|
    ensures ReadShort(buf, pos) == buf[pos] as int + 0x100 * buf[pos + 1] as int
    ensures ReadShort(buf, pos) < 0x1_0000
  {
    var lo, hi := buf[pos], buf[pos + 1];
    Pow2Value8();
    ShlNoWrap(hi, 8);
    BitOrDisjoint(hi, 8, lo);
    assert BitOr(Shl32(hi, 8), lo) == lo as int + 0x100 * hi as int;
  }

  /** `read_int` is the little-endian value of four bytes. */
  lemma ReadIntValue(buf: seq<Byte>, pos: nat)
    requires pos + 4 <= |buf|
    ensures ReadInt(buf, pos) == buf[pos] as int + 0x100 * buf[pos + 1] as int
                             + 0x1_0000 * buf[pos + 2] as int + 0x100_0000 * buf[pos + 3] as int
  {
    var b0, b1, b2, b3 := buf[pos], buf[pos + 1], buf[pos + 2], buf[pos + 3];
    var packed := BitOr(BitOr(BitOr(Shl32(b3, 24), Shl32(b2, 16)), Shl32(b1, 8)), b0);
    assert ReadInt(buf, pos) == packed % TWO_32;
    PackDisjoint(b3, b2, b1, b0);
    PackBound(b3, b2, b1, b0);
    var sum: int := b3 as int * 0x100_0000 + b2 as int * 0x1_0000 + b1 as int * 0x100 + b0 as int;
    assert packed == sum;
    ModSmall(sum);
  }

  lemma ModSmall(x: int)
    requires 0 <= x < TWO_32
    ensures x % TWO_32 == x
  {
  }

  /** A big-endian packing of four bytes fits in 32 bits. */
  lemma PackBound(a: Byte, b: Byte, c: Byte, d: Byte)
    ensures a * 0x100_0000 + b * 0x1_0000 + c * 0x100 + d < TWO_32
  {
    assert c * 0x100 + d < 0x1_0000;
    assert b * 0x1_0000 + c * 0x100 + d < 0x100_0000;
  }

  /** The low 16 bits of `read_int` are `read_short` at the same position, the high 16 bits `read_short` two bytes on. */
  lemma ReadIntHalves(buf: seq<Byte>, pos: nat)
    requires pos + 4 <= |buf|
    ensures ReadInt(buf, pos) % 0x1_0000 == ReadShort(buf, pos)
    ensures ReadInt(buf, pos) / 0x1_0000 == ReadShort(buf, pos + 2)
  {
    ReadIntValue(buf, pos);
    ReadShortValue(buf, pos);
    ReadShortValue(buf, pos + 2);
    var lo := buf[pos] as int + 0x100 * buf[pos + 1] as int;
    var hi := buf[pos + 2] as int + 0x100 * buf[pos + 3] as int;
    assert ReadInt(buf, pos) == lo + 0x1_0000 * hi;
    SplitHalves(lo, hi);
  }

  /** A value below 65536 plus a multiple of 65536 splits back into its two parts. */
  lemma SplitHalves(lo: int, hi: nat)
    requires 0 <= lo < 0x1_0000
    ensures (lo + 0x1_0000 * hi) % 0x1_0000 == lo
    ensures (lo + 0x1_0000 * hi) / 0x1_0000 == hi
  {
  }
}
