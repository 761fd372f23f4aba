/** Bytes as bits, eight bytes as a word, and the word test of the XBZRLE encoder (qemu/xbzrle.c). */
module Words {
  import opened Basics

  function Glue(low: bv8, high: bv8): bv8 {
    low | (high << 4)
  }

  /** A byte as its bits. */
  function Bits(x: byte): bv8 {
    Glue((x % 16) as bv8, (x / 16) as bv8)
  }

  function Low(x: bv8): (r: bv8)
    ensures r <= 15
  {
    x & 15
  }

  function High(x: bv8): (r: bv8)
    ensures r <= 15
  {
    x >> 4
  }

  /** A nibble as a number. */
  function Number(x: bv8): (n: nat)
    requires x <= 15
    ensures n < 16 && n as bv8 == x
  {
    x as int
  }

  /** The byte of some bits. */
  function Byte(x: bv8): byte {
    Number(Low(x)) + 16 * Number(High(x))
  }

  lemma GlueBack(x: bv8)
    ensures Glue(Low(x), High(x)) == x
  {
  }

  lemma Parts(low: nat, high: nat)
    requires low < 16 && high < 16
    ensures (low + 16 * high) % 16 == low && (low + 16 * high) / 16 == high
  {
  }

  lemma BitsOfByte(x: bv8)
    ensures Bits(Byte(x)) == x
  {
    hide Glue, Low, High, Number;
    GlueBack(x);
    Parts(Number(Low(x)), Number(High(x)));
  }

  lemma NibblesApart(x: nat, y: nat)
    requires x < 16 && y < 16
    ensures x as bv8 == y as bv8 <==> x == y
    ensures x as bv8 <= 15
  {
  }

  lemma GlueApart(a: bv8, b: bv8, c: bv8, d: bv8)
    requires a <= 15 && b <= 15 && c <= 15 && d <= 15
    ensures Glue(a, b) == Glue(c, d) <==> a == c && b == d
  {
  }

  lemma BitsApart(x: byte, y: byte)
    ensures Bits(x) == Bits(y) <==> x == y
  {
    hide Glue;
    NibblesApart(x % 16, y % 16);
    NibblesApart(x / 16, y / 16);
    NibblesApart(y % 16, x % 16);
    NibblesApart(y / 16, x / 16);
    GlueApart((x % 16) as bv8, (x / 16) as bv8, (y % 16) as bv8, (y / 16) as bv8);
  }

  function Join(b0: bv8, b1: bv8, b2: bv8, b3: bv8, b4: bv8, b5: bv8, b6: bv8, b7: bv8): bv64 {
    (b0 as bv64) | ((b1 as bv64) << 8) | ((b2 as bv64) << 16) | ((b3 as bv64) << 24) |
    ((b4 as bv64) << 32) | ((b5 as bv64) << 40) | ((b6 as bv64) << 48) | ((b7 as bv64) << 56)
  }

  function Xor8(x: bv8, y: bv8): bv8 {
    x ^ y
  }

  function Xor64(x: bv64, y: bv64): bv64 {
    x ^ y
  }

  /** Some byte of the word is zero: `(x - mask) & ~x & (mask << 7)`. */
  predicate HasZero(x: bv64) {
    (x - 0x0101010101010101) & !x & (0x0101010101010101 << 7) != 0
  }

  lemma HasZeroByte(x: bv64)
    ensures HasZero(x) <==>
            (x & 0xFF == 0 || x & 0xFF00 == 0 || x & 0xFF0000 == 0 || x & 0xFF000000 == 0 || x & 0xFF00000000 == 0 ||
             x & 0xFF0000000000 == 0 || x & 0xFF000000000000 == 0 || x & 0xFF00000000000000 == 0)
  {
  }

  lemma JoinZero(b0: bv8, b1: bv8, b2: bv8, b3: bv8, b4: bv8, b5: bv8, b6: bv8, b7: bv8)
    ensures HasZero(Join(b0, b1, b2, b3, b4, b5, b6, b7)) <==>
            b0 == 0 || b1 == 0 || b2 == 0 || b3 == 0 || b4 == 0 || b5 == 0 || b6 == 0 || b7 == 0
  {
    HasZeroByte(Join(b0, b1, b2, b3, b4, b5, b6, b7));
    hide HasZero;
  }

  lemma JoinXor(a0: bv8, a1: bv8, a2: bv8, a3: bv8, a4: bv8, a5: bv8, a6: bv8, a7: bv8,
                b0: bv8, b1: bv8, b2: bv8, b3: bv8, b4: bv8, b5: bv8, b6: bv8, b7: bv8)
    ensures Xor64(Join(a0, a1, a2, a3, a4, a5, a6, a7), Join(b0, b1, b2, b3, b4, b5, b6, b7)) ==
            Join(Xor8(a0, b0), Xor8(a1, b1), Xor8(a2, b2), Xor8(a3, b3),
                 Xor8(a4, b4), Xor8(a5, b5), Xor8(a6, b6), Xor8(a7, b7))
  {
  }

  /** Eight bytes of a buffer, read as a word. */
  function WordAt(s: seq<byte>, i: nat): bv64
    requires i + 8 <= |s|
  {
    Join(Bits(s[i]), Bits(s[i + 1]), Bits(s[i + 2]), Bits(s[i + 3]),
         Bits(s[i + 4]), Bits(s[i + 5]), Bits(s[i + 6]), Bits(s[i + 7]))
  }

  ghost predicate SomeCommon(a: seq<byte>, b: seq<byte>, i: nat)
    requires i + 8 <= |a| == |b|
  {
    exists k :: i <= k < i + 8 && a[k] == b[k]
  }

  function Xor(x: byte, y: byte): bv8 {
    Xor8(Bits(x), Bits(y))
  }

  lemma XorZero(x: byte, y: byte)
    ensures Xor(x, y) == 0 <==> x == y
  {
    hide Bits;
    BitsApart(x, y);
  }

  lemma WordsXor(a: seq<byte>, b: seq<byte>, i: nat)
    requires i + 8 <= |a| == |b|
    ensures Xor64(WordAt(a, i), WordAt(b, i)) ==
            Join(Xor(a[i], b[i]), Xor(a[i + 1], b[i + 1]), Xor(a[i + 2], b[i + 2]), Xor(a[i + 3], b[i + 3]),
                 Xor(a[i + 4], b[i + 4]), Xor(a[i + 5], b[i + 5]), Xor(a[i + 6], b[i + 6]), Xor(a[i + 7], b[i + 7]))
  {
    hide Join, Bits, Xor8, Xor64;
    JoinXor(Bits(a[i]), Bits(a[i + 1]), Bits(a[i + 2]), Bits(a[i + 3]),
            Bits(a[i + 4]), Bits(a[i + 5]), Bits(a[i + 6]), Bits(a[i + 7]),
            Bits(b[i]), Bits(b[i + 1]), Bits(b[i + 2]), Bits(b[i + 3]),
            Bits(b[i + 4]), Bits(b[i + 5]), Bits(b[i + 6]), Bits(b[i + 7]));
  }

  /** The word test of the encoder: two words have a byte in common. */
  lemma WordsMeet(a: seq<byte>, b: seq<byte>, i: nat)
    requires i + 8 <= |a| == |b|
    ensures HasZero(Xor64(WordAt(a, i), WordAt(b, i))) <==> SomeCommon(a, b, i)
  {
    hide Join, HasZero, Xor, Xor64, WordAt;
    WordsXor(a, b, i);
    JoinZero(Xor(a[i], b[i]), Xor(a[i + 1], b[i + 1]), Xor(a[i + 2], b[i + 2]), Xor(a[i + 3], b[i + 3]),
             Xor(a[i + 4], b[i + 4]), Xor(a[i + 5], b[i + 5]), Xor(a[i + 6], b[i + 6]), Xor(a[i + 7], b[i + 7]));
    forall k | i <= k < i + 8 ensures Xor(a[k], b[k]) == 0 <==> a[k] == b[k] {
      XorZero(a[k], b[k]);
    }
  }
}
