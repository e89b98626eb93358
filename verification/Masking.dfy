/** Payload masking of RFC 6455 section 5.3, as src/websocket.h performs it: in place, on
    whole 32-bit little-endian words, and therefore over up to three bytes past the payload. */
module Masking {
  import opened Arithmetic

  type byte = b: int | 0 <= b < 256

  /** A masking key: the four octets in the order they travel on the wire. */
  type Key = k: seq<byte> | |k| == 4 witness [0, 0, 0, 0]

  // ---- Exclusive or, by binary digits ----

  /** The exclusive or of two n-bit numbers. */
  function XorBits(a: nat, b: nat, n: nat): (r: nat)
    requires a < Pow2(n) && b < Pow2(n)
    ensures r < Pow2(n)
  {
    if n == 0 then 0
    else 2 * XorBits(a / 2, b / 2, n - 1) + (if a % 2 == b % 2 then 0 else 1)
  }

  lemma XorStep(a: nat, b: nat, n: nat)
    requires 0 < n && a < Pow2(n) && b < Pow2(n)
    ensures Pow2(n) == 2 * Pow2(n - 1) && a / 2 < Pow2(n - 1) && b / 2 < Pow2(n - 1)
    ensures XorBits(a, b, n) == 2 * XorBits(a / 2, b / 2, n - 1) + (if a % 2 == b % 2 then 0 else 1)
  {
  }

  lemma {:induction false} XorTwice(a: nat, k: nat, n: nat)
    requires a < Pow2(n) && k < Pow2(n)
    ensures XorBits(XorBits(a, k, n), k, n) == a
  {
    if n != 0 {
      hide XorBits, Pow2;
      XorStep(a, k, n);
      XorStep(XorBits(a, k, n), k, n);
      XorTwice(a / 2, k / 2, n - 1);
    }
  }

  lemma {:induction false} XorZero(a: nat, n: nat)
    requires a < Pow2(n)
    ensures XorBits(a, 0, n) == a
  {
    if n != 0 {
      XorZero(a / 2, n - 1);
    }
  }

  lemma {:induction false} Pow2Sum(n: nat, m: nat)
    ensures Pow2(n + m) == Pow2(n) * Pow2(m)
  {
    if n != 0 {
      Pow2Sum(n - 1, m);
      Doubles(Pow2(n - 1), Pow2(m));
    }
  }

  /** x, n digits further up. */
  function Shifted(x: nat, n: nat): nat {
    Pow2(n) * x
  }

  lemma ShiftedStep(x: nat, n: nat)
    requires 0 < n
    ensures Shifted(x, n) == 2 * Shifted(x, n - 1)
  {
    Doubles(Pow2(n - 1), x);
  }

  lemma Joined(a: nat, n: nat, x: nat, m: nat)
    requires a < Pow2(n) && x < Pow2(m)
    ensures a + Shifted(x, n) < Pow2(n + m)
  {
    hide Pow2;
    Pow2Sum(n, m);
    Product(Pow2(n), Pow2(n), x + 1, Pow2(m));
    assert Pow2(n) * (x + 1) == Pow2(n) * x + Pow2(n);
  }

  /** Exclusive or acts on the low n and the high m bits separately. */
  lemma {:induction false} XorSplits(a: nat, b: nat, n: nat, x: nat, y: nat, m: nat)
    requires a < Pow2(n) && b < Pow2(n) && x < Pow2(m) && y < Pow2(m)
    requires a + Shifted(x, n) < Pow2(n + m) && b + Shifted(y, n) < Pow2(n + m)
    ensures XorBits(a + Shifted(x, n), b + Shifted(y, n), n + m) == XorBits(a, b, n) + Shifted(XorBits(x, y, m), n)
  {
    hide XorBits, Pow2, Shifted;
    if n == 0 {
      NothingSplits(a, b, x, y, m);
    } else {
      XorStep(a, b, n);
      XorStep(a + Shifted(x, n), b + Shifted(y, n), n + m);
      Joined(a / 2, n - 1, x, m);
      Joined(b / 2, n - 1, y, m);
      XorSplits(a / 2, b / 2, n - 1, x, y, m);
      ShiftedStep(x, n);
      ShiftedStep(y, n);
      ShiftedStep(XorBits(x, y, m), n);
      HalfOfSum(a, Shifted(x, n - 1));
      HalfOfSum(b, Shifted(y, n - 1));
    }
  }

  lemma NothingSplits(a: nat, b: nat, x: nat, y: nat, m: nat)
    requires a < Pow2(0) && b < Pow2(0) && x < Pow2(m) && y < Pow2(m)
    ensures a + Shifted(x, 0) == x && b + Shifted(y, 0) == y
    ensures XorBits(a, b, 0) + Shifted(XorBits(x, y, m), 0) == XorBits(x, y, m)
  {
  }

  lemma Doubles(p: nat, z: nat)
    ensures 2 * p * z == 2 * (p * z)
  {
  }

  lemma HalfOfSum(a: nat, y: nat)
    ensures (a + 2 * y) / 2 == a / 2 + y && (a + 2 * y) % 2 == a % 2
  {
  }

  function Xor(a: byte, b: byte): byte {
    assert Pow2(4) == 16;
    assert Pow2(8) == 256;
    XorBits(a, b, 8)
  }

  lemma OctetXorTwice(a: byte, k: byte)
    ensures Xor(Xor(a, k), k) == a
  {
    XorTwice(a, k, 8);
  }

  lemma OctetXorZero(a: byte)
    ensures Xor(a, 0) == a
  {
    XorZero(a, 8);
  }

  // ---- The per-octet transform of section 5.3 ----

  /** Which key octet masks payload octet i: i modulo 4 (see PhaseIsModulo). */
  function Phase(i: nat): (p: nat)
    ensures p < 4
  {
    if i < 4 then i else Phase(i - 4)
  }

  lemma {:induction false} PhaseIsModulo(i: nat)
    ensures Phase(i) == i % 4
  {
    if 4 <= i {
      PhaseIsModulo(i - 4);
    }
  }

  lemma {:induction false} SamePhase(n: nat, i: nat)
    ensures Phase(4 * n + i) == Phase(i)
    ensures i < 4 ==> Phase(4 * n + i) == i
  {
    if n != 0 {
      SamePhase(n - 1, i);
      assert 4 * n + i - 4 == 4 * (n - 1) + i;
    }
  }

  function Masked(data: seq<byte>, key: Key): (r: seq<byte>)
    ensures |r| == |data|
    ensures forall i :: 0 <= i < |r| ==> r[i] == Xor(data[i], key[Phase(i)])
  {
    seq(|data|, i requires 0 <= i < |data| => Xor(data[i], key[Phase(i)]))
  }

  /** Masking is its own inverse. */
  lemma MaskedTwice(data: seq<byte>, key: Key)
    ensures Masked(Masked(data, key), key) == data
  {
    hide Xor, Phase, Masked;
    forall i | 0 <= i < |data|
      ensures Masked(Masked(data, key), key)[i] == data[i]
    {
      OctetXorTwice(data[i], key[Phase(i)]);
    }
  }

  /** Unmasking piece by piece agrees with unmasking at once whenever every piece but the
      last is a whole number of words, as 4096-byte pieces are. */
  lemma MaskedPieces(a: seq<byte>, b: seq<byte>, key: Key)
    requires |a| % 4 == 0
    ensures Masked(a + b, key) == Masked(a, key) + Masked(b, key)
  {
    hide XorBits, Xor, Phase;
    hide Masked;
    var whole, left, right := Masked(a + b, key), Masked(a, key), Masked(b, key);
    forall i | 0 <= i < |b|
      ensures whole[|a| + i] == right[i]
    {
      SamePhase(|a| / 4, i);
      assert (a + b)[|a| + i] == b[i];
    }
    forall i | 0 <= i < |a|
      ensures whole[i] == left[i]
    {
      assert (a + b)[i] == a[i];
    }
  }

  // ---- The word loop ----

  /** A 32-bit word as a little-endian host reads it from memory. */
  function Word(b0: byte, b1: byte, b2: byte, b3: byte): (w: nat)
    ensures w < 0x1_0000_0000
  {
    b0 + 0x100 * (b1 + 0x100 * (b2 + 0x100 * b3))
  }

  function KeyWord(key: Key): nat {
    Word(key[0], key[1], key[2], key[3])
  }

  lemma WordPowers()
    ensures Pow2(8) == 0x100 && Pow2(16) == 0x1_0000 && Pow2(24) == 0x100_0000 && Pow2(32) == 0x1_0000_0000
  {
    assert Pow2(4) == 16;
    assert Pow2(8) == 16 * Pow2(4);
    assert Pow2(12) == 16 * Pow2(8);
    assert Pow2(16) == 16 * Pow2(12);
    assert Pow2(20) == 16 * Pow2(16);
    assert Pow2(24) == 16 * Pow2(20);
    assert Pow2(28) == 16 * Pow2(24);
    assert Pow2(32) == 16 * Pow2(28);
  }

  /** A word-wide exclusive or is the octet-wise one. */
  lemma XorWords(a: byte, b: byte, c: byte, d: byte, key: Key)
    ensures Pow2(32) == 0x1_0000_0000
    ensures XorBits(Word(a, b, c, d), KeyWord(key), 32)
         == Word(Xor(a, key[0]), Xor(b, key[1]), Xor(c, key[2]), Xor(d, key[3]))
  {
    hide XorBits, Xor, Pow2;
    XorOctets(a, b, c, d, key[0], key[1], key[2], key[3]);
  }

  lemma XorOctets(a: byte, b: byte, c: byte, d: byte, e: byte, f: byte, g: byte, h: byte)
    ensures Pow2(32) == 0x1_0000_0000
    ensures XorBits(Word(a, b, c, d), Word(e, f, g, h), 32) == Word(Xor(a, e), Xor(b, f), Xor(c, g), Xor(d, h))
  {
    WordPowers();
    hide XorBits, Xor, Pow2;
    XorIsBits(d, h);
    XorOctet(c, g, d, h, 8);
    XorOctet(b, f, c + 0x100 * d, g + 0x100 * h, 16);
    XorOctet(a, e, b + 0x100 * (c + 0x100 * d), f + 0x100 * (g + 0x100 * h), 24);
  }

  lemma XorIsBits(a: byte, b: byte)
    ensures Pow2(8) == 256 && Xor(a, b) == XorBits(a, b, 8)
  {
    WordPowers();
  }

  lemma XorOctet(a: byte, b: byte, x: nat, y: nat, m: nat)
    requires x < Pow2(m) && y < Pow2(m)
    ensures Pow2(8 + m) == 0x100 * Pow2(m)
    ensures a + 0x100 * x < Pow2(8 + m) && b + 0x100 * y < Pow2(8 + m)
    ensures XorBits(a + 0x100 * x, b + 0x100 * y, 8 + m) == Xor(a, b) + 0x100 * XorBits(x, y, m)
  {
    WordPowers();
    hide XorBits, Pow2;
    Pow2Sum(8, m);
    assert Shifted(x, 8) == 0x100 * x && Shifted(y, 8) == 0x100 * y;
    assert Shifted(XorBits(x, y, m), 8) == 0x100 * XorBits(x, y, m);
    hide Shifted;
    Joined(a, 8, x, m);
    Joined(b, 8, y, m);
    XorSplits(a, b, 8, x, y, m);
  }

  /** The octets of a word, least significant first. */
  function Octets(w: nat): (r: seq<byte>)
    ensures |r| == 4
  {
    [w % 0x100, w / 0x100 % 0x100, w / 0x100 / 0x100 % 0x100, w / 0x100 / 0x100 / 0x100 % 0x100]
  }

  lemma OctetsOfWord(a: byte, b: byte, c: byte, d: byte)
    ensures Octets(Word(a, b, c, d)) == [a, b, c, d]
  {
    var bcd := b + 0x100 * (c + 0x100 * d);
    assert Word(a, b, c, d) / 0x100 == bcd;
    assert bcd / 0x100 == c + 0x100 * d;
  }

  lemma ZeroKey(key: Key)
    requires KeyWord(key) == 0
    ensures key == [0, 0, 0, 0]
  {
    var k2: int, k3: int := key[2], key[3];
    var high: int := key[1] + 0x100 * (k2 + 0x100 * k3);
    assert KeyWord(key) == key[0] + 0x100 * high;
    assert high == 0;
  }

  /** Skipping the loop for a zero key changes nothing. */
  lemma MaskedByZero(data: seq<byte>, key: Key)
    requires KeyWord(key) == 0
    ensures Masked(data, key) == data
  {
    ZeroKey(key);
    MaskedByZeros(data);
  }

  lemma MaskedByZeros(data: seq<byte>)
    ensures Masked(data, [0, 0, 0, 0]) == data
  {
    var key: Key := [0, 0, 0, 0];
    hide Xor, Phase, Masked;
    forall i | 0 <= i < |data| ensures Masked(data, key)[i] == data[i] {
      OctetXorZero(data[i]);
      assert key[Phase(i)] == 0;
    }
  }

  /** Number of words the unmasking loop touches for a payload of `size` bytes. */
  function WordsFor(size: nat): (n: nat)
    ensures size <= 4 * n < size + 4
  {
    (size + 3) / 4
  }

  /** Number of bytes that unmasking a payload of `size` bytes writes: whole words, or nothing
      beyond the payload if the key is zero. */
  function Extent(size: nat, key: Key): (n: nat)
    ensures size <= n <= size + 3
  {
    if KeyWord(key) == 0 then size else 4 * WordsFor(size)
  }

  /** One turn of the unmasking loop. */
  method UnmaskWord(buffer: array<byte>, p: nat, key: Key)
    requires p + 4 <= buffer.Length
    modifies buffer
    ensures buffer[p] == Xor(old(buffer[p]), key[0]) && buffer[p + 1] == Xor(old(buffer[p + 1]), key[1])
    ensures buffer[p + 2] == Xor(old(buffer[p + 2]), key[2]) && buffer[p + 3] == Xor(old(buffer[p + 3]), key[3])
    ensures forall j :: 0 <= j < p || p + 4 <= j < buffer.Length ==> buffer[j] == old(buffer[j])
  {
    hide XorBits, Xor, Word, Octets;
    var b0, b1, b2, b3 := buffer[p], buffer[p + 1], buffer[p + 2], buffer[p + 3];
    XorWords(b0, b1, b2, b3, key);
    OctetsOfWord(Xor(b0, key[0]), Xor(b1, key[1]), Xor(b2, key[2]), Xor(b3, key[3]));
    var r := Octets(XorBits(Word(b0, b1, b2, b3), KeyWord(key), 32));
    buffer[p], buffer[p + 1], buffer[p + 2], buffer[p + 3] := r[0], r[1], r[2], r[3];
  }

  /** The unmasking loop, on the words at `off` of a larger buffer.  The last word may reach
      past the payload; those slack bytes must exist, and their value does not matter. */
  method UnmaskInPlace(buffer: array<byte>, off: nat, size: nat, key: Key)
    requires off + Extent(size, key) <= buffer.Length
    modifies buffer
    ensures buffer[off..off + size] == Masked(old(buffer[off..off + size]), key)
    ensures forall j :: 0 <= j < off || off + Extent(size, key) <= j < buffer.Length ==>
                          buffer[j] == old(buffer[j])
  {
    hide XorBits, Xor, Phase, Masked;
    if KeyWord(key) == 0 {
      MaskedByZero(buffer[off..off + size], key);
      return;
    }
    var len32 := WordsFor(size);
    var i := 0;
    while i < len32
      invariant 0 <= i <= len32
      invariant forall j :: 0 <= j < 4 * i ==> buffer[off + j] == Xor(old(buffer[off + j]), key[Phase(j)])
      invariant forall j :: 0 <= j < off || off + 4 * i <= j < buffer.Length ==> buffer[j] == old(buffer[j])
    {
      SamePhase(i, 0);
      SamePhase(i, 1);
      SamePhase(i, 2);
      SamePhase(i, 3);
      UnmaskWord(buffer, off + 4 * i, key);
      i := i + 1;
    }
  }
}
