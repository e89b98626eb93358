/** The wire format of RFC 6455: the frames of section 5.2 and the messages of section 5.4,
    with the reference decoder and receiver that the servers' code is compared with. */
module Frames {
  import opened Masking

  const OPCODE_CONT: byte := 0x0
  const OPCODE_TEXT: byte := 0x1
  const OPCODE_BINARY: byte := 0x2
  const OPCODE_CLOSE: byte := 0x8
  const OPCODE_PING: byte := 0x9
  const OPCODE_PONG: byte := 0xA

  datatype Frame = Frame(fin: bool, opcode: byte, payload: seq<byte>)

  predicate IsData(opcode: byte) {
    opcode == OPCODE_CONT || opcode == OPCODE_TEXT || opcode == OPCODE_BINARY
  }

  // ---- Network-order integers ----

  function Pow256(k: nat): (p: nat)
    ensures 0 < p
  {
    if k == 0 then 1 else 256 * Pow256(k - 1)
  }

  function LowByte(n: nat): (b: byte)
    ensures b == n % 256
  {
    n % 256
  }

  function BigEndian(n: nat, k: nat): (r: seq<byte>)
    ensures |r| == k
  {
    if k == 0 then [] else BigEndian(n / 256, k - 1) + [LowByte(n)]
  }

  function FromBigEndian(s: seq<byte>): nat {
    if s == [] then 0 else FromBigEndian(s[..|s| - 1]) * 256 + s[|s| - 1]
  }

  lemma {:induction false} BigEndianRoundTrip(n: nat, k: nat)
    requires n < Pow256(k)
    ensures FromBigEndian(BigEndian(n, k)) == n
  {
    hide Pow256, LowByte, FromBigEndian, BigEndian;
    if k == 0 {
      NothingFits(n);
    } else {
      QuotientFits(n, k);
      BigEndianRoundTrip(n / 256, k - 1);
      BigEndianOneMore(n, k);
      FromOneMore(BigEndian(n / 256, k - 1), LowByte(n));
      QuotientAndLowByte(n);
    }
  }

  lemma NothingFits(n: nat)
    requires n < Pow256(0)
    ensures FromBigEndian(BigEndian(n, 0)) == n
  {
  }

  lemma BigEndianOneMore(n: nat, k: nat)
    requires 0 < k
    ensures BigEndian(n, k) == BigEndian(n / 256, k - 1) + [LowByte(n)]
  {
  }

  lemma QuotientFits(n: nat, k: nat)
    requires 0 < k && n < Pow256(k)
    ensures n / 256 < Pow256(k - 1)
  {
  }

  lemma QuotientAndLowByte(n: nat)
    ensures n / 256 * 256 + LowByte(n) == n
  {
  }

  lemma FromOneMore(s: seq<byte>, b: byte)
    ensures FromBigEndian(s + [b]) == FromBigEndian(s) * 256 + b
  {
    assert (s + [b])[..|s|] == s;
  }

  lemma Powers()
    ensures Pow256(2) == 0x1_0000 && Pow256(8) == 0x1_0000_0000_0000_0000
  {
    assert Pow256(2) == 256 * Pow256(1);
    assert Pow256(4) == 256 * (256 * Pow256(2));
    assert Pow256(6) == 256 * (256 * Pow256(4));
    assert Pow256(8) == 256 * (256 * Pow256(6));
  }

  // ---- Encoding ----

  /** Size of the extended length field: the shortest form that fits. */
  function ExtSize(n: nat): nat {
    if n <= 125 then 0 else if n < 65536 then 2 else 8
  }

  function Length7(n: nat): (l: nat)
    ensures l < 128
  {
    if n <= 125 then n else if n < 65536 then 126 else 127
  }

  function FirstByte(fin: bool, opcode: byte): byte {
    opcode % 0x10 + (if fin then 0x80 else 0)
  }

  function LengthByte(masked: bool, len7: nat): byte
    requires len7 < 128
  {
    (if masked then 0x80 else 0) + len7
  }

  function SecondByte(masked: bool, n: nat): byte {
    LengthByte(masked, Length7(n))
  }

  function Header(fin: bool, opcode: byte, masked: bool, n: nat): (h: seq<byte>)
    ensures |h| == 2 + ExtSize(n)
  {
    [FirstByte(fin, opcode), SecondByte(masked, n)] + BigEndian(n, ExtSize(n))
  }

  /** A frame as a server sends it: never masked. */
  function ServerFrame(f: Frame): seq<byte> {
    Header(f.fin, f.opcode, false, |f.payload|) + f.payload
  }

  /** A frame as a client sends it: always masked. */
  function ClientFrame(f: Frame, key: Key): seq<byte> {
    Header(f.fin, f.opcode, true, |f.payload|) + key + Masked(f.payload, key)
  }

  // The bit fields of the two leading bytes: 0x80, 0x70 and 0x0f of the first, 0x80 and 0x7f
  // of the second.

  predicate TopBit(b: byte) { 0x80 <= b }
  predicate ReservedBits(b: byte) { b / 0x10 % 8 != 0 }
  function OpcodeBits(b: byte): byte { b % 0x10 }
  function LengthBits(b: byte): (l: nat)
    ensures l < 128
  {
    b % 0x80
  }

  lemma FirstByteBits(fin: bool, opcode: byte)
    requires opcode < 16
    ensures OpcodeBits(FirstByte(fin, opcode)) == opcode
    ensures !ReservedBits(FirstByte(fin, opcode))
    ensures TopBit(FirstByte(fin, opcode)) <==> fin
  {
  }

  lemma SecondByteBits(masked: bool, n: nat)
    ensures TopBit(SecondByte(masked, n)) <==> masked
    ensures LengthBits(SecondByte(masked, n)) == Length7(n)
  {
  }

  // ---- The reference decoder of section 5.2 ----

  datatype Decoded = Partial | Malformed | Decoded(frame: Frame, masked: bool, rest: seq<byte>)

  /** Decodes one frame, insisting on zero reserved bits and the shortest length form. */
  function Decode(s: seq<byte>): (d: Decoded)
    ensures d.Decoded? ==> |d.rest| < |s|
  {
    if |s| < 2 then Partial
    else if ReservedBits(s[0]) then Malformed
    else DecodeLength(TopBit(s[0]), OpcodeBits(s[0]), TopBit(s[1]), LengthBits(s[1]), s[2..])
  }

  function DecodeLength(fin: bool, opcode: byte, masked: bool, len7: nat, s: seq<byte>): (d: Decoded)
    ensures d.Decoded? ==> |d.rest| <= |s|
  {
    var ext := if len7 == 126 then 2 else if len7 == 127 then 8 else 0;
    if |s| < ext then Partial
    else
      var n := if ext == 0 then len7 else FromBigEndian(s[..ext]);
      if (ext == 2 && n <= 125) || (ext == 8 && (n < 65536 || 0x8000_0000_0000_0000 <= n)) then Malformed
      else DecodeBody(fin, opcode, masked, n, s[ext..])
  }

  function DecodeBody(fin: bool, opcode: byte, masked: bool, n: nat, s: seq<byte>): (d: Decoded)
    ensures d.Decoded? ==> |d.rest| <= |s|
  {
    var keySize := if masked then 4 else 0;
    if |s| < keySize + n then Partial
    else
      var raw := s[keySize..keySize + n];
      var payload := if masked then Masked(raw, s[..4]) else raw;
      Decoded(Frame(fin, opcode, payload), masked, s[keySize + n..])
  }

  lemma DecodeHeader(fin: bool, opcode: byte, masked: bool, n: nat, body: seq<byte>)
    requires opcode < 16 && n < 0x8000_0000_0000_0000
    ensures Decode(Header(fin, opcode, masked, n) + body) == DecodeBody(fin, opcode, masked, n, body)
  {
    var s := Header(fin, opcode, masked, n) + body;
    FirstByteBits(fin, opcode);
    SecondByteBits(masked, n);
    assert s[0] == FirstByte(fin, opcode) && s[1] == SecondByte(masked, n);
    assert s[2..] == BigEndian(n, ExtSize(n)) + body;
    DecodeExtended(fin, opcode, masked, n, body);
  }

  lemma DecodeExtended(fin: bool, opcode: byte, masked: bool, n: nat, body: seq<byte>)
    requires n < 0x8000_0000_0000_0000
    ensures DecodeLength(fin, opcode, masked, Length7(n), BigEndian(n, ExtSize(n)) + body)
         == DecodeBody(fin, opcode, masked, n, body)
  {
    var ext := ExtSize(n);
    var s := BigEndian(n, ext) + body;
    assert s[..ext] == BigEndian(n, ext) && s[ext..] == body;
    if ext != 0 {
      Powers();
      BigEndianRoundTrip(n, ext);
    }
  }

  /** The decoder inverts the server's encoding, whatever follows on the wire. */
  lemma DecodeServerFrame(f: Frame, rest: seq<byte>)
    requires f.opcode < 16 && |f.payload| < 0x8000_0000_0000_0000
    ensures Decode(ServerFrame(f) + rest) == Decoded(f, false, rest)
  {
    var body := f.payload + rest;
    assert ServerFrame(f) + rest == Header(f.fin, f.opcode, false, |f.payload|) + body;
    DecodeHeader(f.fin, f.opcode, false, |f.payload|, body);
    assert body[0..|f.payload|] == f.payload && body[|f.payload|..] == rest;
  }

  /** The decoder inverts the client's encoding, whatever key masks it. */
  lemma DecodeClientFrame(f: Frame, key: Key, rest: seq<byte>)
    requires f.opcode < 16 && |f.payload| < 0x8000_0000_0000_0000
    ensures Decode(ClientFrame(f, key) + rest) == Decoded(f, true, rest)
  {
    hide Header, Decode, DecodeBody, Masked;
    var n := |f.payload|;
    var body := key + Masked(f.payload, key) + rest;
    assert ClientFrame(f, key) + rest == Header(f.fin, f.opcode, true, n) + body;
    DecodeHeader(f.fin, f.opcode, true, n, body);
    DecodeMasked(f, key, rest);
  }

  lemma DecodeMasked(f: Frame, key: Key, rest: seq<byte>)
    ensures DecodeBody(f.fin, f.opcode, true, |f.payload|, key + Masked(f.payload, key) + rest)
         == Decoded(f, true, rest)
  {
    hide Masked;
    var n := |f.payload|;
    var body := key + Masked(f.payload, key) + rest;
    assert body[..4] == key && body[4..4 + n] == Masked(f.payload, key) && body[4 + n..] == rest;
    MaskedTwice(f.payload, key);
  }

  /** Two frames that a server can send never share an encoding. */
  lemma ServerFrameInjective(f: Frame, g: Frame)
    requires f.opcode < 16 && g.opcode < 16
    requires |f.payload| < 0x8000_0000_0000_0000 && |g.payload| < 0x8000_0000_0000_0000
    requires ServerFrame(f) == ServerFrame(g)
    ensures f == g
  {
    DecodeServerFrame(f, []);
    DecodeServerFrame(g, []);
    assert ServerFrame(f) + [] == ServerFrame(g) + [];
  }

  // ---- The reference receiver of section 5.4 ----

  datatype Message = Rejected | Message(opcode: byte, payload: seq<byte>, rest: seq<byte>)

  /** Reads one data message: a TEXT or BINARY frame, then CONT frames until one has FIN. */
  function ReceiveMessage(s: seq<byte>): Message {
    match Decode(s)
    case Decoded(f, _, rest) =>
      if f.opcode != OPCODE_TEXT && f.opcode != OPCODE_BINARY then Rejected
      else if f.fin then Message(f.opcode, f.payload, rest)
      else ReceiveRest(f.opcode, f.payload, rest)
    case _ => Rejected
  }

  function ReceiveRest(opcode: byte, got: seq<byte>, s: seq<byte>): Message
    decreases |s|
  {
    match Decode(s)
    case Decoded(f, _, rest) =>
      if f.opcode != OPCODE_CONT then Rejected
      else if f.fin then Message(opcode, got + f.payload, rest)
      else ReceiveRest(opcode, got + f.payload, rest)
    case _ => Rejected
  }
}
