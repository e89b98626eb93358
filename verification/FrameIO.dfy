/** The frame writer and readers of src/websocket.h, on a client connection whose reads and
    writes may be arbitrarily short. */
module FrameIO {
  import opened Masking
  import opened Frames
  import opened Streams
  import opened Options
  import opened Sequences

  const FRAME_MAX_HEADER_SIZE: nat := 16
  const MAX_FRAME_SIZE: nat := 0x100_0000
  const MAX_INT: nat := 0x7fff_ffff

  /** What a closing server says, when it says anything. */
  function CloseBytes(notify: bool): seq<byte> {
    if notify then ServerFrame(Frame(true, OPCODE_CLOSE, [])) else []
  }

  // ---- What the server makes of the bytes of one frame ----

  datatype Received =
    | Lost(notify: bool)
    | Control(pong: Option<nat>, rest: seq<byte>)
    | Data(fin: bool, length: nat, key: Key, rest: seq<byte>)

  /** The header reader on a reliable connection: data frames leave their payload unread,
      PING and PONG frames are consumed, everything else ends the connection. */
  function Receive(s: seq<byte>): (r: Received)
    ensures r.Control? || r.Data? ==> |r.rest| < |s|
    ensures r.Data? ==> r.length <= MAX_FRAME_SIZE
  {
    if |s| < 2 then Lost(false)
    else if ReservedBits(s[0]) then Lost(true)
    else ReceiveLength(TopBit(s[0]), OpcodeBits(s[0]), TopBit(s[1]), LengthBits(s[1]), s[2..])
  }

  function ReceiveLength(fin: bool, opcode: byte, masked: bool, len7: nat, s: seq<byte>): (r: Received)
    ensures r.Control? || r.Data? ==> |r.rest| <= |s|
    ensures r.Data? ==> r.length <= MAX_FRAME_SIZE
  {
    var ext := if len7 == 126 then 2 else if len7 == 127 then 8 else 0;
    if |s| < ext then Lost(false)
    else ReceiveKey(fin, opcode, masked, if ext == 0 then len7 else FromBigEndian(s[..ext]), s[ext..])
  }

  function ReceiveKey(fin: bool, opcode: byte, masked: bool, n: nat, s: seq<byte>): (r: Received)
    ensures r.Control? || r.Data? ==> |r.rest| <= |s|
    ensures r.Data? ==> r.length <= MAX_FRAME_SIZE
  {
    if !masked then Lost(true)
    else if |s| < 4 then Lost(false)
    else ReceiveBody(fin, opcode, n, s[..4], s[4..])
  }

  function ReceiveBody(fin: bool, opcode: byte, n: nat, key: Key, s: seq<byte>): (r: Received)
    ensures r.Control? || r.Data? ==> |r.rest| <= |s|
    ensures r.Data? ==> r.length <= MAX_FRAME_SIZE
  {
    if n > MAX_FRAME_SIZE then Lost(true)
    else if IsData(opcode) then Data(fin, n, key, s)
    else if !fin then Lost(true)
    else if |s| < n then Lost(false)
    else if opcode == OPCODE_PING then Control(Some(n), s[n..])
    else if opcode == OPCODE_PONG then Control(None, s[n..])
    else Lost(true)
  }

  /** The server understands every frame of a well-behaved client up to 16 MiB. */
  lemma ReceivesClientFrame(f: Frame, key: Key, rest: seq<byte>)
    requires f.opcode < 16 && |f.payload| <= MAX_FRAME_SIZE
    ensures Receive(ClientFrame(f, key) + rest)
         == ReceiveBody(f.fin, f.opcode, |f.payload|, key, Masked(f.payload, key) + rest)
  {
    hide Receive, ReceiveLength, ReceiveBody, Header, BigEndian, Masked;
    var n := |f.payload|;
    var body := key + (Masked(f.payload, key) + rest);
    assert ClientFrame(f, key) + rest == Header(f.fin, f.opcode, true, n) + body;
    ReceivesHeader(f.fin, f.opcode, true, n, body);
    assert BigEndian(n, ExtSize(n)) + body == BigEndian(n, ExtSize(n)) + key + (Masked(f.payload, key) + rest);
    ReceivesLength(f.fin, f.opcode, n, key, Masked(f.payload, key) + rest);
  }

  /** What becomes of every frame a client can send: data goes on, PING and PONG are consumed, and
      everything else, CLOSE among it, ends the connection with notice. */
  lemma ReceivesEvery(f: Frame, key: Key, rest: seq<byte>)
    requires f.opcode < 16 && |f.payload| < 0x8000_0000_0000_0000
    ensures Receive(ClientFrame(f, key) + rest)
         == if |f.payload| > 0x100_0000 then Lost(true)
            else if f.opcode == 0 || f.opcode == 1 || f.opcode == 2 then
              Data(f.fin, |f.payload|, key, Masked(f.payload, key) + rest)
            else if f.fin && f.opcode == 9 then Control(Some(|f.payload|), rest)
            else if f.fin && f.opcode == 10 then Control(None, rest)
            else Lost(true)
  {
    if |f.payload| > MAX_FRAME_SIZE {
      ReceivesTooLong(f, key, rest);
    } else {
      ReceivesClientFrame(f, key, rest);
      hide Receive, ClientFrame, Masked;
      assert (Masked(f.payload, key) + rest)[|f.payload|..] == rest;
    }
  }

  /** A client must mask its frames. */
  lemma UnmaskedIsLost(f: Frame, rest: seq<byte>)
    requires f.opcode < 16 && |f.payload| < 0x8000_0000_0000_0000
    ensures Receive(ServerFrame(f) + rest) == Lost(true)
  {
    hide Receive, BigEndian;
    var n := |f.payload|;
    var body := f.payload + rest;
    assert ServerFrame(f) + rest == Header(f.fin, f.opcode, false, n) + body;
    hide Header;
    ReceivesHeader(f.fin, f.opcode, false, n, body);
    var ext := BigEndian(n, ExtSize(n)) + body;
    assert ReceiveLength(f.fin, f.opcode, false, Length7(n), ext) == Lost(true);
  }

  /** A frame whose reserved bits are r is refused, unless they are zero. */
  lemma ReservedIsLost(fin: bool, r: nat, opcode: nat, more: seq<byte>)
    requires 0 < r < 8 && opcode < 16 && more != []
    ensures Receive([(if fin then 0x80 else 0) + 0x10 * r + opcode] + more) == Lost(true)
  {
    var first := (if fin then 0x80 else 0) + 0x10 * r + opcode;
    assert first / 0x10 == (if fin then 8 else 0) + r;
  }

  /** What a client sees of a connection that is closed with notice, and of one that is not. */
  lemma NoticeIsClose()
    ensures Decode(CloseBytes(true)) == Decoded(Frame(true, 8, []), false, []) && CloseBytes(false) == []
  {
    DecodeServerFrame(Frame(true, 8, []), []);
    assert CloseBytes(true) + [] == CloseBytes(true);
  }

  lemma ReceivesTooLong(f: Frame, key: Key, rest: seq<byte>)
    requires f.opcode < 16 && MAX_FRAME_SIZE < |f.payload| < 0x8000_0000_0000_0000
    ensures Receive(ClientFrame(f, key) + rest) == Lost(true)
  {
    hide Receive, ReceiveLength, ReceiveBody, Header, BigEndian, Masked;
    var n := |f.payload|;
    var body := key + (Masked(f.payload, key) + rest);
    assert ClientFrame(f, key) + rest == Header(f.fin, f.opcode, true, n) + body;
    ReceivesHeader(f.fin, f.opcode, true, n, body);
    assert BigEndian(n, ExtSize(n)) + body == BigEndian(n, ExtSize(n)) + key + (Masked(f.payload, key) + rest);
    ReceivesLength(f.fin, f.opcode, n, key, Masked(f.payload, key) + rest);
    TooLongIsLost(f.fin, f.opcode, n, key, Masked(f.payload, key) + rest);
  }

  lemma TooLongIsLost(fin: bool, opcode: byte, n: nat, key: Key, s: seq<byte>)
    requires MAX_FRAME_SIZE < n
    ensures ReceiveBody(fin, opcode, n, key, s) == Lost(true)
  {
  }

  lemma ReceivesHeader(fin: bool, opcode: byte, masked: bool, n: nat, body: seq<byte>)
    requires opcode < 16
    ensures Receive(Header(fin, opcode, masked, n) + body)
         == ReceiveLength(fin, opcode, masked, Length7(n), BigEndian(n, ExtSize(n)) + body)
  {
    var s := Header(fin, opcode, masked, n) + body;
    FirstByteBits(fin, opcode);
    SecondByteBits(masked, n);
    assert s[0] == FirstByte(fin, opcode) && s[1] == SecondByte(masked, n);
    assert s[2..] == BigEndian(n, ExtSize(n)) + body;
  }

  lemma ReceivesLength(fin: bool, opcode: byte, n: nat, key: Key, body: seq<byte>)
    requires n < 0x8000_0000_0000_0000
    ensures ReceiveLength(fin, opcode, true, Length7(n), BigEndian(n, ExtSize(n)) + key + body)
         == ReceiveBody(fin, opcode, n, key, body)
  {
    var ext := ExtSize(n);
    var s := BigEndian(n, ext) + key + body;
    assert s[..ext] == BigEndian(n, ext) && s[ext..] == key + body;
    assert (key + body)[..4] == key && (key + body)[4..] == body;
    if ext != 0 {
      Powers();
      BigEndianRoundTrip(n, ext);
    }
  }

  // ---- What the server makes of a whole message ----

  datatype MessageRead =
    | Broken(notify: bool, pongs: seq<nat>)
    | Complete(payload: seq<byte>, rest: seq<byte>, pongs: seq<nat>)

  function Prepend(payload: seq<byte>, pongs: seq<nat>, m: MessageRead): MessageRead {
    match m
    case Broken(notify, p) => Broken(notify, pongs + p)
    case Complete(data, rest, p) => Complete(payload + data, rest, pongs + p)
  }

  function Pongs(p: Option<nat>): seq<nat> {
    if p.Some? then [p.value] else []
  }

  /** Reads a fragmented message into a buffer that still has `room` bytes. */
  function ReadMessage(s: seq<byte>, room: nat): MessageRead
    decreases |s|
  {
    match Receive(s)
    case Lost(notify) => Broken(notify, [])
    case Control(p, rest) => Prepend([], Pongs(p), ReadMessage(rest, room))
    case Data(fin, len, key, rest) =>
      if len > room then Broken(true, [])
      else if |rest| < len then Broken(false, [])
      else if fin then Complete(Masked(rest[..len], key), rest[len..], [])
      else Prepend(Masked(rest[..len], key), [], ReadMessage(rest[len..], room - len))
  }

  /** How far from its start reading a message writes into the buffer. */
  function Reach(s: seq<byte>, room: nat): (n: nat)
    ensures n <= room + 3
    decreases |s|
  {
    match Receive(s)
    case Lost(_) => 0
    case Control(_, rest) => Reach(rest, room)
    case Data(fin, len, key, rest) =>
      if len > room then 0
      else if |rest| < len then len
      else if fin then Extent(len, key)
      else Max(Extent(len, key), len + Reach(rest[len..], room - len))
  }

  function Max(a: nat, b: nat): nat {
    if a < b then b else a
  }

  // ---- Messages as a client sends them ----

  /** One masked frame of a message: a fragment of its data, or a control frame in between. */
  datatype Part =
    | Fragment(opcode: byte, data: seq<byte>, key: Key)
    | Ping(data: seq<byte>, key: Key)
    | Pong(data: seq<byte>, key: Key)
  {
    predicate Valid() {
      |data| <= MAX_FRAME_SIZE && (Fragment? ==> IsData(opcode))
    }

    function ToFrame(last: bool): Frame {
      match this
      case Fragment(opcode, data, _) => Frame(last, opcode, data)
      case Ping(data, _) => Frame(true, OPCODE_PING, data)
      case Pong(data, _) => Frame(true, OPCODE_PONG, data)
    }
  }

  /** Data fragments interleaved with PING and PONG frames, the last of them a fragment. */
  predicate ValidParts(parts: seq<Part>) {
    parts != [] && parts[|parts| - 1].Fragment? && forall p :: p in parts ==> p.Valid()
  }

  function Encode(parts: seq<Part>): seq<byte> {
    if parts == [] then []
    else ClientFrame(parts[0].ToFrame(|parts| == 1), parts[0].key) + Encode(parts[1..])
  }

  /** The message the fragments carry. */
  function Payload(parts: seq<Part>): seq<byte> {
    if parts == [] then []
    else (if parts[0].Fragment? then parts[0].data else []) + Payload(parts[1..])
  }

  /** Lengths of the PING frames, in order. */
  function Pings(parts: seq<Part>): seq<nat> {
    if parts == [] then []
    else (if parts[0].Ping? then [|parts[0].data|] else []) + Pings(parts[1..])
  }

  lemma ReceivesPart(p: Part, last: bool, rest: seq<byte>)
    requires p.Valid()
    ensures var r := Receive(ClientFrame(p.ToFrame(last), p.key) + rest);
            match p
            case Fragment(_, data, key) => r == Data(last, |data|, key, Masked(data, key) + rest)
            case Ping(data, _) => r == Control(Some(|data|), rest)
            case Pong(_, _) => r == Control(None, rest)
  {
    ReceivesClientFrame(p.ToFrame(last), p.key, rest);
    assert (Masked(p.data, p.key) + rest)[|p.data|..] == rest;
  }

  /** One part of a message, read with `room` bytes left in the buffer. */
  lemma ReadsPart(p: Part, last: bool, tail: seq<byte>, room: nat)
    requires p.Valid()
    ensures var m := ReadMessage(ClientFrame(p.ToFrame(last), p.key) + tail, room);
            match p
            case Fragment(_, data, _) =>
              if |data| > room then m == Broken(true, [])
              else if last then m == Complete(data, tail, [])
              else m == Prepend(data, [], ReadMessage(tail, room - |data|))
            case Ping(data, _) => m == Prepend([], [|data|], ReadMessage(tail, room))
            case Pong(_, _) => m == Prepend([], [], ReadMessage(tail, room))
  {
    hide Receive, ClientFrame, Masked;
    ReceivesPart(p, last, tail);
    if p.Fragment? {
      ReadsFragment(ClientFrame(p.ToFrame(last), p.key) + tail, last, p.data, p.key, tail, room);
    }
  }

  lemma ReadsFragment(s: seq<byte>, fin: bool, data: seq<byte>, key: Key, tail: seq<byte>, room: nat)
    requires Receive(s) == Data(fin, |data|, key, Masked(data, key) + tail)
    ensures ReadMessage(s, room)
         == if |data| > room then Broken(true, [])
            else if fin then Complete(data, tail, [])
            else Prepend(data, [], ReadMessage(tail, room - |data|))
  {
    hide Receive, Masked;
    var raw := Masked(data, key);
    assert (raw + tail)[..|data|] == raw && (raw + tail)[|data|..] == tail;
    MaskedTwice(data, key);
  }

  /** Reassembly: whatever the fragmentation, the keys and the interleaved control frames,
      the reader returns the concatenated payload and consumes exactly the message, unless
      the payload does not fit. */
  lemma {:induction false} ReadsMessage(parts: seq<Part>, rest: seq<byte>, room: nat)
    requires ValidParts(parts)
    ensures var m := ReadMessage(Encode(parts) + rest, room);
            if |Payload(parts)| <= room then m == Complete(Payload(parts), rest, Pings(parts))
            else m.Broken? && m.notify
  {
    hide ReadMessage, ClientFrame;
    var p, more := parts[0], parts[1..];
    var tail := Encode(more) + rest;
    EncodeFirst(parts, rest);
    ReadsPart(p, |parts| == 1, tail, room);
    if |parts| == 1 {
      assert tail == rest;
    } else if p.Fragment? {
      if |p.data| <= room {
        ReadsMessage(more, rest, room - |p.data|);
      }
    } else {
      ReadsMessage(more, rest, room);
    }
  }

  /** Frames of a message that goes on. */
  function EncodeOpen(parts: seq<Part>): seq<byte> {
    if parts == [] then [] else ClientFrame(parts[0].ToFrame(false), parts[0].key) + EncodeOpen(parts[1..])
  }

  lemma EncodeOpenFirst(parts: seq<Part>, rest: seq<byte>)
    requires parts != []
    ensures EncodeOpen(parts) + rest
         == ClientFrame(parts[0].ToFrame(false), parts[0].key) + (EncodeOpen(parts[1..]) + rest)
  {
    hide ClientFrame;
    Associative(ClientFrame(parts[0].ToFrame(false), parts[0].key), EncodeOpen(parts[1..]), rest);
  }

  /** Whatever parts of a message came before, it ends with what ends a connection, such as a CLOSE
      frame (see ReceivesEvery); the PING frames before it were answered. */
  lemma {:induction false} EndsAnywhere(parts: seq<Part>, s: seq<byte>, room: nat)
    requires (forall p :: p in parts ==> p.Valid()) && |Payload(parts)| <= room && Receive(s).Lost?
    ensures ReadMessage(EncodeOpen(parts) + s, room) == Broken(Receive(s).notify, Pings(parts))
  {
    if parts == [] {
      assert [] + s == s;
    } else {
      hide ReadMessage, ClientFrame, EncodeOpen;
      var p, more := parts[0], parts[1..];
      EncodeOpenFirst(parts, s);
      ReadsPart(p, false, EncodeOpen(more) + s, room);
      EndsAnywhere(more, s, if p.Fragment? then room - |p.data| else room);
    }
  }

  lemma EncodeFirst(parts: seq<Part>, rest: seq<byte>)
    requires parts != []
    ensures Encode(parts) + rest
         == ClientFrame(parts[0].ToFrame(|parts| == 1), parts[0].key) + (Encode(parts[1..]) + rest)
  {
    hide ClientFrame;
    var first := ClientFrame(parts[0].ToFrame(|parts| == 1), parts[0].key);
    hide Encode;
    Associative(first, Encode(parts[1..]), rest);
    EncodeStep(parts);
  }

  lemma EncodeStep(parts: seq<Part>)
    requires parts != []
    ensures Encode(parts) == ClientFrame(parts[0].ToFrame(|parts| == 1), parts[0].key) + Encode(parts[1..])
  {
    hide ClientFrame;
  }

  /** The fragments, in order, read into `size` bytes of which `off` are taken: each one that
      fits must still fit when the last word of its masking is counted whole. */
  predicate WordsFit(parts: seq<Part>, off: nat, size: nat) {
    forall i :: 0 <= i < |parts| && parts[i].Fragment? && off + |Payload(parts[..i + 1])| <= size ==>
                  off + |Payload(parts[..i])| + Extent(|parts[i].data|, parts[i].key) <= size
  }

  /** A buffer of exactly the bytes offered is enough for a message if and only if the whole
      words of each of its fragments are inside it. */
  lemma {:induction false} ReachesWords(parts: seq<Part>, rest: seq<byte>, off: nat, size: nat)
    requires ValidParts(parts) && off <= size
    ensures off + Reach(Encode(parts) + rest, size - off) <= size <==> WordsFit(parts, off, size)
  {
    hide Reach, Encode, Extent, Payload, WordsFit;
    var p, more := parts[0], parts[1..];
    var len := if p.Fragment? then |p.data| else 0;
    EncodeFirst(parts, rest);
    ReachesPart(p, |parts| == 1, Encode(more) + rest, size - off);
    FirstWords(parts, off, size);
    if |parts| > 1 && len <= size - off {
      assert more[|more| - 1] == parts[|parts| - 1];
      ReachesWords(more, rest, off + len, size);
    }
  }

  lemma ReachesPart(p: Part, last: bool, tail: seq<byte>, room: nat)
    requires p.Valid()
    ensures Reach(ClientFrame(p.ToFrame(last), p.key) + tail, room)
         == if !p.Fragment? then Reach(tail, room)
            else if |p.data| > room then 0
            else if last then Extent(|p.data|, p.key)
            else Max(Extent(|p.data|, p.key), |p.data| + Reach(tail, room - |p.data|))
  {
    hide Receive, ClientFrame, Masked, Extent;
    ReceivesPart(p, last, tail);
    if p.Fragment? {
      assert (Masked(p.data, p.key) + tail)[|p.data|..] == tail;
    }
  }

  /** The first part of a message, and the others. */
  lemma FirstWords(parts: seq<Part>, off: nat, size: nat)
    requires parts != [] && off <= size
    ensures var p := parts[0];
            var len := if p.Fragment? then |p.data| else 0;
            if off + len > size then WordsFit(parts, off, size)
            else WordsFit(parts, off, size)
                 <==> (p.Fragment? ==> off + Extent(len, p.key) <= size) && WordsFit(parts[1..], off + len, size)
    ensures |parts| == 1 ==> forall at: nat :: WordsFit(parts[1..], at, size)
  {
    hide Extent, Payload;
    var p, more := parts[0], parts[1..];
    var len := if p.Fragment? then |p.data| else 0;
    PayloadFirst(parts, 1);
    assert parts[..0] == [] && more[..0] == [] && Payload([]) == [] by {
      NoPayload();
    }
    if WordsFit(parts, off, size) && off + len <= size {
      forall i | 0 <= i < |more| && more[i].Fragment? && off + len + |Payload(more[..i + 1])| <= size
        ensures off + len + |Payload(more[..i])| + Extent(|more[i].data|, more[i].key) <= size
      {
        PayloadFirst(parts, i + 1);
        PayloadFirst(parts, i + 2);
        assert parts[i + 1] == more[i];
      }
    }
    if off + len > size || (WordsFit(more, off + len, size) && (p.Fragment? ==> off + Extent(len, p.key) <= size)) {
      forall i | 0 <= i < |parts| && parts[i].Fragment? && off + |Payload(parts[..i + 1])| <= size
        ensures off + |Payload(parts[..i])| + Extent(|parts[i].data|, parts[i].key) <= size
      {
        PayloadFirst(parts, i + 1);
        if i > 0 {
          PayloadFirst(parts, i);
          assert parts[i] == more[i - 1] && more[..i - 1 + 1] == more[..i];
        }
      }
    }
  }

  lemma NoPayload()
    ensures Payload([]) == []
  {
  }

  lemma PayloadFirst(parts: seq<Part>, i: nat)
    requires 0 < i <= |parts|
    ensures |Payload(parts[..i])|
         == (if parts[0].Fragment? then |parts[0].data| else 0) + |Payload(parts[1..][..i - 1])|
  {
    assert parts[..i][0] == parts[0] && parts[..i][1..] == parts[1..][..i - 1];
  }

  /** Where a buffer of whole words is enough: every fragment starts on a word of it. */
  lemma AlignedFragmentsFit(parts: seq<Part>, rest: seq<byte>, size: nat)
    requires ValidParts(parts) && size % 4 == 0
    requires forall i :: 0 <= i < |parts| && parts[i].Fragment? ==> |Payload(parts[..i])| % 4 == 0
    ensures Reach(Encode(parts) + rest, size) <= size
  {
    hide Reach, Encode, Payload;
    forall i | 0 <= i < |parts| && parts[i].Fragment? && |Payload(parts[..i + 1])| <= size
      ensures |Payload(parts[..i])| + Extent(|parts[i].data|, parts[i].key) <= size
    {
      PayloadGrows(parts, i);
      WholeWords(|Payload(parts[..i])|, |parts[i].data|, size);
    }
    ReachesWords(parts, rest, 0, size);
  }

  lemma WholeWords(at: nat, len: nat, size: nat)
    requires at % 4 == 0 && size % 4 == 0 && at + len <= size
    ensures at + 4 * WordsFor(len) <= size
  {
    hide WordsFor;
    var a, z := at / 4, size / 4;
    assert at == 4 * a && size == 4 * z;
    assert WordsFor(len) < z - a + 1;
  }

  lemma {:induction false} PayloadGrows(parts: seq<Part>, i: nat)
    requires i < |parts|
    ensures |Payload(parts[..i + 1])|
         == |Payload(parts[..i])| + (if parts[i].Fragment? then |parts[i].data| else 0)
    decreases i
  {
    hide Payload;
    PayloadFirst(parts, i + 1);
    if i > 0 {
      PayloadFirst(parts, i);
      PayloadGrows(parts[1..], i - 1);
    } else {
      NoPayload();
      assert parts[1..][..0] == [] && parts[..0] == [];
    }
  }

  /** Some bytes in one fragment, or, if they are whole words, in one of a single byte and another. */
  function Misaligned(size: nat): (parts: seq<Part>)
    requires 0 < size <= MAX_FRAME_SIZE
    ensures ValidParts(parts)
  {
    if size % 4 != 0 then [Fragment(OPCODE_TEXT, seq(size, _ => 0), [1, 0, 0, 0])]
    else [Fragment(OPCODE_TEXT, [0], [1, 0, 0, 0]), Fragment(OPCODE_CONT, seq(size - 1, _ => 0), [1, 0, 0, 0])]
  }

  /** For every size of buffer there is a message of just that size whose unmasking writes past
      it. */
  lemma WordPastTheEnd(size: nat, rest: seq<byte>)
    requires 0 < size <= MAX_FRAME_SIZE
    ensures |Payload(Misaligned(size))| == size < Reach(Encode(Misaligned(size)) + rest, size)
  {
    hide Reach, Encode, Payload, Extent, WordsFor;
    var parts := Misaligned(size);
    ExtentOfOneKey(size);
    ExtentOfOneKey(size - 1);
    EncodeFirst(parts, rest);
    PayloadOfOne(parts[|parts| - 1]);
    if size % 4 != 0 {
      assert parts == [parts[0]] && parts[1..] == [];
      ReachesPart(parts[0], true, Encode([]) + rest, size);
    } else {
      var second := parts[1];
      assert parts[1..] == [second] && [second][1..] == [];
      PayloadFirst(parts, 2);
      assert parts[..2] == parts && [second][..1] == [second];
      EncodeFirst([second], rest);
      ReachesPart(parts[0], false, Encode([second]) + rest, size);
      ReachesPart(second, true, Encode([]) + rest, size - 1);
    }
  }

  lemma ExtentOfOneKey(n: nat)
    ensures Extent(n, [1, 0, 0, 0]) == 4 * WordsFor(n)
    ensures n % 4 != 0 ==> n < 4 * WordsFor(n)
  {
    assert KeyWord([1, 0, 0, 0]) == 1;
  }

  lemma PayloadOfOne(p: Part)
    ensures Payload([p]) == if p.Fragment? then p.data else []
  {
    assert [p][1..] == [];
  }

  // ---- The connection ----

  /** The connected client: its socket, and the lengths of the PONG frames sent to it.  (A PONG
      is recorded as an event; nothing is said about the bytes of its payload.) */
  class Client {
    const socket: Stream<byte>
    var pongs: seq<nat>

    constructor (socket: Stream<byte>)
      ensures this.socket == socket && pongs == []
    {
      this.socket, pongs := socket, [];
    }

    /** Closes the socket, first sending a CLOSE frame if asked to. */
    method CloseClient(notify: bool)
      modifies socket`open, socket`output
      ensures !socket.open
      ensures old(socket.output) <= socket.output
      ensures !old(socket.open) ==> socket.output == old(socket.output)
      ensures old(socket.open) && socket.reliable ==> socket.output == old(socket.output) + CloseBytes(notify)
    {
      if !socket.open {
        return;
      }
      if notify {
        var buffer := new byte[FRAME_MAX_HEADER_SIZE];
        var r := WriteFrame(buffer, 0, OPCODE_CLOSE, true);
        assert buffer[16..16] == [];
      }
      socket.Close();
    }

    /** Sends a frame whose `size` bytes of data start at offset 16 of the buffer, building the
        header backwards in the bytes before them. */
    method WriteFrame(buffer: array<byte>, size: nat, opcode: byte, fin: bool) returns (r: int)
      requires FRAME_MAX_HEADER_SIZE + size <= buffer.Length && size + 10 <= MAX_INT
      modifies buffer, socket`open, socket`output
      ensures buffer[16..] == old(buffer[16..])
      ensures r == size || r == -1
      ensures r == size ==>
                socket.output == old(socket.output) + ServerFrame(Frame(fin, opcode, old(buffer[16..16 + size])))
                && socket.open == old(socket.open)
      ensures r < 0 ==> !socket.open && old(socket.output) <= socket.output
      ensures old(socket.open) && socket.reliable ==> r == size
    {
      ghost var payload := buffer[16..16 + size];
      var pbuffer := WriteHeader(buffer, size, opcode, fin);
      var wlen := FRAME_MAX_HEADER_SIZE - pbuffer + size;
      assert buffer[16..] == old(buffer[16..]);
      assert payload == buffer[16..][..size];
      assert buffer[pbuffer..pbuffer + wlen] == buffer[pbuffer..16] + payload;
      var n := BlockWrite(socket, buffer, pbuffer, wlen);
      if n != wlen {
        socket.Close();
        return -1;
      }
      return size;
    }

    /** The header of a frame, ending just before offset 16; returns where it starts. */
    static method WriteHeader(buffer: array<byte>, size: nat, opcode: byte, fin: bool) returns (pbuffer: nat)
      requires FRAME_MAX_HEADER_SIZE <= buffer.Length && size <= MAX_INT
      modifies buffer
      ensures pbuffer == 14 - ExtSize(size)
      ensures buffer[pbuffer..16] == Header(fin, opcode, false, size)
      ensures forall j :: 16 <= j < buffer.Length ==> buffer[j] == old(buffer[j])
    {
      pbuffer := FRAME_MAX_HEADER_SIZE - 2;
      var extlensize := 0;
      var payloadlen := size;
      if payloadlen > 125 {
        if payloadlen < 65536 {
          payloadlen, extlensize := 126, 2;
        } else {
          payloadlen, extlensize := 127, 8;
        }
        pbuffer := pbuffer - extlensize;
        Powers();
        WriteLength(buffer, pbuffer + 2, extlensize, size);
      }
      ghost var ext := buffer[pbuffer + 2..16];
      assert ext == BigEndian(size, ExtSize(size)) by {
        assert BigEndian(size, 0) == [];
      }
      WriteFlags(buffer, pbuffer, opcode, fin, payloadlen);
      assert buffer[pbuffer + 2..16] == ext;
      assert buffer[pbuffer..16] == [buffer[pbuffer], buffer[pbuffer + 1]] + buffer[pbuffer + 2..16];
    }

    static method WriteFlags(buffer: array<byte>, p: nat, opcode: byte, fin: bool, payloadlen: nat)
      requires p + 2 <= buffer.Length && payloadlen < 128
      modifies buffer
      ensures buffer[p] == FirstByte(fin, opcode)
      ensures buffer[p + 1] == LengthByte(false, payloadlen)
      ensures forall j :: 0 <= j < p || p + 2 <= j < buffer.Length ==> buffer[j] == old(buffer[j])
    {
      buffer[p] := opcode % 0x10;
      if fin {
        buffer[p] := buffer[p] + 0x80;
      }
      buffer[p + 1] := payloadlen;
    }

    /** The big-endian length, least significant byte first from the right. */
    static method WriteLength(buffer: array<byte>, at: nat, k: nat, size: nat)
      requires at + k <= buffer.Length && size < Pow256(k)
      modifies buffer
      ensures buffer[at..at + k] == BigEndian(size, k)
      ensures forall j :: 0 <= j < at || at + k <= j < buffer.Length ==> buffer[j] == old(buffer[j])
    {
      var tmpsize := size;
      var i := k;
      while i > 0
        invariant 0 <= i <= k
        invariant BigEndian(size, k) == BigEndian(tmpsize, i) + buffer[at + i..at + k]
        invariant forall j :: 0 <= j < at || at + k <= j < buffer.Length ==> buffer[j] == old(buffer[j])
      {
        ghost var done := buffer[at + i..at + k];
        i := i - 1;
        buffer[at + i] := LowByte(tmpsize);
        assert buffer[at + i..at + k] == [LowByte(tmpsize)] + done;
        tmpsize := tmpsize / 256;
      }
    }

    /** Reads `size` payload bytes to `off` and unmasks them there. */
    method ReadFrameData(buffer: array<byte>, off: nat, size: nat, key: Key) returns (n: int)
      requires off + size <= buffer.Length
      requires size <= |socket.input| ==> off + Extent(size, key) <= buffer.Length
      modifies buffer, socket`input, socket`open
      ensures n == size ==> size <= |old(socket.input)| && socket.input == old(socket.input)[size..]
                            && buffer[off..off + size] == Masked(old(socket.input)[..size], key)
                            && socket.open == old(socket.open)
      ensures n != size ==> n == -1 && !socket.open
      ensures IsSuffix(socket.input, old(socket.input))
      ensures forall j :: 0 <= j < off || off + Extent(size, key) <= j < buffer.Length ==> buffer[j] == old(buffer[j])
      ensures old(socket.open) && socket.reliable && size <= |old(socket.input)| ==> n == size
    {
      n := BlockRead(socket, buffer, off, size);
      if n != size {
        socket.Close();
        return -1;
      }
      UnmaskInPlace(buffer, off, size, key);
    }

    /** Big-endian value of the bytes read so far. */
    static method ReadLength(buffer: array<byte>, k: nat) returns (length: nat)
      requires k <= buffer.Length
      ensures length == FromBigEndian(buffer[..k])
    {
      length := 0;
      for i := 0 to k
        invariant length == FromBigEndian(buffer[..i])
      {
        assert buffer[..i + 1][..i] == buffer[..i];
        length := length * 256 + buffer[i];
      }
    }

    /** What a header read must do on a reliable connection: realise what was received. */
    twostate predicate Outcome(r: Received, len: int, fin: bool, key: Key, retry: bool)
      reads this, socket
    {
      match r
      case Lost(notify) =>
        len == -1 && !retry && !socket.open && pongs == old(pongs)
        && socket.output == old(socket.output) + CloseBytes(notify)
      case Control(p, rest) =>
        len == 0 && retry && !fin && socket.open && socket.input == rest && pongs == old(pongs) + Pongs(p)
        && socket.output == old(socket.output)
      case Data(f, n, k, rest) =>
        len == n && !retry && fin == f && key == k && socket.open && socket.input == rest
        && pongs == old(pongs) && socket.output == old(socket.output)
    }

    /** What a header read that does not fail has read on any connection. */
    static predicate Consistent(r: Received, len: int, fin: bool, key: Key, retry: bool, rest: seq<byte>) {
      && (retry ==> r.Control? && r.rest == rest)
      && (!retry && 0 <= len ==> r == Data(fin, len, key, rest))
    }

    /** Reads a frame header; a control frame is handled here and the caller told to retry. */
    method ReadFrameHeader() returns (len: int, fin: bool, key: Key, retry: bool)
      modifies this, socket`input, socket`output, socket`open
      ensures IsSuffix(socket.input, old(socket.input))
      ensures 0 <= len ==> |socket.input| < |old(socket.input)| && len <= MAX_FRAME_SIZE
      ensures len < 0 ==> len == -1 && !retry && !socket.open
      ensures retry ==> !fin
      ensures Consistent(Receive(old(socket.input)), len, fin, key, retry, socket.input)
      ensures old(socket.open) && socket.reliable ==> Outcome(Receive(old(socket.input)), len, fin, key, retry)
    {
      hide ReceiveLength, TopBit, ReservedBits, OpcodeBits, IsSuffix;
      len, fin, key, retry := -1, false, [0, 0, 0, 0], false;
      var header := new byte[2];
      var n := BlockRead(socket, header, 0, 2);
      if n != 2 {
        socket.Close();
        return;
      }
      ghost var rest := socket.input;
      assert header[0] == old(socket.input)[0] && header[1] == old(socket.input)[1];
      fin := TopBit(header[0]);
      if ReservedBits(header[0]) {
        CloseClient(true);
        return;
      }
      var opcode := OpcodeBits(header[0]);
      var mask := TopBit(header[1]);
      var length: nat := LengthBits(header[1]);
      len, fin, key, retry := ReadExtended(fin, opcode, mask, length);
      SuffixTwice(socket.input, rest, old(socket.input));
    }

    /** The extended length, if the 7-bit field announces one. */
    method ReadExtLength(len7: nat) returns (ok: bool, length: nat)
      requires len7 < 128
      modifies socket`input, socket`open
      ensures IsSuffix(socket.input, old(socket.input))
      ensures !ok ==> !socket.open
      ensures ok ==> socket.open == old(socket.open)
      ensures var ext := if len7 == 126 then 2 else if len7 == 127 then 8 else 0;
              && (ok ==> ext <= |old(socket.input)| && socket.input == old(socket.input)[ext..]
                         && length == if ext == 0 then len7 else FromBigEndian(old(socket.input)[..ext]))
              && (old(socket.open) && socket.reliable && ext <= |old(socket.input)| ==> ok)
    {
      var extlensize := if len7 == 126 then 2 else if len7 == 127 then 8 else 0;
      if extlensize == 0 {
        return true, len7;
      }
      var extlen := new byte[8];
      var n := BlockRead(socket, extlen, 0, extlensize);
      if n != extlensize {
        socket.Close();
        return false, 0;
      }
      length := ReadLength(extlen, extlensize);
      return true, length;
    }

    /** The rest of the header: extended length, then masking key. */
    method ReadExtended(fin0: bool, opcode: byte, mask: bool, len7: nat)
      returns (len: int, fin: bool, key: Key, retry: bool)
      requires len7 < 128
      modifies this, socket`input, socket`output, socket`open
      ensures IsSuffix(socket.input, old(socket.input))
      ensures 0 <= len ==> len <= MAX_FRAME_SIZE
      ensures len < 0 ==> len == -1 && !retry && !socket.open
      ensures retry ==> !fin
      ensures Consistent(ReceiveLength(fin0, opcode, mask, len7, old(socket.input)), len, fin, key, retry, socket.input)
      ensures old(socket.open) && socket.reliable ==>
                Outcome(ReceiveLength(fin0, opcode, mask, len7, old(socket.input)), len, fin, key, retry)
    {
      hide FromBigEndian, ReceiveKey;
      len, fin, key, retry := -1, fin0, [0, 0, 0, 0], false;
      var ok, length := ReadExtLength(len7);
      if !ok {
        return;
      }
      len, fin, key, retry := ReadKey(fin, opcode, mask, length);
    }

    /** The masking key, without which the frame is refused. */
    method ReadKey(fin0: bool, opcode: byte, mask: bool, length: nat)
      returns (len: int, fin: bool, key: Key, retry: bool)
      modifies this, socket`input, socket`output, socket`open
      ensures IsSuffix(socket.input, old(socket.input))
      ensures 0 <= len ==> len <= MAX_FRAME_SIZE
      ensures len < 0 ==> len == -1 && !retry && !socket.open
      ensures retry ==> !fin
      ensures Consistent(ReceiveKey(fin0, opcode, mask, length, old(socket.input)), len, fin, key, retry, socket.input)
      ensures old(socket.open) && socket.reliable ==>
                Outcome(ReceiveKey(fin0, opcode, mask, length, old(socket.input)), len, fin, key, retry)
    {
      hide ReceiveBody;
      len, fin, key, retry := -1, fin0, [0, 0, 0, 0], false;
      if !mask {
        CloseClient(true);
        return;
      }
      var maskkey := new byte[4];
      var n := BlockRead(socket, maskkey, 0, 4);
      if n != 4 {
        socket.Close();
        return;
      }
      key := maskkey[..];
      assert maskkey[0..4] == maskkey[..];
      len, fin, retry := ReadControl(fin, opcode, length, key);
    }

    /** The end of the header: data frames go to the caller, control frames are dealt with. */
    method ReadControl(fin0: bool, opcode: byte, length: nat, key: Key)
      returns (len: int, fin: bool, retry: bool)
      modifies this, socket`input, socket`output, socket`open
      ensures IsSuffix(socket.input, old(socket.input))
      ensures 0 <= len ==> len <= MAX_FRAME_SIZE
      ensures len < 0 ==> len == -1 && !retry && !socket.open
      ensures retry ==> !fin
      ensures Consistent(ReceiveBody(fin0, opcode, length, key, old(socket.input)), len, fin, key, retry, socket.input)
      ensures old(socket.open) && socket.reliable ==>
                Outcome(ReceiveBody(fin0, opcode, length, key, old(socket.input)), len, fin, key, retry)
    {
      len, fin, retry := -1, fin0, false;
      if length > MAX_FRAME_SIZE {
        CloseClient(true);
        return;
      }
      if !IsData(opcode) {
        if !fin {
          CloseClient(true);
          return;
        }
        var buffer := new byte[length + 3];
        var n := ReadFrameData(buffer, 0, length, key);
        if n < 0 {
          CloseClient(false);
          return;
        }
        if opcode == OPCODE_CLOSE {
          CloseClient(true);
          return;
        } else if opcode == OPCODE_PING {
          SendPong(length);
        } else if opcode == OPCODE_PONG {
        } else {
          CloseClient(true);
          return;
        }
        return 0, false, true;
      }
      return length, fin, false;
    }

    /** Answers a PING; like any write it may fail and close the connection. */
    method SendPong(length: nat)
      modifies `pongs, socket`open
      ensures old(socket.open) && socket.reliable ==> socket.open && pongs == old(pongs) + [length]
      ensures !old(socket.open) ==> !socket.open && pongs == old(pongs)
    {
      if !socket.open {
        return;
      }
      if !socket.reliable {
        if * {
          socket.Close();
          return;
        }
      }
      pongs := pongs + [length];
    }

    /** One turn of the message loop: what a frame contributes, with `room` bytes left. */
    method ReadPiece(buffer: array<byte>, off: nat, room: nat)
      returns (len: int, fin: bool, retry: bool, ghost log: seq<nat>)
      requires off + room <= buffer.Length && off + Reach(socket.input, room) <= buffer.Length
      modifies this, buffer, socket`input, socket`output, socket`open
      ensures IsSuffix(socket.input, old(socket.input))
      ensures len < 0 ==> len == -1 && !retry && !socket.open
      ensures 0 <= len ==> len <= room && |socket.input| < |old(socket.input)|
      ensures retry ==> len == 0 && !fin
      ensures 0 <= len && !fin ==> len + Reach(socket.input, room - len) <= Reach(old(socket.input), room)
      ensures forall j :: 0 <= j < off ==> buffer[j] == old(buffer[j])
      ensures 0 <= len ==>
                SoFar(ReadMessage(old(socket.input), room), buffer[off..off + len], log, fin, socket.input, room - len)
      ensures old(socket.open) && socket.reliable ==> PieceRead(ReadMessage(old(socket.input), room), log, len)
    {
      hide Receive, ReadMessage, Reach, IsSuffix, SoFar;
      log := [];
      ghost var s := socket.input;
      ReachStep(s, room);
      var key: Key;
      len, fin, key, retry := ReadFrameHeader();
      ReadMessageStep(s, room);
      if retry {
        log := Pongs(Receive(s).pong);
        SoFarPiece(ReadMessage(s, room), [], log, false, socket.input, room);
        assert buffer[off..off] == [];
        return 0, fin, retry, log;
      }
      if len < 0 {
        return;
      }
      if len > room {
        CloseClient(true);
        return -1, fin, false, log;
      }
      ghost var rest := socket.input;
      var n := ReadFrameData(buffer, off, len, key);
      SuffixTwice(socket.input, rest, s);
      if n < 0 {
        CloseClient(false);
        return -1, fin, false, log;
      }
      SoFarPiece(ReadMessage(s, room), buffer[off..off + len], [], fin, socket.input, room - len);
    }

    static function NonNeg(n: int): nat {
      if n < 0 then 0 else n
    }

    twostate predicate PieceRead(m: MessageRead, log: seq<nat>, len: int)
      reads this, socket
    {
      if len < 0 then
        m.Broken? && m.pongs == [] && pongs == old(pongs)
        && socket.output == old(socket.output) + CloseBytes(m.notify)
      else
        socket.open && socket.output == old(socket.output) && pongs == old(pongs) + log
    }

    /** Reads a possibly fragmented message into the `size` bytes at `at`.  The last word of an
        unaligned fragment may reach up to three bytes further, and must fit. */
    method ReadFrame(buffer: array<byte>, at: nat, size: nat) returns (r: int)
      requires at + size <= buffer.Length && at + Reach(socket.input, size) <= buffer.Length
      modifies this, buffer, socket`input, socket`output, socket`open
      ensures IsSuffix(socket.input, old(socket.input))
      ensures r < 0 ==> r == -1 && !socket.open
      ensures forall j :: 0 <= j < at ==> buffer[j] == old(buffer[j])
      ensures 0 <= r ==>
                var m := ReadMessage(old(socket.input), size);
                r <= size && m.Complete? && m.payload == buffer[at..at + r] && m.rest == socket.input
      ensures old(socket.open) && socket.reliable ==>
                MessageDone(ReadMessage(old(socket.input), size), buffer[at..at + NonNeg(r)], r)
    {
      hide ReadMessage, Prepend, IsSuffix, SoFar, Reach;
      var buflen := 0;
      var fin := false;
      ghost var log: seq<nat> := [];
      ghost var s, whole := socket.input, ReadMessage(socket.input, size);
      NothingSoFar(s, size);
      assert IsSuffix(s, s) && buffer[at..at] == [] by {
        DropIsSuffix(s, 0);
        assert s[0..] == s;
      }
      while !fin
        invariant buflen <= size && IsSuffix(socket.input, s)
        invariant forall j :: 0 <= j < at ==> buffer[j] == old(buffer[j])
        invariant !fin ==> buflen + Reach(socket.input, size - buflen) <= Reach(s, size)
        invariant SoFar(whole, buffer[at..at + buflen], log, fin, socket.input, size - buflen)
        invariant old(socket.open) && socket.reliable ==>
                    socket.open && socket.output == old(socket.output) && pongs == old(pongs) + log
        decreases !fin, |socket.input|
      {
        ghost var rest := socket.input;
        ghost var more;
        var len;
        len, fin, more := ReadNext(buffer, at, buflen, size, whole, log);
        SuffixTwice(socket.input, rest, s);
        if len < 0 {
          return -1;
        }
        Associative(old(pongs), log, more);
        log, buflen := log + more, buflen + len;
      }
      SoFarEnds(whole, buffer[at..at + buflen], log, true, socket.input, size - buflen);
      return buflen;
    }

    /** The next piece of the message `whole`, of which `buflen` bytes are in the buffer. */
    method ReadNext(buffer: array<byte>, at: nat, buflen: nat, size: nat, ghost whole: MessageRead, ghost log: seq<nat>)
      returns (len: int, fin: bool, ghost more: seq<nat>)
      requires buflen <= size && at + size <= buffer.Length
      requires at + buflen + Reach(socket.input, size - buflen) <= buffer.Length
      requires SoFar(whole, buffer[at..at + buflen], log, false, socket.input, size - buflen)
      modifies this, buffer, socket`input, socket`output, socket`open
      ensures IsSuffix(socket.input, old(socket.input))
      ensures len < 0 ==> len == -1 && !socket.open
      ensures forall j :: 0 <= j < at ==> buffer[j] == old(buffer[j])
      ensures 0 <= len ==>
                && buflen + len <= size && |socket.input| < |old(socket.input)|
                && SoFar(whole, buffer[at..at + buflen + len], log + more, fin, socket.input, size - (buflen + len))
                && (!fin ==> len + Reach(socket.input, size - (buflen + len))
                             <= Reach(old(socket.input), size - buflen))
      ensures old(socket.open) && socket.reliable ==>
                if len < 0 then
                  whole.Broken? && whole.pongs == log && pongs == old(pongs)
                  && socket.output == old(socket.output) + CloseBytes(whole.notify)
                else socket.open && socket.output == old(socket.output) && pongs == old(pongs) + more
    {
      hide ReadMessage, Prepend, IsSuffix, SoFar, Reach;
      ghost var got, rest := buffer[at..at + buflen], socket.input;
      var retry;
      len, fin, retry, more := ReadPiece(buffer, at + buflen, size - buflen);
      if len < 0 {
        SoFarEnds(whole, got, log, false, rest, size - buflen);
        return;
      }
      SliceIs(buffer, at, got);
      BufferGrows(buffer, at, buflen, len);
      SoFarMore(whole, got, log, buffer[at + buflen..at + buflen + len], more, fin, rest, size - buflen,
                socket.input, size - (buflen + len));
    }

    /** What a message read must do on a reliable connection. */
    twostate predicate MessageDone(m: MessageRead, got: seq<byte>, r: int)
      reads this, socket
    {
      match m
      case Complete(payload, rest, p) =>
        r == |payload| && got == payload && socket.open && socket.input == rest
        && pongs == old(pongs) + p && socket.output == old(socket.output)
      case Broken(notify, p) =>
        r == -1 && !socket.open && pongs == old(pongs) + p
        && socket.output == old(socket.output) + CloseBytes(notify)
    }
  }

  lemma ReadMessageStep(s: seq<byte>, room: nat)
    ensures match Receive(s)
            case Lost(notify) => ReadMessage(s, room) == Broken(notify, [])
            case Control(p, rest) => ReadMessage(s, room) == Prepend([], Pongs(p), ReadMessage(rest, room))
            case Data(fin, len, key, rest) =>
              if len > room then ReadMessage(s, room) == Broken(true, [])
              else if |rest| < len then ReadMessage(s, room) == Broken(false, [])
              else if fin then ReadMessage(s, room) == Complete(Masked(rest[..len], key), rest[len..], [])
              else ReadMessage(s, room) == Prepend(Masked(rest[..len], key), [], ReadMessage(rest[len..], room - len))
  {
    hide Receive;
  }

  lemma ReachStep(s: seq<byte>, room: nat)
    ensures match Receive(s)
            case Lost(_) => true
            case Control(_, rest) => Reach(s, room) == Reach(rest, room)
            case Data(fin, len, key, rest) =>
              len > room || |rest| < len
              || (Extent(len, key) <= Reach(s, room) && (fin || len + Reach(rest[len..], room - len) <= Reach(s, room)))
  {
    hide Receive, Extent;
  }

  lemma PrependNothing(m: MessageRead)
    ensures Prepend([], [], m) == m
  {
  }

  /** A message of which `got` and the pongs in `log` are known. */
  predicate SoFar(whole: MessageRead, got: seq<byte>, log: seq<nat>, fin: bool, rest: seq<byte>, room: nat) {
    whole == if fin then Complete(got, rest, log) else Prepend(got, log, ReadMessage(rest, room))
  }

  lemma NothingSoFar(s: seq<byte>, room: nat)
    ensures SoFar(ReadMessage(s, room), [], [], false, s, room)
  {
    hide ReadMessage;
    PrependNothing(ReadMessage(s, room));
  }

  lemma SoFarPiece(m: MessageRead, piece: seq<byte>, more: seq<nat>, fin: bool, rest: seq<byte>, room: nat)
    requires m == if fin then Complete(piece, rest, more) else Prepend(piece, more, ReadMessage(rest, room))
    ensures SoFar(m, piece, more, fin, rest, room)
  {
    hide ReadMessage, Prepend;
  }

  lemma SoFarEnds(whole: MessageRead, got: seq<byte>, log: seq<nat>, fin: bool, rest: seq<byte>, room: nat)
    requires SoFar(whole, got, log, fin, rest, room)
    ensures fin ==> whole == Complete(got, rest, log)
    ensures !fin && ReadMessage(rest, room).Broken? ==>
              whole == Broken(ReadMessage(rest, room).notify, log + ReadMessage(rest, room).pongs)
  {
    hide ReadMessage;
  }

  lemma SoFarMore(whole: MessageRead, got: seq<byte>, log: seq<nat>, piece: seq<byte>, more: seq<nat>, fin: bool,
                  rest: seq<byte>, room: nat, rest': seq<byte>, room': nat)
    requires SoFar(whole, got, log, false, rest, room)
    requires SoFar(ReadMessage(rest, room), piece, more, fin, rest', room')
    ensures SoFar(whole, got + piece, log + more, fin, rest', room')
  {
    hide ReadMessage, Prepend;
    PrependTwice(got, log, piece, more, rest', ReadMessage(rest', room'));
  }

  lemma PrependTwice(a: seq<byte>, la: seq<nat>, b: seq<byte>, lb: seq<nat>, rest: seq<byte>, m: MessageRead)
    ensures Prepend(a, la, Prepend(b, lb, m)) == Prepend(a + b, la + lb, m)
    ensures Prepend(a, la, Complete(b, rest, lb)) == Complete(a + b, rest, la + lb)
  {
  }
}
