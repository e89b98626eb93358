/** The pipe relay of src/websocket.c: the contents of one pipe become a fragmented WebSocket
    message, and the client's answer, possibly fragmented and preceded by unrequested
    commands, is written to another pipe. */
module Relay {
  import opened Masking
  import opened Frames
  import opened Streams
  import opened FrameIO
  import opened Options
  import opened Sequences

  const BUFFER_SIZE: nat := 4096
  const RELAY_BUFFER: nat := FRAME_MAX_HEADER_SIZE + BUFFER_SIZE
  const COMMAND: byte := 67  // 'C'
  const ERROR: byte := 69  // 'E'
  const LIST: byte := 108  // 'l'
  const OK: byte := 79  // 'O'
  const MAX_LISTING: nat := 4079

  // ---- Pipe to message ----

  function RequestOpcode(first: bool): byte {
    if first then OPCODE_TEXT else OPCODE_CONT
  }

  /** `sent` is a sequence of frames after which a receiver holds `got` of an unfinished
      message, or, if nothing was sent yet, waits for its first frame. */
  ghost predicate Awaits(sent: seq<byte>, got: seq<byte>, first: bool) {
    forall t: seq<byte> ::
      ReceiveMessage(sent + t) == if first then ReceiveMessage(t) else ReceiveRest(OPCODE_TEXT, got, t)
  }

  lemma AwaitsFirst()
    ensures Awaits([], [], true)
  {
    hide ReceiveMessage, ReceiveRest;
    assert forall t: seq<byte> :: [] + t == t;
  }

  /** Each frame the relay sends extends the message by its payload, and FIN ends it. */
  lemma AwaitsNext(sent: seq<byte>, got: seq<byte>, first: bool, data: seq<byte>)
    requires Awaits(sent, got, first) && |data| <= BUFFER_SIZE && (first ==> got == [])
    ensures Awaits(sent + ServerFrame(Frame(false, RequestOpcode(first), data)), got + data, false)
    ensures ReceiveMessage(sent + ServerFrame(Frame(true, RequestOpcode(first), data)))
         == Message(OPCODE_TEXT, got + data, [])
  {
    hide ServerFrame, Decode, ReceiveMessage, ReceiveRest;
    assert [] + data == data;
    var more, last := Frame(false, RequestOpcode(first), data), Frame(true, RequestOpcode(first), data);
    forall t: seq<byte>
      ensures ReceiveMessage(sent + ServerFrame(more) + t) == ReceiveRest(OPCODE_TEXT, got + data, t)
    {
      assert sent + ServerFrame(more) + t == sent + (ServerFrame(more) + t);
      ReceivesFrame(more, got, t);
    }
    ReceivesFrame(last, got, []);
    assert sent + ServerFrame(last) == sent + (ServerFrame(last) + []);
  }

  /** A receiver that holds `got` of a TEXT message after a frame with this FIN bit. */
  function Collected(fin: bool, got: seq<byte>, t: seq<byte>): Message {
    if fin then Message(OPCODE_TEXT, got, t) else ReceiveRest(OPCODE_TEXT, got, t)
  }

  lemma ReceivesFrame(f: Frame, got: seq<byte>, t: seq<byte>)
    requires |f.payload| <= BUFFER_SIZE
    ensures f.opcode == OPCODE_TEXT ==>
              ReceiveMessage(ServerFrame(f) + t) == Collected(f.fin, f.payload, t)
    ensures f.opcode == OPCODE_CONT ==>
              ReceiveRest(OPCODE_TEXT, got, ServerFrame(f) + t) == Collected(f.fin, got + f.payload, t)
  {
    hide ServerFrame, Decode;
    if f.opcode < 16 {
      DecodeServerFrame(f, t);
    }
  }

  /** The receiver's reading of what was appended to a connection's output. */
  ghost predicate MessageSent(before: seq<byte>, after: seq<byte>, message: seq<byte>) {
    before <= after && ReceiveMessage(after[|before|..]) == Message(OPCODE_TEXT, message, [])
  }

  lemma GotMore(all: seq<byte>, got: seq<byte>, rest: seq<byte>, data: seq<byte>)
    requires all == got + rest && data <= rest && data != []
    ensures all == got + data + rest[|data|..] && got + data != [] && (got + data)[0] == all[0]
    ensures got == [] ==> data[0] == all[0]
  {
    assert rest == data + rest[|data|..];
  }

  lemma SentIsMore(before: seq<byte>, after: seq<byte>, message: seq<byte>)
    requires MessageSent(before, after, message)
    ensures before <= after
  {
    hide ReceiveMessage;
  }

  lemma WholeIsSent(before: seq<byte>, sent: seq<byte>, last: seq<byte>, message: seq<byte>)
    requires ReceiveMessage(sent + last) == Message(OPCODE_TEXT, message, [])
    ensures MessageSent(before, before + sent + last, message)
  {
    hide ReceiveMessage;
    var after := before + sent + last;
    assert after == before + (sent + last);
    assert after[|before|..] == sent + last;
  }

  datatype SendStatus = Sent | ReadFailed | WriteFailed(last: bool)

  /** Forwards everything in the pipe, one frame per read, then an empty FIN frame. */
  method SendPipe(client: Client, pipein: Stream<byte>, buffer: array<byte>)
    returns (status: SendStatus, firstchar: byte)
    requires buffer.Length >= RELAY_BUFFER
    requires client.socket != pipein
    modifies buffer, pipein`input, pipein`open, client.socket`output, client.socket`open
    ensures status.Sent? ==> MessageSent(old(client.socket.output), client.socket.output, old(pipein.input))
    ensures status.Sent? ==> firstchar == if old(pipein.input) == [] then 0 else old(pipein.input)[0]
    ensures status.Sent? ==> client.socket.open == old(client.socket.open)
    ensures status.WriteFailed? ==> !client.socket.open
    ensures old(client.socket.output) <= client.socket.output
    ensures old(pipein.open) && pipein.reliable && old(client.socket.open) && client.socket.reliable ==> status.Sent?
  {
    hide ServerFrame, ReceiveMessage, ReceiveRest, Awaits, MessageSent;
    var first := true;
    firstchar := 0;
    ghost var sent, got: seq<byte> := [], [];
    AwaitsFirst();
    while true
      invariant client.socket.output == old(client.socket.output) + sent
      invariant client.socket.open == old(client.socket.open) && pipein.open == old(pipein.open)
      invariant old(pipein.input) == got + pipein.input
      invariant Awaits(sent, got, first)
      invariant first <==> got == []
      invariant firstchar == if first then 0 else old(pipein.input)[0]
      decreases |pipein.input|
    {
      ghost var before := pipein.input;
      var n := pipein.Read(buffer, FRAME_MAX_HEADER_SIZE, BUFFER_SIZE);
      if n < 0 {
        return ReadFailed, firstchar;
      } else if n == 0 {
        break;
      }
      if first {
        firstchar := buffer[FRAME_MAX_HEADER_SIZE];
      }
      ghost var data := buffer[FRAME_MAX_HEADER_SIZE..FRAME_MAX_HEADER_SIZE + n];
      var r;
      ghost var frame;
      r, frame := SendData(client, buffer, n, first, sent, got);
      if r < 0 {
        Reopen(pipein);
        return WriteFailed(false), firstchar;
      }
      GotMore(old(pipein.input), got, before, data);
      Associative(old(client.socket.output), sent, frame);
      sent, got := sent + frame, got + data;
      first := false;
    }
    assert got + [] == got && got == old(pipein.input);
    Reopen(pipein);
    var r := SendEnd(client, buffer, first, old(client.socket.output), sent, got);
    if r < 0 {
      return WriteFailed(true), firstchar;
    }
    SentIsMore(old(client.socket.output), client.socket.output, got);
    return Sent, firstchar;
  }

  /** Ends the message with an empty frame. */
  method SendEnd(client: Client, buffer: array<byte>, first: bool, ghost before: seq<byte>, ghost sent: seq<byte>,
                 ghost got: seq<byte>) returns (r: int)
    requires buffer.Length >= RELAY_BUFFER && Awaits(sent, got, first) && (first ==> got == [])
    requires client.socket.output == before + sent
    modifies buffer, client.socket`output, client.socket`open
    ensures r < 0 ==> !client.socket.open && old(client.socket.output) <= client.socket.output
    ensures 0 <= r ==> MessageSent(before, client.socket.output, got)
                       && client.socket.open == old(client.socket.open)
    ensures old(client.socket.open) && client.socket.reliable ==> 0 <= r
  {
    hide ServerFrame, ReceiveMessage, ReceiveRest, Awaits, MessageSent;
    assert buffer[16..16] == [];
    r := client.WriteFrame(buffer, 0, RequestOpcode(first), true);
    AwaitsNext(sent, got, first, []);
    assert got + [] == got;
    WholeIsSent(before, sent, ServerFrame(Frame(true, RequestOpcode(first), [])), got);
  }

  /** Sends what was read as one frame of the message. */
  method SendData(client: Client, buffer: array<byte>, n: nat, first: bool, ghost sent: seq<byte>, ghost got: seq<byte>)
    returns (r: int, ghost frame: seq<byte>)
    requires buffer.Length >= RELAY_BUFFER && n <= BUFFER_SIZE
    requires Awaits(sent, got, first) && (first ==> got == [])
    modifies buffer, client.socket`output, client.socket`open
    ensures old(client.socket.output) <= client.socket.output
    ensures r < 0 ==> !client.socket.open
    ensures 0 <= r ==> client.socket.output == old(client.socket.output) + frame
                       && client.socket.open == old(client.socket.open)
                       && Awaits(sent + frame, got + old(buffer[16..16 + n]), false)
    ensures old(client.socket.open) && client.socket.reliable ==> 0 <= r
  {
    hide ServerFrame, Awaits;
    ghost var data := buffer[16..16 + n];
    frame := ServerFrame(Frame(false, RequestOpcode(first), data));
    r := client.WriteFrame(buffer, n, RequestOpcode(first), false);
    AwaitsNext(sent, got, first, data);
  }

  /** Flushes the pipe and opens it again. */
  method Reopen(pipein: Stream<byte>)
    modifies pipein`input, pipein`open
    ensures pipein.input == [] && pipein.open
  {
    pipein.input, pipein.open := [], true;
  }

  // ---- Message to pipe: what the server makes of the bytes after a request ----

  /** What happens to one nonempty data frame while the answer is awaited. */
  datatype Step =
    | Refuse
    | Deliver(payload: seq<byte>, rest: seq<byte>)
    | Skip(reply: seq<byte>, pongs: seq<nat>, rest: seq<byte>)

  /** The reply to an unrequested command, or None when it ends the connection; `listing` is
      what croutoncycle prints, None if it fails. */
  function Reply(msg: seq<byte>, listing: Option<seq<byte>>): Option<seq<byte>> {
    if msg == [] || msg[0] != COMMAND then None
    else if |msg| > 1 && msg[1] == LIST then
      if listing.None? then None else Some(ServerFrame(Frame(true, OPCODE_TEXT, [COMMAND] + listing.value)))
    else if |msg| > 1 && msg[1] == OK then Some([])
    else Some(ServerFrame(Frame(true, OPCODE_TEXT, [COMMAND])))
  }

  predicate Unrequested(first: bool, firstchar: byte, b: byte) {
    first && b != firstchar && b != ERROR
  }

  function FrameStep(fin: bool, payload: seq<byte>, rest: seq<byte>, first: bool, firstchar: byte,
                     listing: Option<seq<byte>>): (s: Step)
    requires payload != []
    ensures s.Deliver? || s.Skip? ==> |s.rest| <= |rest|
  {
    if !Unrequested(first, firstchar, payload[0]) then Deliver(payload, rest)
    else if |payload| >= BUFFER_SIZE then Refuse
    else if fin then CommandStep(payload, [], rest, listing)
    else
      ReadMessageShrinks(rest, RELAY_BUFFER - |payload|);
      LongCommand(payload, rest, listing)
  }

  /** A fragmented command: the rest of it is read after its first fragment. */
  function LongCommand(start: seq<byte>, rest: seq<byte>, listing: Option<seq<byte>>): (s: Step)
    requires |start| < BUFFER_SIZE
    ensures !s.Deliver?
  {
    match ReadMessage(rest, RELAY_BUFFER - |start|)
    case Broken(_, _) => Refuse
    case Complete(more, rest', pongs) => CommandStep(start + more, pongs, rest', listing)
  }

  function CommandStep(msg: seq<byte>, pongs: seq<nat>, rest: seq<byte>, listing: Option<seq<byte>>): (s: Step)
    ensures !s.Deliver?
  {
    if |msg| >= BUFFER_SIZE then Refuse
    else
      match Reply(msg, listing)
      case None => Refuse
      case Some(reply) => Skip(reply, pongs, rest)
  }

  lemma {:induction false} ReadMessageShrinks(s: seq<byte>, room: nat)
    ensures ReadMessage(s, room).Complete? ==> |ReadMessage(s, room).rest| <= |s|
    decreases |s|
  {
    ReadMessageStep(s, room);
    hide ReadMessage;
    match Receive(s)
    case Lost(_) =>
    case Control(_, rest) => ReadMessageShrinks(rest, room);
    case Data(fin, len, _, rest) =>
      if len <= room && len <= |rest| {
        ReadMessageShrinks(rest[len..], room - len);
      }
  }

  /** What croutoncycle prints at each command of an exchange, if that one asks for the list;
      each list command runs it anew. */
  type Listings = nat -> Option<seq<byte>>

  /** No list is longer than the reply buffer takes. */
  ghost predicate Short(listings: Listings) {
    forall k: nat :: listings(k).Some? ==> |listings(k).value| <= MAX_LISTING
  }

  /** An answer that breaks off after `piped` went down the pipe, or a complete one. */
  datatype Answer =
    | Aborted(piped: seq<byte>)
    | Answered(piped: seq<byte>, replies: seq<byte>, pongs: seq<nat>, rest: seq<byte>)

  function Join(piped: seq<byte>, replies: seq<byte>, pongs: seq<nat>, a: Answer): Answer {
    match a
    case Aborted(d) => Aborted(piped + d)
    case Answered(d, r, p, rest) => Answered(piped + d, replies + r, pongs + p, rest)
  }

  /** What the pipe still gets of a frame of which only `start` arrives: its whole pieces. */
  function BrokenOff(start: seq<byte>, first: bool, firstchar: byte): seq<byte> {
    if |start| < BUFFER_SIZE || Unrequested(first, firstchar, start[0]) then []
    else start[..WholePieces(|start|)]
  }

  function WholePieces(n: nat): (m: nat)
    ensures m <= n
  {
    if n < BUFFER_SIZE then 0 else BUFFER_SIZE + WholePieces(n - BUFFER_SIZE)
  }

  /** The whole answer phase, on a reliable connection whose client sent `s`, once `k` commands
      were obeyed. */
  function ReadAnswer(s: seq<byte>, first: bool, firstchar: byte, listings: Listings, k: nat): Answer
    decreases |s|
  {
    match Receive(s)
    case Lost(_) => Aborted([])
    case Control(p, rest) => Join([], [], Pongs(p), ReadAnswer(rest, first, firstchar, listings, k))
    case Data(fin, len, key, rest) =>
      if |rest| < len then Aborted(BrokenOff(Masked(rest, key), first, firstchar))
      else if len == 0 then
        if fin then Answered([], [], [], rest) else ReadAnswer(rest, first, firstchar, listings, k)
      else
        match FrameStep(fin, Masked(rest[..len], key), rest[len..], first, firstchar, listings(k))
        case Refuse => Aborted([])
        case Deliver(payload, after) =>
          if fin then Answered(payload, [], [], after)
          else Join(payload, [], [], ReadAnswer(after, false, firstchar, listings, k))
        case Skip(reply, pongs, after) =>
          Join([], reply, pongs, ReadAnswer(after, true, firstchar, listings, k + 1))
  }

  // ---- What this means for a well-behaved client ----

  /** What is left to read after a step. */
  function AfterStep(step: Step, last: bool, firstchar: byte, listings: Listings, k: nat): Answer {
    match step
    case Refuse => Aborted([])
    case Deliver(d, after) =>
      if last then Answered(d, [], [], after) else Join(d, [], [], ReadAnswer(after, false, firstchar, listings, k))
    case Skip(reply, pongs, after) => Join([], reply, pongs, ReadAnswer(after, true, firstchar, listings, k + 1))
  }

  function AfterPart(p: Part, last: bool, tail: seq<byte>, first: bool, firstchar: byte,
                     listings: Listings, k: nat): Answer {
    if p.Ping? then Join([], [], [|p.data|], ReadAnswer(tail, first, firstchar, listings, k))
    else if p.Pong? then Join([], [], [], ReadAnswer(tail, first, firstchar, listings, k))
    else if p.data == [] then
      if last then Answered([], [], [], tail) else ReadAnswer(tail, first, firstchar, listings, k)
    else AfterStep(FrameStep(last, p.data, tail, first, firstchar, listings(k)), last, firstchar, listings, k)
  }

  /** One frame of a message, met while the answer is awaited. */
  lemma AnswerStep(p: Part, last: bool, tail: seq<byte>, first: bool, firstchar: byte, listings: Listings, k: nat)
    requires p.Valid()
    ensures ReadAnswer(ClientFrame(p.ToFrame(last), p.key) + tail, first, firstchar, listings, k)
         == AfterPart(p, last, tail, first, firstchar, listings, k)
  {
    hide Receive, ClientFrame, Masked, FrameStep;
    ReceivesPart(p, last, tail);
    if p.Fragment? {
      var raw := Masked(p.data, p.key);
      assert (raw + tail)[..|p.data|] == raw && (raw + tail)[|p.data|..] == tail;
      MaskedTwice(p.data, p.key);
    }
  }

  /** A message that is an answer: empty, or starting as the request did or with 'E'. */
  predicate IsAnswer(payload: seq<byte>, firstchar: byte) {
    payload == [] || payload[0] == firstchar || payload[0] == ERROR
  }

  lemma FirstPart(parts: seq<Part>)
    requires ValidParts(parts)
    ensures |parts| == 1 ==> Payload(parts) == parts[0].data && Pings(parts) == []
    ensures |parts| > 1 ==>
              && ValidParts(parts[1..])
              && Payload(parts)
              == (if parts[0].Fragment? then parts[0].data + Payload(parts[1..]) else Payload(parts[1..]))
              && Pings(parts) == (if parts[0].Ping? then [|parts[0].data|] + Pings(parts[1..]) else Pings(parts[1..]))
              && (parts[0].Fragment? && parts[0].data == [] ==> Payload(parts) == Payload(parts[1..]))
  {
    if |parts| > 1 {
      assert parts[1..][|parts| - 2] == parts[|parts| - 1];
    }
  }

  /** A frame of the answer goes to the pipe as it is. */
  lemma DeliversPart(p: Part, last: bool, tail: seq<byte>, first: bool, firstchar: byte, listings: Listings, k: nat)
    requires first && p.Fragment? ==> IsAnswer(p.data, firstchar)
    ensures AfterPart(p, last, tail, first, firstchar, listings, k)
         == if p.Fragment? && last then Answered(p.data, [], [], tail)
            else Join(if p.Fragment? then p.data else [], [], if p.Ping? then [|p.data|] else [],
                      ReadAnswer(tail, first && (!p.Fragment? || p.data == []), firstchar, listings, k))
  {
    hide ReadAnswer, ReadMessage;
    JoinTwice([], [], [], [], ReadAnswer(tail, first, firstchar, listings, k));
  }

  /** The answer reaches the pipe unmasked and complete, and nothing after it is consumed. */
  lemma {:induction false} DeliversAnswer(parts: seq<Part>, rest: seq<byte>, first: bool, firstchar: byte,
                                          listings: Listings, k: nat)
    requires ValidParts(parts)
    requires first ==> IsAnswer(Payload(parts), firstchar)
    ensures ReadAnswer(Encode(parts) + rest, first, firstchar, listings, k)
         == Answered(Payload(parts), [], Pings(parts), rest)
  {
    hide ReadAnswer, ClientFrame, Payload, Pings, AfterPart, Join;
    var p, more := parts[0], parts[1..];
    var tail := Encode(more) + rest;
    EncodeFirst(parts, rest);
    FirstPart(parts);
    AnswerStep(p, |parts| == 1, tail, first, firstchar, listings, k);
    DeliversPart(p, |parts| == 1, tail, first, firstchar, listings, k);
    if |parts| == 1 {
      assert tail == rest;
    } else {
      DeliversAnswer(more, rest, first && (!p.Fragment? || p.data == []), firstchar, listings, k);
      JoinAnswered(if p.Fragment? then p.data else [], if p.Ping? then [|p.data|] else [],
                   Payload(more), Pings(more), rest);
    }
  }

  /** The first nonempty fragment of a command triggers its reading and its reply. */
  lemma SkipsFragment(p: Part, last: bool, tail: seq<byte>, more: seq<byte>, pongs: seq<nat>, rest: seq<byte>,
                      firstchar: byte, listings: Listings, k: nat)
    requires p.Fragment? && !IsAnswer(p.data, firstchar)
    requires if last then more == [] && pongs == [] && rest == tail
             else |p.data| < BUFFER_SIZE && ReadMessage(tail, RELAY_BUFFER - |p.data|) == Complete(more, rest, pongs)
    requires |p.data + more| < BUFFER_SIZE && Reply(p.data + more, listings(k)).Some?
    ensures AfterPart(p, last, tail, true, firstchar, listings, k)
         == Join([], Reply(p.data + more, listings(k)).value, pongs,
                 ReadAnswer(rest, true, firstchar, listings, k + 1))
  {
    hide ReadAnswer, ReadMessage, Reply;
    assert p.data + [] == p.data;
  }

  /** A complete unrequested command is answered and leaves no trace in the pipe. */
  lemma {:induction false} SkipsCommand(parts: seq<Part>, rest: seq<byte>, firstchar: byte, listings: Listings,
                                        k: nat)
    requires ValidParts(parts)
    requires !IsAnswer(Payload(parts), firstchar)
    requires |Payload(parts)| < BUFFER_SIZE && Reply(Payload(parts), listings(k)).Some?
    ensures ReadAnswer(Encode(parts) + rest, true, firstchar, listings, k)
         == Join([], Reply(Payload(parts), listings(k)).value, Pings(parts),
                 ReadAnswer(rest, true, firstchar, listings, k + 1))
  {
    var p, more, last := parts[0], parts[1..], |parts| == 1;
    var tail := Encode(more) + rest;
    hide ReadAnswer, ClientFrame, Reply, ReadMessage, Payload, Pings, AfterPart, Join, Encode, IsAnswer;
    if last {
      LastTail(parts, rest);
    }
    IsAnswerFirst(parts, firstchar);
    EncodeFirst(parts, rest);
    FirstPart(parts);
    AnswerStep(p, last, tail, true, firstchar, listings, k);
    if last {
      SkipsFragment(p, true, tail, [], [], rest, firstchar, listings, k);
    } else if p.Fragment? && p.data != [] {
      ReadsMessage(more, rest, RELAY_BUFFER - |p.data|);
      SkipsFragment(p, false, tail, Payload(more), Pings(more), rest, firstchar, listings, k);
    } else {
      SkipsCommand(more, rest, firstchar, listings, k);
      DeliversPart(p, false, tail, true, firstchar, listings, k);
      JoinPinged(p, Reply(Payload(more), listings(k)).value, Pings(more),
                 ReadAnswer(rest, true, firstchar, listings, k + 1));
    }
  }

  lemma LastTail(parts: seq<Part>, rest: seq<byte>)
    requires |parts| == 1
    ensures Encode(parts[1..]) + rest == rest && parts[0].data + [] == parts[0].data
  {
    assert parts[1..] == [] && [] + rest == rest;
  }

  /** The first byte tells whether a message is an answer. */
  lemma IsAnswerFirst(parts: seq<Part>, firstchar: byte)
    requires ValidParts(parts)
    ensures parts[0].Fragment? && parts[0].data != [] ==>
              (IsAnswer(parts[0].data, firstchar) <==> IsAnswer(Payload(parts), firstchar))
    ensures IsAnswer([], firstchar)
  {
    FirstPart(parts);
    hide Payload;
  }

  lemma JoinPinged(p: Part, reply: seq<byte>, pings: seq<nat>, a: Answer)
    ensures Join([], [], if p.Ping? then [|p.data|] else [], Join([], reply, pings, a))
         == Join([], reply, if p.Ping? then [|p.data|] + pings else pings, a)
  {
    var ping := if p.Ping? then [|p.data|] else [];
    JoinTwice([], ping, reply, pings, a);
    assert ping == [] ==> ping + pings == pings;
    assert [] + reply == reply;
  }

  lemma JoinTwice(r: seq<byte>, p: seq<nat>, r': seq<byte>, p': seq<nat>, a: Answer)
    ensures Join([], r, p, Join([], r', p', a)) == Join([], r + r', p + p', a)
    ensures Join([], [], [], a) == a
  {
    assert [] + a.piped == a.piped && [] + ([] + a.piped) == a.piped;
  }

  lemma JoinAnswered(d: seq<byte>, p: seq<nat>, d': seq<byte>, p': seq<nat>, rest: seq<byte>)
    ensures Join(d, [], p, Answered(d', [], p', rest)) == Answered(d + d', [], p + p', rest)
    ensures d == [] ==> d + d' == d'
    ensures p == [] ==> p + p' == p'
  {
  }

  function EncodeAll(messages: seq<seq<Part>>): seq<byte> {
    if messages == [] then [] else Encode(messages[0]) + EncodeAll(messages[1..])
  }

  lemma EncodeAllFirst(messages: seq<seq<Part>>, last: seq<byte>, rest: seq<byte>)
    requires messages != []
    ensures EncodeAll(messages) + last + rest == Encode(messages[0]) + (EncodeAll(messages[1..]) + last + rest)
  {
    hide Encode;
  }

  function Replies(messages: seq<seq<Part>>, listings: Listings, k: nat): seq<byte> {
    if messages == [] then []
    else
      var r := Reply(Payload(messages[0]), listings(k));
      (if r.Some? then r.value else []) + Replies(messages[1..], listings, k + 1)
  }

  function AllPings(messages: seq<seq<Part>>): seq<nat> {
    if messages == [] then [] else Pings(messages[0]) + AllPings(messages[1..])
  }

  // ---- What a client is told ----

  /** The messages that a command is answered with, by its first letters C, Cl and CO; None if it
      ends the connection. */
  function Told(msg: seq<byte>, listing: Option<seq<byte>>): Option<seq<seq<byte>>> {
    if msg == [] || msg[0] != 67 || |msg| >= 4096 then None
    else if |msg| == 1 || msg[1] !in {108, 79} then Some([[67]])
    else if msg[1] == 79 then Some([])
    else if listing.Some? then Some([[67] + listing.value])
    else None
  }

  /** The text messages that a receiver makes of a stream, if they are all it holds. */
  function TextMessages(s: seq<byte>): Option<seq<seq<byte>>>
    decreases |s|
  {
    if s == [] then Some([])
    else
      match ReceiveMessage(s)
      case Rejected => None
      case Message(opcode, payload, rest) =>
        if opcode != 1 || |rest| >= |s| || TextMessages(rest).None? then None
        else Some([payload] + TextMessages(rest).value)
  }

  lemma ReceivesText(payload: seq<byte>, t: seq<byte>)
    requires |payload| < 0x8000_0000_0000_0000
    ensures TextMessages(ServerFrame(Frame(true, 1, payload)) + t)
         == if TextMessages(t).None? then None else Some([payload] + TextMessages(t).value)
  {
    hide ServerFrame, Decode;
    var f := Frame(true, 1, payload);
    DecodeServerFrame(f, t);
    DecodedIsSome(f, t);
  }

  lemma DecodedIsSome(f: Frame, t: seq<byte>)
    ensures |ServerFrame(f) + t| > |t|
  {
    hide Header;
  }

  /** A reply is, to the client that receives it, just what it is to be told. */
  lemma ReplyTells(msg: seq<byte>, listing: Option<seq<byte>>, t: seq<byte>)
    requires |msg| < BUFFER_SIZE && (listing.Some? ==> |listing.value| <= MAX_LISTING)
    ensures Reply(msg, listing).Some? <==> Told(msg, listing).Some?
    ensures Reply(msg, listing).Some? && TextMessages(t).Some? ==>
              TextMessages(Reply(msg, listing).value + t) == Some(Told(msg, listing).value + TextMessages(t).value)
  {
    hide TextMessages, ServerFrame;
    ReceivesText([67], t);
    if listing.Some? {
      ReceivesText([67] + listing.value, t);
    }
    assert [] + t == t;
    if TextMessages(t).Some? {
      assert [] + TextMessages(t).value == TextMessages(t).value;
    }
  }

  /** What the client is told over several commands. */
  function AllTold(messages: seq<seq<Part>>, listings: Listings, k: nat): seq<seq<byte>> {
    if messages == [] then []
    else
      var told := Told(Payload(messages[0]), listings(k));
      (if told.Some? then told.value else []) + AllTold(messages[1..], listings, k + 1)
  }

  predicate IsCommand(parts: seq<Part>, firstchar: byte, listing: Option<seq<byte>>) {
    ValidParts(parts) && !IsAnswer(Payload(parts), firstchar) && Told(Payload(parts), listing).Some?
  }

  lemma CommandHasReply(parts: seq<Part>, firstchar: byte, listings: Listings, k: nat)
    requires Short(listings) && IsCommand(parts, firstchar, listings(k))
    ensures ValidParts(parts) && !IsAnswer(Payload(parts), firstchar)
    ensures |Payload(parts)| < BUFFER_SIZE && Reply(Payload(parts), listings(k)).Some?
  {
    hide Payload, ValidParts, IsAnswer;
    ReplyTells(Payload(parts), listings(k), []);
  }

  lemma {:induction false} RepliesTell(commands: seq<seq<Part>>, firstchar: byte, listings: Listings, k: nat)
    requires Short(listings)
    requires forall i :: 0 <= i < |commands| ==> IsCommand(commands[i], firstchar, listings(k + i))
    ensures TextMessages(Replies(commands, listings, k)) == Some(AllTold(commands, listings, k))
  {
    hide TextMessages, Reply, Told, Payload, IsCommand;
    if commands == [] {
      NothingTold();
    } else {
      var c, more := commands[0], commands[1..];
      assert IsCommand(c, firstchar, listings(k + 0));
      forall i | 0 <= i < |more|
        ensures IsCommand(more[i], firstchar, listings(k + 1 + i))
      {
        assert more[i] == commands[i + 1] && k + 1 + i == k + (i + 1);
      }
      RepliesTell(more, firstchar, listings, k + 1);
      CommandHasReply(c, firstchar, listings, k);
      ReplyTells(Payload(c), listings(k), Replies(more, listings, k + 1));
    }
  }

  lemma NothingTold()
    ensures TextMessages([]) == Some([])
  {
  }

  /** The relay's promise: any number of complete unrequested commands may precede the answer;
      the pipe receives exactly the answer, and the client is told, message by message, what each
      command asked for. */
  lemma RelaysAnswer(commands: seq<seq<Part>>, answer: seq<Part>, rest: seq<byte>, firstchar: byte,
                     listings: Listings, k: nat)
    requires Short(listings)
    requires forall i :: 0 <= i < |commands| ==> IsCommand(commands[i], firstchar, listings(k + i))
    requires ValidParts(answer) && IsAnswer(Payload(answer), firstchar)
    ensures var a := ReadAnswer(EncodeAll(commands) + Encode(answer) + rest, true, firstchar, listings, k);
            && a.Answered? && a.piped == Payload(answer) && a.rest == rest
            && TextMessages(a.replies) == Some(AllTold(commands, listings, k))
            && a.pongs == AllPings(commands) + Pings(answer)
  {
    hide ReadAnswer, EncodeAll, Encode, Payload, TextMessages, Replies, AllTold, Pings, AllPings, IsCommand;
    RepliesTell(commands, firstchar, listings, k);
    RelaysWithReplies(commands, answer, rest, firstchar, listings, k);
  }

  /** The same with the replies as the code builds them. */
  lemma {:induction false} RelaysWithReplies(commands: seq<seq<Part>>, answer: seq<Part>, rest: seq<byte>,
                                             firstchar: byte, listings: Listings, k: nat)
    requires Short(listings)
    requires forall i :: 0 <= i < |commands| ==> IsCommand(commands[i], firstchar, listings(k + i))
    requires ValidParts(answer) && IsAnswer(Payload(answer), firstchar)
    ensures ReadAnswer(EncodeAll(commands) + Encode(answer) + rest, true, firstchar, listings, k)
         == Answered(Payload(answer), Replies(commands, listings, k), AllPings(commands) + Pings(answer), rest)
  {
    hide ReadAnswer, EncodeAll, Encode, Reply, Told, Payload, Pings, ValidParts, IsAnswer, Join, Replies, AllPings,
         IsCommand;
    if commands == [] {
      NoCommands(answer, rest, listings, k);
      DeliversAnswer(answer, rest, true, firstchar, listings, k);
    } else {
      var c, more := commands[0], commands[1..];
      assert IsCommand(c, firstchar, listings(k + 0));
      EncodeAllFirst(commands, Encode(answer), rest);
      CommandHasReply(c, firstchar, listings, k);
      SkipsCommand(c, EncodeAll(more) + Encode(answer) + rest, firstchar, listings, k);
      forall i | 0 <= i < |more|
        ensures IsCommand(more[i], firstchar, listings(k + 1 + i))
      {
        assert more[i] == commands[i + 1] && k + 1 + i == k + (i + 1);
      }
      RelaysWithReplies(more, answer, rest, firstchar, listings, k + 1);
      JoinCommand(commands, Payload(answer), Pings(answer), rest, listings, k);
    }
  }

  lemma NoCommands(answer: seq<Part>, rest: seq<byte>, listings: Listings, k: nat)
    ensures Replies([], listings, k) == [] && AllPings([]) + Pings(answer) == Pings(answer)
    ensures EncodeAll([]) + Encode(answer) + rest == Encode(answer) + rest
  {
    hide Encode, Pings;
    assert [] + Encode(answer) == Encode(answer);
    assert [] + Pings(answer) == Pings(answer);
  }

  lemma JoinCommand(commands: seq<seq<Part>>, d: seq<byte>, p: seq<nat>, rest: seq<byte>, listings: Listings, k: nat)
    requires commands != [] && Reply(Payload(commands[0]), listings(k)).Some?
    ensures Join([], Reply(Payload(commands[0]), listings(k)).value, Pings(commands[0]),
                 Answered(d, Replies(commands[1..], listings, k + 1), AllPings(commands[1..]) + p, rest))
         == Answered(d, Replies(commands, listings, k), AllPings(commands) + p, rest)
  {
    hide Reply, Payload, Pings;
    var mine, more := Pings(commands[0]), AllPings(commands[1..]);
    assert [] + d == d && mine + (more + p) == mine + more + p;
  }

  // ---- An answer that breaks off ----

  /** A reading of which the last `lost` bytes did not arrive. */
  predicate Truncated(whole: Received, part: Received, lost: nat) {
    match part
    case Lost(_) => true
    case Control(p, rest) => whole.Control? && whole.pong == p && CutBy(whole.rest, rest, lost)
    case Data(fin, n, key, rest) =>
      whole.Data? && whole.fin == fin && whole.length == n && whole.key == key && CutBy(whole.rest, rest, lost)
  }

  predicate CutBy(whole: seq<byte>, part: seq<byte>, lost: nat) {
    part <= whole && |whole| == |part| + lost
  }

  lemma CutAt(s: seq<byte>, t: seq<byte>, n: nat)
    requires t <= s && n <= |t|
    ensures t[..n] == s[..n] && CutBy(s[n..], t[n..], |s| - |t|)
  {
    assert t[..n] == s[..n];
    assert t[n..] == s[n..|t|];
  }

  /** Less of a stream never reads as another frame. */
  lemma ReceivesLess(s: seq<byte>, t: seq<byte>)
    requires t <= s
    ensures Truncated(Receive(s), Receive(t), |s| - |t|)
  {
    hide ReceiveLength, Truncated;
    if |t| >= 2 && !ReservedBits(t[0]) {
      CutAt(s, t, 2);
      ReceivesLessLength(TopBit(s[0]), OpcodeBits(s[0]), TopBit(s[1]), LengthBits(s[1]), s[2..], t[2..]);
    } else {
      LostIsTruncated(Receive(s), |s| - |t|);
    }
  }

  lemma LostIsTruncated(whole: Received, lost: nat)
    ensures forall notify :: Truncated(whole, Lost(notify), lost)
  {
  }

  lemma ReceivesLessLength(fin: bool, opcode: byte, masked: bool, len7: nat, s: seq<byte>, t: seq<byte>)
    requires t <= s
    ensures Truncated(ReceiveLength(fin, opcode, masked, len7, s), ReceiveLength(fin, opcode, masked, len7, t),
                      |s| - |t|)
  {
    hide ReceiveKey, FromBigEndian, Truncated;
    var ext := if len7 == 126 then 2 else if len7 == 127 then 8 else 0;
    LostIsTruncated(ReceiveLength(fin, opcode, masked, len7, s), |s| - |t|);
    if |t| >= ext {
      CutAt(s, t, ext);
      var n := if ext == 0 then len7 else FromBigEndian(s[..ext]);
      ReceivesLessBody(fin, opcode, masked, n, s[ext..], t[ext..]);
    }
  }

  lemma ReceivesLessBody(fin: bool, opcode: byte, masked: bool, n: nat, s: seq<byte>, t: seq<byte>)
    requires t <= s
    ensures Truncated(ReceiveKey(fin, opcode, masked, n, s), ReceiveKey(fin, opcode, masked, n, t), |s| - |t|)
  {
    if |t| >= 4 {
      CutAt(s, t, 4);
      if |t[4..]| >= n {
        CutAt(s[4..], t[4..], n);
      }
    }
  }

  /** The end of the stream inside the first frame of an answer. */
  lemma BreaksInPart(p: Part, last: bool, t: seq<byte>, first: bool, firstchar: byte, listings: Listings, k: nat)
    requires p.Valid() && t < ClientFrame(p.ToFrame(last), p.key)
    ensures var a := ReadAnswer(t, first, firstchar, listings, k);
            a.Aborted? && a.piped <= if p.Fragment? then p.data else []
  {
    hide Receive, ClientFrame, Masked, FrameStep, BrokenOff;
    var f := ClientFrame(p.ToFrame(last), p.key);
    assert f + [] == f && Masked(p.data, p.key) + [] == Masked(p.data, p.key);
    ReceivesPart(p, last, []);
    ReceivesLess(f, t);
    match Receive(t)
    case Lost(_) =>
    case Control(_, _) => assert false;
    case Data(_, _, key, rest) =>
      MaskedStart(p.data, p.key, rest);
      BrokenOffStart(p.data[..|rest|], first, firstchar);
  }

  lemma MaskedStart(data: seq<byte>, key: Key, start: seq<byte>)
    requires start <= Masked(data, key)
    ensures Masked(start, key) == data[..|start|]
  {
    hide Xor, Phase, Masked;
    MaskedTwice(data, key);
    forall i | 0 <= i < |start|
      ensures Masked(start, key)[i] == data[i]
    {
      assert Masked(data, key)[i] == start[i];
      assert Masked(Masked(data, key), key)[i] == Masked(start, key)[i];
    }
  }

  lemma BrokenOffStart(start: seq<byte>, first: bool, firstchar: byte)
    ensures BrokenOff(start, first, firstchar) <= start
  {
  }

  /** When the stream ends before the answer does, the pipe has the beginning of the answer and
      nothing else. */
  lemma {:induction false} BreaksOff(parts: seq<Part>, t: seq<byte>, first: bool, firstchar: byte,
                                     listings: Listings, k: nat)
    requires ValidParts(parts) && t < Encode(parts)
    requires first ==> IsAnswer(Payload(parts), firstchar)
    ensures var a := ReadAnswer(t, first, firstchar, listings, k);
            a.Aborted? && a.piped <= Payload(parts)
  {
    hide ReadAnswer, ClientFrame, Payload, Pings, AfterPart, Encode;
    var p, more, last := parts[0], parts[1..], |parts| == 1;
    var f := ClientFrame(p.ToFrame(last), p.key);
    EncodeStep(parts);
    FirstPart(parts);
    if |t| < |f| {
      assert t < f;
      BreaksInPart(p, last, t, first, firstchar, listings, k);
    } else {
      var tail := t[|f|..];
      assert t == f + tail && tail < Encode(more);
      EncodeNothing();
      AnswerStep(p, last, tail, first, firstchar, listings, k);
      DeliversPart(p, last, tail, first, firstchar, listings, k);
      BreaksOff(more, tail, first && (!p.Fragment? || p.data == []), firstchar, listings, k);
    }
  }

  lemma EncodeNothing()
    ensures Encode([]) == []
  {
  }

  /** The same after any number of complete commands. */
  lemma {:induction false} BreaksOffAfterCommands(commands: seq<seq<Part>>, answer: seq<Part>, t: seq<byte>,
                                                  firstchar: byte, listings: Listings, k: nat)
    requires Short(listings)
    requires forall i :: 0 <= i < |commands| ==> IsCommand(commands[i], firstchar, listings(k + i))
    requires ValidParts(answer) && IsAnswer(Payload(answer), firstchar) && t < Encode(answer)
    ensures var a := ReadAnswer(EncodeAll(commands) + t, true, firstchar, listings, k);
            a.Aborted? && a.piped <= Payload(answer)
  {
    hide ReadAnswer, Encode, Reply, Told, Payload, Pings, ValidParts, IsAnswer;
    if commands == [] {
      assert [] + t == t;
      BreaksOff(answer, t, true, firstchar, listings, k);
    } else {
      var c, more := commands[0], commands[1..];
      assert IsCommand(c, firstchar, listings(k + 0));
      EncodeAllFirst(commands, t, []);
      var tail := EncodeAll(more) + t;
      assert EncodeAll(commands) + t + [] == EncodeAll(commands) + t && tail + [] == tail;
      CommandHasReply(c, firstchar, listings, k);
      SkipsCommand(c, tail, firstchar, listings, k);
      forall i | 0 <= i < |more|
        ensures IsCommand(more[i], firstchar, listings(k + 1 + i))
      {
        assert more[i] == commands[i + 1] && k + 1 + i == k + (i + 1);
      }
      BreaksOffAfterCommands(more, answer, t, firstchar, listings, k + 1);
    }
  }

  /** Any other complete message that is no answer ends the connection: a command that is too long,
      has another first letter, or asks for a list that croutoncycle fails to print. */
  lemma {:induction false} RefusesOther(parts: seq<Part>, rest: seq<byte>, firstchar: byte, listings: Listings, k: nat)
    requires Short(listings) && ValidParts(parts) && !IsAnswer(Payload(parts), firstchar)
    requires Told(Payload(parts), listings(k)).None?
    ensures ReadAnswer(Encode(parts) + rest, true, firstchar, listings, k) == Aborted([])
  {
    var p, more, last := parts[0], parts[1..], |parts| == 1;
    var tail := Encode(more) + rest;
    hide ReadAnswer, ClientFrame, Reply, Told, ReadMessage, Payload, Pings, AfterPart, Join, Encode, IsAnswer;
    if last {
      LastTail(parts, rest);
    }
    IsAnswerFirst(parts, firstchar);
    EncodeFirst(parts, rest);
    FirstPart(parts);
    AnswerStep(p, last, tail, true, firstchar, listings, k);
    if last {
      RefusesFragment(p, true, tail, [], [], rest, firstchar, listings, k);
    } else if p.Fragment? && p.data != [] {
      if |p.data| < BUFFER_SIZE {
        ReadsMessage(more, rest, RELAY_BUFFER - |p.data|);
      }
      RefusesFragment(p, false, tail, Payload(more), Pings(more), rest, firstchar, listings, k);
    } else {
      RefusesOther(more, rest, firstchar, listings, k);
      DeliversPart(p, false, tail, true, firstchar, listings, k);
      JoinRefused(if p.Ping? then [|p.data|] else []);
    }
  }

  lemma JoinRefused(pings: seq<nat>)
    ensures Join([], [], pings, Aborted([])) == Aborted([])
  {
  }

  lemma RefusesFragment(p: Part, last: bool, tail: seq<byte>, more: seq<byte>, pongs: seq<nat>, rest: seq<byte>,
                        firstchar: byte, listings: Listings, k: nat)
    requires p.Fragment? && !IsAnswer(p.data, firstchar) && Short(listings)
    requires if last then more == [] && pongs == [] && rest == tail
             else |p.data| >= BUFFER_SIZE
                  || ReadMessage(tail, RELAY_BUFFER - |p.data|).Broken?
                  || ReadMessage(tail, RELAY_BUFFER - |p.data|) == Complete(more, rest, pongs)
    requires Told(p.data + more, listings(k)).None?
    ensures AfterPart(p, last, tail, true, firstchar, listings, k) == Aborted([])
  {
    hide ReadAnswer, ReadMessage, Reply, Told;
    assert p.data + [] == p.data;
    if |p.data + more| < BUFFER_SIZE {
      ReplyTells(p.data + more, listings(k), []);
    }
  }

  // ---- An end in the middle ----

  /** Whatever part of an answer came before, what ends a connection (see ReceivesEvery) ends the
      answer; the pipe has that part. */
  lemma {:induction false} EndsAnswer(parts: seq<Part>, s: seq<byte>, first: bool, firstchar: byte,
                                      listings: Listings, k: nat)
    requires (forall p :: p in parts ==> p.Valid()) && Receive(s).Lost?
    requires first ==> IsAnswer(Payload(parts), firstchar)
    ensures ReadAnswer(EncodeOpen(parts) + s, first, firstchar, listings, k) == Aborted(Payload(parts))
  {
    if parts == [] {
      assert [] + s == s;
      hide Receive;
    } else {
      hide ReadAnswer, ClientFrame, EncodeOpen, Payload, AfterPart, Join;
      var p, more := parts[0], parts[1..];
      var first' := first && (!p.Fragment? || p.data == []);
      EncodeOpenFirst(parts, s);
      PayloadOfFirst(parts);
      AnswerStep(p, false, EncodeOpen(more) + s, first, firstchar, listings, k);
      DeliversPart(p, false, EncodeOpen(more) + s, first, firstchar, listings, k);
      EndsAnswer(more, s, first', firstchar, listings, k);
      JoinEnded(if p.Fragment? then p.data else [], if p.Ping? then [|p.data|] else [], Payload(more));
    }
  }

  lemma PayloadOfFirst(parts: seq<Part>)
    requires parts != []
    ensures Payload(parts) == (if parts[0].Fragment? then parts[0].data else []) + Payload(parts[1..])
    ensures !parts[0].Fragment? || parts[0].data == [] ==> Payload(parts) == Payload(parts[1..])
  {
  }

  lemma JoinEnded(d: seq<byte>, pings: seq<nat>, more: seq<byte>)
    ensures Join(d, [], pings, Aborted(more)) == Aborted(d + more)
  {
  }

  // ---- Message to pipe: the code ----

  /** Writes to the pipe, giving up on it after a failure. */
  method PipeWrite(pipeout: Stream<byte>, buffer: array<byte>, len: nat)
    requires len <= buffer.Length
    modifies pipeout`output, pipeout`open
    ensures old(pipeout.open) && pipeout.reliable ==>
              pipeout.open && pipeout.output == old(pipeout.output) + buffer[..len]
  {
    if !pipeout.open {
      return;
    }
    var n := BlockWrite(pipeout, buffer, 0, len);
    assert buffer[0..len] == buffer[..len];
    if n != len {
      pipeout.Close();
    }
  }

  /** Obeys an unrequested command, the first `length` bytes of the buffer. */
  method HandleUnrequested(client: Client, buffer: array<byte>, length: nat, listing: Option<seq<byte>>)
    returns (ok: bool)
    requires 0 < length < BUFFER_SIZE <= buffer.Length
    requires listing.Some? ==> |listing.value| <= MAX_LISTING
    modifies client.socket`output, client.socket`open
    ensures !ok ==> !client.socket.open
    ensures ok ==> Reply(buffer[..length], listing).Some?
    ensures old(client.socket.open) && client.socket.reliable ==>
              match Reply(buffer[..length], listing)
              case None => !ok
              case Some(reply) => ok && client.socket.open && client.socket.output == old(client.socket.output) + reply
  {
    if buffer[0] != COMMAND {
      client.CloseClient(false);
      return false;
    }
    var reply := new byte[BUFFER_SIZE];
    var replylength := 1;
    reply[FRAME_MAX_HEADER_SIZE] := COMMAND;
    if length > 1 && buffer[1] == LIST {
      if listing.None? {
        client.CloseClient(false);
        return false;
      }
      Fill(reply, FRAME_MAX_HEADER_SIZE + 1, listing.value);
      replylength := replylength + |listing.value|;
      assert reply[16..16 + replylength] == [COMMAND] + listing.value;
    } else if length > 1 && buffer[1] == OK {
      assert client.socket.output + [] == client.socket.output;
      return true;
    } else {
      assert reply[16..17] == [COMMAND];
    }
    var r := client.WriteFrame(reply, replylength, OPCODE_TEXT, true);
    if r < 0 {
      client.CloseClient(false);
      return false;
    }
    return true;
  }

  /** What popen2 leaves in its output buffer. */
  method Fill(buffer: array<byte>, at: nat, data: seq<byte>)
    requires at + |data| <= buffer.Length
    modifies buffer
    ensures buffer[at..at + |data|] == data
    ensures forall j :: 0 <= j < at ==> buffer[j] == old(buffer[j])
  {
    for i := 0 to |data|
      invariant forall j :: 0 <= j < i ==> buffer[at + j] == data[j]
      invariant forall j :: 0 <= j < at ==> buffer[j] == old(buffer[j])
    {
      buffer[at + i] := data[i];
    }
  }

  datatype FrameStatus = Delivered | Skipped | Failed

  /** Finishes reading an unrequested message whose first `len` bytes are in the buffer, or in
      part if there are too many, and obeys it. */
  method FinishCommand(client: Client, buffer: array<byte>, len: nat, fin: bool, listing: Option<seq<byte>>)
    returns (ok: bool)
    requires 0 < len && buffer.Length == RELAY_BUFFER + 3
    requires listing.Some? ==> |listing.value| <= MAX_LISTING
    modifies client, buffer, client.socket`input, client.socket`output, client.socket`open
    ensures IsSuffix(client.socket.input, old(client.socket.input))
    ensures !ok ==> !client.socket.open
    ensures ok ==> len < BUFFER_SIZE
                   && Skips(if fin then CommandStep(old(buffer[..len]), [], old(client.socket.input), listing)
                            else LongCommand(old(buffer[..len]), old(client.socket.input), listing),
                            client.socket.input)
    ensures old(client.socket.open) && client.socket.reliable ==>
              if len >= BUFFER_SIZE then !ok
              else CommandDone(client,
                               if fin then CommandStep(old(buffer[..len]), [], old(client.socket.input), listing)
                               else LongCommand(old(buffer[..len]), old(client.socket.input), listing), ok)
  {
    hide ReadMessage, Reply;
    var total := len;
    if !fin && len < BUFFER_SIZE {
      ghost var start := buffer[..len];
      var r := client.ReadFrame(buffer, len, RELAY_BUFFER - len);
      if r < 0 {
        return false;
      }
      assert buffer[..len] == start;
      assert buffer[..len + r] == start + buffer[len..len + r];
      total := len + r;
    }
    if total >= BUFFER_SIZE {
      client.CloseClient(true);
      return false;
    }
    ok := HandleUnrequested(client, buffer, total, listing);
  }

  predicate Skips(step: Step, rest: seq<byte>) {
    step.Skip? && step.rest == rest
  }

  /** What an unrequested command must do on a reliable connection. */
  twostate predicate CommandDone(client: Client, step: Step, ok: bool)
    reads client, client.socket
  {
    match step
    case Skip(reply, pongs, rest) =>
      ok && client.socket.open && client.socket.input == rest
      && client.socket.output == old(client.socket.output) + reply && client.pongs == old(client.pongs) + pongs
    case _ => !ok
  }

  /** What the handling of a nonempty data frame must do on a reliable connection. */
  twostate predicate FrameDone(client: Client, step: Step, status: FrameStatus)
    reads client, client.socket
  {
    match step
    case Refuse => status.Failed?
    case Deliver(_, rest) =>
      status.Delivered? && client.socket.open && client.socket.input == rest
      && client.socket.output == old(client.socket.output) && client.pongs == old(client.pongs)
    case Skip(_, _, _) => status.Skipped? && CommandDone(client, step, true)
  }

  ghost function Padded(start: seq<byte>, len: nat): (r: seq<byte>)
    requires |start| <= len
    ensures |r| == len && start <= r
  {
    start + seq(len - |start|, _ => 0)
  }

  /** An unrequested frame, whose first piece is in the buffer. */
  method ObeyCommand(client: Client, buffer: array<byte>, len: nat, fin: bool, first: bool, firstchar: byte,
                     listing: Option<seq<byte>>, ghost payload: seq<byte>, ghost rest: seq<byte>)
    returns (status: FrameStatus)
    requires 0 < len == |payload| && buffer.Length == RELAY_BUFFER + 3
    requires Unrequested(first, firstchar, payload[0])
    requires len < BUFFER_SIZE ==> buffer[..len] == payload && client.socket.input == rest
    requires listing.Some? ==> |listing.value| <= MAX_LISTING
    modifies client, buffer, client.socket`input, client.socket`output, client.socket`open
    ensures IsSuffix(client.socket.input, old(client.socket.input))
    ensures !status.Delivered?
    ensures status.Failed? ==> !client.socket.open
    ensures status.Skipped? ==>
              |payload| < BUFFER_SIZE
              && Skips(FrameStep(fin, payload, rest, first, firstchar, listing), client.socket.input)
    ensures old(client.socket.open) && client.socket.reliable ==>
              FrameDone(client, FrameStep(fin, payload, rest, first, firstchar, listing), status)
  {
    hide FrameStep, LongCommand, CommandStep, Reply;
    FrameStepIs(fin, payload, rest, first, firstchar, listing);
    var ok := FinishCommand(client, buffer, len, fin, listing);
    return if ok then Skipped else Failed;
  }

  /** Reads and unmasks the next piece of a payload that starts the stream `s`. */
  method RelayPiece(client: Client, buffer: array<byte>, rlen: nat, key: Key, ghost s: seq<byte>, ghost done: nat)
    returns (ok: bool)
    requires 0 < rlen <= BUFFER_SIZE && buffer.Length == RELAY_BUFFER + 3
    requires done % 4 == 0 && done <= |s| && client.socket.input == s[done..]
    modifies buffer, client.socket`input, client.socket`open
    ensures ok ==> done + rlen <= |s| && client.socket.input == s[done + rlen..]
                   && client.socket.open == old(client.socket.open)
    ensures ok ==> Masked(s[..done + rlen], key) == Masked(s[..done], key) + buffer[..rlen]
    ensures ok && done == 0 ==> buffer[..rlen] == Masked(s[..rlen], key)
    ensures !ok ==> !client.socket.open && IsSuffix(client.socket.input, s)
    ensures old(client.socket.open) && client.socket.reliable && done + rlen <= |s| ==> ok
  {
    hide Masked;
    var n := client.ReadFrameData(buffer, 0, rlen, key);
    if n < 0 {
      return false;
    }
    NextPiece(s, done, rlen, key);
    assert buffer[..rlen] == buffer[0..rlen];
    return true;
  }

  /** The pieces of a payload after the first, which are sent down the pipe unexamined. */
  method RelayRest(client: Client, pipeout: Stream<byte>, buffer: array<byte>, len: nat, key: Key,
                   ghost s: seq<byte>, start: nat) returns (status: FrameStatus, ghost piped: seq<byte>)
    requires start <= len && start <= |s| && (start < len ==> start == WholePieces(start))
    requires client.socket.input == s[start..]
    requires buffer.Length == RELAY_BUFFER + 3 && client.socket != pipeout
    modifies buffer, client.socket`input, client.socket`open, pipeout`output, pipeout`open
    ensures !status.Skipped? && IsSuffix(client.socket.input, s)
    ensures status.Failed? ==> !client.socket.open
    ensures status.Delivered? ==> len <= |s| && client.socket.input == s[len..]
                                  && client.socket.open == old(client.socket.open)
    ensures old(client.socket.open) && client.socket.reliable ==> (status.Delivered? <==> len <= |s|)
    ensures status.Delivered? ==> Masked(s[..len], key) == Masked(s[..start], key) + piped
    ensures status.Failed? && old(client.socket.open) && client.socket.reliable ==>
              Masked(s[..WholePieces(|s|)], key) == Masked(s[..start], key) + piped
    ensures old(pipeout.open) && pipeout.reliable ==> pipeout.open && pipeout.output == old(pipeout.output) + piped
  {
    hide Masked, WholePieces, IsSuffix;
    var done := start;
    piped := [];
    while done < len
      invariant start <= done <= len && done <= |s| && (done < len ==> done == WholePieces(done))
      invariant client.socket.input == s[done..]
      invariant client.socket.open == old(client.socket.open)
      invariant Masked(s[..done], key) == Masked(s[..start], key) + piped
      invariant old(pipeout.open) && pipeout.reliable ==> pipeout.open && pipeout.output == old(pipeout.output) + piped
      decreases len - done
    {
      var rlen := if len - done > BUFFER_SIZE then BUFFER_SIZE else len - done;
      PiecesOf(done, |s|);
      var ok := RelayPiece(client, buffer, rlen, key, s, done);
      if !ok {
        return Failed, piped;
      }
      PipeWrite(pipeout, buffer, rlen);
      Associative(Masked(s[..start], key), piped, buffer[..rlen]);
      Associative(old(pipeout.output), piped, buffer[..rlen]);
      piped := piped + buffer[..rlen];
      done := done + rlen;
    }
    DropIsSuffix(s, len);
    return Delivered, piped;
  }

  /** Where the pieces of a payload start and end. */
  lemma {:induction false} PiecesOf(done: nat, n: nat)
    requires done == WholePieces(done) && done <= n
    ensures done % 4 == 0 && done + BUFFER_SIZE == WholePieces(done + BUFFER_SIZE)
    ensures n < done + BUFFER_SIZE ==> WholePieces(n) == done
  {
    if done > 0 {
      PiecesOf(done - BUFFER_SIZE, n - BUFFER_SIZE);
    }
  }

  /** Sends the first piece of a payload down the pipe, then the rest. */
  method DeliverFrame(client: Client, pipeout: Stream<byte>, buffer: array<byte>, len: nat, rlen: nat, key: Key,
                      ghost s: seq<byte>) returns (status: FrameStatus, ghost piped: seq<byte>)
    requires rlen == (if len > BUFFER_SIZE then BUFFER_SIZE else len) && rlen <= |s|
    requires buffer.Length == RELAY_BUFFER + 3 && client.socket != pipeout
    requires client.socket.input == s[rlen..] && buffer[..rlen] == Masked(s[..rlen], key)
    modifies buffer, client.socket`input, client.socket`open, pipeout`output, pipeout`open
    ensures !status.Skipped? && IsSuffix(client.socket.input, s)
    ensures status.Failed? ==> !client.socket.open
    ensures status.Delivered? ==> len <= |s| && client.socket.input == s[len..] && piped == Masked(s[..len], key)
                                  && client.socket.open == old(client.socket.open)
    ensures old(client.socket.open) && client.socket.reliable ==> (status.Delivered? <==> len <= |s|)
    ensures status.Failed? && old(client.socket.open) && client.socket.reliable ==>
              piped == Masked(s[..WholePieces(|s|)], key)
    ensures old(pipeout.open) && pipeout.reliable ==> pipeout.open && pipeout.output == old(pipeout.output) + piped
  {
    hide Masked, IsSuffix;
    assert WholePieces(BUFFER_SIZE) == BUFFER_SIZE + WholePieces(0);
    PipeWrite(pipeout, buffer, rlen);
    ghost var head := buffer[..rlen];
    status, piped := RelayRest(client, pipeout, buffer, len, key, s, rlen);
    piped := head + piped;
  }

  /** Reads the payload of one frame in pieces and sends them down the pipe, unless the first
      byte says that this is no answer. */
  method RelayFrame(client: Client, pipeout: Stream<byte>, buffer: array<byte>, len: nat, fin: bool, key: Key,
                    first: bool, firstchar: byte, listing: Option<seq<byte>>)
    returns (status: FrameStatus, ghost piped: seq<byte>)
    requires 0 < len && buffer.Length == RELAY_BUFFER + 3 && client.socket != pipeout
    requires listing.Some? ==> |listing.value| <= MAX_LISTING
    modifies client, buffer, client.socket`input, client.socket`output, client.socket`open,
             pipeout`output, pipeout`open
    ensures IsSuffix(client.socket.input, old(client.socket.input))
    ensures status.Failed? ==> !client.socket.open
    ensures !status.Failed? ==>
              len <= |old(client.socket.input)|
              && FrameRead(FrameStep(fin, Masked(old(client.socket.input)[..len], key), old(client.socket.input)[len..],
                                     first, firstchar, listing), status, piped, client.socket.input)
    ensures old(client.socket.open) && client.socket.reliable ==>
              if len > |old(client.socket.input)| then
                status.Failed? && piped == BrokenOff(Masked(old(client.socket.input), key), first, firstchar)
              else
                (status.Failed? ==> piped == [])
                && FrameDone(client, FrameStep(fin, Masked(old(client.socket.input)[..len], key),
                                               old(client.socket.input)[len..], first, firstchar, listing), status)
    ensures old(pipeout.open) && pipeout.reliable ==> pipeout.open && pipeout.output == old(pipeout.output) + piped
  {
    hide Masked, FrameStep, LongCommand, CommandStep, Reply, IsSuffix, BrokenOff;
    ghost var s := client.socket.input;
    assert s[0..] == s && Masked(s[..0], key) == [];
    var rlen := if len > BUFFER_SIZE then BUFFER_SIZE else len;
    piped := [];
    if |s| < len {
      BrokenOffIs(s, key, first, firstchar);
    }
    var ok := RelayPiece(client, buffer, rlen, key, s, 0);
    if !ok {
      return Failed, piped;
    }
    DropIsSuffix(s, rlen);
    ghost var left := client.socket.input;
    ghost var payload := if len <= |s| then Masked(s[..len], key) else Padded(buffer[..rlen], len);
    ghost var rest := if len <= |s| then s[len..] else [];
    MaskedPrefix(s, len, rlen, key);
    FrameStepIs(fin, payload, rest, first, firstchar, listing);
    if Unrequested(first, firstchar, buffer[0]) {
      status := ObeyCommand(client, buffer, len, fin, first, firstchar, listing, payload, rest);
      SuffixTwice(client.socket.input, left, s);
    } else {
      status, piped := DeliverFrame(client, pipeout, buffer, len, rlen, key, s);
    }
  }

  /** What a data frame that was handled was, on any connection. */
  predicate FrameRead(step: Step, status: FrameStatus, piped: seq<byte>, rest: seq<byte>) {
    match step
    case Refuse => false
    case Deliver(payload, after) => status.Delivered? && piped == payload && rest == after
    case Skip(_, _, after) => status.Skipped? && piped == [] && rest == after
  }

  lemma BrokenOffIs(s: seq<byte>, key: Key, first: bool, firstchar: byte)
    ensures BrokenOff(Masked(s, key), first, firstchar)
         == if |s| < BUFFER_SIZE || Unrequested(first, firstchar, Masked(s[..BUFFER_SIZE], key)[0]) then []
            else Masked(s[..WholePieces(|s|)], key)
  {
    hide Xor, WholePieces;
  }

  lemma FrameStepIs(fin: bool, payload: seq<byte>, rest: seq<byte>, first: bool, firstchar: byte,
                    listing: Option<seq<byte>>)
    requires payload != []
    ensures FrameStep(fin, payload, rest, first, firstchar, listing)
         == if !Unrequested(first, firstchar, payload[0]) then Deliver(payload, rest)
            else if |payload| >= BUFFER_SIZE then Refuse
            else if fin then CommandStep(payload, [], rest, listing)
            else LongCommand(payload, rest, listing)
  {
  }

  lemma NextPiece(s: seq<byte>, done: nat, rlen: nat, key: Key)
    requires done % 4 == 0 && done + rlen <= |s|
    ensures Masked(s[..done + rlen], key) == Masked(s[..done], key) + Masked(s[done..done + rlen], key)
    ensures s[done..][..rlen] == s[done..done + rlen] && s[done..][rlen..] == s[done + rlen..]
    ensures 0 < done ==> Masked(s[..done + rlen], key)[0] == Masked(s[..done], key)[0]
    ensures s[0..rlen] == s[..rlen]
  {
    hide Masked;
    assert s[..done + rlen] == s[..done] + s[done..done + rlen];
    MaskedPieces(s[..done], s[done..done + rlen], key);
  }

  /** The first payload byte is known from the first piece. */
  lemma MaskedPrefix(s: seq<byte>, len: nat, rlen: nat, key: Key)
    requires 0 < rlen <= len && rlen <= |s|
    ensures len <= |s| ==> Masked(s[..len], key)[0] == Masked(s[..rlen], key)[0]
  {
    hide Xor;
  }

  /** What one frame adds to the pipe, to the replies and to the pongs. */
  datatype Added = Added(piped: seq<byte>, replies: seq<byte>, pongs: seq<nat>)

  /** How a turn of the answer loop is part of the reading `a` of the bytes before it. */
  predicate TurnRead(a: Answer, fin: bool, first: bool, firstchar: byte, listings: Listings, k: nat, add: Added,
                     rest: seq<byte>) {
    a == if fin then Answered(add.piped, add.replies, add.pongs, rest)
         else Join(add.piped, add.replies, add.pongs, ReadAnswer(rest, first, firstchar, listings, k))
  }

  /** What a turn of the answer loop must do on a reliable connection. */
  twostate predicate TurnDone(client: Client, a: Answer, ok: bool, add: Added)
    reads client, client.socket
  {
    if !ok then a == Aborted(add.piped)
    else
      && client.socket.open
      && client.socket.output == old(client.socket.output) + add.replies
      && client.pongs == old(client.pongs) + add.pongs
  }

  /** The reading that remains once a header was received. */
  function AfterHeader(r: Received, first: bool, firstchar: byte, listings: Listings, k: nat): Answer {
    match r
    case Lost(_) => Aborted([])
    case Control(p, rest) => Join([], [], Pongs(p), ReadAnswer(rest, first, firstchar, listings, k))
    case Data(fin, len, key, rest) =>
      if |rest| < len then Aborted(BrokenOff(Masked(rest, key), first, firstchar))
      else if len == 0 then
        if fin then Answered([], [], [], rest) else ReadAnswer(rest, first, firstchar, listings, k)
      else
        AfterStep(FrameStep(fin, Masked(rest[..len], key), rest[len..], first, firstchar, listings(k)),
                  fin, firstchar, listings, k)
  }

  lemma ReadAnswerStep(s: seq<byte>, first: bool, firstchar: byte, listings: Listings, k: nat)
    ensures ReadAnswer(s, first, firstchar, listings, k) == AfterHeader(Receive(s), first, firstchar, listings, k)
  {
    hide Receive, FrameStep, Masked;
  }

  /** One turn of the answer loop: a header, then the frame it announces. */
  method AnswerTurn(client: Client, pipeout: Stream<byte>, buffer: array<byte>, first0: bool, firstchar: byte,
                    listings: Listings, k0: nat)
    returns (ok: bool, fin: bool, first: bool, k: nat, ghost add: Added)
    requires buffer.Length == RELAY_BUFFER + 3 && client.socket != pipeout
    requires Short(listings)
    modifies client, buffer, client.socket`input, client.socket`output, client.socket`open,
             pipeout`output, pipeout`open
    ensures |client.socket.input| <= |old(client.socket.input)|
    ensures ok ==> |client.socket.input| < |old(client.socket.input)|
    ensures !ok ==> !client.socket.open
    ensures ok ==> TurnRead(ReadAnswer(old(client.socket.input), first0, firstchar, listings, k0),
                            fin, first, firstchar, listings, k, add, client.socket.input)
    ensures old(client.socket.open) && client.socket.reliable ==>
              TurnDone(client, ReadAnswer(old(client.socket.input), first0, firstchar, listings, k0), ok, add)
    ensures old(pipeout.open) && pipeout.reliable ==>
              pipeout.open && pipeout.output == old(pipeout.output) + add.piped
  {
    hide Receive, ReadAnswer, AfterHeader, Join;
    ok, fin, first, k, add := true, false, first0, k0, Added([], [], []);
    ReadAnswerStep(client.socket.input, first0, firstchar, listings, k0);
    ghost var r := Receive(client.socket.input);
    var len, f, key, retry := client.ReadFrameHeader();
    fin := f;
    if retry {
      add := Added([], [], Pongs(r.pong));
      AfterControl(r, first0, firstchar, listings, k0);
    } else if len < 0 {
      ok := false;
      AfterLoss(r, first0, firstchar, listings, k0);
    } else if len == 0 {
      AfterNothing(r, first0, firstchar, listings, k0);
    } else {
      ok, fin, first, k, add := TakeFrame(client, pipeout, buffer, len, fin, key, first0, firstchar, listings, k0);
    }
  }

  lemma AfterControl(r: Received, first: bool, firstchar: byte, listings: Listings, k: nat)
    requires r.Control?
    ensures TurnRead(AfterHeader(r, first, firstchar, listings, k), false, first, firstchar, listings, k,
                     Added([], [], Pongs(r.pong)), r.rest)
  {
    hide ReadAnswer, Join;
  }

  lemma AfterLoss(r: Received, first: bool, firstchar: byte, listings: Listings, k: nat)
    ensures r.Lost? ==> AfterHeader(r, first, firstchar, listings, k) == Aborted([])
  {
    hide ReadAnswer;
  }

  lemma AfterNothing(r: Received, first: bool, firstchar: byte, listings: Listings, k: nat)
    ensures r.Data? && r.length == 0 ==>
              TurnRead(AfterHeader(r, first, firstchar, listings, k), r.fin, first, firstchar, listings, k,
                       Added([], [], []), r.rest)
  {
    hide ReadAnswer;
    if r.Data? {
      JoinUnit(ReadAnswer(r.rest, first, firstchar, listings, k));
    }
  }

  /** The reading of a frame that is not empty. */
  lemma AfterFrame(fin: bool, len: nat, key: Key, rest: seq<byte>, first: bool, firstchar: byte,
                   listings: Listings, k: nat)
    requires 0 < len
    ensures var a := AfterHeader(Data(fin, len, key, rest), first, firstchar, listings, k);
            if |rest| < len then a == Aborted(BrokenOff(Masked(rest, key), first, firstchar))
            else a == AfterStep(FrameStep(fin, Masked(rest[..len], key), rest[len..], first, firstchar, listings(k)),
                                fin, firstchar, listings, k)
  {
    hide ReadAnswer, FrameStep, BrokenOff, Masked, AfterStep;
  }

  /** What a frame adds that was delivered or skipped. */
  lemma AfterStepRead(step: Step, status: FrameStatus, piped: seq<byte>, rest: seq<byte>, fin: bool, firstchar: byte,
                      listings: Listings, k: nat)
    requires FrameRead(step, status, piped, rest)
    ensures status.Delivered? ==>
              TurnRead(AfterStep(step, fin, firstchar, listings, k), fin, false, firstchar, listings, k,
                       Added(piped, [], []), rest)
    ensures status.Skipped? ==>
              TurnRead(AfterStep(step, fin, firstchar, listings, k), false, true, firstchar, listings, k + 1,
                       Added([], step.reply, step.pongs), rest)
  {
    hide ReadAnswer, Join;
  }

  /** The frame that a header announces, of `len` bytes. */
  method TakeFrame(client: Client, pipeout: Stream<byte>, buffer: array<byte>, len: nat, fin0: bool, key: Key,
                   first0: bool, firstchar: byte, listings: Listings, k0: nat)
    returns (ok: bool, fin: bool, first: bool, k: nat, ghost add: Added)
    requires 0 < len && buffer.Length == RELAY_BUFFER + 3 && client.socket != pipeout
    requires Short(listings)
    modifies client, buffer, client.socket`input, client.socket`output, client.socket`open,
             pipeout`output, pipeout`open
    ensures |client.socket.input| <= |old(client.socket.input)|
    ensures !ok ==> !client.socket.open
    ensures var a := AfterHeader(Data(fin0, len, key, old(client.socket.input)), first0, firstchar, listings, k0);
            && (ok ==> TurnRead(a, fin, first, firstchar, listings, k, add, client.socket.input))
            && (old(client.socket.open) && client.socket.reliable ==> TurnDone(client, a, ok, add))
    ensures old(pipeout.open) && pipeout.reliable ==>
              pipeout.open && pipeout.output == old(pipeout.output) + add.piped
  {
    hide ReadAnswer, FrameStep, Masked, BrokenOff, AfterHeader, AfterStep, Join, TurnRead, FrameRead;
    ghost var s := client.socket.input;
    AfterFrame(fin0, len, key, s, first0, firstchar, listings, k0);
    var status;
    ghost var piped;
    status, piped := RelayFrame(client, pipeout, buffer, len, fin0, key, first0, firstchar, listings(k0));
    ok, fin, first, k, add := !status.Failed?, fin0, first0, k0, Added(piped, [], []);
    if |s| >= len {
      ghost var step := FrameStep(fin0, Masked(s[..len], key), s[len..], first0, firstchar, listings(k0));
      if status.Failed? {
        AfterRefusal(step, fin0, firstchar, listings, k0);
      } else {
        AfterStepRead(step, status, piped, client.socket.input, fin0, firstchar, listings, k0);
        IsSkip(step, status, piped, client.socket.input);
        if status.Skipped? {
          add := Added([], step.reply, step.pongs);
        }
      }
    }
    if status.Skipped? {
      fin, first, k := false, true, k0 + 1;
    } else if status.Delivered? {
      first := false;
    }
  }

  lemma AfterRefusal(step: Step, fin: bool, firstchar: byte, listings: Listings, k: nat)
    ensures step.Refuse? ==> AfterStep(step, fin, firstchar, listings, k) == Aborted([])
  {
    hide ReadAnswer;
  }

  lemma IsSkip(step: Step, status: FrameStatus, piped: seq<byte>, rest: seq<byte>)
    requires FrameRead(step, status, piped, rest)
    ensures status.Skipped? ==> step.Skip? && piped == []
    ensures !status.Failed?
  {
  }

  /** What the answer phase must do on a reliable connection. */
  twostate predicate AnswerDone(client: Client, a: Answer, ok: bool)
    reads client, client.socket
  {
    match a
    case Aborted(_) => !ok
    case Answered(_, replies, pongs, _) =>
      && ok && client.socket.open
      && client.socket.output == old(client.socket.output) + replies
      && client.pongs == old(client.pongs) + pongs
  }

  /** Reads the possibly fragmented answer and writes it to the pipe.  On any connection, if
      it does not fail then the pipe has the client's answer. */
  method RelayAnswer(client: Client, pipeout: Stream<byte>, buffer: array<byte>, firstchar: byte,
                     listings: Listings) returns (ok: bool)
    requires buffer.Length == RELAY_BUFFER + 3 && client.socket != pipeout
    requires Short(listings)
    modifies client, buffer, client.socket`input, client.socket`output, client.socket`open,
             pipeout`output, pipeout`open
    ensures !ok ==> !client.socket.open
    ensures var a := ReadAnswer(old(client.socket.input), true, firstchar, listings, 0);
            && (ok ==> a.Answered? && client.socket.input == a.rest)
            && (old(client.socket.open) && client.socket.reliable ==> AnswerDone(client, a, ok))
            && (ok || (old(client.socket.open) && client.socket.reliable) ==>
                  old(pipeout.open) && pipeout.reliable ==>
                    pipeout.open && pipeout.output == old(pipeout.output) + a.piped)
  {
    hide ReadAnswer, Join;
    var fin, first, k := false, true, 0;
    ghost var sum := Added([], [], []);
    ghost var whole := ReadAnswer(client.socket.input, true, firstchar, listings, 0);
    JoinUnit(whole);
    while !fin
      invariant TurnRead(whole, fin, first, firstchar, listings, k, sum, client.socket.input)
      invariant old(client.socket.open) && client.socket.reliable ==> TurnDone(client, whole, true, sum)
      invariant old(pipeout.open) && pipeout.reliable ==>
                  pipeout.open && pipeout.output == old(pipeout.output) + sum.piped
      decreases !fin, |client.socket.input|
    {
      ghost var a := ReadAnswer(client.socket.input, first, firstchar, listings, k);
      ghost var add;
      ok, fin, first, k, add := AnswerTurn(client, pipeout, buffer, first, firstchar, listings, k);
      JoinMore(sum, add, ReadAnswer(client.socket.input, first, firstchar, listings, k), client.socket.input);
      if !ok {
        JoinAborted(sum, a);
        return false;
      }
      sum := Added(sum.piped + add.piped, sum.replies + add.replies, sum.pongs + add.pongs);
    }
    return true;
  }

  lemma JoinUnit(a: Answer)
    ensures Join([], [], [], a) == a
  {
    assert [] + a.piped == a.piped;
  }

  lemma JoinAborted(sum: Added, a: Answer)
    ensures a.Aborted? ==> Join(sum.piped, sum.replies, sum.pongs, a) == Aborted(sum.piped + a.piped)
  {
  }

  lemma JoinMore(s: Added, t: Added, a: Answer, rest: seq<byte>)
    ensures Join(s.piped, s.replies, s.pongs, Join(t.piped, t.replies, t.pongs, a))
         == Join(s.piped + t.piped, s.replies + t.replies, s.pongs + t.pongs, a)
    ensures Join(s.piped, s.replies, s.pongs, Answered(t.piped, t.replies, t.pongs, rest))
         == Answered(s.piped + t.piped, s.replies + t.replies, s.pongs + t.pongs, rest)
  {
    assert s.piped + (t.piped + a.piped) == s.piped + t.piped + a.piped;
  }

  // ---- The whole exchange ----

  function Ascii(s: string): (r: seq<byte>)
    ensures |r| == |s|
  {
    seq(|s|, i requires 0 <= i < |s| => if s[i] as int < 256 then s[i] as int else 63)
  }

  const NOT_CONNECTED := "EError: not connected."
  const WRITE_ERROR := "EError: socket write error."
  const LAST_WRITE_ERROR := "EError: socket write error"

  datatype Status = NotConnected | Fatal | SendFailed(last: bool) | AnswerFailed | Done

  /** Opens the pipe out if someone reads it, writes a message, closes it. */
  method PipeError(pipeout: Stream<byte>, reader: bool, message: string)
    modifies pipeout`open, pipeout`output
    ensures !pipeout.open
    ensures reader && pipeout.reliable ==> pipeout.output == old(pipeout.output) + Ascii(message)
  {
    pipeout.open := reader;
    var text := Ascii(message);
    var buffer := new byte[|text|];
    Fill(buffer, 0, text);
    assert buffer[..|text|] == buffer[0..0 + |text|] == text;
    PipeWrite(pipeout, buffer, |text|);
    pipeout.Close();
  }

  /** A process wrote to the pipe in: send it on as a message, wait for the answer, pass it to
      the pipe out, which is open if a reader turns up in time.  On any connection, if it ends
      well then the pipe out has the client's answer. */
  method PipeinRead(client: Client, pipein: Stream<byte>, pipeout: Stream<byte>, reader: bool,
                    listings: Listings) returns (status: Status)
    requires client.socket != pipein && client.socket != pipeout && pipein != pipeout
    requires Short(listings)
    modifies client, client.socket`input, client.socket`output, client.socket`open,
             pipein`input, pipein`open, pipeout`output, pipeout`open
    ensures !status.Fatal? ==> !pipeout.open
    ensures status.NotConnected? <==> !old(client.socket.open)
    ensures status.NotConnected? && reader && pipeout.reliable ==>
              pipeout.output == old(pipeout.output) + Ascii(NOT_CONNECTED)
    ensures status.SendFailed? && reader && pipeout.reliable ==>
              pipeout.output == old(pipeout.output) + Ascii(if status.last then LAST_WRITE_ERROR else WRITE_ERROR)
    ensures status.Done? ==>
              var message := old(pipein.input);
              var a := ReadAnswer(old(client.socket.input), true, if message == [] then 0 else message[0], listings, 0);
              a.Answered? && client.socket.input == a.rest
              && (reader && pipeout.reliable ==> pipeout.output == old(pipeout.output) + a.piped)
    ensures old(client.socket.open) && client.socket.reliable && old(pipein.open) && pipein.reliable ==>
              ExchangeDone(client, pipeout, reader, old(pipein.input), old(client.socket.input), listings, status)
  {
    hide ReadAnswer, ReceiveMessage;
    var buffer := new byte[RELAY_BUFFER + 3];
    if !client.socket.open {
      Reopen(pipein);
      PipeError(pipeout, reader, NOT_CONNECTED);
      return NotConnected;
    }
    var sent, firstchar := SendPipe(client, pipein, buffer);
    if sent.ReadFailed? {
      return Fatal;
    } else if sent.WriteFailed? {
      PipeError(pipeout, reader, if sent.last then LAST_WRITE_ERROR else WRITE_ERROR);
      return SendFailed(sent.last);
    }
    ghost var between := client.socket.output;
    pipeout.open := reader;
    var ok := RelayAnswer(client, pipeout, buffer, firstchar, listings);
    pipeout.Close();
    if !ok {
      return AnswerFailed;
    }
    if client.socket.reliable && pipein.reliable {
      assert MessageThenReplies(old(client.socket.output), between, client.socket.output, old(pipein.input),
                                client.socket.output[|between|..]);
    }
    return Done;
  }

  ghost predicate MessageThenReplies(before: seq<byte>, between: seq<byte>, after: seq<byte>, message: seq<byte>,
                                     replies: seq<byte>) {
    MessageSent(before, between, message) && after == between + replies
  }

  /** The exchange on reliable connections: the client was sent the pipe's contents as one
      message, then the replies to its commands; its answer is what the pipe out received. */
  twostate predicate ExchangeDone(client: Client, pipeout: Stream<byte>, reader: bool, message: seq<byte>,
                                  incoming: seq<byte>, listings: Listings, status: Status)
    reads client, client.socket, pipeout
  {
    match ReadAnswer(incoming, true, if message == [] then 0 else message[0], listings, 0)
    case Aborted(piped) =>
      status.AnswerFailed? && (reader && pipeout.reliable ==> pipeout.output == old(pipeout.output) + piped)
    case Answered(piped, replies, pongs, rest) =>
      && status.Done? && client.socket.open && client.socket.input == rest
      && client.pongs == old(client.pongs) + pongs
      && (exists between :: MessageThenReplies(old(client.socket.output), between, client.socket.output,
                                               message, replies))
      && (reader && pipeout.reliable ==> pipeout.output == old(pipeout.output) + piped)
  }
}
