/** The greeting that the server sends first and that the client does not know: how every session
    with such a server goes. */
module Greeting {
  import opened Options
  import opened SharedMemory
  import opened Protocol
  import opened Kiwi
  import opened Requesting
  import opened Session
  import FbServer
  import ShmCache

  // ---- The greeting is the first message of a session ----

  /** What the client has received or will receive of what was sent to it in this session. */
  function Inbound(s: System): seq<ToClient> {
    s.received + s.inbox
  }

  /** Nothing has been sent to the client, whose answer to the version is the next message. */
  ghost predicate Awaited(s: System) {
    Inbound(s) == [] && s.client.outbox != [] && s.client.outbox[0] == VersionOk
    && VersionOk !in s.client.outbox[1..]
  }

  /** The server has had the answer, and has sent Init first and once, or never. */
  ghost predicate Answered(s: System) {
    VersionOk !in s.client.outbox
    && if s.greets then Inbound(s) != [] && Inbound(s)[0] == Init && Init !in Inbound(s)[1..]
       else Init !in Inbound(s)
  }

  ghost predicate Opening(s: System) {
    if s.client.connected then
      (Awaited(s) || Answered(s)) && (s.client.closing <==> Init in s.received || s.broken)
    else s.client.outbox == [] && s.inbox == []
  }

  lemma GrownKeepsOpening(s: System, c: Client)
    requires Opening(s) && Grows(s.client.outbox, c.outbox)
    requires c.connected == s.client.connected && c.closing == s.client.closing
    requires !c.connected ==> c.outbox == []
    ensures Opening(s.(client := c))
  {
    hide Grows;
    GrowsWithoutVersion(s.client.outbox, c.outbox);
    assert Inbound(s.(client := c)) == Inbound(s);
  }

  lemma GrowsWithoutVersion(q: seq<ToServer>, q': seq<ToServer>)
    requires Grows(q, q')
    ensures VersionOk in q' <==> VersionOk in q
    ensures q != [] ==> q' != [] && q'[0] == q[0] && (VersionOk in q'[1..] <==> VersionOk in q[1..])
  {
    var more := q'[|q|..];
    assert q' == q + more && VersionOk !in more;
    if q != [] {
      assert q'[1..] == q[1..] + more;
    }
  }

  lemma FlushGrows(c: Client, a: Alloc, sig: Signature)
    requires Sized(c) && Bytes(c.size) <= |a.contents|
    ensures var c' := OnFlush(c, a, sig);
            && Grows(c.outbox, c'.outbox) && c'.connected == c.connected && c'.closing == c.closing
            && (!c.connected || c.closing ==> c'.outbox == c.outbox)
  {
    hide RequestScreen, Bytes, Requests, Write, Queue;
    var c' := c.(flying := false, image := Some(Image(a.seg, a.paddr, c.size)),
                 memory := c.memory[a.seg := a.contents]);
    RequestMoves(c', c.token, sig);
  }

  lemma ReceiveGrows(c: Client, msg: ToClient)
    requires Ready(c) && c.connected
    ensures Grows(c.outbox, Receive(c, msg).outbox)
    ensures Requests(Receive(c, msg).outbox) == Requests(c.outbox)
    ensures c.closing ==> Receive(c, msg).outbox == c.outbox
  {
    hide Bytes, HasBuffer, Paint, SocketSend, Requests;
    if msg.ScreenReply? {
      PaintKeeps(c, msg.shmfailed);
      SendIsQuiet(ParseScreen(c, msg.updated, msg.shmfailed, false, 0), CursorRequest, false);
    }
  }

  lemma OnlyVersionIsGreeted(s: FbServer.Server, m: Memory, msg: ToServer, seen: FbServer.Observed)
    requires FbServer.WellFormed(s)
    ensures var replies := FbServer.Dispatch(s, m, msg, seen).replies;
            if msg.VersionOk? then replies == [Init] else Init !in replies
  {
    hide ShmCache.Find, FbServer.CopyImage;
  }

  lemma ServeKeepsOpening(s: System, seen: FbServer.Observed)
    requires WellFormed(s) && s.client.connected && s.client.outbox != [] && Opening(s)
    ensures Opening(Serve(s, seen))
  {
    var msg := s.client.outbox[0];
    OnlyVersionIsGreeted(s.server, s.client.memory, msg, seen);
    hide FbServer.Dispatch, FbServer.WellFormed, Ready, Opening;
    var replies := FbServer.Dispatch(s.server, s.client.memory, msg, seen).replies;
    RepliesKeepOpening(s, Serve(s, seen), msg, replies);
  }

  lemma RepliesKeepOpening(s: System, s': System, msg: ToServer, replies: seq<ToClient>)
    requires Opening(s) && s.client.connected && s.client.outbox == [msg] + s'.client.outbox
    requires s'.client.connected && s'.client.closing == s.client.closing
    requires s'.inbox == s.inbox + Sent(replies, s.greets) && s'.received == s.received
    requires s'.broken == s.broken && s'.greets == s.greets
    requires if msg.VersionOk? then replies == [Init] else Init !in replies
    ensures Opening(s')
  {
    var sent := Sent(replies, s.greets);
    assert Inbound(s') == Inbound(s) + sent;
    if Awaited(s) {
      assert Inbound(s') == sent;
    } else {
      assert msg in s.client.outbox;
      assert Inbound(s) != [] ==> Inbound(s')[1..] == Inbound(s)[1..] + sent;
    }
  }

  lemma DeliveryKeepsOpening(s: System)
    requires WellFormed(s) && s.client.connected && s.inbox != [] && Opening(s)
    ensures Opening(Step(s, Delivered))
  {
    hide Receive, FbServer.WellFormed, Bytes, HasBuffer;
    ReceiveGrows(s.client, s.inbox[0]);
    ReceiveCloses(s.client, s.inbox[0]);
    var s' := Step(s, Delivered);
    assert Inbound(s') == Inbound(s);
    assert s.inbox == [s.inbox[0]] + s.inbox[1..];
    GrownKeepsOpening(s, s'.client.(closing := s.client.closing));
  }

  lemma VersionOpens(s: System, a: Alloc, sig: Signature)
    requires WellFormed(s) && Enabled(s, Connected(a, sig)) && Opening(s)
    ensures Opening(Step(s, Connected(a, sig)))
  {
    hide OnFlush, Bytes, HasBuffer, Requests;
    VersionSends(s.client);
    var c := Greeted(s.client);
    FlushGrows(c, a, sig);
    var begun := s.(client := c, received := [], skipped := false, broken := false);
    assert c.outbox[1..] == [SetResolution(s.client.size.width, s.client.size.height)];
    assert Inbound(begun) == [];
    GrownKeepsOpening(begun, OnFlush(c, a, sig));
  }

  lemma StepKeepsOpening(s: System, e: Event)
    requires WellFormed(s) && Enabled(s, e) && Opening(s)
    ensures Opening(Step(s, e))
  {
    hide Act, OnFlush, Receive, FbServer.Dispatch, FbServer.HangUp, ParseVersion, Bytes, HasBuffer, FbServer.Possible,
         FbServer.WellFormed, Requests, Kiwi.Possible, Opening;
    match e
    case Acted(action, sig) =>
      ActMoves(s.client, action, sig);
      OpeningIsQuiet(s);
      GrownKeepsOpening(s, Act(s.client, action, sig));
    case FlushDone(alloc, sig) =>
      var c := s.client.(flushes := s.client.flushes - 1);
      FlushGrows(c, alloc, sig);
      OpeningIsQuiet(s);
      GrownKeepsOpening(s, OnFlush(c, alloc, sig));
    case Delivered =>
      OpeningIsQuiet(s);
      DeliveryKeepsOpening(s);
    case Served(seen) =>
      OpeningIsQuiet(s);
      ServeKeepsOpening(s, seen);
    case Connected(alloc, sig) => VersionOpens(s, alloc, sig);
    case ReceiveFailed => FailureKeepsOpening(s);
    case Closed => ClosedIsQuiet(s);
  }

  lemma OpeningIsQuiet(s: System)
    requires Opening(s)
    ensures !s.client.connected ==> s.client.outbox == [] && s.inbox == []
  {
  }

  lemma FailureKeepsOpening(s: System)
    requires WellFormed(s) && s.client.connected && Opening(s)
    ensures Opening(Step(s, ReceiveFailed))
  {
    hide Bytes, HasBuffer;
    assert Inbound(Step(s, ReceiveFailed)) == Inbound(s);
  }

  lemma ClosedIsQuiet(s: System)
    requires WellFormed(s) && s.client.connected
    ensures Opening(Step(s, Closed))
  {
    hide FbServer.HangUp;
    ClosedIsOver(s);
  }

  lemma {:induction false} RunKeepsOpening(s: System, events: seq<Event>)
    requires WellFormed(s) && Opening(s)
    ensures Opening(Run(s, events))
  {
    hide Step, Opening, WellFormed, Enabled;
    if events != [] {
      var before := Run(s, events[..|events| - 1]);
      RunKeepsOpening(s, events[..|events| - 1]);
      if Enabled(before, events[|events| - 1]) {
        StepKeepsOpening(before, events[|events| - 1]);
      }
    }
  }

  lemma RunKeepsGreets(s: System, events: seq<Event>)
    requires WellFormed(s)
    ensures Run(s, events).greets == s.greets
  {
    hide Act, OnFlush, Receive, FbServer.Dispatch, FbServer.HangUp, ParseVersion, OnSocketClosed, WellFormed, Enabled;
    if events != [] {
      RunKeepsGreets(s, events[..|events| - 1]);
    }
  }

  /** In every run, a client has asked for the end of its session exactly if it has received Init
      or failed to receive.  With a server that greets, Init is the first message and comes once;
      with another it never comes. */
  lemma EndIsAskedFor(memory: Memory, size: Size, greets: bool, events: seq<Event>)
    requires 8 <= Bytes(size)
    ensures var s := Run(Begin(memory, size, greets), events);
            s.client.connected ==>
              && (s.client.closing <==> Init in s.received || s.broken)
              && (s.received != [] ==> (s.received[0] == Init <==> greets) && Init !in s.received[1..])
  {
    BeginsWell(memory, size, greets);
    BeginsOpening(memory, size, greets);
    hide Run, Bytes, Opening, WellFormed;
    RunKeepsOpening(Begin(memory, size, greets), events);
    RunKeepsGreets(Begin(memory, size, greets), events);
    OpeningMeans(Run(Begin(memory, size, greets), events));
  }

  lemma BeginsOpening(memory: Memory, size: Size, greets: bool)
    ensures Opening(Begin(memory, size, greets))
  {
  }

  lemma OpeningMeans(s: System)
    requires Opening(s)
    ensures s.client.connected ==>
              && (s.client.closing <==> Init in s.received || s.broken)
              && (s.received != [] ==> (s.received[0] == Init <==> s.greets) && Init !in s.received[1..])
  {
    if s.client.connected && s.received != [] {
      assert Inbound(s)[0] == s.received[0];
      assert Inbound(s)[1..] == s.received[1..] + s.inbox;
      assert s.received == [s.received[0]] + s.received[1..];
    }
  }

  /** So with a server that greets, the first message of a session is what ends it. */
  lemma FirstMessageEnds(memory: Memory, size: Size, events: seq<Event>)
    requires 8 <= Bytes(size)
    ensures var s := Run(Begin(memory, size, true), events);
            s.client.connected && !s.broken ==> (s.client.closing <==> s.received != [])
  {
    EndIsAskedFor(memory, size, true, events);
  }

  // ---- What such a session can still do ----

  /** From then on the client sends nothing. */
  lemma ClosingIsSilent(s: System, e: Event)
    requires WellFormed(s) && Enabled(s, e) && s.client.connected && s.client.closing
    ensures Step(s, e).client.outbox == if e.Closed? then [] else if e.Served? then s.client.outbox[1..]
                                        else s.client.outbox
  {
    hide Act, OnFlush, Receive, FbServer.Dispatch, FbServer.HangUp, OnSocketClosed, Bytes, HasBuffer,
         FbServer.Possible, FbServer.WellFormed, Requests, Kiwi.Possible;
    match e
    case Acted(action, sig) => ActMoves(s.client, action, sig);
    case FlushDone(alloc, sig) => FlushGrows(s.client.(flushes := s.client.flushes - 1), alloc, sig);
    case Delivered => ReceiveGrows(s.client, s.inbox[0]);
    case _ =>
  }

  /** The screen requests of this session, wherever they are by now. */
  function Frames(s: System): nat {
    Requests(s.client.outbox) + Replies(s.inbox) + Replies(s.received)
  }

  /** With a server that greets, a session has at most one screen request, from before the
      greeting arrives. */
  ghost predicate OneFrame(s: System) {
    Opening(s) && Flows(s) && s.greets
    && (s.client.connected ==> Frames(s) <= 1)
  }

  lemma StepKeepsFrames(s: System, e: Event)
    requires WellFormed(s) && Enabled(s, e) && s.client.connected && s.client.closing && !e.Closed?
    ensures Frames(Step(s, e)) == Frames(s)
  {
    ClosingIsSilent(s, e);
    hide Act, OnFlush, Receive, FbServer.Dispatch, ParseVersion, Bytes, HasBuffer, FbServer.Possible,
         FbServer.WellFormed, Requests, Kiwi.Possible;
    if e.Delivered? {
      RepliesAppend(s.received, [s.inbox[0]]);
    } else if e.Served? {
      ServeCounts(s, e.seen);
    }
  }

  lemma UnreadIsOneFrame(s: System)
    requires Opening(s) && Flows(s) && s.greets && s.client.connected && !s.client.closing
    ensures Frames(s) <= 1
  {
    hide Requests;
    FirstIsReceived(s);
  }

  lemma FirstIsReceived(s: System)
    ensures Inbound(s) != [] && Inbound(s)[0] == Init && s.received != [] ==> Init in s.received
  {
  }

  lemma StepKeepsOneFrame(s: System, e: Event)
    requires WellFormed(s) && Enabled(s, e) && OneFrame(s)
    ensures OneFrame(Step(s, e))
  {
    StepKeepsOpening(s, e);
    StepKeepsFlow(s, e);
    StepKeepsGreets(s, e);
    hide Step, Opening, Flows, Frames, Enabled, WellFormed;
    var s' := Step(s, e);
    if s'.client.connected {
      if !s'.client.closing {
        UnreadIsOneFrame(s');
      } else {
        FramesWhenClosing(s, e);
      }
    }
  }

  lemma StepKeepsGreets(s: System, e: Event)
    requires WellFormed(s) && Enabled(s, e)
    ensures Step(s, e).greets == s.greets
  {
    hide Act, OnFlush, Receive, FbServer.Dispatch, FbServer.HangUp, ParseVersion, OnSocketClosed, FbServer.WellFormed,
         Ready, FbServer.Possible, Kiwi.Possible;
  }

  lemma FramesWhenClosing(s: System, e: Event)
    requires WellFormed(s) && Enabled(s, e) && OneFrame(s)
    requires Step(s, e).client.connected && Step(s, e).client.closing
    ensures Frames(Step(s, e)) <= 1
  {
    hide Act, OnFlush, Receive, FbServer.Dispatch, FbServer.HangUp, Bytes, HasBuffer, FbServer.Possible,
         FbServer.WellFormed, Requests, Kiwi.Possible, Opening, Flows;
    match e
    case Closed => ClosedIsOver(s);
    case Connected(alloc, sig) => FlushGrows(Greeted(s.client), alloc, sig);
    case _ =>
      OpenOnlyByVersion(s, e);
      WhoCloses(s, e);
      if s.client.closing {
        StepKeepsFrames(s, e);
      } else {
        AskingKeepsFrames(s, e);
      }
  }

  lemma OpenOnlyByVersion(s: System, e: Event)
    requires WellFormed(s) && Enabled(s, e) && !e.Connected? && Opening(s)
    ensures Step(s, e).client.connected ==> s.client.connected
  {
    hide Act, OnFlush, Receive, FbServer.Dispatch, FbServer.HangUp, Bytes, HasBuffer, FbServer.Possible,
         FbServer.WellFormed, Requests, Kiwi.Possible;
    match e
    case Acted(action, sig) => ActMoves(s.client, action, sig);
    case FlushDone(alloc, sig) => FlushGrows(s.client.(flushes := s.client.flushes - 1), alloc, sig);
    case _ =>
  }

  lemma AskingKeepsFrames(s: System, e: Event)
    requires WellFormed(s) && Enabled(s, e) && s.client.connected
    requires e.ReceiveFailed? || (e.Delivered? && s.inbox[0].Init?)
    ensures Frames(Step(s, e)) == Frames(s)
  {
    hide Bytes, HasBuffer, Requests;
    if e.Delivered? {
      RepliesAppend(s.received, [Init]);
      assert Replies([Init]) == 0;
    }
  }

  lemma {:induction false} RunKeepsOneFrame(s: System, events: seq<Event>)
    requires WellFormed(s) && OneFrame(s)
    ensures OneFrame(Run(s, events))
  {
    hide Step, OneFrame, WellFormed, Enabled;
    if events != [] {
      var before := Run(s, events[..|events| - 1]);
      RunKeepsOneFrame(s, events[..|events| - 1]);
      if Enabled(before, events[|events| - 1]) {
        StepKeepsOneFrame(before, events[|events| - 1]);
      }
    }
  }

  /** In every run with a server that greets, at most one frame is asked for in a session. */
  lemma OneFrameASession(memory: Memory, size: Size, events: seq<Event>)
    requires 8 <= Bytes(size)
    ensures var s := Run(Begin(memory, size, true), events);
            s.client.connected ==> Requests(s.client.outbox) + Replies(s.inbox) + Replies(s.received) <= 1
  {
    BeginsWell(memory, size, true);
    BeginsOpening(memory, size, true);
    hide Run, Bytes;
    RunKeepsOneFrame(Begin(memory, size, true), events);
  }
}
