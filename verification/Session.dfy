/** The two programs together: a kiwi client and a framebuffer server with a FIFO channel each
    way, the callbacks the client has scheduled, and the memory they share.  Everything is about
    all runs, that is, all interleavings of user input, callbacks and messages. */
module Session {
  import opened Options
  import opened Masking
  import opened SharedMemory
  import opened Protocol
  import opened Kiwi
  import opened Requesting
  import FbServer
  import ShmCache

  /** `inbox` holds what the server sent and the client has not received, and `captured` the
      frame of the last updated reply.  `greets` tells whether the server starts a session with
      Init; the one of this repository does.  Of the present session, `received` is what the
      client has received, `skipped` tells whether a frame could not be painted for want of a
      graphics context, and `broken` whether receiving has failed. */
  datatype System = System(
    client: Client,
    server: FbServer.Server,
    inbox: seq<ToClient>,
    captured: seq<byte>,
    greets: bool,
    received: seq<ToClient>,
    skipped: bool,
    broken: bool)

  datatype Event =
    | Acted(action: Action, sig: Signature)
    | FlushDone(alloc: Alloc, sig: Signature)
    | Delivered
    | Served(seen: FbServer.Observed)
    | Connected(alloc: Alloc, sig: Signature)
    | ReceiveFailed
    | Closed

  predicate WellFormed(s: System) {
    Ready(s.client) && FbServer.WellFormed(s.server)
  }

  /** The event can happen now. */
  predicate Enabled(s: System, e: Event)
    requires WellFormed(s)
  {
    match e
    case Acted(action, _) => Kiwi.Possible(s.client, action)
    case FlushDone(alloc, _) => 0 < s.client.flushes && Bytes(s.client.size) <= |alloc.contents|
    case Delivered => s.inbox != []
    case Served(seen) =>
      s.client.outbox != [] && s.server.keys.Running?
      && FbServer.Possible(s.server, s.client.memory, s.client.outbox[0], seen)
    case Connected(alloc, _) =>
      !s.client.connected && s.client.flushes == 0 && s.server.keys.Running? && Bytes(s.client.size) <= |alloc.contents|
    case ReceiveFailed => s.client.connected
    case Closed => s.client.connected
  }

  /** What a server sends that may leave out the greeting. */
  function Sent(replies: seq<ToClient>, greets: bool): seq<ToClient> {
    if !greets && replies == [Init] then [] else replies
  }

  function Serve(s: System, seen: FbServer.Observed): (r: System)
    requires WellFormed(s) && s.client.outbox != []
    ensures WellFormed(r)
  {
    var h := FbServer.Dispatch(s.server, s.client.memory, s.client.outbox[0], seen);
    s.(client := s.client.(outbox := s.client.outbox[1..], memory := h.memory), server := h.server,
       inbox := s.inbox + Sent(h.replies, s.greets),
       captured := if h.captured.Some? then h.captured.value else s.captured)
  }

  /** Whether receiving the message leaves a frame unpainted. */
  predicate Skips(c: Client, msg: ToClient) {
    msg.ScreenReply? && msg.updated && !c.context
  }

  function Step(s: System, e: Event): (r: System)
    requires WellFormed(s) && Enabled(s, e)
    ensures WellFormed(r)
  {
    var c := s.client;
    match e
    case Acted(action, sig) => s.(client := Act(c, action, sig))
    case FlushDone(alloc, sig) => s.(client := OnFlush(c.(flushes := c.flushes - 1), alloc, sig))
    case Delivered =>
      s.(client := Receive(c, s.inbox[0]), inbox := s.inbox[1..], received := s.received + [s.inbox[0]],
         skipped := s.skipped || Skips(c, s.inbox[0]))
    case Served(seen) => Serve(s, seen)
    case Connected(alloc, sig) =>
      s.(client := ParseVersion(c, alloc, sig), received := [], skipped := false, broken := false)
    case ReceiveFailed => s.(client := SocketClose(c), broken := true)
    case Closed =>
      s.(client := OnSocketClosed(c).(outbox := []), server := FbServer.HangUp(s.server), inbox := [])
  }

  function Begin(memory: Memory, size: Size, greets: bool): System {
    System(Start(memory, size), FbServer.START, [], [], greets, [], false, false)
  }

  /** The state after any sequence of events; an event that cannot happen does not. */
  function Run(s: System, events: seq<Event>): (r: System)
    requires WellFormed(s)
    ensures WellFormed(r)
  {
    if events == [] then s else Next(Run(s, events[..|events| - 1]), events[|events| - 1])
  }

  function Next(s: System, e: Event): (r: System)
    requires WellFormed(s)
    ensures WellFormed(r)
  {
    if Enabled(s, e) then Step(s, e) else s
  }

  // ---- Counting what is under way ----

  function Replies(q: seq<ToClient>): nat {
    if q == [] then 0 else (if q[0].ScreenReply? then 1 else 0) + Replies(q[1..])
  }

  function Outstanding(c: Client, replies: nat): nat {
    Requests(c.outbox) + replies + c.flushes
  }

  /** The flow control of one session: at most one request, reply or flush is under way, none if
      no screen is flying, and, unless a frame went unpainted or the client has asked for the
      session to be closed, one if a screen is flying; and if none is flying although frames are
      wanted, a timer with the current token will ask. */
  ghost predicate Flow(c: Client, replies: nat, skipped: bool) {
    if c.connected then
      && Outstanding(c, replies) <= 1
      && (!c.flying ==> Outstanding(c, replies) == 0)
      && (c.flying && !skipped && !c.closing ==> Outstanding(c, replies) == 1)
      && (!c.flying && c.fps > 0 ==> c.token in c.timers)
    else
      !c.flying && c.outbox == [] && replies == 0
  }

  lemma MovesKeepFlow(c: Client, c': Client, sig: Signature, replies: nat, skipped: bool)
    requires Flow(c, replies, skipped) && Moves(c, c', sig)
    ensures Flow(c', replies, skipped)
  {
    hide Requests, Write, HasBuffer;
  }

  lemma ActKeepsFlow(c: Client, a: Action, sig: Signature, replies: nat, skipped: bool)
    requires Ready(c) && Kiwi.Possible(c, a) && Flow(c, replies, skipped)
    ensures Flow(Act(c, a, sig), replies, skipped)
  {
    hide Requests, Write, HasBuffer, Bytes, RequestScreen, HandleKey, SendClick, SetTargetFPS, Blur, ChangeResolution;
    ActMoves(c, a, sig);
    if a.TimerFired? {
      RequestMoves(Disarmed(c, a), a.token, sig);
    } else {
      hide Act, Moves, Flow;
      MovesKeepFlow(c, Act(c, a, sig), sig, replies, skipped);
    }
  }

  lemma OnFlushFlow(c: Client, a: Alloc, sig: Signature, replies: nat, skipped: bool)
    requires Sized(c) && Bytes(c.size) <= |a.contents|
    requires Outstanding(c, replies) == 0 || (!c.connected && replies == 0)
    requires !c.connected ==> c.outbox == []
    ensures Flow(OnFlush(c, a, sig), replies, skipped)
  {
    hide RequestScreen, Bytes;
    if c.fps > 0 && a.late {
      var c' := c.(flying := false, image := Some(Image(a.seg, a.paddr, c.size)),
                   memory := c.memory[a.seg := a.contents]);
      assert OnFlush(c, a, sig) == RequestScreen(c', c.token, sig);
      RequestMoves(c', c.token, sig);
    }
  }

  /** Painting only schedules a flush, if there is a context. */
  lemma PaintKeeps(c: Client, blank: bool)
    requires Sized(c)
    ensures var c' := Paint(c, blank);
            && c'.connected == c.connected && c'.closing == c.closing && c'.flying == c.flying
            && c'.token == c.token && c'.timers == c.timers && c'.fps == c.fps && c'.outbox == c.outbox
            && c'.flushes == c.flushes + (if c.context then 1 else 0)
  {
    hide Bytes, Write, Pixels;
  }

  /** What receiving a message does to the flow, `replies` being what is left in the inbox. */
  lemma ReceiveKeepsFlow(c: Client, msg: ToClient, replies: nat, skipped: bool)
    requires Ready(c) && Flow(c, replies + (if msg.ScreenReply? then 1 else 0), skipped)
    ensures Flow(Receive(c, msg), replies, skipped || Skips(c, msg))
  {
    hide SocketSend, Paint, Requests, Bytes, HasBuffer;
    if c.connected && msg.ScreenReply? {
      var c' := ParseScreen(c, msg.updated, msg.shmfailed, false, 0);
      PaintKeeps(c, msg.shmfailed);
      assert Flow(c', replies, skipped || Skips(c, msg));
      SendIsQuiet(c', CursorRequest, false);
      QuietKeepsFlow(c', SocketSend(c', CursorRequest, false), replies, skipped || Skips(c, msg));
    }
  }

  lemma QuietKeepsFlow(c: Client, c': Client, replies: nat, skipped: bool)
    requires Flow(c, replies, skipped) && Quiet(c, c')
    ensures Flow(c', replies, skipped)
  {
    hide Requests;
  }

  lemma RepliesAppend(q: seq<ToClient>, r: seq<ToClient>)
    ensures Replies(q + r) == Replies(q) + Replies(r)
  {
    if q == [] {
      assert q + r == r;
    } else {
      RepliesAppend(q[1..], r);
      assert (q + r)[1..] == q[1..] + r;
    }
  }

  /** The server answers every request for the screen with one reply, and sends no other. */
  lemma OneReplyEach(s: FbServer.Server, m: Memory, msg: ToServer, seen: FbServer.Observed)
    requires FbServer.WellFormed(s)
    ensures Replies(FbServer.Dispatch(s, m, msg, seen).replies) == if msg.Screen? then 1 else 0
  {
    hide ShmCache.Find, FbServer.CopyImage;
  }

  /** Serving a request turns it into a reply. */
  lemma ServeCounts(s: System, seen: FbServer.Observed)
    requires WellFormed(s) && s.client.outbox != []
    ensures var s' := Serve(s, seen);
            Outstanding(s'.client, Replies(s'.inbox)) == Outstanding(s.client, Replies(s.inbox))
  {
    hide FbServer.Dispatch;
    var msg := s.client.outbox[0];
    RequestsFirst(s.client.outbox);
    var replies := FbServer.Dispatch(s.server, s.client.memory, msg, seen).replies;
    OneReplyEach(s.server, s.client.memory, msg, seen);
    assert Replies([Init]) == 0;
    RepliesAppend(s.inbox, Sent(replies, s.greets));
  }

  lemma VersionSends(c: Client)
    requires !c.connected && c.outbox == []
    ensures Greeted(c) == c.(connected := true, closing := false, cursors := {},
                             outbox := [VersionOk, SetResolution(c.size.width, c.size.height)])
    ensures Requests(Greeted(c).outbox) == 0
  {
    var answer, ask := VersionOk, SetResolution(c.size.width, c.size.height);
    GreetingQueue(answer, ask);
    hide Requests;
    var c1 := c.(connected := true, closing := false, cursors := {});
    assert Queue(c1, answer, false) == [answer];
    var c2 := SocketSend(c1, answer, false);
    assert c2.outbox == [answer] && Queue(c2, ask, false) == [answer, ask];
  }

  lemma GreetingQueue(answer: ToServer, ask: ToServer)
    requires !answer.Screen? && !ask.Screen?
    ensures [] + [answer] == [answer] && [answer] + [ask] == [answer, ask] && Requests([answer, ask]) == 0
  {
    RequestsAppend([], answer);
    RequestsAppend([answer], ask);
    assert [] + [answer] == [answer] && [answer] + [ask] == [answer, ask];
  }

  lemma VersionFlow(c: Client, a: Alloc, sig: Signature)
    requires Ready(c) && Bytes(c.size) <= |a.contents|
    requires !c.connected && Flow(c, 0, true) && c.flushes == 0
    ensures Flow(ParseVersion(c, a, sig), 0, false)
  {
    hide OnFlush, Bytes;
    VersionSends(c);
    OnFlushFlow(Greeted(c), a, sig, 0, false);
  }

  ghost predicate Flows(s: System) {
    Flow(s.client, Replies(s.inbox), s.skipped)
  }

  lemma StepKeepsFlow(s: System, e: Event)
    requires WellFormed(s) && Enabled(s, e) && Flows(s)
    ensures Flows(Step(s, e))
  {
    hide Act, OnFlush, Receive, FbServer.Dispatch, ParseVersion, FbServer.HangUp, Bytes, HasBuffer, FbServer.Possible,
         FbServer.WellFormed, Requests, Flow, Kiwi.Possible, Skips, OnSocketClosed;
    var c, replies := s.client, Replies(s.inbox);
    match e
    case Acted(action, sig) => ActKeepsFlow(c, action, sig, replies, s.skipped);
    case FlushDone(alloc, sig) => FlushKeepsFlow(c, alloc, sig, replies, s.skipped);
    case Delivered => ReceiveKeepsFlow(c, s.inbox[0], Replies(s.inbox[1..]), s.skipped);
    case Served(seen) => ServeKeepsFlow(s, seen);
    case Connected(alloc, sig) =>
      NotConnected(c, replies, s.skipped);
      VersionFlow(c, alloc, sig);
    case ReceiveFailed => ClosingFlow(c, replies, s.skipped);
    case Closed => ClosedFlow(c, s.skipped);
  }

  lemma FlushKeepsFlow(c: Client, a: Alloc, sig: Signature, replies: nat, skipped: bool)
    requires Sized(c) && Bytes(c.size) <= |a.contents| && 0 < c.flushes && Flow(c, replies, skipped)
    ensures Flow(OnFlush(c.(flushes := c.flushes - 1), a, sig), replies, skipped)
  {
    hide OnFlush, Bytes, HasBuffer, Requests;
    OnFlushFlow(c.(flushes := c.flushes - 1), a, sig, replies, skipped);
  }

  lemma NotConnected(c: Client, replies: nat, skipped: bool)
    requires Flow(c, replies, skipped) && !c.connected
    ensures replies == 0 && c.outbox == [] && Flow(c, 0, true)
  {
  }

  lemma ServeKeepsFlow(s: System, seen: FbServer.Observed)
    requires WellFormed(s) && s.client.outbox != [] && Flows(s)
    ensures Flows(Serve(s, seen))
  {
    hide FbServer.Dispatch, Requests, Bytes, HasBuffer;
    ServeCounts(s, seen);
  }

  lemma ClosingFlow(c: Client, replies: nat, skipped: bool)
    requires Flow(c, replies, skipped) && c.connected
    ensures Flow(SocketClose(c), replies, skipped)
  {
    hide Requests;
  }

  lemma ClosedFlow(c: Client, skipped: bool)
    requires Ready(c)
    ensures Replies([]) == 0 && Flow(OnSocketClosed(c).(outbox := []), 0, skipped)
  {
    hide Bytes, HasBuffer, Paint;
    PaintKeeps(c.(connected := false, closing := false, flying := false), true);
  }

  // ---- Every run ----

  lemma {:induction false} RunKeepsFlow(s: System, events: seq<Event>)
    requires WellFormed(s) && Flows(s)
    ensures Flows(Run(s, events))
  {
    hide Step, Flows, WellFormed, Enabled;
    if events != [] {
      var before := Run(s, events[..|events| - 1]);
      RunKeepsFlow(s, events[..|events| - 1]);
      if Enabled(before, events[|events| - 1]) {
        StepKeepsFlow(before, events[|events| - 1]);
      }
    }
  }

  /** In every run of a connected session, at most one request, reply or flush is under way;
      none when no screen is flying; and exactly one when one is, unless in this session a frame
      could not be painted or the client has asked for its end. */
  lemma SingleOutstanding(memory: Memory, size: Size, greets: bool, events: seq<Event>)
    requires 8 <= Bytes(size)
    ensures var s := Run(Begin(memory, size, greets), events);
            var n := Requests(s.client.outbox) + Replies(s.inbox) + s.client.flushes;
            s.client.connected ==>
              && n <= 1 && (!s.client.flying ==> n == 0)
              && (s.client.flying && !s.skipped && !s.client.closing ==> n == 1)
  {
    hide Run, Bytes;
    RunKeepsFlow(Begin(memory, size, greets), events);
  }

  /** Refreshing does not stop: while frames are wanted, a screen is flying, or a timer with the
      current token is set, whatever the changes of rate and the stale timers in between. */
  lemma RefreshGoesOn(memory: Memory, size: Size, greets: bool, events: seq<Event>)
    requires 8 <= Bytes(size)
    ensures var c := Run(Begin(memory, size, greets), events).client;
            c.connected && c.fps > 0 ==> c.flying || c.token in c.timers
  {
    hide Run, Bytes;
    RunKeepsFlow(Begin(memory, size, greets), events);
  }

  // ---- Who asks for the end of a session ----

  /** Only receiving Init or failing to receive makes the client ask for the end, which lasts. */
  lemma WhoCloses(s: System, e: Event)
    requires WellFormed(s) && Enabled(s, e) && s.client.connected && !e.Closed?
    ensures Step(s, e).client.connected
    ensures Step(s, e).client.closing
       <==> s.client.closing || e.ReceiveFailed? || (e.Delivered? && s.inbox[0].Init?)
  {
    hide FbServer.Possible, Bytes, HasBuffer, FbServer.WellFormed, FbServer.HangUp, Act, Requests, OnFlush, Receive,
         FbServer.Dispatch, Kiwi.Possible, Write;
    match e
    case Acted(action, sig) => ActMoves(s.client, action, sig);
    case FlushDone(alloc, sig) => FlushStaysOpen(s.client.(flushes := s.client.flushes - 1), alloc, sig);
    case Delivered => ReceiveCloses(s.client, s.inbox[0]);
    case _ =>
  }

  lemma ReceiveCloses(c: Client, msg: ToClient)
    requires Ready(c) && c.connected
    ensures Receive(c, msg).connected && (Receive(c, msg).closing <==> c.closing || msg.Init?)
  {
    hide Bytes, HasBuffer, Paint, SocketSend;
    if msg.ScreenReply? {
      PaintKeeps(c, msg.shmfailed);
      SendStaysOpen(ParseScreen(c, msg.updated, msg.shmfailed, false, 0), CursorRequest, false);
    }
  }

  lemma SendStaysOpen(c: Client, msg: ToServer, flushmouse: bool)
    ensures var c' := SocketSend(c, msg, flushmouse);
            c'.connected == c.connected && c'.closing == c.closing
  {
    hide Queue;
  }

  lemma FlushStaysOpen(c: Client, a: Alloc, sig: Signature)
    requires Sized(c) && Bytes(c.size) <= |a.contents|
    ensures OnFlush(c, a, sig).connected == c.connected && OnFlush(c, a, sig).closing == c.closing
  {
    hide Bytes, HasBuffer, RequestScreen, Requests, Write;
    var c' := c.(flying := false, image := Some(Image(a.seg, a.paddr, c.size)),
                 memory := c.memory[a.seg := a.contents]);
    if c.fps > 0 && a.late {
      FreshBuffer(c, a);
      RequestMoves(c', c.token, sig);
    }
  }

  lemma FreshBuffer(c: Client, a: Alloc)
    requires Sized(c) && Bytes(c.size) <= |a.contents|
    ensures Ready(c.(flying := false, image := Some(Image(a.seg, a.paddr, c.size)),
                     memory := c.memory[a.seg := a.contents]))
  {
  }

  // ---- A display that stops ----

  /** A screen is flying that nobody will ever answer. */
  predicate Stalled(s: System) {
    s.client.connected && s.client.flying && Outstanding(s.client, Replies(s.inbox)) == 0
  }

  /** A session whose end the client has not asked for stalls exactly when an updated frame
      arrives while there is no graphics context. */
  lemma StallsWhenSkipped(s: System, e: Event)
    requires WellFormed(s) && Enabled(s, e) && Flows(s) && s.client.connected && !s.client.closing && !Stalled(s)
    ensures Stalled(Step(s, e)) <==> e.Delivered? && Skips(s.client, s.inbox[0])
  {
    hide FbServer.Possible, Bytes, HasBuffer, FbServer.WellFormed, FbServer.HangUp, Receive, Requests,
         FbServer.Dispatch, Kiwi.Possible, Step, Paint;
    if e.Closed? {
      ClosedIsOver(s);
    } else if e.Delivered? && Skips(s.client, s.inbox[0]) {
      SkippedStalls(s);
      DeliveryStep(s);
    } else {
      var clean := s.(skipped := false);
      StepWhenClean(s, e);
      StepKeepsFlow(clean, e);
      WhoCloses(s, e);
      if e.ReceiveFailed? || (e.Delivered? && s.inbox[0].Init?) {
        AskingIsNoStall(s, e);
      }
    }
  }

  lemma ClosedIsOver(s: System)
    requires WellFormed(s) && s.client.connected
    ensures !Step(s, Closed).client.connected
  {
    hide FbServer.HangUp, Bytes, HasBuffer, Pixels, Write;
  }

  lemma DeliveryStep(s: System)
    requires WellFormed(s) && s.inbox != []
    ensures Step(s, Delivered).client == Receive(s.client, s.inbox[0]) && Step(s, Delivered).inbox == s.inbox[1..]
  {
    hide Receive, Bytes, HasBuffer;
  }

  lemma StepWhenClean(s: System, e: Event)
    requires WellFormed(s) && Enabled(s, e) && !(e.Delivered? && Skips(s.client, s.inbox[0]))
    ensures var clean := s.(skipped := false);
            WellFormed(clean) && Enabled(clean, e)
            && Step(clean, e) == Step(s, e).(skipped := false)
  {
    hide FbServer.HangUp, FbServer.Dispatch, FbServer.Possible, Bytes, HasBuffer, Act, OnFlush, Receive, ParseVersion,
         OnSocketClosed, Kiwi.Possible;
  }

  /** Asking for the end changes nothing else. */
  lemma AskingIsNoStall(s: System, e: Event)
    requires WellFormed(s) && Enabled(s, e) && s.client.connected
    requires e.ReceiveFailed? || (e.Delivered? && s.inbox[0].Init?)
    ensures Stalled(Step(s, e)) == Stalled(s)
  {
    hide Bytes, HasBuffer, Requests;
    if e.Delivered? {
      assert Replies(s.inbox) == Replies(s.inbox[1..]);
    }
  }

  lemma SkippedStalls(s: System)
    requires WellFormed(s) && s.inbox != [] && Flows(s) && s.client.connected && Skips(s.client, s.inbox[0])
    ensures Receive(s.client, s.inbox[0]).connected && Receive(s.client, s.inbox[0]).flying
    ensures Outstanding(Receive(s.client, s.inbox[0]), Replies(s.inbox[1..])) == 0
  {
    hide Requests;
    SendIsQuiet(s.client, CursorRequest, false);
  }

  /** From then on the session shows nothing more, and nothing but its end helps. */
  lemma StallStays(s: System, e: Event)
    requires WellFormed(s) && Enabled(s, e) && Flows(s) && Stalled(s) && !e.Closed?
    ensures Stalled(Step(s, e)) && Step(s, e).client.shown == s.client.shown
  {
    hide FbServer.Possible, Bytes, HasBuffer, FbServer.WellFormed, Act, Receive, Requests, OnFlush, FbServer.Dispatch,
         ParseVersion, Kiwi.Possible, Write;
    match e
    case Acted(action, sig) => ActMoves(s.client, action, sig);
    case Delivered => ReceiveIsQuiet(s.client, s.inbox[0]);
    case Served(seen) => ServeCounts(s, seen);
    case _ =>
  }

  lemma RunOneMore(s: System, events: seq<Event>, e: Event)
    requires WellFormed(s)
    ensures Run(s, events + [e]) == Next(Run(s, events), e)
  {
    assert (events + [e])[..|events|] == events;
  }

  lemma {:induction false} StallLasts(s: System, events: seq<Event>)
    requires WellFormed(s) && Flows(s) && Stalled(s) && Closed !in events
    ensures Stalled(Run(s, events)) && Run(s, events).client.shown == s.client.shown
  {
    hide Step, Flows, WellFormed, Enabled, Stalled;
    if events != [] {
      var before := Run(s, events[..|events| - 1]);
      StallLasts(s, events[..|events| - 1]);
      RunKeepsFlow(s, events[..|events| - 1]);
      if Enabled(before, events[|events| - 1]) {
        StallStays(before, events[|events| - 1]);
      }
    }
  }

  // ---- A run that stalls ----

  function Zeros(n: nat): (r: seq<byte>)
    ensures |r| == n
  {
    seq(n, i => 0)
  }

  /** The address of the image in this run. */
  const PAGE: nat := 4096

  /** A request, as the first of a session. */
  function FirstRequest(size: Size): ToServer {
    Screen(true, size.width, size.height, PAGE, Zeros(8))
  }

  /** The helper fails, and the frame is black. */
  function HelperFails(size: Size): FbServer.Observed {
    FbServer.Observed(false, Zeros(Bytes(size)), None, size, ShmCache.NoHelper, ShmCache.NoHelper)
  }

  /** The window changes and its new context cannot be bound; the client connects; the server
      handles its first three messages; and the answers arrive. */
  function StallRun(size: Size): seq<Event>
    requires 8 <= Bytes(size)
  {
    var served := Served(HelperFails(size));
    [Acted(ViewChanged(size, false), Zeros(8)), Connected(Alloc(0, PAGE, Zeros(Bytes(size)), true), Zeros(8)),
     served, served, served, Delivered, Delivered, Delivered]
  }

  /** A session on the way there, with these messages under way. */
  ghost predicate StallNears(s: System, size: Size, outbox: seq<ToServer>, inbox: seq<ToClient>) {
    && WellFormed(s)
    && s.client.connected && s.client.flying && !s.client.context && s.client.flushes == 0
    && s.client.outbox == outbox && s.inbox == inbox
    && s.server.keys.Running? && (outbox != [] ==> s.server == FbServer.START)
    && s.client.closing == (Init in s.received) && !s.broken
    && (s.skipped <==> ScreenReply(true, true, false, 0) in s.received)
  }

  lemma StallConnects(memory: Memory, size: Size, greets: bool)
    requires 8 <= Bytes(size)
    ensures var s := Next(Next(Begin(memory, size, greets), StallRun(size)[0]), StallRun(size)[1]);
            StallNears(s, size, [VersionOk, SetResolution(size.width, size.height), FirstRequest(size)], [])
            && s.received == [] && s.greets == greets
  {
    hide Write, Bytes, ShmCache.Find;
  }

  /** What the server answers in this run. */
  function StallReply(size: Size, msg: ToServer, greets: bool): seq<ToClient> {
    match msg
    case VersionOk => Sent([Init], greets)
    case SetResolution(_, _) => [Resolution(size.width, size.height)]
    case _ => [ScreenReply(true, true, false, 0)]
  }

  lemma StallServes(s: System, size: Size, msg: ToServer, outbox: seq<ToServer>, inbox: seq<ToClient>)
    requires 8 <= Bytes(size) && StallNears(s, size, [msg] + outbox, inbox)
    requires msg in {VersionOk, SetResolution(size.width, size.height)} || (msg == FirstRequest(size) && outbox == [])
    ensures var s' := Next(s, Served(HelperFails(size)));
            StallNears(s', size, outbox, inbox + StallReply(size, msg, s.greets))
            && s'.received == s.received && s'.greets == s.greets
  {
    hide Write, Bytes;
    assert ([msg] + outbox)[1..] == outbox && ([msg] + outbox)[0] == msg;
    var seen := HelperFails(size);
    assert FbServer.Possible(s.server, s.client.memory, msg, seen);
    assert Enabled(s, Served(seen));
  }

  lemma StallDelivers(s: System, size: Size, msg: ToClient, inbox: seq<ToClient>)
    requires StallNears(s, size, [], [msg] + inbox)
    requires msg == Init || msg.Resolution? || msg == ScreenReply(true, true, false, 0)
    ensures var s' := Next(s, Delivered);
            StallNears(s', size, [], inbox) && s'.received == s.received + [msg] && s'.greets == s.greets
  {
    hide Bytes;
    assert ([msg] + inbox)[1..] == inbox && ([msg] + inbox)[0] == msg;
  }

  lemma RunNext(s: System, events: seq<Event>, k: nat)
    requires WellFormed(s) && k < |events|
    ensures Run(s, events[..k + 1]) == Next(Run(s, events[..k]), events[k])
  {
    assert events[..k + 1] == events[..k] + [events[k]];
    RunOneMore(s, events[..k], events[k]);
  }

  lemma StallIsServed(memory: Memory, size: Size, greets: bool)
    requires 8 <= Bytes(size)
    ensures var s := Run(Begin(memory, size, greets), StallRun(size)[..5]);
            StallNears(s, size, [], Sent([Init], greets) + [Resolution(size.width, size.height),
                                                            ScreenReply(true, true, false, 0)])
            && s.received == [] && s.greets == greets
  {
    hide Next, StallNears, Run, WellFormed;
    var events, failed := StallRun(size), ScreenReply(true, true, false, 0);
    var resolution := Resolution(size.width, size.height);
    var ask := SetResolution(size.width, size.height);
    var s := Begin(memory, size, greets);
    BeginsWell(memory, size, greets);
    StallConnects(memory, size, greets);
    forall k | 0 <= k < 5 ensures Run(s, events[..k + 1]) == Next(Run(s, events[..k]), events[k]) {
      RunNext(s, events, k);
    }
    var first := Sent([Init], greets);
    assert events[..0] == [];
    assert Run(s, events[..1]) == Next(s, events[0]);
    assert Run(s, events[..2]) == Next(Next(s, events[0]), events[1]);
    assert [VersionOk, ask, FirstRequest(size)] == [VersionOk] + [ask, FirstRequest(size)];
    StallServes(Run(s, events[..2]), size, VersionOk, [ask, FirstRequest(size)], []);
    assert [ask, FirstRequest(size)] == [ask] + [FirstRequest(size)] && [] + first == first;
    StallServes(Run(s, events[..3]), size, ask, [FirstRequest(size)], first);
    assert [FirstRequest(size)] == [FirstRequest(size)] + [];
    StallServes(Run(s, events[..4]), size, FirstRequest(size), [], first + [resolution]);
    assert first + [resolution] + [failed] == first + [resolution, failed];
  }

  /** For every window and memory: this run ends in a stalled session with a skipped frame, whether
      the server greets, so that the client has asked for the end of the session, or not. */
  lemma StallHappens(memory: Memory, size: Size, greets: bool)
    requires 8 <= Bytes(size)
    ensures var s := Run(Begin(memory, size, greets), StallRun(size));
            Stalled(s) && s.skipped && (s.client.closing <==> greets)
  {
    hide Next, StallNears, Run, WellFormed;
    var events, failed := StallRun(size), ScreenReply(true, true, false, 0);
    var resolution := Resolution(size.width, size.height);
    var s := Begin(memory, size, greets);
    BeginsWell(memory, size, greets);
    StallIsServed(memory, size, greets);
    forall k | 5 <= k < 8 ensures Run(s, events[..k + 1]) == Next(Run(s, events[..k]), events[k]) {
      RunNext(s, events, k);
    }
    assert events[5] == events[6] == events[7] == Delivered;
    assert [Init] + [resolution, failed] == [Init] + ([resolution, failed]);
    assert [resolution, failed] == [resolution] + [failed] && [failed] == [failed] + [];
    if greets {
      StallDelivers(Run(s, events[..5]), size, Init, [resolution, failed]);
      StallDelivers(Run(s, events[..6]), size, resolution, [failed]);
      StallDelivers(Run(s, events[..7]), size, failed, []);
    } else {
      assert [] + [resolution, failed] == [resolution, failed];
      StallDelivers(Run(s, events[..5]), size, resolution, [failed]);
      StallDelivers(Run(s, events[..6]), size, failed, []);
      NothingToDeliver(Run(s, events[..7]), size);
    }
    assert events[..8] == events;
    NearsIsStalled(Run(s, events), size);
  }

  lemma NothingToDeliver(s: System, size: Size)
    requires StallNears(s, size, [], [])
    ensures Next(s, Delivered) == s
  {
  }

  lemma BeginsWell(memory: Memory, size: Size, greets: bool)
    requires 8 <= Bytes(size)
    ensures WellFormed(Begin(memory, size, greets))
    ensures Run(Begin(memory, size, greets), []) == Begin(memory, size, greets)
  {
  }

  lemma NearsIsStalled(s: System, size: Size)
    requires StallNears(s, size, [], [])
    ensures Stalled(s) && s.client.closing == (Init in s.received)
    ensures s.skipped <==> ScreenReply(true, true, false, 0) in s.received
  {
  }
}
