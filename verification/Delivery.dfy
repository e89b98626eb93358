/** End to end: what the client paints is what the server captured.  The assumption is that the
    random signature of a request is not what some other segment happens to start with. */
module Delivery {
  import opened Options
  import opened Masking
  import opened SharedMemory
  import opened Protocol
  import opened Kiwi
  import opened Requesting
  import opened Session
  import FbServer
  import ShmCache

  /** No segment but `seg` starts with the signature. */
  predicate Fresh(m: Memory, sig: Signature, seg: Segment) {
    forall s :: s in m && s != seg ==> SignatureOf(m, s) != Some(sig)
  }

  /** The signature that the event may need is fresh. */
  predicate FreshEvent(s: System, e: Event) {
    match e
    case Acted(_, sig) => s.client.image.Some? ==> Fresh(s.client.memory, sig, s.client.image.value.seg)
    case FlushDone(alloc, sig) => Fresh(s.client.memory, sig, alloc.seg)
    case Connected(alloc, sig) => Fresh(s.client.memory, sig, alloc.seg)
    case _ => true
  }

  predicate AllFresh(s: System, events: seq<Event>)
    requires WellFormed(s)
  {
    events == []
    || (AllFresh(s, events[..|events| - 1]) && FreshEvent(Run(s, events[..|events| - 1]), events[|events| - 1]))
  }

  // ---- The invariant ----

  /** The request is for the client's image, in the one segment that carries its signature. */
  predicate Answerable(c: Client, m: ToServer)
    requires m.Screen?
  {
    c.image.Some? && AsksFor(m, c.image.value, m.sig) && FbServer.Signed(c.memory, m.sig, c.image.value.seg)
  }

  predicate Succeeded(r: ToClient) {
    r.ScreenReply? && r.updated && !r.shmfailed
  }

  ghost predicate RequestsAnswerable(c: Client) {
    forall m :: m in c.outbox && m.Screen? ==> Answerable(c, m)
  }

  ghost predicate RepliesRight(c: Client, inbox: seq<ToClient>, captured: seq<byte>)
    requires Sized(c)
  {
    forall r :: r in inbox && Succeeded(r) ==> Pixels(c) == captured
  }

  ghost predicate Right(s: System)
    requires WellFormed(s)
  {
    && Flows(s) && FbServer.Valid(s.server)
    && RequestsAnswerable(s.client)
    && RepliesRight(s.client, s.inbox, s.captured)
  }

  lemma {:induction false} NoReplies(q: seq<ToClient>)
    ensures Replies(q) == 0 <==> forall r :: r in q ==> !r.ScreenReply?
  {
    if q != [] {
      NoReplies(q[1..]);
      assert q == [q[0]] + q[1..];
    }
  }

  /** Signing the buffer makes the new request answerable. */
  lemma SignedBuffer(m: Memory, i: Image, sig: Signature)
    requires HasBuffer(m, i) && Fresh(m, sig, i.seg)
    ensures FbServer.Signed(Write(m, i.seg, sig), sig, i.seg)
  {
    hide Write, Bytes;
    var m' := Write(m, i.seg, sig);
    assert m'[i.seg][..8] == Read(m', i.seg, 8) == sig;
    forall s | s in m' && s != i.seg ensures SignatureOf(m', s) != Some(sig) {
      assert SignatureOf(m', s) == SignatureOf(m, s);
    }
  }

  /** An action leaves the request under way and the buffer alone, or makes the only request. */
  lemma MovesKeepRight(s: System, c: Client, c': Client, sig: Signature)
    requires WellFormed(s) && Right(s)
    requires c == s.client.(timers := c.timers) && Moves(c, c', sig) && Ready(c')
    requires c.image.Some? ==> Fresh(c.memory, sig, c.image.value.seg)
    ensures RequestsAnswerable(c') && RepliesRight(c', s.inbox, s.captured)
  {
    hide Requests, Replies, Write, HasBuffer, FbServer.Valid, FbServer.Signed;
    if Asked(c, c', sig) {
      NoRequests(c.outbox);
      NoReplies(s.inbox);
      SignedBuffer(c.memory, c.image.value, sig);
    }
  }

  lemma ActKeepsRight(s: System, a: Action, sig: Signature)
    requires WellFormed(s) && Right(s) && Kiwi.Possible(s.client, a) && FreshEvent(s, Acted(a, sig))
    ensures RequestsAnswerable(Act(s.client, a, sig)) && RepliesRight(Act(s.client, a, sig), s.inbox, s.captured)
  {
    hide Act, Kiwi.Possible, Right, Moves, Fresh, RequestsAnswerable, RepliesRight, Ready;
    ActMoves(s.client, a, sig);
    MovesKeepRight(s, Disarmed(s.client, a), Act(s.client, a, sig), sig);
  }

  /** A new buffer is only taken, and perhaps signed, when nothing is under way. */
  lemma OnFlushRight(c: Client, a: Alloc, sig: Signature)
    requires Sized(c) && Bytes(c.size) <= |a.contents| && Fresh(c.memory, sig, a.seg)
    requires Requests(c.outbox) == 0
    ensures RequestsAnswerable(OnFlush(c, a, sig))
  {
    hide RequestScreen, Requests, Bytes, Write, FbServer.Signed;
    NoRequests(c.outbox);
    if c.fps > 0 && a.late {
      var c' := c.(flying := false, image := Some(Image(a.seg, a.paddr, c.size)),
                   memory := c.memory[a.seg := a.contents]);
      RequestMoves(c', c.token, sig);
      assert Fresh(c'.memory, sig, a.seg) by {
        forall s | s in c'.memory && s != a.seg ensures SignatureOf(c'.memory, s) != Some(sig) {
          assert SignatureOf(c'.memory, s) == SignatureOf(c.memory, s);
        }
      }
      SignedBuffer(c'.memory, c'.image.value, sig);
    }
  }

  /** A request that is served turns into a reply about the very frame in the buffer. */
  lemma ServeScreenRight(s: System, seen: FbServer.Observed)
    requires WellFormed(s) && Right(s) && Enabled(s, Served(seen)) && s.client.outbox[0].Screen?
    ensures Requests(s.client.outbox[1..]) == 0
    ensures RepliesRight(Serve(s, seen).client, Serve(s, seen).inbox, Serve(s, seen).captured)
  {
    hide Requests, Replies, Write, FbServer.WriteImage, ShmCache.Possible, FbServer.Signed, Bytes;
    var c, msg := s.client, s.client.outbox[0];
    assert Answerable(c, msg);
    var i := c.image.value;
    RequestsFirst(c.outbox);
    NoReplies(s.inbox);
    var h := FbServer.WriteImage(s.server, c.memory, msg, seen);
    assert |seen.frame| == Bytes(i.size);
    SignedIsThere(c.memory, msg.sig, i.seg);
    FbServer.WriteImageIsRight(s.server, c.memory, msg, seen, i.seg);
    var s' := Serve(s, seen);
    assert s'.inbox == s.inbox + Sent(h.replies, s.greets) && s'.client.memory == h.memory;
    forall r | r in s'.inbox && Succeeded(r) ensures Pixels(s'.client) == s'.captured {
      assert r == h.replies[0];
    }
  }

  lemma SignedIsThere(m: Memory, sig: Signature, seg: Segment)
    requires FbServer.Signed(m, sig, seg)
    ensures seg in m
  {
  }

  /** Any other message leaves the buffer and what is said about it alone. */
  lemma ServeOtherRight(s: System, seen: FbServer.Observed)
    requires WellFormed(s) && Right(s) && Enabled(s, Served(seen)) && !s.client.outbox[0].Screen?
    ensures RequestsAnswerable(Serve(s, seen).client)
    ensures RepliesRight(Serve(s, seen).client, Serve(s, seen).inbox, Serve(s, seen).captured)
  {
    hide Requests, Replies, FbServer.Signed, Bytes, FbServer.WriteImage, FbServer.Press, FbServer.Possible;
  }

  lemma ServeKeepsRight(s: System, seen: FbServer.Observed)
    requires WellFormed(s) && Right(s) && Enabled(s, Served(seen))
    ensures RequestsAnswerable(Serve(s, seen).client)
    ensures RepliesRight(Serve(s, seen).client, Serve(s, seen).inbox, Serve(s, seen).captured)
  {
    hide Requests, FbServer.Dispatch, FbServer.Possible, Right, Answerable, RepliesRight;
    if s.client.outbox[0].Screen? {
      ServeScreenRight(s, seen);
      NoRequests(s.client.outbox[1..]);
    } else {
      ServeOtherRight(s, seen);
    }
  }

  lemma ReceivingAsksNothing(c: Client, msg: ToClient)
    requires Ready(c)
    ensures forall m :: m in Receive(c, msg).outbox && m.Screen? ==> m in c.outbox
  {
    hide Requests, Paint, Bytes, HasBuffer, SocketSend;
    if c.connected && msg.ScreenReply? {
      PaintKeeps(c, msg.shmfailed);
      SendIsQuiet(ParseScreen(c, msg.updated, msg.shmfailed, false, 0), CursorRequest, false);
    }
  }

  /** Receiving a message cannot spoil what is still in the inbox. */
  lemma ReceiveKeepsRight(s: System)
    requires WellFormed(s) && Right(s) && s.inbox != []
    ensures RequestsAnswerable(Receive(s.client, s.inbox[0]))
    ensures RepliesRight(Receive(s.client, s.inbox[0]), s.inbox[1..], s.captured)
  {
    hide Requests, FbServer.Valid, Answerable, Bytes, HasBuffer, Receive, Pixels, FbServer.WellFormed;
    var c, msg := s.client, s.inbox[0];
    if msg.ScreenReply? {
      ReceivingAsksNothing(c, msg);
      NoReplies(s.inbox[1..]);
      NoRequests(c.outbox);
    } else if c.connected {
      ReceiveIsQuiet(c, msg);
      if msg.Init? {
        ClosingKeepsRight(c, s.inbox[1..], s.captured);
      } else {
        QuietKeepsRight(c, Receive(c, msg), s.inbox[1..], s.captured);
      }
    } else {
      UnreadIsClosing(c, msg);
      ClosingKeepsRight(c, s.inbox[1..], s.captured);
    }
  }

  lemma UnreadIsClosing(c: Client, msg: ToClient)
    requires Ready(c) && !c.connected
    ensures Receive(c, msg) == SocketClose(c)
  {
  }

  lemma ClosingKeepsRight(c: Client, inbox: seq<ToClient>, captured: seq<byte>)
    requires Ready(c) && RequestsAnswerable(c) && RepliesRight(c, inbox, captured)
    ensures RequestsAnswerable(SocketClose(c)) && RepliesRight(SocketClose(c), inbox, captured)
  {
    hide FbServer.Signed, Bytes, HasBuffer;
  }

  lemma QuietKeepsRight(c: Client, c': Client, inbox: seq<ToClient>, captured: seq<byte>)
    requires Ready(c) && Ready(c') && Quiet(c, c') && RequestsAnswerable(c) && RepliesRight(c, inbox, captured)
    ensures RequestsAnswerable(c') && RepliesRight(c', inbox, captured)
  {
    hide Requests, FbServer.Signed, Bytes, HasBuffer;
  }

  lemma FlushKeepsRight(s: System, a: Alloc, sig: Signature)
    requires WellFormed(s) && Right(s) && Enabled(s, FlushDone(a, sig)) && FreshEvent(s, FlushDone(a, sig))
    ensures var c := OnFlush(s.client.(flushes := s.client.flushes - 1), a, sig);
            RequestsAnswerable(c) && RepliesRight(c, s.inbox, s.captured)
  {
    hide Requests, FbServer.Valid, RequestsAnswerable, OnFlush, Bytes, Pixels, Fresh;
    assert s.client.outbox == [] ==> Requests(s.client.outbox) == 0 by { NoRequests(s.client.outbox); }
    OnFlushRight(s.client.(flushes := s.client.flushes - 1), a, sig);
    NoReplies(s.inbox);
  }

  lemma VersionKeepsRight(s: System, a: Alloc, sig: Signature)
    requires WellFormed(s) && Right(s) && Enabled(s, Connected(a, sig)) && FreshEvent(s, Connected(a, sig))
    ensures RequestsAnswerable(ParseVersion(s.client, a, sig))
    ensures RepliesRight(ParseVersion(s.client, a, sig), s.inbox, s.captured)
  {
    hide FbServer.Valid, RequestsAnswerable, OnFlush, Bytes, Pixels, Fresh;
    VersionSends(s.client);
    OnFlushRight(Greeted(s.client), a, sig);
    NoReplies(s.inbox);
  }

  lemma StepKeepsRight(s: System, e: Event)
    requires WellFormed(s) && Right(s) && Enabled(s, e) && FreshEvent(s, e)
    ensures Right(Step(s, e))
  {
    hide Flows, Act, OnFlush, Receive, ParseVersion, FbServer.Dispatch, FbServer.HangUp, FbServer.Valid,
         RequestsAnswerable, RepliesRight, Bytes, HasBuffer, FbServer.Possible, Kiwi.Possible, FbServer.WellFormed,
         Fresh;
    StepKeepsFlow(s, e);
    match e
    case Acted(action, sig) => ActKeepsRight(s, action, sig);
    case FlushDone(alloc, sig) => FlushKeepsRight(s, alloc, sig);
    case Delivered => ReceiveKeepsRight(s);
    case Served(seen) =>
      ServeKeepsRight(s, seen);
      FbServer.DispatchKeepsValid(s.server, s.client.memory, s.client.outbox[0], seen);
    case Connected(alloc, sig) => VersionKeepsRight(s, alloc, sig);
    case ReceiveFailed => ClosingKeepsRight(s.client, s.inbox, s.captured);
    case Closed =>
      FbServer.HangUpKeepsValid(s.server);
      NothingLeft(s.client);
  }

  lemma NothingLeft(c: Client)
    requires Ready(c)
    ensures RequestsAnswerable(OnSocketClosed(c).(outbox := []))
    ensures RepliesRight(OnSocketClosed(c).(outbox := []), [], [])
    ensures forall captured :: RepliesRight(OnSocketClosed(c).(outbox := []), [], captured)
  {
  }

  lemma {:induction false} RunKeepsRight(s: System, events: seq<Event>)
    requires WellFormed(s) && Right(s) && AllFresh(s, events)
    ensures Right(Run(s, events))
  {
    hide Step, Right, WellFormed, Enabled, FreshEvent;
    if events != [] {
      var before := Run(s, events[..|events| - 1]);
      RunKeepsRight(s, events[..|events| - 1]);
      if Enabled(before, events[|events| - 1]) {
        StepKeepsRight(before, events[|events| - 1]);
      }
    }
  }

  lemma BeginsRight(memory: Memory, size: Size, greets: bool)
    requires 8 <= Bytes(size)
    ensures Right(Begin(memory, size, greets))
  {
  }

  // ---- Main results ----

  /** In every run, when the client receives a screen reply that is updated and not failed, its
      buffer holds exactly the frame that the server captured for it, and that is what it shows. */
  lemma ShowsWhatWasCaptured(memory: Memory, size: Size, greets: bool, events: seq<Event>)
    requires 8 <= Bytes(size) && AllFresh(Begin(memory, size, greets), events)
    ensures var s := Run(Begin(memory, size, greets), events);
            s.inbox != [] && Succeeded(s.inbox[0]) && s.client.connected ==>
              && Pixels(s.client) == s.captured
              && (s.client.context ==> Step(s, Delivered).client.shown == s.captured)
  {
    BeginsRight(memory, size, greets);
    hide Run, AllFresh, Bytes, Right, WellFormed, Step;
    RunKeepsRight(Begin(memory, size, greets), events);
    RightIsShown(Run(Begin(memory, size, greets), events));
  }

  lemma RightIsShown(s: System)
    requires WellFormed(s) && Right(s)
    ensures s.inbox != [] && Succeeded(s.inbox[0]) && s.client.connected ==>
              && Pixels(s.client) == s.captured
              && (s.client.context ==> Step(s, Delivered).client.shown == s.captured)
  {
    hide Flows, FbServer.Valid, RequestsAnswerable, Bytes, HasBuffer, Write, SocketSend, Pixels;
    if s.inbox != [] && Succeeded(s.inbox[0]) && s.client.connected {
      assert Pixels(s.client) == s.captured;
      SendKeepsShown(ParseScreen(s.client, true, false, false, 0), CursorRequest, false);
    }
  }

  lemma SendKeepsShown(c: Client, msg: ToServer, flushmouse: bool)
    ensures SocketSend(c, msg, flushmouse).shown == c.shown
  {
  }

  /** The segment a lookup for this message gives, from a given cache. */
  function Lookup(cache: ShmCache.Cache, m: Memory, msg: ToServer, seen: FbServer.Observed): Option<Segment>
    requires msg.Screen? && |cache.entries| == 2 && cache.next < 2
  {
    ShmCache.Found(cache, msg.paddr, msg.sig, Bytes(Size(msg.width, msg.height)), m, seen.f0, seen.f1)
  }

  /** Whenever the server looks for the buffer of a request, only the segment in which the client
      put the signature can be found; and if a lookup without the cache finds it, so does the
      lookup with the cache as it is. */
  lemma CacheFindsTheBuffer(memory: Memory, size: Size, greets: bool, events: seq<Event>, seen: FbServer.Observed)
    requires 8 <= Bytes(size) && AllFresh(Begin(memory, size, greets), events)
    requires var s := Run(Begin(memory, size, greets), events);
             Enabled(s, Served(seen)) && s.client.outbox[0].Screen?
    ensures var s := Run(Begin(memory, size, greets), events);
            var msg := s.client.outbox[0];
            var cached := Lookup(s.server.cache, s.client.memory, msg, seen);
            var uncached := Lookup(ShmCache.EMPTY, s.client.memory, msg, seen);
            && s.client.image.Some?
            && FbServer.Signed(s.client.memory, msg.sig, s.client.image.value.seg)
            && (cached.Some? ==> cached == Some(s.client.image.value.seg))
            && (uncached.Some? ==> cached == uncached)
  {
    BeginsRight(memory, size, greets);
    RunKeepsRight(Begin(memory, size, greets), events);
    hide Run, AllFresh, Bytes, HasBuffer, Flows, ShmCache.Found, ShmCache.Possible, ShmCache.Valid, RepliesRight;
    var s := Run(Begin(memory, size, greets), events);
    var msg := s.client.outbox[0];
    assert Answerable(s.client, msg);
    ShmCache.CachedFindsWhatUncachedFinds(s.server.cache, msg.paddr, msg.sig, Bytes(Size(msg.width, msg.height)),
                                          s.client.memory, seen.f0, seen.f1, s.client.image.value.seg);
  }

  /** While a request or its reply is under way, the buffer is neither replaced nor signed again,
      and no one but the server writes to memory. */
  lemma BufferIsKept(s: System, e: Event)
    requires WellFormed(s) && Enabled(s, e) && Flows(s) && s.client.connected
    requires Requests(s.client.outbox) + Replies(s.inbox) == 1
    requires !e.Closed? && !(e.Delivered? && s.inbox[0].ScreenReply?)
    ensures Step(s, e).client.image == s.client.image
    ensures e.Served? || Step(s, e).client.memory == s.client.memory
    ensures Requests(Step(s, e).client.outbox) + Replies(Step(s, e).inbox) == 1
  {
    hide Requests, Act, Receive, OnFlush, FbServer.Dispatch, Bytes, HasBuffer, FbServer.Possible, FbServer.WellFormed,
         Kiwi.Possible, Write, ParseVersion, Grows, Flow;
    BusyMeans(s);
    match e
    case Acted(action, sig) => ActMoves(s.client, action, sig);
    case Delivered => ReceiveIsQuiet(s.client, s.inbox[0]);
    case Served(seen) => ServeCounts(s, seen);
    case _ =>
  }

  /** While a request or reply is under way, a screen is flying and no flush is pending. */
  lemma BusyMeans(s: System)
    requires Flows(s) && s.client.connected && Requests(s.client.outbox) + Replies(s.inbox) == 1
    ensures s.client.flying && s.client.flushes == 0
  {
    hide Requests;
  }
}
