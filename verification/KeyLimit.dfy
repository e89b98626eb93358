/** The pressed-key table of the server never overflows in a session: the client has too few keys
    and buttons. */
module KeyLimit {
  import opened Options
  import opened Sequences
  import opened SharedMemory
  import opened Protocol
  import opened Kiwi
  import opened Requesting
  import opened Session
  import FbServer
  import ShmCache
  import PressedKeys

  /** The keys or buttons with codes below n. */
  function Below(kind: PressedKeys.Kind, n: nat): set<PressedKeys.KeyButton> {
    set code | 0 <= code < n :: PressedKeys.KeyButton(kind, code)
  }

  lemma {:induction false} BelowSize(kind: PressedKeys.Kind, n: nat)
    ensures |Below(kind, n)| == n
  {
    if n == 0 {
      assert Below(kind, n) == {};
    } else {
      BelowSize(kind, n - 1);
      assert Below(kind, n) == Below(kind, n - 1) + {PressedKeys.KeyButton(kind, n - 1)};
    }
  }

  function ClientKeys(): set<PressedKeys.KeyButton> {
    Below(PressedKeys.Keyboard, KEY_CODES) + Below(PressedKeys.Mouse, BUTTONS)
  }

  lemma ClientKeysAreFew()
    ensures |ClientKeys()| < PressedKeys.CAPACITY
  {
    var keys, buttons := Below(PressedKeys.Keyboard, KEY_CODES), Below(PressedKeys.Mouse, BUTTONS);
    BelowSize(PressedKeys.Keyboard, KEY_CODES);
    BelowSize(PressedKeys.Mouse, BUTTONS);
    hide Below;
    assert |keys + buttons| == |keys| + |buttons| - |keys * buttons|;
  }

  ghost predicate AllProper(q: seq<ToServer>) {
    forall m :: m in q ==> Proper(m)
  }

  /** The server runs, and knows only of keys that the client has. */
  ghost predicate Limited(s: FbServer.Server) {
    FbServer.Valid(s) && s.keys.Running? && PressedKeys.Elements(s.keys.table) <= ClientKeys()
  }

  lemma PressKeepsLimited(s: FbServer.Server, key: PressedKeys.KeyButton)
    requires Limited(s) && key in ClientKeys()
    ensures var keys := PressedKeys.Handle(s.keys, PressedKeys.Press(key));
            keys.Running? && PressedKeys.Elements(keys.table) <= ClientKeys()
  {
    hide ClientKeys;
    ClientKeysAreFew();
    PressedKeys.SizeOfElements(s.keys.table);
    SubsetSize(PressedKeys.Elements(s.keys.table), ClientKeys());
    PressedKeys.AddedKeepsTable(s.keys.table, key);
  }

  lemma ReleaseKeepsLimited(s: FbServer.Server, key: PressedKeys.KeyButton)
    requires Limited(s)
    ensures var keys := PressedKeys.Handle(s.keys, PressedKeys.Release(key));
            keys.Running? && PressedKeys.Elements(keys.table) <= ClientKeys()
  {
    hide ClientKeys;
    PressedKeys.RemovedKeepsTable(s.keys.table, key);
  }

  lemma InputKeepsLimited(s: FbServer.Server, kind: PressedKeys.Kind, code: nat, down: bool)
    requires Limited(s) && PressedKeys.KeyButton(kind, code) in ClientKeys()
    ensures var keys := FbServer.Press(s, FbServer.Input(kind, code, down)).keys;
            keys.Running? && PressedKeys.Elements(keys.table) <= ClientKeys()
  {
    hide PressedKeys.Handle;
    if down {
      PressKeepsLimited(s, PressedKeys.KeyButton(kind, code));
    } else {
      ReleaseKeepsLimited(s, PressedKeys.KeyButton(kind, code));
    }
  }

  lemma DispatchKeepsLimited(s: FbServer.Server, m: Memory, msg: ToServer, seen: FbServer.Observed)
    requires FbServer.WellFormed(s) && Limited(s) && Proper(msg) && FbServer.Possible(s, m, msg, seen)
    ensures Limited(FbServer.Dispatch(s, m, msg, seen).server)
  {
    FbServer.DispatchKeepsValid(s, m, msg, seen);
    hide FbServer.Valid, FbServer.Press, ShmCache.Find, FbServer.CopyImage, FbServer.Possible;
    match msg
    case Key(code, down) => InputKeepsLimited(s, PressedKeys.Keyboard, code, down);
    case Click(button, down) => InputKeepsLimited(s, PressedKeys.Mouse, button, down);
    case Quit => QuitKeepsLimited(s);
    case _ =>
  }

  lemma QuitKeepsLimited(s: FbServer.Server)
    requires Limited(s)
    ensures var keys := FbServer.Press(s, PressedKeys.Quit).keys;
            keys.Running? && PressedKeys.Elements(keys.table) <= ClientKeys()
  {
  }

  lemma HangUpKeepsLimited(s: FbServer.Server)
    requires FbServer.WellFormed(s) && Limited(s)
    ensures Limited(FbServer.HangUp(s))
  {
    FbServer.HangUpKeepsValid(s);
    hide FbServer.Valid, ShmCache.Disconnect;
  }

  // ---- The client's messages ----

  lemma FlushKeepsProper(c: Client, a: Alloc, sig: Signature)
    requires Sized(c) && Bytes(c.size) <= |a.contents| && AllProper(c.outbox)
    ensures AllProper(OnFlush(c, a, sig).outbox)
  {
    hide RequestScreen, Requests, Bytes, Write;
    var c' := c.(flying := false, image := Some(Image(a.seg, a.paddr, c.size)),
                 memory := c.memory[a.seg := a.contents]);
    RequestMoves(c', c.token, sig);
  }

  lemma ReceiveKeepsProper(c: Client, msg: ToClient)
    requires Ready(c) && AllProper(c.outbox)
    ensures AllProper(Receive(c, msg).outbox)
  {
    hide SocketSend, Paint, Bytes, HasBuffer, Requests;
    if c.connected && msg.ScreenReply? {
      PaintKeeps(c, msg.shmfailed);
      SendIsQuiet(ParseScreen(c, msg.updated, msg.shmfailed, false, 0), CursorRequest, false);
    }
  }

  lemma VersionKeepsProper(c: Client, a: Alloc, sig: Signature)
    requires Ready(c) && Bytes(c.size) <= |a.contents| && AllProper(c.outbox)
    ensures AllProper(ParseVersion(c, a, sig).outbox)
  {
    hide OnFlush, Bytes, HasBuffer;
    if !c.connected {
      FlushKeepsProper(Greeted(c), a, sig);
    }
  }

  // ---- Every run ----

  ghost predicate WithinLimit(s: System) {
    AllProper(s.client.outbox) && Limited(s.server)
  }

  lemma StepKeepsLimit(s: System, e: Event)
    requires WellFormed(s) && Enabled(s, e) && WithinLimit(s)
    ensures WithinLimit(Step(s, e))
  {
    hide Act, OnFlush, Receive, ParseVersion, FbServer.Dispatch, FbServer.HangUp, Limited, Bytes, HasBuffer,
         FbServer.Possible, Kiwi.Possible, FbServer.WellFormed, Requests, Write, Proper;
    var c := s.client;
    match e
    case Acted(action, sig) => ActKeepsProper(c, action, sig);
    case FlushDone(alloc, sig) => FlushKeepsProper(c.(flushes := c.flushes - 1), alloc, sig);
    case Delivered => ReceiveKeepsProper(c, s.inbox[0]);
    case Served(seen) =>
      assert c.outbox[0] in c.outbox;
      DispatchKeepsLimited(s.server, c.memory, c.outbox[0], seen);
    case Connected(alloc, sig) => VersionKeepsProper(c, alloc, sig);
    case ReceiveFailed =>
    case Closed => HangUpKeepsLimited(s.server);
  }

  lemma ActKeepsProper(c: Client, a: Action, sig: Signature)
    requires Ready(c) && Kiwi.Possible(c, a) && AllProper(c.outbox)
    ensures AllProper(Act(c, a, sig).outbox)
  {
    hide Act, Kiwi.Possible, Requests, Write, HasBuffer, Proper;
    ActMoves(c, a, sig);
  }

  lemma {:induction false} RunKeepsLimit(s: System, events: seq<Event>)
    requires WellFormed(s) && WithinLimit(s)
    ensures WithinLimit(Run(s, events))
  {
    hide Step, WithinLimit, WellFormed, Enabled;
    if events != [] {
      var before := Run(s, events[..|events| - 1]);
      RunKeepsLimit(s, events[..|events| - 1]);
      if Enabled(before, events[|events| - 1]) {
        StepKeepsLimit(before, events[|events| - 1]);
      }
    }
  }

  /** In no run does the server abort for want of room in its table. */
  lemma ServerKeepsRunning(memory: Memory, size: Size, greets: bool, events: seq<Event>)
    requires 8 <= Bytes(size)
    ensures Run(Begin(memory, size, greets), events).server.keys.Running?
  {
    BeginsWithinLimit(memory, size, greets);
    hide Run, Bytes, ClientKeys;
    RunKeepsLimit(Begin(memory, size, greets), events);
  }

  lemma BeginsWithinLimit(memory: Memory, size: Size, greets: bool)
    ensures WithinLimit(Begin(memory, size, greets))
  {
  }
}
