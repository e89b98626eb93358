/** The framebuffer server of src/fbserver.c: its dispatch loop, and what it answers to a
    request for the screen. */
module FbServer {
  import opened Options
  import opened Masking
  import opened SharedMemory
  import opened Protocol
  import ShmCache
  import PressedKeys

  datatype Server = Server(cache: ShmCache.Cache, keys: PressedKeys.Server, image: Option<Size>)

  const START: Server := Server(ShmCache.EMPTY, PressedKeys.Running([], []), None)

  /** What the X server and the helper say while one message is handled. */
  datatype Observed = Observed(
    damage: bool,
    frame: seq<byte>,
    cursor: Option<nat>,
    size: Size,
    f0: ShmCache.Fetch,
    f1: ShmCache.Fetch)

  /** A server after a message, the memory, and the answers sent; `captured` is the frame an
      updated screen reply is about. */
  datatype Handled = Handled(server: Server, memory: Memory, replies: seq<ToClient>, captured: Option<seq<byte>>)

  predicate WellFormed(s: Server) {
    |s.cache.entries| == 2 && s.cache.next < 2
  }

  /** The frame has the size that was asked for. */
  predicate Fits(msg: ToServer, o: Observed) {
    msg.Screen? ==> |o.frame| == Bytes(Size(msg.width, msg.height))
  }

  /** memcpy into a mapping.  (A file shorter than its mapping keeps only what fits.) */
  function CopyImage(m: Memory, seg: Segment, frame: seq<byte>): Memory
    requires seg in m
  {
    Write(m, seg, if |frame| <= |m[seg]| then frame else frame[..|m[seg]|])
  }

  predicate Refreshes(s: Server, msg: ToServer, o: Observed)
    requires msg.Screen?
  {
    s.image != Some(Size(msg.width, msg.height)) || msg.refresh || o.damage
  }

  function Reply(updated: bool, shmfailed: bool, cursor: Option<nat>): ToClient {
    ScreenReply(updated, shmfailed, cursor.Some?, if cursor.Some? then cursor.value else 0)
  }

  function WriteImage(s: Server, m: Memory, msg: ToServer, o: Observed): (h: Handled)
    requires WellFormed(s) && msg.Screen?
    ensures WellFormed(h.server)
  {
    var s' := s.(image := Some(Size(msg.width, msg.height)));
    if !Refreshes(s, msg, o) then Handled(s', m, [Reply(false, false, o.cursor)], None)
    else
      var length := Bytes(Size(msg.width, msg.height));
      var (cache, found) := ShmCache.Find(s.cache, msg.paddr, msg.sig, length, m, o.f0, o.f1);
      var ok := found.Some? && Usable(cache.entries[found.value], m, length);
      Handled(s'.(cache := cache), if ok then CopyImage(m, cache.entries[found.value].map_.value, o.frame) else m,
              [Reply(true, !ok, o.cursor)], Some(o.frame))
  }

  predicate Usable(e: ShmCache.Entry, m: Memory, length: nat) {
    e.map_.Some? && e.map_.value in m && length == e.length
  }

  function Press(s: Server, input: PressedKeys.Input): Server {
    s.(keys := PressedKeys.Handle(s.keys, input))
  }

  function Input(kind: PressedKeys.Kind, code: nat, down: bool): PressedKeys.Input {
    var key := PressedKeys.KeyButton(kind, code);
    if down then PressedKeys.Press(key) else PressedKeys.Release(key)
  }

  function Dispatch(s: Server, m: Memory, msg: ToServer, o: Observed): (h: Handled)
    requires WellFormed(s)
    ensures WellFormed(h.server)
  {
    match msg
    case VersionOk => Handled(s, m, [Init], None)
    case Screen(_, _, _, _, _) => WriteImage(s, m, msg, o)
    case CursorRequest => Handled(s, m, if o.cursor.Some? then [CursorReply(o.cursor.value)] else [], None)
    case SetResolution(_, _) => Handled(s, m, [Resolution(o.size.width, o.size.height)], None)
    case Key(code, down) => Handled(Press(s, Input(PressedKeys.Keyboard, code, down)), m, [], None)
    case Click(button, down) => Handled(Press(s, Input(PressedKeys.Mouse, button, down)), m, [], None)
    case Move(_, _) => Handled(s, m, [], None)
    case Quit => Handled(Press(s, PressedKeys.Quit), m, [], None)
  }

  function HangUp(s: Server): (r: Server)
    requires WellFormed(s)
    ensures WellFormed(r)
  {
    Server(ShmCache.Disconnect(s.cache), PressedKeys.Handle(s.keys, PressedKeys.Disconnect), s.image)
  }

  // ---- Properties of one message ----

  ghost predicate Valid(s: Server) {
    ShmCache.Valid(s.cache) && PressedKeys.Agrees(s.keys)
  }

  predicate Possible(s: Server, m: Memory, msg: ToServer, o: Observed)
    requires WellFormed(s)
  {
    Fits(msg, o)
    && (msg.Screen? ==>
          ShmCache.Possible(s.cache, msg.paddr, msg.sig, Bytes(Size(msg.width, msg.height)), m, o.f0, o.f1))
  }

  lemma DispatchKeepsValid(s: Server, m: Memory, msg: ToServer, o: Observed)
    requires WellFormed(s) && Valid(s) && Possible(s, m, msg, o)
    ensures Valid(Dispatch(s, m, msg, o).server)
  {
    hide ShmCache.Valid, ShmCache.Find, ShmCache.Possible, PressedKeys.Agrees, PressedKeys.Handle, CopyImage, Usable;
    match msg
    case Screen(_, w, h, paddr, sig) =>
      ShmCache.FindKeepsValid(s.cache, paddr, sig, Bytes(Size(w, h)), m, o.f0, o.f1);
    case Key(code, down) => PressedKeys.HandleAgrees(s.keys, Input(PressedKeys.Keyboard, code, down));
    case Click(button, down) => PressedKeys.HandleAgrees(s.keys, Input(PressedKeys.Mouse, button, down));
    case Quit => PressedKeys.HandleAgrees(s.keys, PressedKeys.Quit);
    case _ =>
  }

  lemma HangUpKeepsValid(s: Server)
    requires WellFormed(s) && Valid(s)
    ensures Valid(HangUp(s)) && HangUp(s).cache.open == {}
    ensures s.keys.Running? ==> HangUp(s).keys.Running? && PressedKeys.Down(HangUp(s).keys.events) == {}
  {
    hide ShmCache.Valid, ShmCache.Disconnect, PressedKeys.Agrees, PressedKeys.Handle;
    ShmCache.DisconnectClosesAll(s.cache);
    PressedKeys.HandleAgrees(s.keys, PressedKeys.Disconnect);
  }

  /** `seg` is the one segment that starts with the signature. */
  predicate Signed(m: Memory, sig: Signature, seg: Segment) {
    SignatureOf(m, seg) == Some(sig) && forall s :: s in m && s != seg ==> SignatureOf(m, s) != Some(sig)
  }

  /** A request is answered by one screen reply.  It is updated exactly if the size is not that of
      the last request, the client wants a refresh, or the X server has reported damage; and if
      it reports success, the frame has been written to the one segment that carries the
      signature, and otherwise nothing changed. */
  lemma WriteImageIsRight(s: Server, m: Memory, msg: ToServer, o: Observed, seg: Segment)
    requires WellFormed(s) && ShmCache.Valid(s.cache) && msg.Screen? && Possible(s, m, msg, o)
    requires Signed(m, msg.sig, seg) && |o.frame| <= |m[seg]|
    ensures var h := WriteImage(s, m, msg, o);
            && |h.replies| == 1 && h.replies[0].ScreenReply?
            && h.memory == (if h.replies[0].updated && !h.replies[0].shmfailed then Write(m, seg, o.frame) else m)
            && (h.replies[0].updated <==> s.image != Some(Size(msg.width, msg.height)) || msg.refresh || o.damage)
            && h.captured == (if h.replies[0].updated then Some(o.frame) else None)
            && h.server.image == Some(Size(msg.width, msg.height)) && h.server.keys == s.keys
            && (h.replies[0].shmfailed ==> h.replies[0].updated)
            && (h.replies[0].cursorUpdated <==> o.cursor.Some?)
            && (o.cursor.Some? ==> h.replies[0].serial == o.cursor.value)
  {
    hide ShmCache.Valid, ShmCache.Find, ShmCache.Possible, Write;
    ShmCache.CachedIsUncached(s.cache, msg.paddr, msg.sig, Bytes(Size(msg.width, msg.height)), m, o.f0, o.f1, seg);
  }

  /** If the helper finds the buffer, a request that is due for a refresh fails exactly if the
      buffer is cached with the length of an earlier request. */
  lemma FailsOnlyOnOldLength(s: Server, m: Memory, msg: ToServer, o: Observed, seg: Segment)
    requires WellFormed(s) && ShmCache.Valid(s.cache) && msg.Screen? && Possible(s, m, msg, o) && Refreshes(s, msg, o)
    requires Signed(m, msg.sig, seg) && o.f0.Mapped? && o.f0.seg == seg
    ensures WriteImage(s, m, msg, o).replies[0].shmfailed
       <==> ShmCache.CachedOtherwise(s.cache, msg.paddr, msg.sig, m, Bytes(Size(msg.width, msg.height)))
  {
    hide ShmCache.Valid, ShmCache.Find, ShmCache.Possible, ShmCache.CachedOtherwise, Write, Bytes;
    var length := Bytes(Size(msg.width, msg.height));
    ShmCache.FindWithHonestHelper(s.cache, msg.paddr, msg.sig, length, m, o.f0, o.f1);
    ShmCache.CachedIsUncached(s.cache, msg.paddr, msg.sig, length, m, o.f0, o.f1, seg);
  }

  // ---- The program ----

  class Program {
    const segments: Segments
    const shm: ShmCache.Shm
    const pressed: PressedKeys.PressedTable
    var image: Option<Size>
    var aborted: bool
    var sent: seq<ToClient>

    ghost predicate Ok()
      reads this, shm, pressed
    {
      shm.WellFormed() && pressed.Valid()
    }

    ghost function Value(): Server
      reads this, shm, shm.cache, pressed, pressed.pressed
      requires Ok()
    {
      Server(shm.Value(),
             if aborted then PressedKeys.Aborted(pressed.events)
             else PressedKeys.Running(pressed.Table(), pressed.events), image)
    }

    constructor (segments: Segments)
      ensures Ok() && Value() == START && sent == [] && this.segments == segments
    {
      this.segments := segments;
      shm := new ShmCache.Shm();
      pressed := new PressedKeys.PressedTable();
      image, aborted, sent := None, false, [];
    }

    /** Answers a request for the screen, writing the frame if one is due. */
    method AnswerScreen(msg: ToServer, o: Observed)
      requires Ok() && msg.Screen? && Fits(msg, o)
      modifies this`image, this`sent, segments, shm, shm.cache
      ensures Ok()
      ensures var h := WriteImage(old(Value()), old(segments.segments), msg, o);
              Value() == h.server && segments.segments == h.memory && sent == old(sent) + h.replies
    {
      hide ShmCache.Find, CopyImage, PressedKeys.Agrees, Bytes;
      var refresh := false;
      if image != Some(Size(msg.width, msg.height)) {
        image := Some(Size(msg.width, msg.height));
        refresh := true;
      }
      if msg.refresh {
        refresh := true;
      }
      if o.damage {
        refresh := true;
      }
      if !refresh {
        sent := sent + [Reply(false, false, o.cursor)];
        return;
      }
      var length := Bytes(Size(msg.width, msg.height));
      var entry := shm.FindShm(msg.paddr, msg.sig, length, segments.segments, [o.f0, o.f1]);
      var failed := false;
      if entry.Some? && Usable(shm.cache[entry.value], segments.segments, length) {
        segments.segments := CopyImage(segments.segments, shm.cache[entry.value].map_.value, o.frame);
      } else {
        failed := true;
      }
      sent := sent + [Reply(true, failed, o.cursor)];
    }

    method PressKey(input: PressedKeys.Input)
      requires Ok() && !aborted
      modifies this`aborted, pressed, pressed.pressed
      ensures Ok()
      ensures Value() == Press(old(Value()), input)
    {
      var ok := pressed.Dispatch(input);
      aborted := !ok;
    }

    /** One turn of the dispatch loop. */
    method Handle(msg: ToServer, o: Observed)
      requires Ok() && !aborted && Fits(msg, o)
      modifies this, segments, shm, shm.cache, pressed, pressed.pressed
      ensures Ok()
      ensures var h := Dispatch(old(Value()), old(segments.segments), msg, o);
              Value() == h.server && segments.segments == h.memory && sent == old(sent) + h.replies
    {
      hide WriteImage, Press;
      match msg
      case VersionOk => sent := sent + [Init];
      case Screen(_, _, _, _, _) => AnswerScreen(msg, o);
      case CursorRequest =>
        if o.cursor.Some? {
          sent := sent + [CursorReply(o.cursor.value)];
        }
      case SetResolution(_, _) => sent := sent + [Resolution(o.size.width, o.size.height)];
      case Key(code, down) => PressKey(Input(PressedKeys.Keyboard, code, down));
      case Click(button, down) => PressKey(Input(PressedKeys.Mouse, button, down));
      case Move(_, _) =>
      case Quit => PressKey(PressedKeys.Quit);
    }

    /** The end of a connection. */
    method EndConnection()
      requires Ok() && !aborted
      modifies this`aborted, shm, shm.cache, pressed, pressed.pressed
      ensures Ok()
      ensures Value() == HangUp(old(Value()))
    {
      var ok := pressed.Dispatch(PressedKeys.Disconnect);
      aborted := !ok;
      shm.Close(0);
      shm.Close(1);
    }
  }
}
