/** The client side of the screen and input protocol: host-ext/nacl_src/kiwi.cc. */
module Kiwi {
  import opened Options
  import opened Masking
  import opened SharedMemory
  import opened Protocol

  const FULL_FPS: nat := 30
  const BLUR_FPS: nat := 5
  const HIDDEN_FPS: nat := 0

  datatype SearchState = Inactive | UpFirst | Up | Down

  datatype Image = Image(seg: Segment, paddr: nat, size: Size)

  /** The fields of a KiwiInstance, with what it has sent, the callbacks it has scheduled and
      what it has shown.  `closing` is the state of its socket between Close and OnSocketClosed. */
  datatype Client = Client(
    connected: bool,
    closing: bool,
    flying: bool,
    token: nat,
    fps: nat,
    force: bool,
    search: SearchState,
    moved: bool,
    mouse: (int, int),
    cursors: set<nat>,
    context: bool,
    size: Size,
    image: Option<Image>,
    memory: Memory,
    outbox: seq<ToServer>,
    timers: multiset<nat>,
    flushes: nat,
    shown: seq<byte>)

  predicate HasBuffer(m: Memory, i: Image) {
    i.seg in m && 8 <= Bytes(i.size) <= |m[i.seg]|
  }

  predicate Sized(c: Client) {
    8 <= Bytes(c.size) && (c.image.Some? ==> HasBuffer(c.memory, c.image.value))
  }

  /** A connected client has an image buffer, and it is large enough. */
  predicate Ready(c: Client) {
    Sized(c) && (c.connected ==> c.image.Some?)
  }

  // ---- Sending ----

  function SocketSend(c: Client, msg: ToServer, flushmouse: bool): (r: Client)
    ensures Ready(c) ==> Ready(r)
  {
    c.(outbox := Queue(c, msg, flushmouse), moved := c.moved && !(c.connected && flushmouse))
  }

  /** What is sent on a socket that is closing is lost. */
  function Queue(c: Client, msg: ToServer, flushmouse: bool): seq<ToServer> {
    if !c.connected || c.closing then c.outbox
    else if c.moved && flushmouse then c.outbox + [Move(c.mouse.0, c.mouse.1)] + [msg]
    else c.outbox + [msg]
  }

  /** A screen is flying, and the buffer for it has been signed. */
  function Flown(c: Client, sig: Signature): (r: Client)
    requires Ready(c) && c.connected
    ensures Ready(r)
  {
    c.(flying := true, token := c.token + 1, force := false, memory := Write(c.memory, c.image.value.seg, sig))
  }

  /** The request for the client's image. */
  function Asking(i: Image, refresh: bool, sig: Signature): ToServer {
    Screen(refresh, i.size.width, i.size.height, i.paddr, sig)
  }

  /** Signs the buffer and asks for it to be filled. */
  function RequestScreen(c: Client, token: nat, sig: Signature): (r: Client)
    requires Ready(c)
    ensures Ready(r)
  {
    if !c.connected || token != c.token || c.flying then c
    else SocketSend(Flown(c, sig), Asking(c.image.value, c.force, sig), true)
  }

  function SetTargetFPS(c: Client, fps: nat, sig: Signature): (r: Client)
    requires Ready(c)
    ensures Ready(r)
  {
    (if fps > c.fps then RequestScreen(c.(force := true), c.token, sig) else c).(fps := fps)
  }

  // ---- Screen refresh ----

  /** What the system gives for the next image, and whether its frame is already late. */
  datatype Alloc = Alloc(seg: Segment, paddr: nat, contents: Contents, late: bool)

  function OnFlush(c: Client, a: Alloc, sig: Signature): (r: Client)
    requires Sized(c) && Bytes(c.size) <= |a.contents|
    ensures Ready(r)
  {
    var c' := c.(flying := false, image := Some(Image(a.seg, a.paddr, c.size)),
                 memory := c.memory[a.seg := a.contents]);
    if c.fps == 0 then c'
    else if !a.late then c'.(timers := c.timers + multiset{c.token})
    else RequestScreen(c', c.token, sig)
  }

  function Black(n: nat): (r: seq<byte>)
    ensures |r| == n
  {
    seq(n, i requires 0 <= i < n => if i % 4 == 3 then 0xff else 0)
  }

  function Pixels(c: Client): seq<byte>
    requires Sized(c)
  {
    if c.image.None? then [] else Read(c.memory, c.image.value.seg, Bytes(c.image.value.size))
  }

  function BlankImage(c: Client): (r: Client)
    requires Sized(c)
    ensures Sized(r) && (Ready(c) ==> Ready(r))
  {
    if c.image.None? then c
    else c.(memory := Write(c.memory, c.image.value.seg, Black(Bytes(c.image.value.size))))
  }

  /** Without a graphics context nothing is shown and no flush is scheduled. */
  function Paint(c: Client, blank: bool): (r: Client)
    requires Sized(c)
    ensures Sized(r) && (Ready(c) ==> Ready(r))
  {
    if !c.context then c
    else
      var c' := if blank then BlankImage(c) else c;
      c'.(shown := Pixels(c'), flushes := c.flushes + 1)
  }

  function ParseScreen(c: Client, updated: bool, shmfailed: bool, cursorUpdated: bool, serial: nat): (r: Client)
    requires Ready(c)
    ensures Ready(r)
  {
    var c' := if updated then
                if !shmfailed then Paint(c, false) else Paint(c, true).(force := true)
              else
                c.(flying := false, timers := if c.fps > 0 then c.timers + multiset{c.token} else c.timers);
    if cursorUpdated && serial !in c.cursors then SocketSend(c', CursorRequest, false) else c'
  }

  /** Asks for the connection to be closed; the closing itself is OnSocketClosed. */
  function SocketClose(c: Client): (r: Client)
    ensures Ready(c) ==> Ready(r)
  {
    c.(closing := true)
  }

  /** A message from the server.  The client does not know Init. */
  function Receive(c: Client, msg: ToClient): (r: Client)
    requires Ready(c)
    ensures Ready(r)
  {
    if !c.connected then SocketClose(c)
    else match msg
      case Init => SocketClose(c)
      case ScreenReply(updated, shmfailed, cursorUpdated, serial) =>
        ParseScreen(c, updated, shmfailed, cursorUpdated, serial)
      case CursorReply(serial) => c.(cursors := c.cursors + {serial})
      case Resolution(_, _) => c.(force := true)
  }

  // ---- Connection and window ----

  function ChangeResolution(c: Client, size: Size): (r: Client)
    ensures Ready(c) ==> Ready(r)
  {
    if c.connected then SocketSend(c, SetResolution(size.width, size.height), false) else c
  }

  /** A client that has answered the version, on a new connection for which the cursor cache was
      cleared, and has asked for the resolution of its window. */
  function Greeted(c: Client): (r: Client)
    ensures r.size == c.size && r.image == c.image && r.memory == c.memory
  {
    var c' := c.(connected := true, closing := false, cursors := {});
    ChangeResolution(SocketSend(c', VersionOk, false), c.size)
  }

  /** The server's version has arrived. */
  function ParseVersion(c: Client, a: Alloc, sig: Signature): (r: Client)
    requires Ready(c) && Bytes(c.size) <= |a.contents|
    ensures Ready(r)
  {
    if c.connected then c else OnFlush(Greeted(c), a, sig)
  }

  function OnSocketClosed(c: Client): (r: Client)
    requires Ready(c)
    ensures Ready(r)
  {
    Paint(c.(connected := false, closing := false, flying := false), true)
  }

  /** The view has changed; binding the new graphics context may fail. */
  function InitContext(c: Client, size: Size, bound: bool): (r: Client)
    requires Ready(c) && 8 <= Bytes(size)
    ensures Ready(r)
  {
    if bound then c.(context := true, size := size, force := true) else c.(context := false)
  }

  function Blur(c: Client, fps: nat, sig: Signature): (r: Client)
    requires Ready(c)
    ensures Ready(r)
  {
    SetTargetFPS(SocketSend(c, Quit, false), fps, sig)
  }

  // ---- Input ----

  /** A key event by what matters to the client: Special keys and Unknown ones send nothing. */
  datatype KeyPress =
    | Special
    | Unknown
    | Search
    | Letter(code: nat)
    | Other(code: nat)

  function SendKeyCode(c: Client, code: nat, down: bool, sig: Signature): (r: Client)
    requires Ready(c)
    ensures Ready(r)
  {
    SetTargetFPS(SocketSend(c, Key(code, down), true), FULL_FPS, sig)
  }

  function SendSearchKey(c: Client, down: bool, sig: Signature): (r: Client)
    requires Ready(c)
    ensures Ready(r)
  {
    SendKeyCode(c, SUPER, down, sig)
  }

  /** Presses Super if the Search key is held and was not passed on yet. */
  function PressSearch(c: Client, down: bool, sig: Signature): (r: Client)
    requires Ready(c)
    ensures Ready(r)
  {
    if down && (c.search == UpFirst || c.search == Up) then SendSearchKey(c, true, sig).(search := Down) else c
  }

  function SendClick(c: Client, button: nat, down: bool, sig: Signature): (r: Client)
    requires Ready(c)
    ensures Ready(r)
  {
    SetTargetFPS(SocketSend(PressSearch(c, down, sig), Click(button, down), true), FULL_FPS, sig)
  }

  function MouseAt(c: Client, pos: (int, int)): (r: Client)
    requires Ready(c)
    ensures Ready(r)
  {
    if c.mouse != pos then c.(mouse := pos, moved := true) else c
  }

  function SearchKey(c: Client, down: bool, sig: Signature): (r: Client)
    requires Ready(c)
    ensures Ready(r)
  {
    if down then c.(search := UpFirst)
    else
      (match c.search
       case UpFirst => SendSearchKey(SendSearchKey(c, true, sig), false, sig)
       case Down => SendSearchKey(c, false, sig)
       case _ => c).(search := Inactive)
  }

  /** Releases Super before a key that is no letter. */
  function ReleaseSearch(c: Client, sig: Signature): (r: Client)
    requires Ready(c)
    ensures Ready(r)
  {
    match c.search
    case Down => SendSearchKey(c, false, sig).(search := Up)
    case UpFirst => c.(search := Up)
    case _ => c
  }

  function HandleKey(c: Client, key: KeyPress, down: bool, sig: Signature): (r: Client)
    requires Ready(c)
    ensures Ready(r)
  {
    match key
    case Special => c
    case Unknown => c
    case Search => SearchKey(c, down, sig)
    case Letter(code) => SendKeyCode(PressSearch(c, down, sig), code, down, sig)
    case Other(code) => SendKeyCode(ReleaseSearch(c, sig), code, down, sig)
  }

  // ---- What can happen to a client that is not a message ----

  datatype Action =
    | KeyEvent(key: KeyPress, down: bool)
    | MouseMoved(pos: (int, int))
    | MouseButton(pos: (int, int), button: nat, down: bool)
    | Unfocused(fps: nat)
    | Focused
    | Resized(size: Size)
    | ViewChanged(size: Size, bound: bool)
    | TimerFired(token: nat)

  predicate Possible(c: Client, a: Action) {
    match a
    case KeyEvent(key, _) => (key.Letter? || key.Other? ==> key.code != SUPER && key.code < KEY_CODES)
    case MouseButton(_, button, _) => button < BUTTONS
    case Unfocused(fps) => fps == BLUR_FPS || fps == HIDDEN_FPS
    case ViewChanged(size, _) => 8 <= Bytes(size)
    case TimerFired(token) => token in c.timers
    case _ => true
  }

  /** `sig` is the random number for the request this may make. */
  function Act(c: Client, a: Action, sig: Signature): (r: Client)
    requires Ready(c) && Possible(c, a)
    ensures Ready(r)
  {
    match a
    case KeyEvent(key, down) => HandleKey(c, key, down, sig)
    case MouseMoved(pos) => MouseAt(c, pos)
    case MouseButton(pos, button, down) => SendClick(MouseAt(c, pos), button, down, sig)
    case Unfocused(fps) => Blur(c, fps, sig)
    case Focused => SetTargetFPS(c, FULL_FPS, sig)
    case Resized(size) => ChangeResolution(c, size)
    case ViewChanged(size, bound) => InitContext(c, size, bound)
    case TimerFired(token) => RequestScreen(c.(timers := c.timers - multiset{token}), token, sig)
  }

  // ---- The instance ----

  class KiwiInstance {
    const shm: Segments
    var connected: bool
    var closing: bool
    var screenFlying: bool
    var requestToken: nat
    var targetFps: nat
    var forceRefresh: bool
    var searchState: SearchState
    var pendingMouseMove: bool
    var mousePos: (int, int)
    var cursorCache: set<nat>
    var context: bool
    var size: Size
    var imageData: Option<Image>
    var outbox: seq<ToServer>
    var timers: multiset<nat>
    var flushes: nat
    var shown: seq<byte>

    function Value(): Client
      reads this, shm
    {
      Client(connected, closing, screenFlying, requestToken, targetFps, forceRefresh, searchState, pendingMouseMove,
             mousePos, cursorCache, context, size, imageData, shm.segments, outbox, timers, flushes, shown)
    }

    constructor (shm: Segments, size: Size)
      ensures this.shm == shm
      ensures Value() == Start(shm.segments, size)
    {
      this.shm := shm;
      connected, closing, screenFlying, requestToken, targetFps, forceRefresh := false, false, false, 0, FULL_FPS, true;
      searchState, pendingMouseMove, mousePos, cursorCache := Inactive, false, (-1, -1), {};
      context, this.size, imageData, outbox, timers, flushes, shown := true, size, None, [], multiset{}, 0, [];
    }

    method SendMessage(msg: ToServer, flushmouse: bool)
      modifies this`outbox, this`pendingMouseMove
      ensures Value() == SocketSend(old(Value()), msg, flushmouse)
    {
      if !connected {
        return;
      }
      if pendingMouseMove && flushmouse {
        Transmit(Move(mousePos.0, mousePos.1));
        pendingMouseMove := false;
      }
      Transmit(msg);
    }

    /** What the socket does with a message. */
    method Transmit(msg: ToServer)
      modifies this`outbox
      ensures outbox == if closing then old(outbox) else old(outbox) + [msg]
    {
      if !closing {
        outbox := outbox + [msg];
      }
    }

    method Request(token: nat, sig: Signature)
      requires Ready(Value())
      modifies this`screenFlying, this`requestToken, this`forceRefresh, this`outbox, this`pendingMouseMove, shm
      ensures Value() == RequestScreen(old(Value()), token, sig)
    {
      hide SocketSend, Flown, Asking, HasBuffer, Bytes;
      if !connected {
        return;
      }
      if token != requestToken || screenFlying {
        return;
      }
      var refresh := forceRefresh;
      SignBuffer(sig);
      SendMessage(Asking(imageData.value, refresh, sig), true);
    }

    /** Counts the request and signs the buffer. */
    method SignBuffer(sig: Signature)
      requires Ready(Value()) && connected
      modifies this`screenFlying, this`requestToken, this`forceRefresh, shm
      ensures Value() == Flown(old(Value()), sig)
    {
      hide Write, Bytes;
      screenFlying := true;
      requestToken := requestToken + 1;
      forceRefresh := false;
      shm.segments := Write(shm.segments, imageData.value.seg, sig);
    }

    method SetFPS(newTargetFps: nat, sig: Signature)
      requires Ready(Value())
      modifies this, shm
      ensures Value() == SetTargetFPS(old(Value()), newTargetFps, sig)
    {
      hide RequestScreen, Bytes, HasBuffer;
      if newTargetFps > targetFps {
        forceRefresh := true;
        Request(requestToken, sig);
      }
      targetFps := newTargetFps;
    }

    method Flushed(a: Alloc, sig: Signature)
      requires Sized(Value()) && Bytes(size) <= |a.contents|
      modifies this, shm
      ensures Value() == OnFlush(old(Value()), a, sig)
    {
      hide RequestScreen, Bytes;
      screenFlying := false;
      imageData := Some(Image(a.seg, a.paddr, size));
      shm.segments := shm.segments[a.seg := a.contents];
      if targetFps == 0 {
        return;
      } else if !a.late {
        timers := timers + multiset{requestToken};
      } else {
        Request(requestToken, sig);
      }
    }

    static lemma BlackPixel(was: seq<byte>, i: nat)
      requires 4 * i + 4 <= |was|
      ensures var data := Black(4 * i) + was[4 * i..];
              data[..4 * i] + [0, 0, 0, 0xff] + data[4 * i + 4..] == Black(4 * (i + 1)) + was[4 * (i + 1)..]
    {
      assert Black(4 * (i + 1)) == Black(4 * i) + [0, 0, 0, 0xff];
    }

    /** Every pixel of the image to opaque black. */
    method BlankPixels()
      requires Sized(Value())
      modifies shm
      ensures Value() == BlankImage(old(Value()))
    {
      if imageData.None? {
        return;
      }
      var image := imageData.value;
      var data := BlackOut(shm.segments[image.seg], image.size.width * image.size.height);
      assert shm.segments[image.seg := data] == Write(shm.segments, image.seg, Black(Bytes(image.size)));
      shm.segments := shm.segments[image.seg := data];
    }

    /** Sets the first n pixels. */
    static method BlackOut(was: seq<byte>, n: nat) returns (data: seq<byte>)
      requires 4 * n <= |was|
      ensures data == Black(4 * n) + was[4 * n..]
    {
      data := was;
      for i := 0 to n
        invariant data == Black(4 * i) + was[4 * i..]
      {
        var black: seq<byte> := [0, 0, 0, 0xff];
        BlackPixel(was, i);
        data := data[..4 * i] + black + data[4 * i + 4..];
      }
    }

    method PaintFrame(blank: bool)
      requires Sized(Value())
      modifies this`shown, this`flushes, shm
      ensures Value() == Paint(old(Value()), blank)
    {
      hide BlankImage, Pixels, Bytes;
      if !context {
        return;
      }
      if blank {
        BlankPixels();
      }
      shown := Pixels(Value());
      flushes := flushes + 1;
    }

    method SocketParseScreen(updated: bool, shmfailed: bool, cursorUpdated: bool, serial: nat)
      requires Ready(Value())
      modifies this, shm
      ensures Value() == ParseScreen(old(Value()), updated, shmfailed, cursorUpdated, serial)
    {
      hide Paint, SocketSend, Bytes;
      if updated {
        if !shmfailed {
          PaintFrame(false);
        } else {
          PaintFrame(true);
          forceRefresh := true;
        }
      } else {
        screenFlying := false;
        if targetFps > 0 {
          timers := timers + multiset{requestToken};
        }
      }
      if cursorUpdated && serial !in cursorCache {
        SendMessage(CursorRequest, false);
      }
    }

    method SocketParseVersion(a: Alloc, sig: Signature)
      requires Ready(Value()) && Bytes(size) <= |a.contents|
      modifies this, shm
      ensures Value() == ParseVersion(old(Value()), a, sig)
    {
      hide OnFlush, Greeted, HasBuffer, Bytes;
      if connected {
        return;
      }
      Greet();
      Flushed(a, sig);
    }

    /** Answers the version of a new connection and asks for the window's resolution. */
    method Greet()
      modifies this`connected, this`closing, this`cursorCache, this`outbox, this`pendingMouseMove
      ensures Value() == Greeted(old(Value()))
    {
      hide Queue;
      cursorCache := {};
      connected, closing := true, false;
      SendMessage(VersionOk, false);
      SendMessage(SetResolution(size.width, size.height), false);
    }

    /** Something else than a version arrives. */
    method SocketReceived(msg: ToClient)
      requires Ready(Value())
      modifies this, shm
      ensures Value() == Receive(old(Value()), msg)
    {
      hide ParseScreen, Bytes;
      if connected {
        match msg {
          case ScreenReply(updated, shmfailed, cursorUpdated, serial) =>
            SocketParseScreen(updated, shmfailed, cursorUpdated, serial);
            return;
          case CursorReply(serial) =>
            cursorCache := cursorCache + {serial};
            return;
          case Resolution(_, _) =>
            forceRefresh := true;
            return;
          case Init =>
        }
      }
      closing := true;
    }

    method SocketClosed()
      requires Ready(Value())
      modifies this, shm
      ensures Value() == OnSocketClosed(old(Value()))
    {
      hide Paint, Bytes;
      connected, closing := false, false;
      screenFlying := false;
      PaintFrame(true);
    }

    method KeyCode(code: nat, down: bool, sig: Signature)
      requires Ready(Value())
      modifies this, shm
      ensures Value() == SendKeyCode(old(Value()), code, down, sig)
    {
      hide SetTargetFPS, SocketSend, Bytes;
      SendMessage(Key(code, down), true);
      SetFPS(FULL_FPS, sig);
    }

    method MouseClick(button: nat, down: bool, sig: Signature)
      requires Ready(Value())
      modifies this, shm
      ensures Value() == SendClick(old(Value()), button, down, sig)
    {
      hide SetTargetFPS, SocketSend, PressSearch, Bytes, HasBuffer;
      PressHeld(down, sig);
      SendMessage(Click(button, down), true);
      SetFPS(FULL_FPS, sig);
    }

    /** The mouse part of HandleInputEvent; no button for a mere move. */
    method HandleMouseEvent(pos: (int, int), button: Option<nat>, down: bool, sig: Signature)
      requires Ready(Value())
      modifies this, shm
      ensures Value() == if button.None? then MouseAt(old(Value()), pos)
                         else SendClick(MouseAt(old(Value()), pos), button.value, down, sig)
    {
      hide SendClick, Bytes;
      if mousePos != pos {
        pendingMouseMove := true;
        mousePos := pos;
      }
      assert Value() == MouseAt(old(Value()), pos);
      if button.Some? {
        MouseClick(button.value, down, sig);
      }
    }

    /** The window was hidden, or perhaps is. */
    method HandleBlur(fps: nat, sig: Signature)
      requires Ready(Value())
      modifies this, shm
      ensures Value() == Blur(old(Value()), fps, sig)
    {
      hide SetTargetFPS, SocketSend, Bytes;
      SendMessage(Quit, false);
      SetFPS(fps, sig);
    }

    method ViewChange(newSize: Size, bound: bool)
      requires Ready(Value()) && 8 <= Bytes(newSize)
      modifies this
      ensures Value() == InitContext(old(Value()), newSize, bound)
    {
      if !bound {
        context := false;
        return;
      }
      context := true;
      size := newSize;
      forceRefresh := true;
    }

    /** The keyboard part of HandleInputEvent. */
    method HandleKeyEvent(key: KeyPress, down: bool, sig: Signature)
      requires Ready(Value())
      modifies this, shm
      ensures Value() == HandleKey(old(Value()), key, down, sig)
    {
      hide SendKeyCode, SearchKey, PressSearch, ReleaseSearch, Bytes, HasBuffer;
      if key.Special? || key.Unknown? {
        return;
      }
      if key.Search? {
        HandleSearch(down, sig);
        return;
      }
      if key.Letter? {
        PressHeld(down, sig);
      } else {
        ReleaseHeld(sig);
      }
      KeyCode(key.code, down, sig);
    }

    /** The Search key itself. */
    method HandleSearch(down: bool, sig: Signature)
      requires Ready(Value())
      modifies this, shm
      ensures Value() == SearchKey(old(Value()), down, sig)
    {
      hide SendKeyCode, Bytes, HasBuffer;
      if down {
        searchState := UpFirst;
        return;
      }
      if searchState == UpFirst {
        KeyCode(SUPER, true, sig);
        KeyCode(SUPER, false, sig);
      } else if searchState == Down {
        KeyCode(SUPER, false, sig);
      }
      searchState := Inactive;
    }

    /** Presses Super before a letter or a click, if Search is held. */
    method PressHeld(down: bool, sig: Signature)
      requires Ready(Value())
      modifies this, shm
      ensures Value() == PressSearch(old(Value()), down, sig)
    {
      hide SendKeyCode, Bytes, HasBuffer;
      if down && (searchState == UpFirst || searchState == Up) {
        KeyCode(SUPER, true, sig);
        searchState := Down;
      }
    }

    /** Releases Super before another key. */
    method ReleaseHeld(sig: Signature)
      requires Ready(Value())
      modifies this, shm
      ensures Value() == ReleaseSearch(old(Value()), sig)
    {
      hide SendKeyCode, Bytes, HasBuffer;
      if searchState == Down {
        KeyCode(SUPER, false, sig);
        searchState := Up;
      } else if searchState == UpFirst {
        searchState := Up;
      }
    }
  }

  /** A new instance, when its window has been given its first graphics context, of this size. */
  function Start(memory: Memory, size: Size): Client {
    Client(false, false, false, 0, FULL_FPS, true, Inactive, false, (-1, -1), {}, true, size, None, memory, [],
           multiset{}, 0, [])
  }
}
