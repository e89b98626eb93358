/** What the actions of a kiwi client do to its screen requests: most do nothing, and some make
    exactly one request, for the image buffer as they find it. */
module Requesting {
  import opened SharedMemory
  import opened Protocol
  import opened Kiwi

  /** Number of screen requests in a channel. */
  function Requests(q: seq<ToServer>): nat {
    if q == [] then 0 else Requests(q[..|q| - 1]) + if q[|q| - 1].Screen? then 1 else 0
  }

  lemma RequestsAppend(q: seq<ToServer>, m: ToServer)
    ensures Requests(q + [m]) == Requests(q) + if m.Screen? then 1 else 0
  {
    assert (q + [m])[..|q|] == q;
  }

  lemma {:induction false} RequestsFirst(q: seq<ToServer>)
    requires q != []
    ensures Requests(q) == (if q[0].Screen? then 1 else 0) + Requests(q[1..])
  {
    if |q| > 1 {
      var last := |q| - 1;
      RequestsFirst(q[..last]);
      assert q[..last][1..] == q[1..][..last - 1];
    }
  }

  lemma {:induction false} NoRequests(q: seq<ToServer>)
    ensures Requests(q) == 0 <==> forall m :: m in q ==> !m.Screen?
  {
    if q != [] {
      var last := |q| - 1;
      NoRequests(q[..last]);
      assert q == q[..last] + [q[last]];
    }
  }

  /** m asks for this image to be filled, and names the signature in it. */
  predicate AsksFor(m: ToServer, i: Image, sig: Signature) {
    m.Screen? && m == Screen(m.refresh, i.size.width, i.size.height, i.paddr, sig)
  }

  /** Messages are only added to the channel, and none of them starts a session. */
  ghost predicate Grows(q: seq<ToServer>, q': seq<ToServer>) {
    q <= q' && forall i :: |q| <= i < |q'| ==> !q'[i].VersionOk?
  }

  /** What no action touches. */
  predicate Alike(c: Client, c': Client) {
    && c'.connected == c.connected && c'.closing == c.closing
    && c'.image == c.image && c'.timers == c.timers && c'.flushes == c.flushes && c'.shown == c.shown
  }

  /** Neither the buffer nor the requests change, and frames are not wanted if they were not. */
  ghost predicate Quiet(c: Client, c': Client) {
    && Alike(c, c') && c'.flying == c.flying && c'.token == c.token && c'.memory == c.memory
    && Requests(c'.outbox) == Requests(c.outbox)
    && (forall m :: m in c'.outbox ==> m in c.outbox || (!m.Screen? && Proper(m)))
    && Grows(c.outbox, c'.outbox)
    && (!c.connected || c.closing ==> c'.outbox == c.outbox)
    && (c.connected && !c.flying && c'.fps > 0 ==> c.fps > 0)
  }

  /** No screen was flying; the buffer has been signed and one request for it has been sent, and
      lost if the socket is closing. */
  ghost predicate Asked(c: Client, c': Client, sig: Signature) {
    && c.connected && !c.flying && c.image.Some? && HasBuffer(c.memory, c.image.value)
    && Alike(c, c') && c'.flying && c'.token == c.token + 1
    && c'.memory == Write(c.memory, c.image.value.seg, sig)
    && Requests(c'.outbox) == Requests(c.outbox) + (if c.closing then 0 else 1)
    && Grows(c.outbox, c'.outbox)
    && (c.closing ==> c'.outbox == c.outbox)
    && (forall m :: m in c'.outbox ==>
          m in c.outbox || (Proper(m) && (m.Screen? ==> AsksFor(m, c.image.value, sig))))
  }

  ghost predicate Moves(c: Client, c': Client, sig: Signature) {
    Quiet(c, c') || Asked(c, c', sig)
  }

  /** A second request is never made, because a screen is flying after the first. */
  lemma MovesCompose(a: Client, b: Client, c: Client, sig: Signature)
    requires Moves(a, b, sig) && Moves(b, c, sig)
    ensures Moves(a, c, sig)
  {
    GrowsOn(a.outbox, b.outbox, c.outbox);
    hide Write, HasBuffer, Requests, Grows;
  }

  lemma GrowsOn(p: seq<ToServer>, q: seq<ToServer>, r: seq<ToServer>)
    ensures Grows(p, q) && Grows(q, r) ==> Grows(p, r)
  {
  }

  lemma QueueGrows(c: Client, msg: ToServer, flushmouse: bool)
    requires !msg.VersionOk?
    ensures var q := Queue(c, msg, flushmouse);
            && Grows(c.outbox, q)
            && Requests(q) == Requests(c.outbox) + (if c.connected && !c.closing && msg.Screen? then 1 else 0)
            && (forall m :: m in q ==> m in c.outbox || m.Move? || m == msg)
            && (!c.connected || c.closing ==> q == c.outbox)
  {
    var q := if c.moved && flushmouse then c.outbox + [Move(c.mouse.0, c.mouse.1)] else c.outbox;
    RequestsAppend(c.outbox, Move(c.mouse.0, c.mouse.1));
    RequestsAppend(q, msg);
  }

  lemma SendIsQuiet(c: Client, msg: ToServer, flushmouse: bool)
    requires !msg.Screen? && !msg.VersionOk? && Proper(msg)
    ensures Quiet(c, SocketSend(c, msg, flushmouse))
  {
    hide Queue, Grows, Requests;
    QueueGrows(c, msg, flushmouse);
  }

  lemma SendMoves(c: Client, msg: ToServer, flushmouse: bool, sig: Signature)
    requires !msg.Screen? && !msg.VersionOk? && Proper(msg)
    ensures Moves(c, SocketSend(c, msg, flushmouse), sig)
  {
    hide SocketSend, Quiet, Asked;
    SendIsQuiet(c, msg, flushmouse);
  }

  /** Messages other than screen replies do not touch the flow, except that Init ends it. */
  lemma ReceiveIsQuiet(c: Client, msg: ToClient)
    requires Ready(c) && c.connected && !msg.ScreenReply?
    ensures if msg.Init? then Receive(c, msg) == SocketClose(c) else Quiet(c, Receive(c, msg))
  {
  }

  lemma RequestMoves(c: Client, token: nat, sig: Signature)
    requires Ready(c)
    ensures Moves(c, RequestScreen(c, token, sig), sig)
    ensures c.connected && token == c.token ==> RequestScreen(c, token, sig).flying
  {
    hide Write, Requests, Queue, Grows;
    if c.connected && token == c.token && !c.flying {
      QueueGrows(Flown(c, sig), Asking(c.image.value, c.force, sig), true);
    } else {
      NothingMoves(c, sig);
    }
  }

  lemma SetFPSMoves(c: Client, fps: nat, sig: Signature)
    requires Ready(c)
    ensures Moves(c, SetTargetFPS(c, fps, sig), sig)
  {
    hide RequestScreen, Requests, Write;
    RequestMoves(c.(force := true), c.token, sig);
  }

  lemma KeyCodeMoves(c: Client, code: nat, down: bool, sig: Signature)
    requires Ready(c) && code < KEY_CODES
    ensures Moves(c, SendKeyCode(c, code, down, sig), sig)
  {
    hide SocketSend, SetTargetFPS, Moves, Sized;
    var sent := SocketSend(c, Key(code, down), true);
    SendMoves(c, Key(code, down), true, sig);
    SetFPSMoves(sent, FULL_FPS, sig);
    MovesCompose(c, sent, SetTargetFPS(sent, FULL_FPS, sig), sig);
  }

  lemma SearchStateMoves(c: Client, c': Client, state: SearchState, sig: Signature)
    requires Moves(c, c', sig)
    ensures Moves(c, c'.(search := state), sig)
  {
    hide Requests, Write, HasBuffer;
  }

  lemma NothingMoves(c: Client, sig: Signature)
    ensures Moves(c, c, sig)
  {
  }

  lemma SearchKeyMoves(c: Client, down: bool, sig: Signature)
    requires Ready(c)
    ensures Moves(c, SearchKey(c, down, sig), sig)
  {
    hide SendKeyCode, Moves, Sized;
    NothingMoves(c, sig);
    var after := c;
    if !down && c.search == UpFirst {
      var pressed := SendKeyCode(c, SUPER, true, sig);
      after := SendKeyCode(pressed, SUPER, false, sig);
      KeyCodeMoves(c, SUPER, true, sig);
      KeyCodeMoves(pressed, SUPER, false, sig);
      MovesCompose(c, pressed, after, sig);
    } else if !down && c.search == Down {
      after := SendKeyCode(c, SUPER, false, sig);
      KeyCodeMoves(c, SUPER, false, sig);
    }
    SearchStateMoves(c, after, if down then UpFirst else Inactive, sig);
  }

  lemma PressSearchMoves(c: Client, down: bool, sig: Signature)
    requires Ready(c)
    ensures Moves(c, PressSearch(c, down, sig), sig)
  {
    hide SendKeyCode, Moves, Sized;
    NothingMoves(c, sig);
    KeyCodeMoves(c, SUPER, true, sig);
    SearchStateMoves(c, SendKeyCode(c, SUPER, true, sig), Down, sig);
  }

  lemma ReleaseSearchMoves(c: Client, sig: Signature)
    requires Ready(c)
    ensures Moves(c, ReleaseSearch(c, sig), sig)
  {
    hide SendKeyCode, Moves, Sized;
    NothingMoves(c, sig);
    KeyCodeMoves(c, SUPER, false, sig);
    SearchStateMoves(c, SendKeyCode(c, SUPER, false, sig), Up, sig);
    SearchStateMoves(c, c, Up, sig);
  }

  lemma HandleKeyMoves(c: Client, key: KeyPress, down: bool, sig: Signature)
    requires Ready(c) && (key.Letter? || key.Other? ==> key.code < KEY_CODES)
    ensures Moves(c, HandleKey(c, key, down, sig), sig)
  {
    hide SendKeyCode, SearchKey, PressSearch, ReleaseSearch, Moves, Sized;
    match key
    case Search => SearchKeyMoves(c, down, sig);
    case Letter(code) =>
      var pressed := PressSearch(c, down, sig);
      PressSearchMoves(c, down, sig);
      KeyCodeMoves(pressed, code, down, sig);
      MovesCompose(c, pressed, SendKeyCode(pressed, code, down, sig), sig);
    case Other(code) =>
      var released := ReleaseSearch(c, sig);
      ReleaseSearchMoves(c, sig);
      KeyCodeMoves(released, code, down, sig);
      MovesCompose(c, released, SendKeyCode(released, code, down, sig), sig);
    case _ => NothingMoves(c, sig);
  }

  lemma SendThenSetFPSMoves(c: Client, msg: ToServer, flushmouse: bool, fps: nat, sig: Signature)
    requires Ready(c) && !msg.Screen? && !msg.VersionOk? && Proper(msg)
    ensures Moves(c, SetTargetFPS(SocketSend(c, msg, flushmouse), fps, sig), sig)
  {
    hide SocketSend, SetTargetFPS, Moves, Sized;
    var sent := SocketSend(c, msg, flushmouse);
    SendMoves(c, msg, flushmouse, sig);
    SetFPSMoves(sent, fps, sig);
    MovesCompose(c, sent, SetTargetFPS(sent, fps, sig), sig);
  }

  lemma ClickMoves(c: Client, button: nat, down: bool, sig: Signature)
    requires Ready(c) && button < BUTTONS
    ensures Moves(c, SendClick(c, button, down, sig), sig)
  {
    hide PressSearch, SocketSend, SetTargetFPS, Moves, Sized;
    var pressed := PressSearch(c, down, sig);
    PressSearchMoves(c, down, sig);
    SendThenSetFPSMoves(pressed, Click(button, down), true, FULL_FPS, sig);
    MovesCompose(c, pressed, SendClick(c, button, down, sig), sig);
  }

  /** A client whose timer has just gone off. */
  function Disarmed(c: Client, a: Action): Client {
    if a.TimerFired? then c.(timers := c.timers - multiset{a.token}) else c
  }

  /** Every action makes at most one request, and only if no screen is flying. */
  lemma ActMoves(c: Client, a: Action, sig: Signature)
    requires Ready(c) && Possible(c, a)
    ensures Moves(Disarmed(c, a), Act(c, a, sig), sig)
  {
    hide HandleKey, SendClick, SetTargetFPS, SocketSend, RequestScreen, Requests, Bytes, HasBuffer, Write, Moves;
    match a
    case KeyEvent(key, down) => HandleKeyMoves(c, key, down, sig);
    case MouseMoved(pos) => MouseAtMoves(c, pos, sig);
    case MouseButton(pos, button, down) =>
      MouseAtMoves(c, pos, sig);
      ClickMoves(MouseAt(c, pos), button, down, sig);
      MovesCompose(c, MouseAt(c, pos), Act(c, a, sig), sig);
    case Unfocused(fps) => SendThenSetFPSMoves(c, Quit, false, fps, sig);
    case Focused => SetFPSMoves(c, FULL_FPS, sig);
    case Resized(size) =>
      NothingMoves(c, sig);
      SendMoves(c, SetResolution(size.width, size.height), false, sig);
    case ViewChanged(size, bound) => ContextMoves(c, size, bound, sig);
    case TimerFired(token) => RequestMoves(Disarmed(c, a), token, sig);
  }

  lemma MouseAtMoves(c: Client, pos: (int, int), sig: Signature)
    requires Ready(c)
    ensures Moves(c, MouseAt(c, pos), sig)
  {
  }

  lemma ContextMoves(c: Client, size: Size, bound: bool, sig: Signature)
    requires Ready(c) && 8 <= Bytes(size)
    ensures Moves(c, InitContext(c, size, bound), sig)
  {
  }
}
