/** That the picture stays up to date: a screen reply that reports no update is right to do so,
    and after any reply the client shows what the X server showed when it was sent, or will ask
    for the whole screen with its next request. */
module UpToDate {
  import opened Options
  import opened Masking
  import opened SharedMemory
  import opened Protocol
  import opened Kiwi
  import opened Requesting
  import opened Session
  import opened Delivery
  import FbServer
  import PressedKeys
  import ShmCache

  /** What the screen looked like when the server was asked for it. */
  datatype Picture = Picture(size: Size, frame: seq<byte>)

  /** The event serves a request for the screen. */
  predicate Looks(s: System, e: Event)
    requires WellFormed(s)
  {
    Enabled(s, e) && e.Served? && s.client.outbox[0].Screen?
  }

  function Seen(s: System, e: Event): Picture
    requires WellFormed(s) && Looks(s, e)
  {
    Picture(Size(s.client.outbox[0].width, s.client.outbox[0].height), e.seen.frame)
  }

  /** The picture at the last request that was served. */
  function LastSeen(s: System, events: seq<Event>): Option<Picture>
    requires WellFormed(s)
  {
    if events == [] then None
    else
      var before, e := Run(s, events[..|events| - 1]), events[|events| - 1];
      if Looks(before, e) then Some(Seen(before, e)) else LastSeen(s, events[..|events| - 1])
  }

  /** If the picture is of the same size as the last one but another one, there is damage. */
  predicate Reports(last: Option<Picture>, now: Picture, damage: bool) {
    last.Some? && last.value.size == now.size && last.value.frame != now.frame ==> damage
  }

  /** The X server reports as damage what has changed since the last request. */
  predicate DamageReported(s: System, events: seq<Event>)
    requires WellFormed(s)
  {
    events == []
    || var before, e := Run(s, events[..|events| - 1]), events[|events| - 1];
       && DamageReported(s, events[..|events| - 1])
       && (Looks(before, e) ==> Reports(LastSeen(s, events[..|events| - 1]), Seen(before, e), e.seen.damage))
  }

  // ---- The server's side ----

  /** The server knows the size of the last picture, and the last frame captured is the one in it. */
  predicate Current(s: System, last: Option<Picture>) {
    match last
    case None => s.server.image == None && forall r :: r in s.inbox ==> !r.ScreenReply?
    case Some(picture) => s.server.image == Some(picture.size) && s.captured == picture.frame
  }

  lemma LookKeepsCurrent(s: System, e: Event, last: Option<Picture>)
    requires WellFormed(s) && Looks(s, e) && Current(s, last) && Reports(last, Seen(s, e), e.seen.damage)
    ensures Current(Step(s, e), Some(Seen(s, e)))
  {
    hide ShmCache.Find, FbServer.CopyImage, ShmCache.Possible, Bytes, FbServer.Usable;
  }

  /** Everything but requests for the screen is answered as follows, and captures no frame. */
  lemma OthersAnswered(s: FbServer.Server, m: Memory, msg: ToServer, seen: FbServer.Observed)
    requires FbServer.WellFormed(s) && !msg.Screen?
    ensures var h := FbServer.Dispatch(s, m, msg, seen);
            && h.captured == None && h.server.image == s.image
            && Replies(h.replies) == 0 && (forall r :: r in h.replies ==> !r.ScreenReply?)
            && (msg.SetResolution? ==> h.replies == [Resolution(seen.size.width, seen.size.height)])
            && (msg.CursorRequest? ==>
                  h.replies == if seen.cursor.Some? then [CursorReply(seen.cursor.value)] else [])
            && (msg.VersionOk? ==> h.replies == [Init])
            && (msg.Key? || msg.Click? || msg.Move? || msg.Quit? ==> h.replies == [])
  {
    hide FbServer.WriteImage, PressedKeys.Handle;
    OneReplyEach(s, m, msg, seen);
  }

  lemma ServeKeepsCurrent(s: System, e: Event, last: Option<Picture>)
    requires WellFormed(s) && Enabled(s, e) && e.Served? && !Looks(s, e) && Current(s, last)
    ensures Current(Step(s, e), last)
  {
    hide FbServer.Dispatch, FbServer.Possible, Bytes, HasBuffer;
    OthersAnswered(s.server, s.client.memory, s.client.outbox[0], e.seen);
  }

  lemma StepKeepsCurrent(s: System, e: Event, last: Option<Picture>)
    requires WellFormed(s) && Enabled(s, e) && !Looks(s, e) && Current(s, last)
    ensures Current(Step(s, e), last)
  {
    hide Act, OnFlush, Receive, ParseVersion, OnSocketClosed, FbServer.Dispatch, FbServer.Possible, Kiwi.Possible,
         Bytes, HasBuffer;
    if e.Served? {
      ServeKeepsCurrent(s, e, last);
    }
  }

  lemma {:induction false} RunKeepsCurrent(s: System, events: seq<Event>)
    requires WellFormed(s) && Current(s, None) && DamageReported(s, events)
    ensures Current(Run(s, events), LastSeen(s, events))
  {
    hide Step, Current, WellFormed, Enabled, Seen, Reports;
    if events != [] {
      var before, e := Run(s, events[..|events| - 1]), events[|events| - 1];
      RunKeepsCurrent(s, events[..|events| - 1]);
      if Looks(before, e) {
        LookKeepsCurrent(before, e, LastSeen(s, events[..|events| - 1]));
      } else if Enabled(before, e) {
        StepKeepsCurrent(before, e, LastSeen(s, events[..|events| - 1]));
      }
    }
  }

  /** If damage is reported, the frame captured last is what the screen showed at the last request
      served, whether or not the answer to that was updated. */
  lemma CapturedIsPresent(memory: Memory, size: Size, greets: bool, events: seq<Event>)
    requires 8 <= Bytes(size) && DamageReported(Begin(memory, size, greets), events)
    ensures var s, last := Run(Begin(memory, size, greets), events), LastSeen(Begin(memory, size, greets), events);
            && (last.Some? ==> s.captured == last.value.frame && s.server.image == Some(last.value.size))
            && (last.None? ==> forall r :: r in s.inbox ==> !r.ScreenReply?)
  {
    hide Run, LastSeen, DamageReported, Bytes;
    RunKeepsCurrent(Begin(memory, size, greets), events);
  }

  // ---- The client's side ----

  /** Some request in the channel wants a refresh. */
  predicate WantsRefresh(q: seq<ToServer>) {
    exists m :: m in q && m.Screen? && m.refresh
  }

  /** A request for the resolution comes before all requests for the screen. */
  predicate AsksResolution(q: seq<ToServer>) {
    q != [] && !q[0].Screen? && (q[0].SetResolution? || AsksResolution(q[1..]))
  }

  /** A resolution comes before all screen replies. */
  predicate TellsResolution(q: seq<ToClient>) {
    q != [] && !q[0].ScreenReply? && (q[0].Resolution? || TellsResolution(q[1..]))
  }

  predicate UpdateUnderWay(q: seq<ToClient>) {
    exists r :: r in q && r.ScreenReply? && r.updated
  }

  /** The client shows the frame captured last, or is going to learn that it does not. */
  ghost predicate Learns(c: Client, inbox: seq<ToClient>, captured: seq<byte>, skipped: bool) {
    c.connected ==>
      || skipped || c.closing
      || c.shown == captured
      || c.force
      || WantsRefresh(c.outbox) || UpdateUnderWay(inbox)
      || TellsResolution(inbox) || (Replies(inbox) == 0 && AsksResolution(c.outbox))
  }

  ghost predicate Informed(s: System) {
    Learns(s.client, s.inbox, s.captured, s.skipped)
  }

  lemma {:induction false} AsksResolutionGrows(q: seq<ToServer>, q': seq<ToServer>)
    requires AsksResolution(q) && q <= q'
    ensures AsksResolution(q')
  {
    if !q[0].SetResolution? {
      AsksResolutionGrows(q[1..], q'[1..]);
    }
  }

  lemma {:induction false} TellsResolutionGrows(q: seq<ToClient>, r: seq<ToClient>)
    requires TellsResolution(q) || (Replies(q) == 0 && TellsResolution(r))
    ensures TellsResolution(q + r)
  {
    if q == [] {
      assert q + r == r;
    } else {
      assert (q + r)[1..] == q[1..] + r;
      if !q[0].Resolution? {
        TellsResolutionGrows(q[1..], r);
      }
    }
  }

  /** The wish for a refresh is kept until a request carries it; and what is sent stays sent. */
  ghost predicate KeepsWish(c: Client, c': Client) {
    && c'.connected == c.connected && c'.closing == c.closing && c'.shown == c.shown
    && c'.cursors == c.cursors && c.outbox <= c'.outbox
    && (c.force && c.connected && !c.closing ==> c'.force || WantsRefresh(c'.outbox))
  }

  lemma WishComposes(a: Client, b: Client, c: Client)
    requires KeepsWish(a, b) && KeepsWish(b, c)
    ensures KeepsWish(a, c)
  {
  }

  lemma SendKeepsWish(c: Client, msg: ToServer, flushmouse: bool)
    ensures KeepsWish(c, SocketSend(c, msg, flushmouse))
  {
  }

  /** A request carries the wish for a refresh. */
  lemma RequestKeepsWish(c: Client, token: nat, sig: Signature)
    requires Ready(c)
    ensures KeepsWish(c, RequestScreen(c, token, sig))
  {
    hide Write, HasBuffer, Bytes;
    if c.connected && token == c.token && !c.flying {
      var asked := Asking(c.image.value, c.force, sig);
      assert c.closing || asked in RequestScreen(c, token, sig).outbox;
    }
  }

  lemma SetFPSKeepsWish(c: Client, fps: nat, sig: Signature)
    requires Ready(c)
    ensures KeepsWish(c, SetTargetFPS(c, fps, sig))
  {
    hide RequestScreen, HasBuffer, Bytes;
    RequestKeepsWish(c.(force := true), c.token, sig);
  }

  lemma KeyCodeKeepsWish(c: Client, code: nat, down: bool, sig: Signature)
    requires Ready(c)
    ensures KeepsWish(c, SendKeyCode(c, code, down, sig))
  {
    hide SocketSend, SetTargetFPS, KeepsWish, Sized;
    var sent := SocketSend(c, Key(code, down), true);
    SendKeepsWish(c, Key(code, down), true);
    SetFPSKeepsWish(sent, FULL_FPS, sig);
    WishComposes(c, sent, SetTargetFPS(sent, FULL_FPS, sig));
  }

  lemma StateKeepsWish(c: Client, c': Client, state: SearchState)
    requires KeepsWish(c, c')
    ensures KeepsWish(c, c'.(search := state))
  {
  }

  lemma KeptWish(c: Client)
    ensures KeepsWish(c, c)
  {
  }

  lemma SearchKeepsWish(c: Client, down: bool, sig: Signature)
    requires Ready(c)
    ensures KeepsWish(c, SearchKey(c, down, sig))
  {
    hide SendKeyCode, KeepsWish, Sized;
    KeptWish(c);
    var after := c;
    if !down && c.search == UpFirst {
      var pressed := SendKeyCode(c, SUPER, true, sig);
      after := SendKeyCode(pressed, SUPER, false, sig);
      KeyCodeKeepsWish(c, SUPER, true, sig);
      KeyCodeKeepsWish(pressed, SUPER, false, sig);
      WishComposes(c, pressed, after);
    } else if !down && c.search == Down {
      after := SendKeyCode(c, SUPER, false, sig);
      KeyCodeKeepsWish(c, SUPER, false, sig);
    }
    StateKeepsWish(c, after, if down then UpFirst else Inactive);
  }

  /** So do the steps before a key that is not Search, or before a click. */
  lemma BeforeKeepsWish(c: Client, down: bool, sig: Signature)
    requires Ready(c)
    ensures KeepsWish(c, PressSearch(c, down, sig)) && KeepsWish(c, ReleaseSearch(c, sig))
  {
    hide SendKeyCode, KeepsWish, Sized;
    KeptWish(c);
    KeyCodeKeepsWish(c, SUPER, true, sig);
    KeyCodeKeepsWish(c, SUPER, false, sig);
    StateKeepsWish(c, SendKeyCode(c, SUPER, true, sig), Down);
    StateKeepsWish(c, SendKeyCode(c, SUPER, false, sig), Up);
    StateKeepsWish(c, c, Up);
  }

  lemma KeyKeepsWish(c: Client, key: KeyPress, down: bool, sig: Signature)
    requires Ready(c)
    ensures KeepsWish(c, HandleKey(c, key, down, sig))
  {
    hide SendKeyCode, SearchKey, PressSearch, ReleaseSearch, KeepsWish, Sized;
    KeptWish(c);
    BeforeKeepsWish(c, down, sig);
    match key
    case Search => SearchKeepsWish(c, down, sig);
    case Letter(code) =>
      var pressed := PressSearch(c, down, sig);
      KeyCodeKeepsWish(pressed, code, down, sig);
      WishComposes(c, pressed, SendKeyCode(pressed, code, down, sig));
    case Other(code) =>
      var released := ReleaseSearch(c, sig);
      KeyCodeKeepsWish(released, code, down, sig);
      WishComposes(c, released, SendKeyCode(released, code, down, sig));
    case _ =>
  }

  lemma SendThenSetFPSKeepsWish(c: Client, msg: ToServer, flushmouse: bool, fps: nat, sig: Signature)
    requires Ready(c)
    ensures KeepsWish(c, SetTargetFPS(SocketSend(c, msg, flushmouse), fps, sig))
  {
    hide SocketSend, SetTargetFPS, KeepsWish, Sized;
    var sent := SocketSend(c, msg, flushmouse);
    SendKeepsWish(c, msg, flushmouse);
    SetFPSKeepsWish(sent, fps, sig);
    WishComposes(c, sent, SetTargetFPS(sent, fps, sig));
  }

  lemma ClickKeepsWish(c: Client, button: nat, down: bool, sig: Signature)
    requires Ready(c)
    ensures KeepsWish(c, SendClick(c, button, down, sig))
  {
    hide PressSearch, SocketSend, SetTargetFPS, KeepsWish, Sized;
    var pressed := PressSearch(c, down, sig);
    BeforeKeepsWish(c, down, sig);
    SendThenSetFPSKeepsWish(pressed, Click(button, down), true, FULL_FPS, sig);
    WishComposes(c, pressed, SendClick(c, button, down, sig));
  }

  lemma MouseKeepsWish(c: Client, pos: (int, int))
    requires Ready(c)
    ensures KeepsWish(c, MouseAt(c, pos))
  {
  }

  lemma ContextKeepsWish(c: Client, size: Size, bound: bool)
    requires Ready(c) && 8 <= Bytes(size)
    ensures KeepsWish(c, InitContext(c, size, bound))
  {
    hide Bytes, HasBuffer;
  }

  lemma DisarmedKeepsWish(c: Client, a: Action)
    requires Ready(c)
    ensures Ready(Disarmed(c, a)) && KeepsWish(c, Disarmed(c, a))
  {
    hide Bytes, HasBuffer;
  }

  /** What the user and the timers do loses no wish for a refresh. */
  lemma ActKeepsWish(c: Client, a: Action, sig: Signature)
    requires Ready(c) && Kiwi.Possible(c, a)
    ensures KeepsWish(c, Act(c, a, sig))
  {
    hide HandleKey, SendClick, SetTargetFPS, SocketSend, RequestScreen, MouseAt, InitContext, Sized, KeepsWish, Bytes;
    match a
    case KeyEvent(key, down) => KeyKeepsWish(c, key, down, sig);
    case MouseMoved(pos) => MouseKeepsWish(c, pos);
    case MouseButton(pos, button, down) =>
      MouseKeepsWish(c, pos);
      ClickKeepsWish(MouseAt(c, pos), button, down, sig);
      WishComposes(c, MouseAt(c, pos), Act(c, a, sig));
    case Unfocused(fps) => SendThenSetFPSKeepsWish(c, Quit, false, fps, sig);
    case Focused => SetFPSKeepsWish(c, FULL_FPS, sig);
    case Resized(size) =>
      KeptWish(c);
      SendKeepsWish(c, SetResolution(size.width, size.height), false);
    case ViewChanged(size, bound) => ContextKeepsWish(c, size, bound);
    case TimerFired(token) =>
      DisarmedKeepsWish(c, a);
      RequestKeepsWish(Disarmed(c, a), token, sig);
      WishComposes(c, Disarmed(c, a), Act(c, a, sig));
  }

  lemma FlushKeepsWish(c: Client, a: Alloc, sig: Signature)
    requires Sized(c) && Bytes(c.size) <= |a.contents|
    ensures KeepsWish(c, OnFlush(c, a, sig))
  {
    hide RequestScreen, Bytes;
    var c' := c.(flying := false, image := Some(Image(a.seg, a.paddr, c.size)),
                 memory := c.memory[a.seg := a.contents]);
    if c.fps > 0 && a.late {
      RequestKeepsWish(c', c.token, sig);
    }
  }

  lemma WishLearns(c: Client, c': Client, inbox: seq<ToClient>, captured: seq<byte>, skipped: bool)
    requires KeepsWish(c, c') && Learns(c, inbox, captured, skipped)
    ensures Learns(c', inbox, captured, skipped)
  {
    hide AsksResolution, TellsResolution, UpdateUnderWay, Replies;
    if AsksResolution(c.outbox) {
      AsksResolutionGrows(c.outbox, c'.outbox);
    }
  }

  /** A request that wants a refresh is answered by an update. */
  lemma LookLearns(s: System, e: Event)
    requires WellFormed(s) && Right(s) && Informed(s) && Looks(s, e)
    ensures Informed(Step(s, e))
  {
    hide Requests, Replies, Write, FbServer.WriteImage, ShmCache.Possible, FbServer.Signed, Bytes, TellsResolution;
    var c, msg := s.client, s.client.outbox[0];
    assert Answerable(c, msg);
    RequestsFirst(c.outbox);
    NoRequests(c.outbox[1..]);
    SignedIsThere(c.memory, msg.sig, c.image.value.seg);
    FbServer.WriteImageIsRight(s.server, c.memory, msg, e.seen, c.image.value.seg);
    var h := FbServer.WriteImage(s.server, c.memory, msg, e.seen);
    assert Step(s, e).inbox == s.inbox + h.replies;
    assert h.replies[0] in Step(s, e).inbox;
    if TellsResolution(s.inbox) {
      TellsResolutionGrows(s.inbox, h.replies);
    }
  }

  /** A message that is no request for the screen leaves the channel. */
  lemma AheadLearns(c: Client, m: Memory, inbox: seq<ToClient>, sent: seq<ToClient>, captured: seq<byte>, skipped: bool)
    requires c.outbox != [] && !c.outbox[0].Screen? && Learns(c, inbox, captured, skipped)
    requires Replies(sent) == 0 && (c.outbox[0].SetResolution? ==> TellsResolution(sent))
    ensures Learns(c.(outbox := c.outbox[1..], memory := m), inbox + sent, captured, skipped)
  {
    hide WantsRefresh, UpdateUnderWay, TellsResolution, Replies;
    if TellsResolution(inbox) || (Replies(inbox) == 0 && TellsResolution(sent)) {
      TellsResolutionGrows(inbox, sent);
    }
    RepliesAppend(inbox, sent);
    WishedAhead(c.outbox, inbox, sent);
  }

  lemma ServeLearns(s: System, e: Event)
    requires WellFormed(s) && Informed(s) && Enabled(s, e) && e.Served? && !Looks(s, e)
    ensures Informed(Step(s, e))
  {
    hide FbServer.Dispatch, FbServer.Possible, Bytes, HasBuffer, Learns;
    var c := s.client;
    OthersAnswered(s.server, c.memory, c.outbox[0], e.seen);
    var h := FbServer.Dispatch(s.server, c.memory, c.outbox[0], e.seen);
    AheadLearns(c, h.memory, s.inbox, Sent(h.replies, s.greets), s.captured, s.skipped);
  }

  lemma WishedAhead(q: seq<ToServer>, inbox: seq<ToClient>, sent: seq<ToClient>)
    requires q != [] && !q[0].Screen?
    ensures WantsRefresh(q) ==> WantsRefresh(q[1..])
    ensures UpdateUnderWay(inbox) ==> UpdateUnderWay(inbox + sent)
  {
    if UpdateUnderWay(inbox) {
      var r :| r in inbox && r.ScreenReply? && r.updated;
      assert r in inbox + sent;
    }
  }

  lemma OnlyReply(q: seq<ToClient>)
    requires Replies(q) <= 1 && q != [] && q[0].ScreenReply?
    ensures UpdateUnderWay(q) ==> q[0].updated
    ensures !TellsResolution(q) && Replies(q) == 1
  {
    NoReplies(q[1..]);
    assert q == [q[0]] + q[1..];
  }

  lemma BlankIsBlack(c: Client)
    requires Sized(c) && c.context && c.image.Some?
    ensures var shown := Paint(c, true).shown;
            && |shown| == Bytes(c.image.value.size)
            && forall i :: 0 <= i < |shown| ==> shown[i] == if i % 4 == 3 then 0xff else 0
  {
    hide Bytes;
  }

  /** A failed reply leaves the picture black and the wish for a refresh. */
  lemma FailureIsBlack(c: Client, cursorUpdated: bool, serial: nat)
    requires Ready(c) && c.connected
    ensures var c' := Receive(c, ScreenReply(true, true, cursorUpdated, serial));
            && c'.force
            && (c.context ==> |c'.shown| == Bytes(c.image.value.size))
            && (c.context ==> forall i :: 0 <= i < |c'.shown| ==> c'.shown[i] == if i % 4 == 3 then 0xff else 0)
  {
    hide Bytes, HasBuffer, Paint, Queue;
    if c.context {
      BlankIsBlack(c);
    }
  }

  /** After a screen reply the client shows the frame captured last, or wants a refresh. */
  lemma ScreenLearns(s: System)
    requires WellFormed(s) && Right(s) && Informed(s) && s.client.connected
    requires s.inbox != [] && s.inbox[0].ScreenReply?
    ensures var s' := Step(s, Delivered);
            s'.skipped || s'.client.closing || s'.client.shown == s'.captured || s'.client.force
  {
    var c, reply := s.client, s.inbox[0];
    NoRequests(c.outbox);
    OnlyReply(s.inbox);
    RightIsShown(s);
    if reply.updated && reply.shmfailed {
      FailureIsBlack(c, reply.cursorUpdated, reply.serial);
    } else if !reply.updated {
      UnchangedKeeps(c, reply);
    }
    hide Requests, Replies, FbServer.Valid, RequestsAnswerable, RepliesRight, Receive, Bytes, HasBuffer, Pixels,
         UpdateUnderWay, TellsResolution, AsksResolution;
  }

  /** After a reply without an update the picture stays, and a timer is set to ask again. */
  lemma UnchangedKeeps(c: Client, reply: ToClient)
    requires Ready(c) && c.connected && reply.ScreenReply? && !reply.updated
    ensures var c' := Receive(c, reply);
            && c'.shown == c.shown && c'.force == c.force && c'.closing == c.closing && c'.connected
            && !c'.flying && c'.token == c.token && c'.fps == c.fps && c'.flushes == c.flushes
            && c'.timers == (if c.fps > 0 then c.timers + multiset{c.token} else c.timers)
  {
    hide Sized, Queue, Paint;
    var waiting := c.(flying := false, timers := if c.fps > 0 then c.timers + multiset{c.token} else c.timers);
    assert Receive(c, reply)
        == if reply.cursorUpdated && reply.serial !in c.cursors then SocketSend(waiting, CursorRequest, false)
           else waiting;
  }

  lemma OtherLearns(c: Client, msg: ToClient, inbox: seq<ToClient>, captured: seq<byte>, skipped: bool)
    requires Ready(c) && !msg.ScreenReply? && Learns(c, [msg] + inbox, captured, skipped)
    ensures Learns(Receive(c, msg), inbox, captured, skipped)
  {
    hide Bytes, HasBuffer, AsksResolution;
    assert ([msg] + inbox)[1..] == inbox;
  }

  lemma ReceiveLearns(s: System)
    requires WellFormed(s) && Right(s) && Informed(s) && s.inbox != []
    ensures Informed(Step(s, Delivered))
  {
    hide Right, Receive, Bytes, HasBuffer, Replies, AsksResolution, TellsResolution, UpdateUnderWay, WantsRefresh;
    var c, msg := s.client, s.inbox[0];
    if msg.ScreenReply? && c.connected {
      ScreenLearns(s);
    } else if msg.ScreenReply? {
      UnreadIsClosing(c, msg);
    } else {
      assert s.inbox == [msg] + s.inbox[1..];
      OtherLearns(c, msg, s.inbox[1..], s.captured, s.skipped);
    }
  }

  /** A session starts by asking for the resolution. */
  lemma ConnectLearns(s: System, a: Alloc, sig: Signature)
    requires WellFormed(s) && Flows(s) && Enabled(s, Connected(a, sig))
    ensures Informed(Step(s, Connected(a, sig)))
  {
    hide OnFlush, Requests, Bytes, HasBuffer, KeepsWish;
    var c := s.client;
    VersionSends(c);
    NotConnected(c, Replies(s.inbox), s.skipped);
    assert AsksResolution(Greeted(c).outbox[1..]);
    FlushKeepsWish(Greeted(c), a, sig);
    WishLearns(Greeted(c), OnFlush(Greeted(c), a, sig), s.inbox, s.captured, false);
  }

  lemma FlushLearns(s: System, a: Alloc, sig: Signature)
    requires WellFormed(s) && Informed(s) && Enabled(s, FlushDone(a, sig))
    ensures Informed(Step(s, FlushDone(a, sig)))
  {
    hide OnFlush, Bytes, HasBuffer, KeepsWish, AsksResolution, TellsResolution, UpdateUnderWay, WantsRefresh, Replies;
    var c := s.client.(flushes := s.client.flushes - 1);
    FlushKeepsWish(c, a, sig);
    WishLearns(c, OnFlush(c, a, sig), s.inbox, s.captured, s.skipped);
  }

  lemma StepKeepsInformed(s: System, e: Event)
    requires WellFormed(s) && Right(s) && Informed(s) && Enabled(s, e)
    ensures Informed(Step(s, e))
  {
    hide Act, OnFlush, Receive, FbServer.Dispatch, ParseVersion, OnSocketClosed, Bytes, HasBuffer, FbServer.Possible,
         Kiwi.Possible, KeepsWish, RequestsAnswerable, RepliesRight, Flows, FbServer.Valid, FbServer.WellFormed, Learns,
         Requests, Replies;
    match e
    case Acted(action, sig) =>
      ActKeepsWish(s.client, action, sig);
      WishLearns(s.client, Act(s.client, action, sig), s.inbox, s.captured, s.skipped);
    case FlushDone(alloc, sig) => FlushLearns(s, alloc, sig);
    case Delivered => ReceiveLearns(s);
    case Served(seen) =>
      if Looks(s, e) {
        LookLearns(s, e);
      } else {
        ServeLearns(s, e);
      }
    case Connected(alloc, sig) => ConnectLearns(s, alloc, sig);
    case ReceiveFailed => EndLearns(s.client, s.inbox, s.captured, s.skipped);
    case Closed => EndLearns(s.client, s.inbox, s.captured, s.skipped);
  }

  lemma EndLearns(c: Client, inbox: seq<ToClient>, captured: seq<byte>, skipped: bool)
    requires Ready(c)
    ensures Learns(SocketClose(c), inbox, captured, skipped)
    ensures Learns(OnSocketClosed(c).(outbox := []), [], captured, skipped)
  {
    hide Bytes, HasBuffer;
  }

  lemma {:induction false} RunKeepsInformed(s: System, events: seq<Event>)
    requires WellFormed(s) && Right(s) && Informed(s) && AllFresh(s, events)
    ensures Right(Run(s, events)) && Informed(Run(s, events))
  {
    hide Step, Right, Informed, WellFormed, Enabled, FreshEvent;
    RunKeepsRight(s, events);
    if events != [] {
      var before, e := Run(s, events[..|events| - 1]), events[|events| - 1];
      RunKeepsInformed(s, events[..|events| - 1]);
      if Enabled(before, e) {
        StepKeepsInformed(before, e);
      }
    }
  }

  // ---- Main result ----

  /** In every run, when the client receives a screen reply, there was a last picture at which the
      server looked, and: if the reply is updated and not failed, the client shows that picture;
      if it has failed, the client shows black and wants a refresh; and if nothing was updated,
      the client shows that picture all the same or wants a refresh. */
  lemma ShowsThePresent(memory: Memory, size: Size, greets: bool, events: seq<Event>)
    requires 8 <= Bytes(size)
    requires AllFresh(Begin(memory, size, greets), events) && DamageReported(Begin(memory, size, greets), events)
    requires var s := Run(Begin(memory, size, greets), events);
             s.inbox != [] && s.inbox[0].ScreenReply? && s.client.connected && s.client.context
    ensures var s, last := Run(Begin(memory, size, greets), events), LastSeen(Begin(memory, size, greets), events);
            var c, reply := Step(s, Delivered).client, s.inbox[0];
            && last.Some?
            && (reply.updated && !reply.shmfailed ==> c.shown == last.value.frame)
            && (reply.updated && reply.shmfailed ==>
                  c.force && forall i :: 0 <= i < |c.shown| ==> c.shown[i] == if i % 4 == 3 then 0xff else 0)
            && (!reply.updated && !s.skipped && !s.client.closing ==> c.shown == last.value.frame || c.force)
  {
    var begin := Begin(memory, size, greets);
    BeginsRight(memory, size, greets);
    CapturedIsPresent(memory, size, greets, events);
    hide Run, LastSeen, DamageReported, AllFresh, Right, Informed, WellFormed, Step, Bytes;
    RunKeepsInformed(begin, events);
    ShowsWhatWasCaptured(memory, size, greets, events);
    ReplyShows(Run(begin, events));
  }

  lemma ReplyShows(s: System)
    requires WellFormed(s) && Right(s) && Informed(s) && s.client.connected
    requires s.inbox != [] && s.inbox[0].ScreenReply?
    ensures var s', reply := Step(s, Delivered), s.inbox[0];
            && (reply.updated && reply.shmfailed && s.client.context ==>
                  s'.client.force
                  && forall i :: 0 <= i < |s'.client.shown| ==> s'.client.shown[i] == if i % 4 == 3 then 0xff else 0)
            && (!reply.updated && !s.skipped && !s.client.closing ==>
                  s'.client.shown == s.captured || s'.client.force)
  {
    hide Receive, Right, Informed, Bytes, HasBuffer;
    var reply := s.inbox[0];
    ScreenLearns(s);
    if reply.updated {
      if reply.shmfailed {
        FailureIsBlack(s.client, reply.cursorUpdated, reply.serial);
      }
    } else {
      UnchangedKeeps(s.client, reply);
    }
  }

  // ---- Wishes ----

  /** A higher frame rate asks for the whole screen at once, or as soon as no screen is flying; a
      lower one asks for nothing. */
  lemma RaisingAsksForAll(c: Client, fps: nat, sig: Signature)
    requires Ready(c)
    ensures var c' := SetTargetFPS(c, fps, sig);
            && c'.fps == fps
            && (fps <= c.fps ==> c' == c.(fps := fps))
            && (fps > c.fps && (!c.connected || c.flying) ==> c'.force && c'.outbox == c.outbox)
            && (fps > c.fps && c.connected && !c.flying && !c.closing ==>
                  var i := c.image.value;
                  && c'.flying && !c'.force
                  && SignatureOf(c'.memory, i.seg) == Some(sig)
                  && c'.outbox == c.outbox + (if c.moved then [Move(c.mouse.0, c.mouse.1)] else [])
                                + [Screen(true, i.size.width, i.size.height, i.paddr, sig)])
  {
    hide Bytes;
    if fps > c.fps && c.connected && !c.flying && !c.closing {
      assert c.outbox + [] == c.outbox;
      assert SetTargetFPS(c, fps, sig).memory[c.image.value.seg][..8] == sig;
    }
  }

  /** When an image has been shown, the next one is asked for at once if it is late already, by a
      timer if it is early, and not at all if no frames are wanted. */
  lemma AsksWhenDue(c: Client, a: Alloc, sig: Signature)
    requires Sized(c) && Bytes(c.size) <= |a.contents|
    ensures var c' := OnFlush(c, a, sig);
            && c'.image == Some(Image(a.seg, a.paddr, c.size))
            && (c.fps == 0 ==> !c'.flying && c'.timers == c.timers && c'.outbox == c.outbox)
            && (c.fps > 0 && !a.late ==>
                  !c'.flying && c'.timers == c.timers + multiset{c.token} && c'.outbox == c.outbox)
            && (c.fps > 0 && a.late && c.connected && !c.closing ==>
                  && c'.flying && c'.timers == c.timers && !c'.force
                  && c'.outbox == c.outbox + (if c.moved then [Move(c.mouse.0, c.mouse.1)] else [])
                                + [Screen(c.force, c.size.width, c.size.height, a.paddr, sig)])
  {
    hide Bytes, Write;
    assert c.outbox + [] == c.outbox;
  }

  /** A timer set before the last request asks for nothing. */
  lemma StaleTimerIsIgnored(c: Client, token: nat, sig: Signature)
    requires Ready(c) && token in c.timers && token != c.token
    ensures Act(c, TimerFired(token), sig) == c.(timers := c.timers - multiset{token})
  {
    hide Sized, HandleKey, SendClick, SetTargetFPS, Blur, MouseAt, ChangeResolution, InitContext, SocketSend, Flown;
  }

  /** The end of a session leaves the picture black. */
  lemma ClosedIsBlack(c: Client)
    requires Ready(c)
    ensures var c' := OnSocketClosed(c);
            && !c'.connected && !c'.closing && !c'.flying
            && (c.context && c.image.Some? ==>
                  && |c'.shown| == Bytes(c.image.value.size)
                  && forall i :: 0 <= i < |c'.shown| ==> c'.shown[i] == if i % 4 == 3 then 0xff else 0)
  {
    var off := c.(connected := false, closing := false, flying := false);
    if c.context && c.image.Some? {
      BlankIsBlack(off);
    }
    hide Bytes, HasBuffer, Write, Pixels, Black;
  }

  lemma Resizing(c: Client, size: Size, bound: bool, sig: Signature)
    requires Ready(c) && 8 <= Bytes(size)
    ensures Act(c, Resized(size), sig) == ChangeResolution(c, size)
    ensures Act(c, ViewChanged(size, bound), sig) == InitContext(c, size, bound)
  {
    hide Sized, HandleKey, SendClick, SetTargetFPS, Blur, MouseAt, RequestScreen, ChangeResolution, InitContext;
  }

  /** A new window size is sent on, and a new view is asked for as a whole, if there is a graphics
      context for it. */
  lemma AsksForNewSize(c: Client, size: Size, bound: bool, sig: Signature)
    requires Ready(c) && 8 <= Bytes(size)
    ensures Act(c, Resized(size), sig).outbox
         == if c.connected && !c.closing then c.outbox + [SetResolution(size.width, size.height)] else c.outbox
    ensures var c' := Act(c, ViewChanged(size, bound), sig);
            && c'.context == bound && c'.outbox == c.outbox
            && (if bound then c'.force && c'.size == size else c'.force == c.force && c'.size == c.size)
  {
    hide Act;
    Resizing(c, size, bound, sig);
  }

  /** A client asks for the cursor exactly if it does not know the one of the reply. */
  lemma AsksForUnknownCursor(c: Client, updated: bool, shmfailed: bool, cursorUpdated: bool, serial: nat)
    requires Ready(c) && c.connected && !c.closing
    ensures Receive(c, ScreenReply(updated, shmfailed, cursorUpdated, serial)).outbox
         == if cursorUpdated && serial !in c.cursors then c.outbox + [CursorRequest] else c.outbox
  {
    hide Bytes, HasBuffer, Write, Pixels;
  }

  /** The cursors known are those received in this session. */
  ghost predicate KnowsCursors(s: System) {
    s.client.connected ==> forall serial :: serial in s.client.cursors <==> CursorReply(serial) in s.received
  }

  lemma PaintKeepsCursors(c: Client, blank: bool)
    requires Sized(c)
    ensures Paint(c, blank).cursors == c.cursors && Paint(c, blank).connected == c.connected
  {
    hide Bytes, Write, Pixels;
  }

  lemma ScreenKeepsCursors(c: Client, updated: bool, shmfailed: bool, cursorUpdated: bool, serial: nat)
    requires Ready(c)
    ensures var c' := ParseScreen(c, updated, shmfailed, cursorUpdated, serial);
            c'.cursors == c.cursors && c'.connected == c.connected
  {
    hide Sized, Paint, Queue;
    PaintKeepsCursors(c, shmfailed);
  }

  lemma ReceiveKnows(c: Client, msg: ToClient)
    requires Ready(c) && c.connected
    ensures Receive(c, msg).connected
    ensures Receive(c, msg).cursors == if msg.CursorReply? then c.cursors + {msg.serial} else c.cursors
  {
    hide Ready, ParseScreen;
    if msg.ScreenReply? {
      ScreenKeepsCursors(c, msg.updated, msg.shmfailed, msg.cursorUpdated, msg.serial);
    }
  }

  lemma DeliveryKeepsCursors(s: System)
    requires WellFormed(s) && KnowsCursors(s) && s.inbox != []
    ensures KnowsCursors(Step(s, Delivered))
  {
    hide Receive, Sized;
    if s.client.connected {
      ReceiveKnows(s.client, s.inbox[0]);
    } else {
      UnreadIsClosing(s.client, s.inbox[0]);
    }
  }

  lemma StepKeepsCursors(s: System, e: Event)
    requires WellFormed(s) && KnowsCursors(s) && Enabled(s, e) && Flows(s)
    ensures KnowsCursors(Step(s, e))
  {
    hide Act, OnFlush, Receive, FbServer.Dispatch, Bytes, HasBuffer, FbServer.Possible, Kiwi.Possible, Paint, Requests,
         Replies, WantsRefresh, FbServer.WellFormed;
    match e
    case Acted(action, sig) => ActKeepsWish(s.client, action, sig);
    case FlushDone(alloc, sig) => FlushKeepsWish(s.client.(flushes := s.client.flushes - 1), alloc, sig);
    case Delivered => DeliveryKeepsCursors(s);
    case Connected(alloc, sig) =>
      VersionSends(s.client);
      FlushKeepsWish(Greeted(s.client), alloc, sig);
    case Closed => PaintKeepsCursors(s.client.(connected := false, closing := false, flying := false), true);
    case _ =>
  }

  lemma {:induction false} RunKeepsCursors(s: System, events: seq<Event>)
    requires WellFormed(s) && KnowsCursors(s) && Flows(s)
    ensures KnowsCursors(Run(s, events)) && Flows(Run(s, events))
  {
    hide Step, KnowsCursors, WellFormed, Enabled, Flows;
    if events != [] {
      var before, e := Run(s, events[..|events| - 1]), events[|events| - 1];
      RunKeepsCursors(s, events[..|events| - 1]);
      if Enabled(before, e) {
        StepKeepsCursors(before, e);
        StepKeepsFlow(before, e);
      }
    }
  }

  /** In every run, a client that gets a screen reply asks for the cursor if the X server reported
      a new one, unless it has received that one in this session, and never otherwise. */
  lemma AsksForNewCursors(memory: Memory, size: Size, greets: bool, events: seq<Event>)
    requires 8 <= Bytes(size)
    requires var s := Run(Begin(memory, size, greets), events);
             s.inbox != [] && s.inbox[0].ScreenReply? && s.client.connected && !s.client.closing
    ensures var s := Run(Begin(memory, size, greets), events);
            var reply := s.inbox[0];
            Step(s, Delivered).client.outbox
              == if reply.cursorUpdated && CursorReply(reply.serial) !in s.received
                 then s.client.outbox + [CursorRequest] else s.client.outbox
  {
    hide Run, Bytes, Receive;
    RunKeepsCursors(Begin(memory, size, greets), events);
    var s := Run(Begin(memory, size, greets), events);
    var reply := s.inbox[0];
    AsksForUnknownCursor(s.client, reply.updated, reply.shmfailed, reply.cursorUpdated, reply.serial);
  }
}
