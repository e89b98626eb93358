/** The Search key, which stands for Super: the client holds it back until another key or button
    shows what is meant.  When can Super stay down on the server? */
module SearchKey {
  import opened Options
  import opened SharedMemory
  import opened Protocol
  import opened Kiwi
  import opened Session
  import opened KeyLimit
  import FbServer
  import PressedKeys

  // ---- Super after the messages under way ----

  /** Whether Super is down once the message has been handled. */
  function SuperBy(m: ToServer, down: bool): bool {
    match m
    case Key(code, d) => if code == SUPER then d else down
    case Quit => false
    case _ => down
  }

  /** ... and all those of a queue. */
  function SuperAfter(down: bool, q: seq<ToServer>): bool
    decreases |q|
  {
    if q == [] then down else SuperAfter(SuperBy(q[0], down), q[1..])
  }

  lemma {:induction false} SuperAfterOne(down: bool, q: seq<ToServer>, m: ToServer)
    ensures SuperAfter(down, q + [m]) == SuperBy(m, SuperAfter(down, q))
    decreases |q|
  {
    if q == [] {
      assert [m][1..] == [];
    } else {
      assert (q + [m])[1..] == q[1..] + [m];
      SuperAfterOne(SuperBy(q[0], down), q[1..], m);
    }
  }

  const SUPER_KEY: PressedKeys.KeyButton := PressedKeys.KeyButton(PressedKeys.Keyboard, SUPER)

  /** Whether the X server was last told that Super is down. */
  ghost predicate SuperDown(s: FbServer.Server) {
    SUPER_KEY in PressedKeys.Down(s.keys.events)
  }

  /** Handling the first message does to the X server what it is accounted for. */
  lemma DispatchSuper(s: FbServer.Server, m: Memory, q: seq<ToServer>, seen: FbServer.Observed)
    requires FbServer.WellFormed(s) && FbServer.Valid(s) && s.keys.Running? && q != []
    ensures SuperAfter(SuperDown(FbServer.Dispatch(s, m, q[0], seen).server), q[1..]) == SuperAfter(SuperDown(s), q)
  {
    hide FbServer.WriteImage, PressedKeys.Added, PressedKeys.Removed, PressedKeys.Down;
    match q[0]
    case Key(code, down) =>
      var key := PressedKeys.KeyButton(PressedKeys.Keyboard, code);
      PressedKeys.DownAfter(s.keys.events, PressedKeys.FakeEvent(key, down));
    case Click(button, down) =>
      var key := PressedKeys.KeyButton(PressedKeys.Mouse, button);
      PressedKeys.DownAfter(s.keys.events, PressedKeys.FakeEvent(key, down));
    case Quit => PressedKeys.HandleAgrees(s.keys, PressedKeys.Quit);
    case Screen(_, _, _, _, _) => WriteImageKeepsKeys(s, m, q[0], seen);
    case _ =>
  }

  lemma WriteImageKeepsKeys(s: FbServer.Server, m: Memory, msg: ToServer, seen: FbServer.Observed)
    requires FbServer.WellFormed(s) && msg.Screen?
    ensures FbServer.WriteImage(s, m, msg, seen).server.keys == s.keys
  {
  }

  // ---- What the client's actions do ----

  /** The messages of this client are sent. */
  predicate Heard(c: Client) {
    c.connected && !c.closing
  }

  /** The relation between the client's state and Super, d telling whether it is down on the
      server now: if it is down after all messages, the state is Down, unless the client has asked
      for the end of the session and sends nothing more. */
  predicate Tracks(c: Client, d: bool) {
    (Heard(c) && SuperAfter(d, c.outbox) ==> c.search == Down) && (!c.connected ==> c.outbox == [] && !d)
  }

  /** Messages and requests that are not about Super do not change its fate. */
  predicate SameSuper(c: Client, c': Client, d: bool) {
    && c'.connected == c.connected && c'.closing == c.closing && c'.search == c.search
    && SuperAfter(d, c'.outbox) == SuperAfter(d, c.outbox)
    && (!c.connected ==> c'.outbox == c.outbox)
  }

  lemma SendSuper(c: Client, msg: ToServer, flushmouse: bool, d: bool)
    ensures var c' := SocketSend(c, msg, flushmouse);
            && c'.connected == c.connected && c'.closing == c.closing && c'.search == c.search
            && if Heard(c) then SuperAfter(d, c'.outbox) == SuperBy(msg, SuperAfter(d, c.outbox))
               else c'.outbox == c.outbox
  {
    hide SuperAfter;
    var q := if c.moved && flushmouse then c.outbox + [Move(c.mouse.0, c.mouse.1)] else c.outbox;
    SuperAfterOne(d, c.outbox, Move(c.mouse.0, c.mouse.1));
    SuperAfterOne(d, q, msg);
  }

  lemma RequestSameSuper(c: Client, token: nat, sig: Signature, d: bool)
    requires Ready(c)
    ensures SameSuper(c, RequestScreen(c, token, sig), d)
  {
    hide Write, SuperAfter, SocketSend;
    if c.connected && token == c.token && !c.flying {
      SendSuper(Flown(c, sig), Asking(c.image.value, c.force, sig), true, d);
    }
  }

  lemma SetFPSSameSuper(c: Client, fps: nat, sig: Signature, d: bool)
    requires Ready(c)
    ensures SameSuper(c, SetTargetFPS(c, fps, sig), d)
  {
    hide RequestScreen, SuperAfter;
    RequestSameSuper(c.(force := true), c.token, sig, d);
  }

  /** Sending a key code. */
  lemma KeyCodeSuper(c: Client, code: nat, down: bool, sig: Signature, d: bool)
    requires Ready(c)
    ensures var c' := SendKeyCode(c, code, down, sig);
            && c'.connected == c.connected && c'.closing == c.closing && c'.search == c.search
            && (!c.connected ==> c'.outbox == c.outbox)
            && SuperAfter(d, c'.outbox) == if code == SUPER && Heard(c) then down else SuperAfter(d, c.outbox)
  {
    hide SetTargetFPS, SuperAfter, SocketSend;
    SendSuper(c, Key(code, down), true, d);
    SetFPSSameSuper(SocketSend(c, Key(code, down), true), FULL_FPS, sig, d);
  }

  lemma PressSearchTracks(c: Client, down: bool, sig: Signature, d: bool)
    requires Ready(c) && Tracks(c, d)
    ensures Tracks(PressSearch(c, down, sig), d)
  {
    hide SendKeyCode, SuperAfter;
    KeyCodeSuper(c, SUPER, true, sig, d);
  }

  lemma ReleaseSearchTracks(c: Client, sig: Signature, d: bool)
    requires Ready(c) && Tracks(c, d)
    ensures Tracks(ReleaseSearch(c, sig), d)
  {
    hide SendKeyCode, SuperAfter;
    SuperOfNothing(d);
    KeyCodeSuper(c, SUPER, false, sig, d);
  }

  /** After a release of the Search key, Super is or will be up. */
  lemma SearchReleased(c: Client, sig: Signature, d: bool)
    requires Ready(c) && Tracks(c, d)
    ensures var c' := SearchKey(c, false, sig);
            Tracks(c', d) && (!c.closing ==> !SuperAfter(d, c'.outbox)) && c'.search == Inactive
    ensures SearchKey(c, false, sig).closing == c.closing
  {
    hide SendKeyCode, SuperAfter;
    SuperOfNothing(d);
    match c.search
    case UpFirst =>
      KeyCodeSuper(c, SUPER, true, sig, d);
      KeyCodeSuper(SendSearchKey(c, true, sig), SUPER, false, sig, d);
    case Down => KeyCodeSuper(c, SUPER, false, sig, d);
    case _ =>
  }

  lemma SuperOfNothing(d: bool)
    ensures SuperAfter(d, []) == d
  {
  }

  /** The one action that can lose track of Super: pressing Search while Super is or will be down. */
  predicate Loses(c: Client, a: Action, d: bool) {
    Heard(c) && a.KeyEvent? && a.key.Search? && a.down && SuperAfter(d, c.outbox)
  }

  lemma HandleKeyTracks(c: Client, key: KeyPress, down: bool, sig: Signature, d: bool)
    requires Ready(c) && Tracks(c, d) && (key.Letter? || key.Other? ==> key.code != SUPER)
    ensures Tracks(HandleKey(c, key, down, sig), d) <==> !Loses(c, KeyEvent(key, down), d)
  {
    hide SendKeyCode, PressSearch, ReleaseSearch, SuperAfter;
    match key
    case Search =>
      if !down {
        SearchReleased(c, sig, d);
      }
    case Letter(code) =>
      PressSearchTracks(c, down, sig, d);
      KeyCodeSuper(PressSearch(c, down, sig), code, down, sig, d);
    case Other(code) =>
      ReleaseSearchTracks(c, sig, d);
      KeyCodeSuper(ReleaseSearch(c, sig), code, down, sig, d);
    case _ =>
  }

  lemma ClickTracks(c: Client, button: nat, down: bool, sig: Signature, d: bool)
    requires Ready(c) && Tracks(c, d)
    ensures Tracks(SendClick(c, button, down, sig), d)
  {
    hide PressSearch, SetTargetFPS, SuperAfter;
    var pressed := PressSearch(c, down, sig);
    PressSearchTracks(c, down, sig, d);
    SendSuper(pressed, Click(button, down), true, d);
    SetFPSSameSuper(SocketSend(pressed, Click(button, down), true), FULL_FPS, sig, d);
  }

  /** Of all actions, only that one loses track. */
  lemma ActTracks(c: Client, a: Action, sig: Signature, d: bool)
    requires Ready(c) && Kiwi.Possible(c, a) && Tracks(c, d)
    ensures Tracks(Act(c, a, sig), d) <==> !Loses(c, a, d)
  {
    hide HandleKey, SendClick, SetTargetFPS, RequestScreen, SuperAfter, Bytes, HasBuffer, SocketSend, Tracks, SameSuper;
    match a
    case KeyEvent(key, down) => HandleKeyTracks(c, key, down, sig, d);
    case MouseButton(pos, button, down) =>
      MovedTracks(c, pos, d);
      ClickTracks(MouseAt(c, pos), button, down, sig, d);
    case MouseMoved(pos) => MovedTracks(c, pos, d);
    case Unfocused(fps) =>
      OtherTracks(c, Quit, false, d);
      SetFPSSameSuper(SocketSend(c, Quit, false), fps, sig, d);
      SameTracks(SocketSend(c, Quit, false), Act(c, a, sig), d);
    case Focused =>
      SetFPSSameSuper(c, FULL_FPS, sig, d);
      SameTracks(c, Act(c, a, sig), d);
    case Resized(size) => OtherTracks(c, SetResolution(size.width, size.height), false, d);
    case ViewChanged(size, bound) => ViewTracks(c, size, bound, d);
    case TimerFired(token) =>
      var c' := c.(timers := c.timers - multiset{token});
      RequestSameSuper(c', token, sig, d);
      TimersTrack(c, c.timers - multiset{token}, d);
      SameTracks(c', Act(c, a, sig), d);
  }

  lemma SameTracks(c: Client, c': Client, d: bool)
    requires Tracks(c, d) && SameSuper(c, c', d)
    ensures Tracks(c', d)
  {
    hide SuperAfter;
  }

  lemma TimersTrack(c: Client, timers: multiset<nat>, d: bool)
    requires Tracks(c, d)
    ensures Tracks(c.(timers := timers), d)
  {
  }

  lemma MovedTracks(c: Client, pos: (int, int), d: bool)
    requires Ready(c) && Tracks(c, d)
    ensures Tracks(MouseAt(c, pos), d)
  {
  }

  lemma ViewTracks(c: Client, size: Size, bound: bool, d: bool)
    requires Ready(c) && 8 <= Bytes(size) && Tracks(c, d)
    ensures Tracks(InitContext(c, size, bound), d)
  {
  }

  /** Messages that are not keys, Quit among them. */
  lemma OtherTracks(c: Client, msg: ToServer, flushmouse: bool, d: bool)
    requires Tracks(c, d) && !msg.Key?
    ensures Tracks(SocketSend(c, msg, flushmouse), d)
  {
    hide SuperAfter, SocketSend;
    SendSuper(c, msg, flushmouse, d);
  }

  // ---- Runs ----

  /** Super is accounted for, as long as the server has not given up. */
  ghost predicate Tracked(s: System) {
    FbServer.Valid(s.server) && (s.server.keys.Running? ==> Tracks(s.client, SuperDown(s.server)))
  }

  ghost predicate LosesTrack(s: System, e: Event) {
    e.Acted? && Loses(s.client, e.action, SuperDown(s.server))
  }

  lemma FlushTracks(c: Client, a: Alloc, sig: Signature, d: bool)
    requires Sized(c) && Bytes(c.size) <= |a.contents| && Tracks(c, d)
    ensures Tracks(OnFlush(c, a, sig), d)
  {
    hide RequestScreen, SuperAfter, Bytes;
    var c' := c.(flying := false, image := Some(Image(a.seg, a.paddr, c.size)),
                 memory := c.memory[a.seg := a.contents]);
    RequestSameSuper(c', c.token, sig, d);
  }

  lemma ReceiveTracks(c: Client, msg: ToClient, d: bool)
    requires Ready(c) && Tracks(c, d)
    ensures Tracks(Receive(c, msg), d)
  {
    hide SocketSend, SuperAfter, Paint, Bytes, HasBuffer;
    if c.connected && msg.ScreenReply? {
      var c' := ParseScreen(c, msg.updated, msg.shmfailed, false, 0);
      PaintKeeps(c, msg.shmfailed);
      PaintKeepsState(c, msg.shmfailed);
      SendSuper(c', CursorRequest, false, d);
    }
  }

  lemma PaintKeepsState(c: Client, blank: bool)
    requires Sized(c)
    ensures Paint(c, blank).search == c.search
  {
    hide Bytes, Write, Pixels;
  }

  lemma VersionTracks(c: Client, a: Alloc, sig: Signature)
    requires Ready(c) && Bytes(c.size) <= |a.contents| && Tracks(c, false) && !c.connected
    ensures Tracks(ParseVersion(c, a, sig), false)
  {
    hide OnFlush, SuperAfter, Bytes;
    VersionSends(c);
    SuperOfGreeted(c);
    FlushTracks(Greeted(c), a, sig, false);
  }

  lemma SuperOfGreeted(c: Client)
    requires !c.connected && c.outbox == []
    ensures !SuperAfter(false, Greeted(c).outbox)
  {
    VersionSends(c);
    var resize := SetResolution(c.size.width, c.size.height);
    assert [VersionOk, resize][1..] == [resize];
    assert SuperAfter(false, [VersionOk, resize]) == SuperAfter(false, [resize]);
    SuperOfNothing(false);
    assert [resize][1..] == [];
  }

  /** In every step, track of Super is lost exactly by pressing Search while it is or will be down. */
  lemma StepTracks(s: System, e: Event)
    requires WellFormed(s) && Enabled(s, e) && Tracked(s) && s.server.keys.Running?
    ensures Tracked(Step(s, e)) <==> !LosesTrack(s, e)
  {
    hide Act, OnFlush, Receive, ParseVersion, FbServer.Dispatch, FbServer.HangUp, SuperAfter, Bytes, HasBuffer,
         FbServer.Possible, Kiwi.Possible, FbServer.WellFormed, FbServer.Valid, SuperDown, Loses;
    var c, d := s.client, SuperDown(s.server);
    match e
    case Acted(action, sig) => ActTracks(c, action, sig, d);
    case FlushDone(alloc, sig) => FlushTracks(c.(flushes := c.flushes - 1), alloc, sig, d);
    case Delivered => ReceiveTracks(c, s.inbox[0], d);
    case Served(seen) =>
      DispatchSuper(s.server, c.memory, c.outbox, seen);
      FbServer.DispatchKeepsValid(s.server, c.memory, c.outbox[0], seen);
    case Connected(alloc, sig) => VersionTracks(c, alloc, sig);
    case ReceiveFailed =>
    case Closed =>
      FbServer.HangUpKeepsValid(s.server);
      HangUpReleases(s.server);
      SuperOfNothing(false);
  }

  lemma HangUpReleases(s: FbServer.Server)
    requires FbServer.WellFormed(s) && FbServer.Valid(s) && s.keys.Running?
    ensures !SuperDown(FbServer.HangUp(s))
  {
    hide PressedKeys.Down;
    FbServer.HangUpKeepsValid(s);
  }

  /** No event of the run presses Search while Super is or will be down. */
  ghost predicate NeverLoses(s: System, events: seq<Event>)
    requires WellFormed(s)
  {
    events == []
    || (NeverLoses(s, events[..|events| - 1]) && !LosesTrack(Run(s, events[..|events| - 1]), events[|events| - 1]))
  }

  lemma {:induction false} RunTracks(s: System, events: seq<Event>)
    requires WellFormed(s) && Tracked(s) && NeverLoses(s, events)
    ensures Run(s, events).server.keys.Running? ==> Tracked(Run(s, events))
  {
    hide Step, Tracked, WellFormed, Enabled, LosesTrack;
    if events != [] {
      var before := Run(s, events[..|events| - 1]);
      RunTracks(s, events[..|events| - 1]);
      if Enabled(before, events[|events| - 1]) {
        AbortLasts(before, events[|events| - 1]);
        if before.server.keys.Running? {
          StepTracks(before, events[|events| - 1]);
        }
      }
    }
  }

  lemma AbortLasts(s: System, e: Event)
    requires WellFormed(s) && Enabled(s, e)
    ensures Step(s, e).server.keys.Running? ==> s.server.keys.Running?
  {
    hide Act, OnFlush, Receive, ParseVersion, FbServer.Dispatch, Bytes, HasBuffer, FbServer.Possible, Kiwi.Possible;
  }

  // ---- Main results ----

  /** In every run that never presses Search while Super is or will be down: once the messages
      have been handled, Super is down only if the client's state is Down. */
  lemma SuperOnlyWhileDown(memory: Memory, size: Size, greets: bool, events: seq<Event>)
    requires 8 <= Bytes(size) && NeverLoses(Begin(memory, size, greets), events)
    ensures var s := Run(Begin(memory, size, greets), events);
            !s.client.closing && s.client.outbox == [] && SuperDown(s.server) ==> s.client.search == Down
  {
    BeginsTracked(memory, size, greets);
    RunTracks(Begin(memory, size, greets), events);
    ServerKeepsRunning(memory, size, greets, events);
    hide Run, NeverLoses, Bytes;
    SuperOfNothing(SuperDown(Run(Begin(memory, size, greets), events).server));
  }

  /** ... and after every release of the Search key it is, or will be, up. */
  lemma SuperUpAfterRelease(memory: Memory, size: Size, greets: bool, events: seq<Event>, sig: Signature)
    requires 8 <= Bytes(size) && NeverLoses(Begin(memory, size, greets), events)
    ensures var s := Run(Begin(memory, size, greets), events + [Acted(KeyEvent(Search, false), sig)]);
            !s.client.closing ==> !SuperAfter(SuperDown(s.server), s.client.outbox)
  {
    BeginsTracked(memory, size, greets);
    RunTracks(Begin(memory, size, greets), events);
    ServerKeepsRunning(memory, size, greets, events);
    hide Run, NeverLoses, SuperAfter, FbServer.Valid, Tracked, Next, Enabled, WellFormed;
    RunOneMore(Begin(memory, size, greets), events, Acted(KeyEvent(Search, false), sig));
    ReleaseStep(Run(Begin(memory, size, greets), events), sig);
  }

  lemma ReleaseStep(s: System, sig: Signature)
    requires WellFormed(s) && Tracked(s) && s.server.keys.Running?
    ensures var s' := Next(s, Acted(KeyEvent(Search, false), sig));
            !s'.client.closing ==> !SuperAfter(SuperDown(s'.server), s'.client.outbox)
  {
    hide SuperAfter, FbServer.Valid, SearchKey, FbServer.WellFormed, Ready, SuperDown;
    SearchReleased(s.client, sig, SuperDown(s.server));
  }

  lemma BeginsTracked(memory: Memory, size: Size, greets: bool)
    requires 8 <= Bytes(size)
    ensures Tracked(Begin(memory, size, greets))
  {
  }

  /** Without that restriction it is false: Search, a letter, Search again and another key, then
      the release of Search, leave Super down with the client's state Inactive. */
  lemma SuperCanStick(c: Client, letter: nat, other: nat, sig: Signature)
    requires Ready(c) && Heard(c) && c.search == Inactive && c.outbox == []
    requires letter != SUPER && other != SUPER
    ensures var c1 := HandleKey(c, Search, true, sig);
            var c2 := HandleKey(c1, Letter(letter), true, sig);
            var c3 := HandleKey(c2, Search, true, sig);
            var c4 := HandleKey(c3, Other(other), true, sig);
            var c5 := HandleKey(c4, Search, false, sig);
            c5.search == Inactive && SuperAfter(false, c5.outbox)
  {
    var c1 := HandleKey(c, Search, true, sig);
    SearchThenLetter(c1, letter, sig);
    var c2 := HandleKey(c1, Letter(letter), true, sig);
    SearchThenOther(HandleKey(c2, Search, true, sig), other, sig);
    hide SendKeyCode, SuperAfter, PressSearch, ReleaseSearch;
  }

  lemma SearchThenLetter(c: Client, letter: nat, sig: Signature)
    requires Ready(c) && Heard(c) && c.search == UpFirst && letter != SUPER
    ensures var c' := HandleKey(c, Letter(letter), true, sig);
            Heard(c') && SuperAfter(false, c'.outbox)
  {
    hide SendKeyCode, SuperAfter;
    KeyCodeSuper(c, SUPER, true, sig, false);
    KeyCodeSuper(PressSearch(c, true, sig), letter, true, sig, false);
  }

  lemma SearchThenOther(c: Client, other: nat, sig: Signature)
    requires Ready(c) && Heard(c) && c.search == UpFirst && other != SUPER
    ensures var c' := HandleKey(c, Other(other), true, sig);
            c'.search == Up && SuperAfter(false, c'.outbox) == SuperAfter(false, c.outbox)
  {
    hide SendKeyCode, SuperAfter;
    KeyCodeSuper(ReleaseSearch(c, sig), other, true, sig, false);
  }
}
