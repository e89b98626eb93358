/** What the user types and clicks: the messages each action sends, and, over all runs, which keys
    and buttons are down at the server. */
module Typing {
  import opened Options
  import opened SharedMemory
  import opened Protocol
  import opened Kiwi
  import opened Session
  import opened KeyLimit
  import opened SearchKey
  import FbServer
  import PressedKeys

  // ---- The messages of an action ----

  predicate IsTyped(m: ToServer) {
    m.Key? || m.Click? || m.Quit?
  }

  /** The keys, clicks and Quits in a channel. */
  function Typed(q: seq<ToServer>): seq<ToServer> {
    if q == [] then [] else Typed(q[..|q| - 1]) + if IsTyped(q[|q| - 1]) then [q[|q| - 1]] else []
  }

  lemma TypedAppend(q: seq<ToServer>, m: ToServer)
    ensures Typed(q + [m]) == Typed(q) + if IsTyped(m) then [m] else []
  {
    assert (q + [m])[..|q|] == q;
  }

  predicate Holding(search: SearchState) {
    search == UpFirst || search == Up
  }

  /** The keys, clicks and Quits that an action is to send, 0x85 being Super. */
  function ToSend(search: SearchState, a: Action): seq<ToServer> {
    match a
    case KeyEvent(Letter(code), down) =>
      (if down && Holding(search) then [Key(0x85, true)] else []) + [Key(code, down)]
    case KeyEvent(Other(code), down) =>
      (if search == Down then [Key(0x85, false)] else []) + [Key(code, down)]
    case KeyEvent(Search, down) =>
      if down || search == Inactive || search == Up then []
      else if search == UpFirst then [Key(0x85, true), Key(0x85, false)]
      else [Key(0x85, false)]
    case MouseButton(_, button, down) =>
      (if down && Holding(search) then [Key(0x85, true)] else []) + [Click(button, down)]
    case Unfocused(_) => [Quit]
    case _ => []
  }

  /** These messages were sent, if the client sends anything, and the Search key is as before. */
  predicate Types(c: Client, c': Client, ms: seq<ToServer>) {
    && c'.connected == c.connected && c'.closing == c.closing
    && Typed(c'.outbox) == Typed(c.outbox) + (if Heard(c) then ms else [])
  }

  lemma SendTypes(c: Client, msg: ToServer, flushmouse: bool)
    ensures var c' := SocketSend(c, msg, flushmouse);
            Types(c, c', if IsTyped(msg) then [msg] else []) && c'.search == c.search
  {
    hide Typed;
    var q := if c.moved && flushmouse then c.outbox + [Move(c.mouse.0, c.mouse.1)] else c.outbox;
    TypedAppend(c.outbox, Move(c.mouse.0, c.mouse.1));
    TypedAppend(q, msg);
    assert Typed(c.outbox) + [] == Typed(c.outbox);
  }

  lemma NothingTypes(c: Client)
    ensures Types(c, c, [])
  {
  }

  lemma RequestTypes(c: Client, token: nat, sig: Signature)
    requires Ready(c)
    ensures Types(c, RequestScreen(c, token, sig), []) && RequestScreen(c, token, sig).search == c.search
  {
    hide Write, SocketSend, Typed;
    NothingTypes(c);
    if c.connected && token == c.token && !c.flying {
      SendTypes(Flown(c, sig), Asking(c.image.value, c.force, sig), true);
    }
  }

  lemma SetFPSTypes(c: Client, fps: nat, sig: Signature)
    requires Ready(c)
    ensures Types(c, SetTargetFPS(c, fps, sig), []) && SetTargetFPS(c, fps, sig).search == c.search
  {
    hide RequestScreen, Typed;
    NothingTypes(c);
    RequestTypes(c.(force := true), c.token, sig);
  }

  lemma TypesOn(a: Client, b: Client, c: Client, ms: seq<ToServer>, ns: seq<ToServer>)
    requires Types(a, b, ms) && Types(b, c, ns)
    ensures Types(a, c, ms + ns)
  {
    hide Typed;
    assert Typed(a.outbox) + ms + ns == Typed(a.outbox) + (ms + ns);
  }

  lemma SendThenFPSTypes(c: Client, msg: ToServer, flushmouse: bool, fps: nat, sig: Signature)
    requires Ready(c) && IsTyped(msg)
    ensures var c' := SetTargetFPS(SocketSend(c, msg, flushmouse), fps, sig);
            Types(c, c', [msg]) && c'.search == c.search
  {
    hide SocketSend, SetTargetFPS, Types;
    var sent := SocketSend(c, msg, flushmouse);
    SendTypes(c, msg, flushmouse);
    SetFPSTypes(sent, fps, sig);
    TypesOn(c, sent, SetTargetFPS(sent, fps, sig), [msg], []);
    assert [msg] + [] == [msg];
  }

  lemma PressTypes(c: Client, down: bool, sig: Signature)
    requires Ready(c)
    ensures var c' := PressSearch(c, down, sig);
            && Types(c, c', if down && Holding(c.search) then [Key(0x85, true)] else [])
            && c'.search == if down && Holding(c.search) then Down else c.search
  {
    hide SetTargetFPS, SocketSend, Typed;
    NothingTypes(c);
    SendThenFPSTypes(c, Key(0x85, true), true, FULL_FPS, sig);
  }

  lemma ReleaseTypes(c: Client, sig: Signature)
    requires Ready(c)
    ensures var c' := ReleaseSearch(c, sig);
            && Types(c, c', if c.search == Down then [Key(0x85, false)] else [])
            && c'.search == if c.search == Inactive then Inactive else Up
  {
    hide SetTargetFPS, SocketSend, Typed;
    NothingTypes(c);
    SendThenFPSTypes(c, Key(0x85, false), true, FULL_FPS, sig);
  }

  lemma SearchTypes(c: Client, down: bool, sig: Signature)
    requires Ready(c)
    ensures var c' := Kiwi.SearchKey(c, down, sig);
            && Types(c, c', ToSend(c.search, KeyEvent(Search, down)))
            && c'.search == if down then UpFirst else Inactive
  {
    hide SetTargetFPS, SocketSend, Types;
    NothingTypes(c);
    SearchStateTypes(c, c, UpFirst, []);
    SearchStateTypes(c, c, Inactive, []);
    if !down && c.search == UpFirst {
      var pressed := SendSearchKey(c, true, sig);
      SendThenFPSTypes(c, Key(0x85, true), true, FULL_FPS, sig);
      SendThenFPSTypes(pressed, Key(0x85, false), true, FULL_FPS, sig);
      TypesOn(c, pressed, SendSearchKey(pressed, false, sig), [Key(0x85, true)], [Key(0x85, false)]);
      assert [Key(0x85, true)] + [Key(0x85, false)] == [Key(0x85, true), Key(0x85, false)];
      SearchStateTypes(c, SendSearchKey(pressed, false, sig), Inactive, [Key(0x85, true), Key(0x85, false)]);
    } else if !down && c.search == Down {
      SendThenFPSTypes(c, Key(0x85, false), true, FULL_FPS, sig);
      SearchStateTypes(c, SendSearchKey(c, false, sig), Inactive, [Key(0x85, false)]);
    }
  }

  lemma SearchStateTypes(c: Client, c': Client, state: SearchState, ms: seq<ToServer>)
    requires Types(c, c', ms)
    ensures Types(c, c'.(search := state), ms)
  {
    hide Typed;
  }

  lemma KeyTypes(c: Client, key: KeyPress, down: bool, sig: Signature)
    requires Ready(c)
    ensures Types(c, HandleKey(c, key, down, sig), ToSend(c.search, KeyEvent(key, down)))
  {
    hide SetTargetFPS, SocketSend, PressSearch, ReleaseSearch, Kiwi.SearchKey, Types;
    match key
    case Search => SearchTypes(c, down, sig);
    case Letter(code) =>
      var pressed := PressSearch(c, down, sig);
      PressTypes(c, down, sig);
      SendThenFPSTypes(pressed, Key(code, down), true, FULL_FPS, sig);
      TypesOn(c, pressed, HandleKey(c, key, down, sig), if down && Holding(c.search) then [Key(0x85, true)] else [],
              [Key(code, down)]);
    case Other(code) =>
      var released := ReleaseSearch(c, sig);
      ReleaseTypes(c, sig);
      SendThenFPSTypes(released, Key(code, down), true, FULL_FPS, sig);
      TypesOn(c, released, HandleKey(c, key, down, sig), if c.search == Down then [Key(0x85, false)] else [],
              [Key(code, down)]);
    case _ => NothingTypes(c);
  }

  lemma ClickTypes(c: Client, pos: (int, int), button: nat, down: bool, sig: Signature)
    requires Ready(c)
    ensures Types(c, SendClick(MouseAt(c, pos), button, down, sig), ToSend(c.search, MouseButton(pos, button, down)))
  {
    hide SetTargetFPS, SocketSend, PressSearch, Types;
    var moved := MouseAt(c, pos);
    MovingTypes(c, pos);
    var pressed := PressSearch(moved, down, sig);
    PressTypes(moved, down, sig);
    SendThenFPSTypes(pressed, Click(button, down), true, FULL_FPS, sig);
    var first: seq<ToServer> := if down && Holding(c.search) then [Key(0x85, true)] else [];
    TypesOn(c, moved, pressed, [], first);
    assert [] + first == first;
    TypesOn(c, pressed, SendClick(moved, button, down, sig), first, [Click(button, down)]);
  }

  lemma MovingTypes(c: Client, pos: (int, int))
    requires Ready(c)
    ensures Types(c, MouseAt(c, pos), []) && MouseAt(c, pos).search == c.search
  {
  }

  /** For every action: what it sends of keys, clicks and Quits. */
  lemma ActTypes(c: Client, a: Action, sig: Signature)
    requires Ready(c) && Kiwi.Possible(c, a)
    ensures Types(c, Act(c, a, sig), ToSend(c.search, a))
  {
    hide HandleKey, SendClick, SetTargetFPS, SocketSend, RequestScreen, Bytes, HasBuffer, Types, MouseAt;
    match a
    case KeyEvent(key, down) => KeyTypes(c, key, down, sig);
    case MouseMoved(pos) => MovingTypes(c, pos);
    case MouseButton(pos, button, down) => ClickTypes(c, pos, button, down, sig);
    case Unfocused(fps) => SendThenFPSTypes(c, Quit, false, fps, sig);
    case Focused => SetFPSTypes(c, FULL_FPS, sig);
    case Resized(size) =>
      NothingTypes(c);
      SendTypes(c, SetResolution(size.width, size.height), false);
    case ViewChanged(size, bound) => ViewTypes(c, size, bound);
    case TimerFired(token) =>
      var c' := c.(timers := c.timers - multiset{token});
      RequestTypes(c', token, sig);
      TimersType(c, c', Act(c, a, sig));
  }

  lemma TimersType(c: Client, c': Client, c'': Client)
    requires c' == c.(timers := c'.timers) && Types(c', c'', [])
    ensures Types(c, c'', [])
  {
    hide Typed;
  }

  lemma ViewTypes(c: Client, size: Size, bound: bool)
    requires Ready(c) && 8 <= Bytes(size)
    ensures Types(c, InitContext(c, size, bound), [])
  {
    hide Typed;
  }

  // ---- Where a click happens ----

  predicate IsPointing(m: ToServer) {
    m.Move? || m.Click?
  }

  /** The moves and clicks in a channel. */
  function Pointing(q: seq<ToServer>): seq<ToServer> {
    if q == [] then [] else Pointing(q[..|q| - 1]) + if IsPointing(q[|q| - 1]) then [q[|q| - 1]] else []
  }

  lemma PointingAppend(q: seq<ToServer>, m: ToServer)
    ensures Pointing(q + [m]) == Pointing(q) + if IsPointing(m) then [m] else []
  {
    assert (q + [m])[..|q|] == q;
  }

  /** These moves and clicks were sent, and no move is pending any more. */
  predicate Points(c: Client, c': Client, ms: seq<ToServer>) {
    && Heard(c') && !c'.moved && c'.mouse == c.mouse && Pointing(c'.outbox) == Pointing(c.outbox) + ms
  }

  /** The pending move, if any. */
  function Pending(c: Client): seq<ToServer> {
    if c.moved then [Move(c.mouse.0, c.mouse.1)] else []
  }

  lemma SendPoints(c: Client, msg: ToServer)
    requires Heard(c)
    ensures Points(c, SocketSend(c, msg, true), Pending(c) + if msg.Click? then [msg] else [])
      || msg.Move?
  {
    hide Pointing;
    var q := if c.moved then c.outbox + [Move(c.mouse.0, c.mouse.1)] else c.outbox;
    PointingAppend(c.outbox, Move(c.mouse.0, c.mouse.1));
    PointingAppend(q, msg);
    assert Pointing(c.outbox) + [] == Pointing(c.outbox);
    var rest: seq<ToServer> := if msg.Click? then [msg] else [];
    assert Pointing(c.outbox) + Pending(c) + rest == Pointing(c.outbox) + (Pending(c) + rest);
  }

  lemma SetFPSPoints(c: Client, fps: nat, sig: Signature)
    requires Ready(c) && Heard(c) && !c.moved
    ensures Points(c, SetTargetFPS(c, fps, sig), [])
  {
    hide Pointing, SocketSend, Write;
    assert Pointing(c.outbox) + [] == Pointing(c.outbox);
    var c' := c.(force := true);
    if fps > c.fps && !c'.flying {
      SendPoints(Flown(c', sig), Asking(c'.image.value, true, sig));
    }
  }

  /** A click is sent behind a move to where it happens, unless the pointer is known to be there. */
  lemma ClickIsAtPointer(c: Client, pos: (int, int), button: nat, down: bool, sig: Signature)
    requires Ready(c) && Heard(c)
    ensures Pointing(SendClick(MouseAt(c, pos), button, down, sig).outbox)
         == Pointing(c.outbox)
            + (if c.moved || c.mouse != pos then [Move(pos.0, pos.1)] else []) + [Click(button, down)]
  {
    hide Pointing, SocketSend, SetTargetFPS, Points;
    var moved := MouseAt(c, pos);
    MovedPointer(c, pos);
    var pressed := PressSearch(moved, down, sig);
    if down && Holding(c.search) {
      var sent := SocketSend(moved, Key(0x85, true), true);
      SendPoints(moved, Key(0x85, true));
      PointsMeans(moved, sent, Pending(moved) + []);
      SetFPSPoints(sent, FULL_FPS, sig);
      PointsMeans(sent, SetTargetFPS(sent, FULL_FPS, sig), []);
      SearchPoints(SetTargetFPS(sent, FULL_FPS, sig), pressed);
    }
    var clicked := SocketSend(pressed, Click(button, down), true);
    SendPoints(pressed, Click(button, down));
    PointsMeans(pressed, clicked, Pending(pressed) + [Click(button, down)]);
    SetFPSPoints(clicked, FULL_FPS, sig);
    PointsMeans(clicked, SetTargetFPS(clicked, FULL_FPS, sig), []);
  }

  lemma MovedPointer(c: Client, pos: (int, int))
    requires Ready(c)
    ensures var c' := MouseAt(c, pos);
            && c'.mouse == pos && c'.moved == (c.moved || c.mouse != pos) && c'.outbox == c.outbox
            && c'.connected == c.connected && c'.closing == c.closing && c'.search == c.search
  {
  }

  lemma SearchPoints(c: Client, c': Client)
    requires c' == c.(search := Down)
    ensures c'.outbox == c.outbox && c'.moved == c.moved && c'.mouse == c.mouse && (Heard(c) ==> Heard(c'))
  {
  }

  lemma PointsMeans(c: Client, c': Client, ms: seq<ToServer>)
    requires Points(c, c', ms)
    ensures Heard(c') && !c'.moved && c'.mouse == c.mouse && Pointing(c'.outbox) == Pointing(c.outbox) + ms
  {
  }

  // ---- Which keys and buttons are down ----

  type Keys = set<PressedKeys.KeyButton>

  function KeyOf(code: nat): PressedKeys.KeyButton {
    PressedKeys.KeyButton(PressedKeys.Keyboard, code)
  }

  function ButtonOf(button: nat): PressedKeys.KeyButton {
    PressedKeys.KeyButton(PressedKeys.Mouse, button)
  }

  function Put(keys: Keys, key: PressedKeys.KeyButton, down: bool): Keys {
    if down then keys + {key} else keys - {key}
  }

  /** The keys that are down once a message has been handled. */
  function KeysBy(m: ToServer, keys: Keys): Keys {
    match m
    case Key(code, down) => Put(keys, KeyOf(code), down)
    case Click(button, down) => Put(keys, ButtonOf(button), down)
    case Quit => {}
    case _ => keys
  }

  function KeysAfter(keys: Keys, q: seq<ToServer>): Keys {
    if q == [] then keys else KeysBy(q[|q| - 1], KeysAfter(keys, q[..|q| - 1]))
  }

  lemma {:induction false} KeysAfterFirst(keys: Keys, q: seq<ToServer>)
    requires q != []
    ensures KeysAfter(keys, q) == KeysAfter(KeysBy(q[0], keys), q[1..])
  {
    var last := |q| - 1;
    if last > 0 {
      KeysAfterFirst(keys, q[..last]);
      assert q[1..][..last - 1] == q[..last][1..];
    }
  }

  lemma {:induction false} KeysAfterMore(keys: Keys, q: seq<ToServer>, r: seq<ToServer>)
    ensures KeysAfter(keys, q + r) == KeysAfter(KeysAfter(keys, q), r)
  {
    if r == [] {
      assert q + r == q;
    } else {
      var last := |r| - 1;
      KeysAfterMore(keys, q, r[..last]);
      assert (q + r)[..|q + r| - 1] == q + r[..last];
    }
  }

  lemma {:induction false} KeysAfterTyped(keys: Keys, q: seq<ToServer>)
    ensures KeysAfter(keys, Typed(q)) == KeysAfter(keys, q)
  {
    if q != [] {
      var last := |q| - 1;
      KeysAfterTyped(keys, q[..last]);
      if IsTyped(q[last]) {
        KeysAfterMore(keys, Typed(q[..last]), [q[last]]);
        KeysAfterOne(KeysAfter(keys, q[..last]), q[last]);
      } else {
        assert Typed(q[..last]) + [] == Typed(q[..last]);
      }
    }
  }

  lemma KeysAfterOne(keys: Keys, m: ToServer)
    ensures KeysAfter(keys, [m]) == KeysBy(m, keys)
  {
    assert [m][..0] == [];
  }

  /** What a client's messages do to the keys. */
  lemma TypesKeys(c: Client, c': Client, ms: seq<ToServer>, keys: Keys)
    requires Types(c, c', ms)
    ensures KeysAfter(keys, c'.outbox)
         == if Heard(c) then KeysAfter(KeysAfter(keys, c.outbox), ms) else KeysAfter(keys, c.outbox)
  {
    hide KeysAfter, Typed;
    KeysAfterTyped(keys, c.outbox);
    KeysAfterTyped(keys, c'.outbox);
    if Heard(c) {
      KeysAfterMore(keys, Typed(c.outbox), ms);
    } else {
      assert Typed(c.outbox) + [] == Typed(c.outbox);
    }
  }

  /** The keys and buttons, other than Super, that the user has pressed and not released since
      the last time all were released: by a Quit, or by the end of the connection.  Only what is
      typed into a connected session whose end was not asked for counts. */
  function HeldBy(keys: Keys, a: Action): Keys {
    match a
    case KeyEvent(Letter(code), down) => Put(keys, KeyOf(code), down)
    case KeyEvent(Other(code), down) => Put(keys, KeyOf(code), down)
    case MouseButton(_, button, down) => Put(keys, ButtonOf(button), down)
    case Unfocused(_) => {}
    case _ => keys
  }

  function Held(s: System, events: seq<Event>): Keys
    requires WellFormed(s)
  {
    if events == [] then {}
    else
      var before, e := Run(s, events[..|events| - 1]), events[|events| - 1];
      var keys := Held(s, events[..|events| - 1]);
      if !Enabled(before, e) then keys
      else
        match e
        case Acted(action, _) => if Heard(before.client) then HeldBy(keys, action) else keys
        case Closed => {}
        case _ => keys
  }

  /** Super follows rules of its own (see SearchKey). */
  function NoSuper(keys: Keys): Keys {
    keys - {SUPER_KEY}
  }

  ghost predicate Agree(s: System, keys: Keys) {
    FbServer.Valid(s.server)
    && (s.server.keys.Running? ==>
          NoSuper(KeysAfter(PressedKeys.Down(s.server.keys.events), s.client.outbox)) == keys)
  }

  lemma HeldIsSent(search: SearchState, a: Action, keys: Keys)
    requires match a
             case KeyEvent(Letter(code), _) => code != SUPER
             case KeyEvent(Other(code), _) => code != SUPER
             case _ => true
    ensures NoSuper(KeysAfter(keys, ToSend(search, a))) == HeldBy(NoSuper(keys), a)
  {
    var ms := ToSend(search, a);
    if |ms| == 1 {
      assert ms == [ms[0]];
      KeysAfterOne(keys, ms[0]);
    } else if |ms| == 2 {
      assert ms == [ms[0]] + [ms[1]];
      KeysAfterMore(keys, [ms[0]], [ms[1]]);
      KeysAfterOne(keys, ms[0]);
      KeysAfterOne(KeysBy(ms[0], keys), ms[1]);
    }
  }

  lemma ActAgrees(s: System, a: Action, sig: Signature, keys: Keys)
    requires WellFormed(s) && Kiwi.Possible(s.client, a) && Agree(s, keys)
    ensures Agree(s.(client := Act(s.client, a, sig)), if Heard(s.client) then HeldBy(keys, a) else keys)
  {
    hide Act, KeysAfter, Types, FbServer.Valid, ToSend, HeldBy, NoSuper;
    ActTypes(s.client, a, sig);
    var down := PressedKeys.Down(s.server.keys.events);
    TypesKeys(s.client, Act(s.client, a, sig), ToSend(s.client.search, a), down);
    HeldIsSent(s.client.search, a, KeysAfter(down, s.client.outbox));
  }

  lemma QuietAgrees(s: System, c: Client, keys: Keys)
    requires Agree(s, keys) && Types(s.client, c, [])
    ensures Agree(s.(client := c), keys)
  {
    hide Types, FbServer.Valid;
    TypesKeys(s.client, c, [], PressedKeys.Down(s.server.keys.events));
  }

  lemma FlushTypes(c: Client, a: Alloc, sig: Signature)
    requires Sized(c) && Bytes(c.size) <= |a.contents|
    ensures Types(c, OnFlush(c, a, sig), [])
  {
    hide RequestScreen, Bytes, Typed;
    NothingTypes(c);
    if c.fps > 0 && a.late {
      FreshBuffer(c, a);
      RequestTypes(c.(flying := false, image := Some(Image(a.seg, a.paddr, c.size)),
                      memory := c.memory[a.seg := a.contents]), c.token, sig);
    }
  }

  lemma ReceiveTypes(c: Client, msg: ToClient)
    requires Ready(c)
    ensures var c' := Receive(c, msg);
            Typed(c'.outbox) == Typed(c.outbox) && c'.connected == c.connected
  {
    hide SocketSend, Paint, Bytes, HasBuffer, Typed;
    if c.connected && msg.ScreenReply? {
      var c' := ParseScreen(c, msg.updated, msg.shmfailed, false, 0);
      PaintKeeps(c, msg.shmfailed);
      SendTypes(c', CursorRequest, false);
      assert Typed(c'.outbox) + [] == Typed(c'.outbox);
    }
  }

  /** Handling the first message does to the keys at the X server what it is accounted for. */
  lemma DispatchKeys(s: FbServer.Server, m: Memory, q: seq<ToServer>, seen: FbServer.Observed)
    requires FbServer.WellFormed(s) && FbServer.Valid(s) && s.keys.Running? && q != []
    ensures var s' := FbServer.Dispatch(s, m, q[0], seen).server;
            s'.keys.Running? ==>
              KeysAfter(PressedKeys.Down(s'.keys.events), q[1..]) == KeysAfter(PressedKeys.Down(s.keys.events), q)
  {
    hide FbServer.WriteImage, PressedKeys.Added, PressedKeys.Removed, PressedKeys.Down, KeysAfter;
    KeysAfterFirst(PressedKeys.Down(s.keys.events), q);
    match q[0]
    case Key(code, down) => PressedKeys.DownAfter(s.keys.events, PressedKeys.FakeEvent(KeyOf(code), down));
    case Click(button, down) => PressedKeys.DownAfter(s.keys.events, PressedKeys.FakeEvent(ButtonOf(button), down));
    case Quit => PressedKeys.HandleAgrees(s.keys, PressedKeys.Quit);
    case Screen(_, _, _, _, _) => WriteImageKeepsKeys(s, m, q[0], seen);
    case _ =>
  }

  lemma ServeAgrees(s: System, seen: FbServer.Observed, keys: Keys)
    requires WellFormed(s) && Enabled(s, Served(seen)) && Agree(s, keys)
    ensures Agree(Serve(s, seen), keys)
  {
    hide KeysAfter, FbServer.Dispatch, FbServer.Valid, FbServer.Possible, PressedKeys.Down;
    DispatchKeys(s.server, s.client.memory, s.client.outbox, seen);
    FbServer.DispatchKeepsValid(s.server, s.client.memory, s.client.outbox[0], seen);
  }

  lemma VersionAgrees(s: System, a: Alloc, sig: Signature, keys: Keys)
    requires WellFormed(s) && Enabled(s, Connected(a, sig)) && Agree(s, keys)
    ensures Agree(Step(s, Connected(a, sig)), keys)
  {
    hide KeysAfter, FbServer.Valid, PressedKeys.Down, OnFlush, Bytes, SocketSend, Typed;
    var c := s.client;
    var c1 := c.(connected := true, closing := false, cursors := {});
    var c2 := SocketSend(c1, VersionOk, false);
    SendTypes(c1, VersionOk, false);
    SendTypes(c2, SetResolution(c.size.width, c.size.height), false);
    FlushTypes(Greeted(c), a, sig);
    SameTyped(s, Step(s, Connected(a, sig)), keys);
  }

  lemma SameTyped(s: System, s': System, keys: Keys)
    requires Agree(s, keys) && s'.server == s.server && Typed(s'.client.outbox) == Typed(s.client.outbox)
    ensures Agree(s', keys)
  {
    hide KeysAfter, FbServer.Valid, Typed;
    var down := PressedKeys.Down(s.server.keys.events);
    KeysAfterTyped(down, s.client.outbox);
    KeysAfterTyped(down, s'.client.outbox);
  }

  lemma ClosedAgrees(s: System, keys: Keys)
    requires WellFormed(s) && s.client.connected && Agree(s, keys)
    ensures Step(s, Closed).server.keys.Running? ==> s.server.keys.Running?
    ensures Agree(Step(s, Closed), {})
  {
    hide FbServer.Valid, PressedKeys.Down, OnSocketClosed;
    FbServer.HangUpKeepsValid(s.server);
    AbortLasts(s, Closed);
  }

  lemma StepAgrees(s: System, e: Event, keys: Keys)
    requires WellFormed(s) && Enabled(s, e) && Agree(s, keys)
    ensures Agree(Step(s, e), match e
                              case Acted(action, _) => if Heard(s.client) then HeldBy(keys, action) else keys
                              case Closed => {}
                              case _ => keys)
  {
    hide Act, OnFlush, Receive, FbServer.Dispatch, FbServer.HangUp, ParseVersion, Agree, Bytes, HasBuffer, HeldBy,
         FbServer.Possible, Kiwi.Possible, FbServer.WellFormed, Types, Typed;
    match e
    case Acted(action, sig) => ActAgrees(s, action, sig, keys);
    case FlushDone(alloc, sig) =>
      var c := s.client.(flushes := s.client.flushes - 1);
      FlushTypes(c, alloc, sig);
      FlushedTyped(s.client, c, OnFlush(c, alloc, sig));
      SameTyped(s, Step(s, e), keys);
    case Delivered =>
      ReceiveTypes(s.client, s.inbox[0]);
      SameTyped(s, Step(s, e), keys);
    case Served(seen) => ServeAgrees(s, seen, keys);
    case Connected(alloc, sig) => VersionAgrees(s, alloc, sig, keys);
    case ReceiveFailed => SameTyped(s, Step(s, e), keys);
    case Closed => ClosedAgrees(s, keys);
  }

  lemma FlushedTyped(c: Client, c': Client, c'': Client)
    requires c'.outbox == c.outbox && Types(c', c'', [])
    ensures Typed(c''.outbox) == Typed(c.outbox)
  {
    hide Typed;
    assert Typed(c.outbox) + [] == Typed(c.outbox);
  }

  lemma {:induction false} RunAgrees(s: System, events: seq<Event>)
    requires WellFormed(s) && Agree(s, {})
    ensures Agree(Run(s, events), Held(s, events))
  {
    hide Step, Agree, WellFormed, Enabled, HeldBy;
    if events != [] {
      var before := Run(s, events[..|events| - 1]);
      RunAgrees(s, events[..|events| - 1]);
      if Enabled(before, events[|events| - 1]) {
        StepAgrees(before, events[|events| - 1], Held(s, events[..|events| - 1]));
      }
    }
  }

  lemma BeginsAgreed(memory: Memory, size: Size, greets: bool)
    requires 8 <= Bytes(size)
    ensures WellFormed(Begin(memory, size, greets)) && Agree(Begin(memory, size, greets), {})
  {
  }

  /** In every run, once the messages have been handled, the keys and buttons that are down at the
      X server are, but for Super, those that the user holds down. */
  lemma HeldIsDown(memory: Memory, size: Size, greets: bool, events: seq<Event>)
    requires 8 <= Bytes(size)
    ensures var s := Run(Begin(memory, size, greets), events);
            s.client.outbox == [] ==>
              PressedKeys.Down(s.server.keys.events) - {SUPER_KEY} == Held(Begin(memory, size, greets), events)
  {
    BeginsAgreed(memory, size, greets);
    hide Run, Held, Bytes, FbServer.Valid, PressedKeys.Down;
    RunAgrees(Begin(memory, size, greets), events);
    ServerKeepsRunning(memory, size, greets, events);
  }
}
