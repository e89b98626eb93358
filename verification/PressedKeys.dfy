/** The table of pressed keys and buttons of src/fbserver.c: an array prefix that is to agree
    with what the X server was told, so that everything can be released at any time. */
module PressedKeys {
  import opened Sequences

  datatype Kind = Mouse | Keyboard
  datatype KeyButton = KeyButton(kind: Kind, code: nat)
  /** A fake event passed to the X server. */
  datatype FakeEvent = FakeEvent(key: KeyButton, down: bool)

  const CAPACITY: nat := 256

  // ---- What the operations do to the valid prefix of the array ----

  function IndexOf(table: seq<KeyButton>, key: KeyButton): (i: nat)
    requires key in table
    ensures i < |table| && table[i] == key && key !in table[..i]
  {
    if table[0] == key then 0 else 1 + IndexOf(table[1..], key)
  }

  function Added(table: seq<KeyButton>, key: KeyButton): seq<KeyButton> {
    if key in table then table else table + [key]
  }

  /** The last entry takes the place of the removed one. */
  function Removed(table: seq<KeyButton>, key: KeyButton): seq<KeyButton> {
    if key !in table then table
    else
      var i, last := IndexOf(table, key), |table| - 1;
      if i < last then table[..last][i := table[last]] else table[..last]
  }

  function Releases(table: seq<KeyButton>): (events: seq<FakeEvent>)
    ensures |events| == |table|
    ensures forall i :: 0 <= i < |table| ==> events[i] == FakeEvent(table[i], false)
  {
    seq(|table|, i requires 0 <= i < |table| => FakeEvent(table[i], false))
  }

  function Elements(table: seq<KeyButton>): set<KeyButton> {
    set key | key in table
  }

  lemma AddedKeepsTable(table: seq<KeyButton>, key: KeyButton)
    requires NoDuplicates(table)
    ensures NoDuplicates(Added(table, key))
    ensures Elements(Added(table, key)) == Elements(table) + {key}
  {
  }

  lemma RemovedKeepsTable(table: seq<KeyButton>, key: KeyButton)
    requires NoDuplicates(table)
    ensures NoDuplicates(Removed(table, key))
    ensures Elements(Removed(table, key)) == Elements(table) - {key}
  {
    if key in table {
      var i, last, after := IndexOf(table, key), |table| - 1, Removed(table, key);
      forall k | k in table && k != key ensures k in after {
        var j := IndexOf(table, k);
        assert after[if j == last then i else j] == k;
      }
    }
  }

  // ---- What the X server knows ----

  /** The keys that are down after the events. */
  ghost function Down(events: seq<FakeEvent>): set<KeyButton> {
    if events == [] then {}
    else
      var before, last := Down(events[..|events| - 1]), events[|events| - 1];
      if last.down then before + {last.key} else before - {last.key}
  }

  lemma DownAfter(events: seq<FakeEvent>, e: FakeEvent)
    ensures Down(events + [e]) == if e.down then Down(events) + {e.key} else Down(events) - {e.key}
  {
    assert (events + [e])[..|events|] == events;
  }

  lemma {:induction false} DownAfterReleases(events: seq<FakeEvent>, table: seq<KeyButton>)
    ensures Down(events + Releases(table)) == Down(events) - Elements(table)
  {
    if table == [] {
      assert events + Releases(table) == events;
    } else {
      var last := |table| - 1;
      DownAfterReleases(events, table[..last]);
      assert events + Releases(table) == events + Releases(table[..last]) + [FakeEvent(table[last], false)];
      DownAfter(events + Releases(table[..last]), FakeEvent(table[last], false));
      assert table == table[..last] + [table[last]];
    }
  }

  // ---- Runs of the dispatch loop, across any number of connections ----

  datatype Input = Press(key: KeyButton) | Release(key: KeyButton) | Quit | Disconnect

  datatype Server = Running(table: seq<KeyButton>, events: seq<FakeEvent>) | Aborted(events: seq<FakeEvent>)

  function Handle(s: Server, m: Input): Server {
    if s.Aborted? then s
    else match m
      case Press(key) =>
        var events := s.events + [FakeEvent(key, true)];
        if |s.table| < CAPACITY then Running(Added(s.table, key), events) else Aborted(events)
      case Release(key) => Running(Removed(s.table, key), s.events + [FakeEvent(key, false)])
      case Quit => Running([], s.events + Releases(s.table))
      case Disconnect => Running([], s.events + Releases(s.table))
  }

  function Run(ms: seq<Input>): Server {
    if ms == [] then Running([], []) else Handle(Run(ms[..|ms| - 1]), ms[|ms| - 1])
  }

  ghost predicate Agrees(s: Server) {
    s.Running? ==> |s.table| <= CAPACITY && NoDuplicates(s.table) && Elements(s.table) == Down(s.events)
  }

  lemma HandleAgrees(s: Server, m: Input)
    requires Agrees(s)
    ensures Agrees(Handle(s, m))
    ensures s.Running? && (m.Quit? || m.Disconnect?) ==>
              Handle(s, m) == Running([], s.events + Releases(s.table)) && Down(Handle(s, m).events) == {}
  {
    if s.Running? {
      match m
      case Press(key) =>
        DownAfter(s.events, FakeEvent(key, true));
        AddedKeepsTable(s.table, key);
      case Release(key) =>
        DownAfter(s.events, FakeEvent(key, false));
        RemovedKeepsTable(s.table, key);
      case _ =>
        DownAfterReleases(s.events, s.table);
    }
  }

  /** In every run the table lists exactly the keys that are down, each of them once. */
  lemma {:induction false} TableAgrees(ms: seq<Input>)
    ensures Agrees(Run(ms))
  {
    if ms != [] {
      TableAgrees(ms[..|ms| - 1]);
      HandleAgrees(Run(ms[..|ms| - 1]), ms[|ms| - 1]);
    }
  }

  lemma {:induction false} SizeOfElements(table: seq<KeyButton>)
    requires NoDuplicates(table)
    ensures |Elements(table)| == |table|
  {
    if table != [] {
      var last := |table| - 1;
      SizeOfElements(table[..last]);
      assert table == table[..last] + [table[last]];
      assert Elements(table) == Elements(table[..last]) + {table[last]};
    }
  }

  /** The server gives up exactly on a press that arrives while 256 keys are down, whether
      or not the key is one of them. */
  lemma AbortsWhenFull(ms: seq<Input>, m: Input)
    requires Run(ms).Running?
    ensures Run(ms + [m]).Aborted? <==> m.Press? && |Down(Run(ms).events)| == CAPACITY
  {
    TableAgrees(ms);
    SizeOfElements(Run(ms).table);
    assert (ms + [m])[..|ms|] == ms;
  }

  /** 248 keys, with the X11 codes from 8 on, and buttons 1 to 8: all fit into the octets of the
      messages. */
  function Nth(i: nat): KeyButton {
    if i < 248 then KeyButton(Keyboard, 8 + i) else KeyButton(Mouse, i - 247)
  }

  function FirstPresses(n: nat): (r: seq<Input>)
    ensures |r| == n
  {
    seq(n, i requires 0 <= i < n => Press(Nth(i)))
  }

  lemma {:induction false} PressesFillTable(n: nat)
    requires n <= CAPACITY
    ensures Run(FirstPresses(n)).Running?
    ensures Run(FirstPresses(n)).table == seq(n, i requires 0 <= i < n => Nth(i))
  {
    if n != 0 {
      PressesFillTable(n - 1);
      assert FirstPresses(n)[..n - 1] == FirstPresses(n - 1);
      var table := Run(FirstPresses(n - 1)).table;
      assert Nth(n - 1) !in table;
      assert table + [Nth(n - 1)] == seq(n, i requires 0 <= i < n => Nth(i));
    }
  }

  /** A run that aborts on a key that is in the table: 256 presses, then the first key again, as
      when it repeats. */
  lemma AbortsOnRepeat()
    ensures Run(FirstPresses(CAPACITY)).Running? && Nth(0) in Run(FirstPresses(CAPACITY)).table
    ensures Run(FirstPresses(CAPACITY) + [Press(Nth(0))]).Aborted?
  {
    PressesFillTable(CAPACITY);
    var before := Run(FirstPresses(CAPACITY));
    assert before.table[0] == Nth(0);
    assert (FirstPresses(CAPACITY) + [Press(Nth(0))])[..CAPACITY] == FirstPresses(CAPACITY);
  }

  /** Nothing stays down once a client has quit or gone. */
  lemma NothingDownAfterRelease(ms: seq<Input>, m: Input)
    requires Run(ms).Running? && (m.Quit? || m.Disconnect?)
    ensures Run(ms + [m]).Running? && Run(ms + [m]).table == []
    ensures Run(ms + [m]).events == Run(ms).events + Releases(Run(ms).table)
    ensures Down(Run(ms + [m]).events) == {}
  {
    TableAgrees(ms);
    HandleAgrees(Run(ms), m);
    assert (ms + [m])[..|ms|] == ms;
  }

  // ---- The array ----

  class PressedTable {
    const pressed: array<KeyButton>
    var len: nat
    /** The fake events sent to the X server. */
    var events: seq<FakeEvent>

    ghost predicate Valid()
      reads this
    {
      pressed.Length == CAPACITY && len <= CAPACITY
    }

    ghost function Table(): seq<KeyButton>
      reads this, pressed
      requires Valid()
    {
      pressed[..len]
    }

    constructor ()
      ensures Valid() && Table() == [] && events == [] && fresh(pressed)
    {
      pressed := new KeyButton[CAPACITY](_ => KeyButton(Mouse, 0));
      len, events := 0, [];
    }

    /** False when the program aborts. */
    method Add(key: KeyButton) returns (ok: bool)
      requires Valid()
      modifies this`len, pressed
      ensures Valid()
      ensures ok <==> old(len) < CAPACITY
      ensures Table() == if ok then Added(old(Table()), key) else old(Table())
    {
      if !(len < pressed.Length) {
        return false;
      }
      var i := 0;
      while i < len
        invariant 0 <= i <= len
        invariant key !in pressed[..i]
      {
        if pressed[i] == key {
          return true;
        }
        i := i + 1;
      }
      pressed[len] := key;
      len := len + 1;
      return true;
    }

    method Remove(key: KeyButton)
      requires Valid()
      modifies this`len, pressed
      ensures Valid()
      ensures Table() == Removed(old(Table()), key)
    {
      var i := 0;
      while i < len
        invariant 0 <= i <= len
        invariant key !in pressed[..i]
        invariant len == old(len) && pressed[..] == old(pressed[..])
      {
        if pressed[i] == key {
          assert IndexOf(Table(), key) == i by { FirstIndex(Table(), key, i); }
          if i < len - 1 {
            pressed[i] := pressed[len - 1];
          }
          len := len - 1;
          return;
        }
        i := i + 1;
      }
    }

    method ReleaseAll()
      requires Valid()
      modifies this`len, this`events
      ensures Valid()
      ensures Table() == [] && events == old(events) + Releases(old(Table()))
    {
      var i := 0;
      while i < len
        invariant 0 <= i <= len
        invariant len == old(len)
        invariant events == old(events) + Releases(old(Table()))[..i]
      {
        events := events + [FakeEvent(pressed[i], false)];
        i := i + 1;
      }
      len := 0;
    }

    /** What the dispatch loop does with a message or the end of a connection. */
    method Dispatch(m: Input) returns (ok: bool)
      requires Valid()
      modifies this`len, this`events, pressed
      ensures Valid()
      ensures (if ok then Running(Table(), events) else Aborted(events)) == Handle(old(Running(Table(), events)), m)
    {
      ok := true;
      match m
      case Press(key) =>
        events := events + [FakeEvent(key, true)];
        ok := Add(key);
      case Release(key) =>
        events := events + [FakeEvent(key, false)];
        Remove(key);
      case Quit => ReleaseAll();
      case Disconnect => ReleaseAll();
    }
  }

  lemma FirstIndex(table: seq<KeyButton>, key: KeyButton, i: nat)
    requires i < |table| && table[i] == key && key !in table[..i]
    ensures IndexOf(table, key) == i
  {
    var j := IndexOf(table, key);
    assert forall k :: 0 <= k < i ==> table[..i][k] == table[k];
    assert forall k :: 0 <= k < j ==> table[..j][k] == table[k];
  }
}
