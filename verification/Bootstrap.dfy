/** The worklist loop of installer/arch/bootstrap, which downloads packages and all they depend
    on.  Its lists are strings of words, each followed by one space; an extra space is an empty
    word, and the loop handles those as well. */
module Bootstrap {
  import opened Options
  import opened Sequences

  type Word = string

  /** A package of the database. */
  datatype Package = Package(name: Word, version: string, depends: seq<Word>, provided: seq<Word>) {
    /** How the database lists it. */
    function Pkgver(): string {
      name + "-" + version
    }
  }
  type Database = seq<Package>

  predicate Compares(c: char) {
    c == '<' || c == '>' || c == '='
  }

  /** The name in a dependency, without the versions it allows. */
  function StripVersion(w: Word): (r: Word)
    ensures r <= w && (forall c :: c in r ==> !Compares(c)) && (r < w ==> Compares(w[|r|]))
  {
    if w == [] || Compares(w[0]) then "" else [w[0]] + StripVersion(w[1..])
  }

  function Needs(p: Package): (r: seq<Word>)
    ensures |r| == |p.depends|
  {
    seq(|p.depends|, i requires 0 <= i < |p.depends| => StripVersion(p.depends[i]))
  }

  /** The variables of the loop: what is left to install, the words that count as installed
      (the first one is never compared), and the words for which a package was installed, in order. */
  datatype State = State(missing: seq<Word>, installed: seq<Word>, log: seq<Word>)

  // ---- Looking up a package ----

  predicate Digit(c: char) {
    '0' <= c <= '9'
  }

  /** The pattern `:name-[0-9]`. */
  predicate Matches(p: Package, name: Word) {
    var listed := p.Pkgver();
    name + "-" <= listed && |name| + 1 < |listed| && Digit(listed[|name| + 1])
  }

  function Find(db: Database, name: Word): (r: Option<Package>)
    ensures r.Some? ==> r.value in db && Matches(r.value, name)
    ensures r.None? ==> forall p :: p in db ==> !Matches(p, name)
  {
    if db == [] then None else if Matches(db[0], name) then Some(db[0]) else Find(db[1..], name)
  }

  /** What is meant: the first package of that very name. */
  function Named(db: Database, name: Word): (r: Option<Package>)
    ensures r.Some? ==> r.value in db && r.value.name == name
  {
    if db == [] then None else if db[0].name == name then Some(db[0]) else Named(db[1..], name)
  }

  /** The first package that matches has another name, or one of that name is passed over
      because its version does not start with a digit. */
  predicate Mistaken(db: Database, name: Word) {
    db != []
    && if Matches(db[0], name) then db[0].name != name else db[0].name == name || Mistaken(db[1..], name)
  }

  /** The lookup finds the package that is meant, exactly unless it is mistaken. */
  lemma {:induction false} FindIsNamed(db: Database, name: Word)
    ensures Find(db, name) == Named(db, name) <==> !Mistaken(db, name)
  {
    hide Matches;
    if db != [] {
      FindIsNamed(db[1..], name);
    }
  }

  /** Package i matches, and neither it nor one before it has that name. */
  ghost predicate OtherMatch(db: Database, name: Word, i: nat) {
    i < |db| && Matches(db[i], name) && forall j :: 0 <= j <= i ==> db[j].name != name
  }

  /** When all versions start with a digit, it is mistaken exactly if there is such a package. */
  lemma {:induction false} MistakenByAnother(db: Database, name: Word)
    requires forall p :: p in db ==> p.version != "" && Digit(p.version[0])
    ensures Mistaken(db, name) <==> exists i: nat :: OtherMatch(db, name, i)
  {
    hide Matches;
    if db != [] {
      MistakenByAnother(db[1..], name);
      if db[0].name == name {
        MatchesItsName(db[0]);
      } else if Matches(db[0], name) {
        assert OtherMatch(db, name, 0);
      } else {
        if i: nat :| OtherMatch(db[1..], name, i) {
          assert forall j :: 0 < j <= i + 1 ==> db[j] == db[1..][j - 1];
          assert OtherMatch(db, name, i + 1);
        }
        if i: nat :| OtherMatch(db, name, i) {
          assert OtherMatch(db[1..], name, i - 1);
        }
      }
    }
  }

  lemma MatchesItsName(p: Package)
    requires p.version != "" && Digit(p.version[0])
    ensures Matches(p, p.name)
  {
  }

  /** An input on which it is mistaken. */
  lemma FindCanMiss()
    ensures var db := [Package("gtk-2x", "1.0", [], []), Package("gtk", "3.0", [], [])];
            Find(db, "gtk") == Some(db[0]) && Named(db, "gtk") == Some(db[1])
  {
    var db := [Package("gtk-2x", "1.0", [], []), Package("gtk", "3.0", [], [])];
    assert db[0].Pkgver() == "gtk-2x-1.0" && "gtk" + "-" == "gtk-2x-1.0"[..4];
    assert |db[0].name| != |db[1].name|;
    assert db[1..] == [db[1]];
  }

  /** No hyphen in it is followed by a digit, as if a version began there. */
  predicate Plain(w: Word) {
    forall k :: 0 <= k < |w| - 1 && w[k] == '-' ==> !Digit(w[k + 1])
  }

  /** The name of the package is w with a hyphen, a digit and perhaps more. */
  predicate Extends(p: Package, w: Word) {
    w + "-" <= p.name && |w| + 1 < |p.name| && Digit(p.name[|w| + 1])
  }

  lemma MistakesAreLonger(p: Package, w: Word)
    requires Plain(w) && p.version != "" && Digit(p.version[0])
    ensures Matches(p, w) <==> p.name == w || Extends(p, w)
  {
    var listed, n := p.Pkgver(), |p.name|;
    assert listed[n] == '-' && listed[n + 1] == p.version[0];
    if Matches(p, w) {
      assert forall k :: 0 <= k <= |w| ==> listed[k] == (w + "-")[k];
      if n == |w| {
        assert p.name == listed[..n] == w;
      } else if |w| + 1 < n {
        assert listed[..|w| + 1] == p.name[..|w| + 1];
      }
    }
  }

  /** The name of package i extends w, and none before it has the name w. */
  ghost predicate ExtendedFirst(db: Database, w: Word, i: nat) {
    i < |db| && Extends(db[i], w) && forall j :: 0 <= j < i ==> db[j].name != w
  }

  /** For ordinary words and versions: the lookup finds the first package of that very name,
      exactly unless one whose name extends it comes earlier. */
  lemma FindIsNamedUnlessExtended(db: Database, w: Word)
    requires Plain(w) && forall p :: p in db ==> p.version != "" && Digit(p.version[0])
    ensures Find(db, w) == Named(db, w) <==> !exists i: nat :: ExtendedFirst(db, w, i)
  {
    hide Find, Named, Mistaken, Plain, OtherMatch, ExtendedFirst;
    FindIsNamed(db, w);
    MistakenByAnother(db, w);
    forall i: nat ensures OtherMatch(db, w, i) <==> ExtendedFirst(db, w, i) {
      OtherIsExtended(db, w, i);
    }
  }

  lemma OtherIsExtended(db: Database, w: Word, i: nat)
    requires Plain(w) && forall p :: p in db ==> p.version != "" && Digit(p.version[0])
    ensures OtherMatch(db, w, i) <==> ExtendedFirst(db, w, i)
  {
    hide Plain, Matches, Extends;
    if i < |db| {
      MistakesAreLonger(db[i], w);
      if Extends(db[i], w) {
        ExtendsIsLonger(db[i], w);
      }
    }
  }

  lemma ExtendsIsLonger(p: Package, w: Word)
    requires Extends(p, w)
    ensures |w| < |p.name|
  {
  }

  // ---- The loop ----

  predicate IsInstalled(st: State, w: Word) {
    1 < |st.installed| && w in st.installed[1..]
  }

  /** Every word that some lookup can succeed for. */
  function Findable(db: Database): set<Word> {
    set i, k | 0 <= i < |db| && 0 <= k <= |db[i].Pkgver()| :: db[i].Pkgver()[..k]
  }

  function Left(db: Database, st: State): set<Word> {
    set w | w in Findable(db) && !IsInstalled(st, w)
  }

  /** One turn, with something left to install; None when the package cannot be found. */
  function Turn(db: Database, st: State): (r: Option<State>)
    requires st.missing != []
  {
    var name, rest := st.missing[0], st.missing[1..];
    if IsInstalled(st, name) then Some(State(rest, st.installed, st.log))
    else
      var p := Find(db, name);
      if p.None? then None
      else Some(State(rest + [""] + Needs(p.value), st.installed + [""] + p.value.provided + [""] + [name],
                      st.log + [name]))
  }

  function Loop(db: Database, st: State): Option<State>
    requires st.installed != []
    decreases |Left(db, st)|, |st.missing|
  {
    if st.missing == [] then Some(st)
    else
      var next := Turn(db, st);
      if next.None? then None
      else
        TurnShrinks(db, st);
        Loop(db, next.value)
  }

  function Start(requested: seq<Word>): State {
    State(requested, [""], [])
  }

  /** Either a word goes, or a package is installed for good. */
  lemma TurnShrinks(db: Database, st: State)
    requires st.installed != [] && st.missing != [] && Turn(db, st).Some?
    ensures var next := Turn(db, st).value;
            && st.installed <= next.installed && next.installed != []
            && (|Left(db, next)| < |Left(db, st)| || (Left(db, next) == Left(db, st) && |next.missing| < |st.missing|))
  {
    hide Find, Left, Needs;
    var name, next := st.missing[0], Turn(db, st).value;
    if IsInstalled(st, name) {
      SameLeft(db, st, next);
    } else {
      NameIsFindable(db, name);
      InstallShrinks(db, st, next, Find(db, name).value, name);
    }
  }

  lemma NameIsFindable(db: Database, name: Word)
    requires Find(db, name).Some?
    ensures name in Findable(db)
  {
    var p := Find(db, name).value;
    var i :| 0 <= i < |db| && db[i] == p;
    assert db[i].Pkgver()[..|name|] == name;
  }

  lemma SameLeft(db: Database, st: State, next: State)
    requires st.installed == next.installed
    ensures Left(db, next) == Left(db, st)
  {
  }

  lemma InstallShrinks(db: Database, st: State, next: State, p: Package, name: Word)
    requires st.installed != [] && next.installed == st.installed + [""] + p.provided + [""] + [name]
    requires name in Findable(db) && !IsInstalled(st, name)
    ensures st.installed <= next.installed && |Left(db, next)| < |Left(db, st)|
  {
    hide Findable, IsInstalled;
    InstalledAfter(st, next, p, name);
    assert st.installed <= next.installed;
    SubsetSize(Left(db, next), Left(db, st) - {name});
  }

  // ---- What the loop keeps ----

  /** w is asked for: requested, or a dependency of a package installed before position i. */
  predicate Wanted(db: Database, requested: seq<Word>, log: seq<Word>, i: nat, w: Word)
    requires i <= |log|
  {
    w in requested || exists k :: 0 <= k < i && DependsOn(db, log[k], w)
  }

  predicate DependsOn(db: Database, name: Word, w: Word) {
    Find(db, name).Some? && w in Needs(Find(db, name).value)
  }

  predicate Provides(db: Database, name: Word, w: Word) {
    Find(db, name).Some? && w in Find(db, name).value.provided
  }

  predicate Pending(st: State, w: Word) {
    IsInstalled(st, w) || w in st.missing
  }

  /** No word is installed twice, and for every one a package was available and it was asked for
      before. */
  ghost predicate LogRight(db: Database, requested: seq<Word>, st: State) {
    NoDuplicates(st.log)
    && forall i :: 0 <= i < |st.log| ==>
         IsInstalled(st, st.log[i]) && Find(db, st.log[i]).Some? && Wanted(db, requested, st.log, i, st.log[i])
  }

  /** What was asked for is installed or still to come. */
  ghost predicate NothingForgotten(db: Database, requested: seq<Word>, st: State) {
    (forall w :: w in requested ==> Pending(st, w))
    && forall n, w :: n in st.log && DependsOn(db, n, w) ==> Pending(st, w)
  }

  /** What is still to come was asked for, but for empty words. */
  ghost predicate NothingElse(db: Database, requested: seq<Word>, st: State) {
    forall w :: w in st.missing ==> (w == "" && IsInstalled(st, "")) || Wanted(db, requested, st.log, |st.log|, w)
  }

  /** What counts as installed is installed or provided by what is. */
  ghost predicate Explained(db: Database, st: State) {
    forall w :: IsInstalled(st, w) ==> w == "" || w in st.log || exists n :: n in st.log && Provides(db, n, w)
  }

  ghost predicate Keeps(db: Database, requested: seq<Word>, st: State) {
    st.installed != [] && LogRight(db, requested, st) && NothingForgotten(db, requested, st)
    && NothingElse(db, requested, st) && Explained(db, st)
  }

  lemma TurnKeeps(db: Database, requested: seq<Word>, st: State)
    requires Keeps(db, requested, st) && st.missing != [] && Turn(db, st).Some?
    ensures Keeps(db, requested, Turn(db, st).value)
  {
    hide Find, NoDuplicates, Wanted, DependsOn, Provides;
    var name, rest := st.missing[0], st.missing[1..];
    assert st.missing == [name] + rest;
    if !IsInstalled(st, name) {
      InstallKeeps(db, requested, st);
    }
  }

  lemma InstallKeeps(db: Database, requested: seq<Word>, st: State)
    requires Keeps(db, requested, st) && st.missing != [] && Turn(db, st).Some? && !IsInstalled(st, st.missing[0])
    ensures Keeps(db, requested, Turn(db, st).value)
  {
    hide Find, Wanted, DependsOn, Provides, IsInstalled, NoDuplicates;
    var name := st.missing[0];
    var p, next := Find(db, name).value, Turn(db, st).value;
    InstalledAfter(st, next, p, name);
    assert st.missing == [name] + st.missing[1..];
    InstallKeepsLog(db, requested, st, next, name);
    InstallForgetsNothing(db, requested, st, next, name, p, st.missing[1..]);
    InstallWantsNothingElse(db, requested, st, next, name, p);
    InstallExplains(db, st, next, name, p);
  }

  lemma InstalledAfter(st: State, next: State, p: Package, name: Word)
    requires st.installed != [] && next.installed == st.installed + [""] + p.provided + [""] + [name]
    ensures forall w :: IsInstalled(next, w) <==> IsInstalled(st, w) || w == "" || w in p.provided || w == name
  {
    assert next.installed[1..] == st.installed[1..] + [""] + p.provided + [""] + [name];
  }

  lemma WantedLater(db: Database, requested: seq<Word>, log: seq<Word>, i: nat, log': seq<Word>, j: nat, w: Word)
    requires i <= |log| && i <= j <= |log'| && log <= log' && Wanted(db, requested, log, i, w)
    ensures Wanted(db, requested, log', j, w)
  {
    if w !in requested {
      var k :| 0 <= k < i && DependsOn(db, log[k], w);
      assert log'[k] == log[k];
    }
  }

  lemma InstallKeepsLog(db: Database, requested: seq<Word>, st: State, next: State, name: Word)
    requires LogRight(db, requested, st) && NothingElse(db, requested, st)
    requires name in st.missing && !IsInstalled(st, name)
    requires Find(db, name).Some? && next.log == st.log + [name]
    requires forall w :: IsInstalled(st, w) || w == name ==> IsInstalled(next, w)
    ensures LogRight(db, requested, next)
  {
    hide Find, IsInstalled, Wanted;
    assert name !in st.log;
    forall i | 0 <= i < |next.log|
      ensures IsInstalled(next, next.log[i]) && Find(db, next.log[i]).Some?
              && Wanted(db, requested, next.log, i, next.log[i])
    {
      WantedLater(db, requested, st.log, i, next.log, i, next.log[i]);
    }
  }

  lemma InstallForgetsNothing(db: Database, requested: seq<Word>, st: State, next: State, name: Word, p: Package,
                              rest: seq<Word>)
    requires NothingForgotten(db, requested, st) && Find(db, name) == Some(p) && next.log == st.log + [name]
    requires st.missing == [name] + rest && next.missing == rest + [""] + Needs(p)
    requires forall w :: IsInstalled(st, w) || w == name ==> IsInstalled(next, w)
    ensures NothingForgotten(db, requested, next)
  {
    hide Find, IsInstalled;
  }

  lemma InstallWantsNothingElse(db: Database, requested: seq<Word>, st: State, next: State, name: Word, p: Package)
    requires NothingElse(db, requested, st) && Find(db, name) == Some(p) && next.log == st.log + [name]
    requires st.missing != [] && next.missing == st.missing[1..] + [""] + Needs(p)
    requires forall w :: IsInstalled(st, w) || w == "" ==> IsInstalled(next, w)
    ensures NothingElse(db, requested, next)
  {
    hide Find, IsInstalled;
    forall w | w in next.missing && w != "" ensures Wanted(db, requested, next.log, |next.log|, w) {
      if w in st.missing[1..] {
        assert w in st.missing;
        WantedLater(db, requested, st.log, |st.log|, next.log, |next.log|, w);
      } else {
        assert next.log[|st.log|] == name && DependsOn(db, name, w);
      }
    }
  }

  lemma InstallExplains(db: Database, st: State, next: State, name: Word, p: Package)
    requires Explained(db, st) && Find(db, name) == Some(p) && next.log == st.log + [name]
    requires forall w :: IsInstalled(next, w) <==> IsInstalled(st, w) || w == "" || w in p.provided || w == name
    ensures Explained(db, next)
  {
    hide Find, IsInstalled;
    forall w | IsInstalled(next, w) && w != "" && w !in next.log
      ensures exists n :: n in next.log && Provides(db, n, w)
    {
      if IsInstalled(st, w) {
        var n :| n in st.log && Provides(db, n, w);
        assert n in next.log;
      } else {
        assert name in next.log && Provides(db, name, w);
      }
    }
  }

  lemma {:induction false} LoopKeeps(db: Database, requested: seq<Word>, st: State)
    requires Keeps(db, requested, st)
    ensures Loop(db, st).Some? ==> Keeps(db, requested, Loop(db, st).value) && Loop(db, st).value.missing == []
    decreases |Left(db, st)|, |st.missing|
  {
    hide LogRight, NothingForgotten, NothingElse, Explained, Left, Turn;
    if st.missing != [] && Turn(db, st).Some? {
      TurnKeeps(db, requested, st);
      TurnShrinks(db, st);
      LoopKeeps(db, requested, Turn(db, st).value);
    }
  }

  // ---- Main results ----

  /** A bootstrap that succeeds has installed or provided everything requested and everything
      that an installed package depends on; it installed no word twice, and nothing that was not
      requested or a dependency of what was installed before. */
  lemma BootstrapCloses(db: Database, requested: seq<Word>)
    requires Loop(db, Start(requested)).Some?
    ensures var st := Loop(db, Start(requested)).value;
            && NoDuplicates(st.log)
            && (forall w :: w in requested && w != "" ==> w in st.log || exists n :: n in st.log && Provides(db, n, w))
            && (forall m, w :: m in st.log && DependsOn(db, m, w) && w != "" ==>
                  w in st.log || exists n :: n in st.log && Provides(db, n, w))
            && (forall i :: 0 <= i < |st.log| ==>
                  Find(db, st.log[i]).Some? && Wanted(db, requested, st.log, i, st.log[i]))
  {
    StartKeeps(db, requested);
    LoopKeeps(db, requested, Start(requested));
    hide Loop, NoDuplicates, Find, DependsOn, Provides, Wanted, IsInstalled;
    var st := Loop(db, Start(requested)).value;
    assert forall w :: Pending(st, w) ==> IsInstalled(st, w);
  }

  lemma StartKeeps(db: Database, requested: seq<Word>)
    ensures Keeps(db, requested, Start(requested))
  {
  }

  /** It fails only for want of a package: if every word that is requested, or that some package
      of the database depends on, can be found, it succeeds. */
  lemma BootstrapSucceeds(db: Database, requested: seq<Word>)
    requires forall w :: w in requested ==> Find(db, w).Some?
    requires forall p, w :: p in db && w in Needs(p) ==> Find(db, w).Some?
    ensures Loop(db, Start(requested)).Some?
  {
    StartKeeps(db, requested);
    LoopSucceeds(db, requested, Start(requested));
  }

  lemma {:induction false} LoopSucceeds(db: Database, requested: seq<Word>, st: State)
    requires Keeps(db, requested, st)
    requires forall w :: w in requested ==> Find(db, w).Some?
    requires forall p, w :: p in db && w in Needs(p) ==> Find(db, w).Some?
    ensures Loop(db, st).Some?
    decreases |Left(db, st)|, |st.missing|
  {
    hide LogRight, NothingForgotten, Explained, Left;
    if st.missing != [] {
      var name := st.missing[0];
      assert name in st.missing;
      assert IsInstalled(st, name) || Find(db, name).Some?;
      TurnKeeps(db, requested, st);
      TurnShrinks(db, st);
      LoopSucceeds(db, requested, Turn(db, st).value);
    }
  }

  // ---- Packages rather than words ----

  /** The packages that were downloaded and unpacked, in order. */
  function Unpacked(db: Database, log: seq<Word>): (r: seq<Package>)
    requires forall w :: w in log ==> Find(db, w).Some?
    ensures |r| == |log|
  {
    seq(|log|, i requires 0 <= i < |log| => Find(db, log[i]).value)
  }

  /** A successful bootstrap unpacks no package twice, exactly if no two words that it installed
      are different and find the same package. */
  lemma UnpacksOnce(db: Database, requested: seq<Word>)
    requires Loop(db, Start(requested)).Some?
    ensures var log := Loop(db, Start(requested)).value.log;
            && (forall w :: w in log ==> Find(db, w).Some?)
            && (NoDuplicates(Unpacked(db, log)) <==>
                forall v, w :: v in log && w in log && v != w ==> Find(db, v) != Find(db, w))
  {
    BootstrapCloses(db, requested);
    hide Loop, Find, NoDuplicates;
    UnpackedOnce(db, Loop(db, Start(requested)).value.log);
  }

  lemma UnpackedOnce(db: Database, log: seq<Word>)
    requires NoDuplicates(log) && forall w :: w in log ==> Find(db, w).Some?
    ensures NoDuplicates(Unpacked(db, log))
       <==> forall v, w :: v in log && w in log && v != w ==> Find(db, v) != Find(db, w)
  {
    hide Find;
    var unpacked := Unpacked(db, log);
    if NoDuplicates(unpacked) {
      forall v, w | v in log && w in log && v != w ensures Find(db, v) != Find(db, w) {
        var i :| 0 <= i < |log| && log[i] == v;
        var j :| 0 <= j < |log| && log[j] == w;
        assert unpacked[if i < j then i else j] != unpacked[if i < j then j else i];
      }
    }
  }

  /** It is enough that no word that is requested, or that some package depends on, is mistaken:
      then every word installed is the name of the package unpacked for it. */
  lemma UnpacksEachByName(db: Database, requested: seq<Word>)
    requires Loop(db, Start(requested)).Some?
    requires forall w :: w in requested ==> !Mistaken(db, w)
    requires forall p, w :: p in db && w in Needs(p) ==> !Mistaken(db, w)
    ensures var log := Loop(db, Start(requested)).value.log;
            && (forall w :: w in log ==> Find(db, w).Some? && Find(db, w).value.name == w)
            && NoDuplicates(Unpacked(db, log))
  {
    BootstrapCloses(db, requested);
    UnpacksOnce(db, requested);
    hide Loop, Find, Mistaken, Named;
    var log := Loop(db, Start(requested)).value.log;
    forall i | 0 <= i < |log| ensures Find(db, log[i]).Some? && Find(db, log[i]).value.name == log[i] {
      assert Wanted(db, requested, log, i, log[i]);
      FindIsNamed(db, log[i]);
    }
  }

  /** Different words find different packages, but for words that the package provides. */
  ghost predicate OneWordEach(db: Database) {
    forall v, w :: v != w && w != "" && Find(db, v).Some? && Find(db, v) == Find(db, w) ==>
                     w in Find(db, v).value.provided
  }

  /** On a database on which every dependency can be found, no request at all makes it unpack a
      package twice, exactly if the database has one word for each. */
  lemma NeverTwice(db: Database)
    requires forall p, w :: p in db && w in Needs(p) ==> Find(db, w).Some?
    ensures OneWordEach(db)
       <==> forall requested :: Loop(db, Start(requested)).Some? ==> UnpacksDistinct(db, requested)
  {
    hide Loop, Find, UnpacksDistinct, Needs;
    if OneWordEach(db) {
      forall requested | Loop(db, Start(requested)).Some?
        ensures UnpacksDistinct(db, requested)
      {
        OneWordIsOnce(db, requested);
      }
    } else {
      var v, w :| v != w && w != "" && Find(db, v).Some? && Find(db, v) == Find(db, w)
                  && w !in Find(db, v).value.provided;
      BootstrapSucceeds(db, [v, w]);
      TwoWordsTwice(db, v, w);
    }
  }

  /** A successful bootstrap unpacks no package twice. */
  ghost predicate UnpacksDistinct(db: Database, requested: seq<Word>)
    requires Loop(db, Start(requested)).Some?
  {
    var log := Loop(db, Start(requested)).value.log;
    (forall w :: w in log ==> Find(db, w).Some?) && NoDuplicates(Unpacked(db, log))
  }

  lemma OneWordIsOnce(db: Database, requested: seq<Word>)
    requires OneWordEach(db) && Loop(db, Start(requested)).Some?
    ensures UnpacksDistinct(db, requested)
  {
    BootstrapCloses(db, requested);
    LoopKeepsApart(db, Start(requested));
    hide Loop, Find;
    var log := Loop(db, Start(requested)).value.log;
    var unpacked := Unpacked(db, log);
    forall i, j | 0 <= i < j < |unpacked| ensures unpacked[i] != unpacked[j] {
      assert log[i] != log[j];
    }
  }

  /** No word was installed that a package installed before provides, and none is empty but
      perhaps the first. */
  ghost predicate Apart(db: Database, st: State) {
    && (st.log != [] ==> IsInstalled(st, ""))
    && (forall i, w :: 0 <= i < |st.log| && Provides(db, st.log[i], w) ==> IsInstalled(st, w))
    && (forall j :: 0 < j < |st.log| ==> st.log[j] != "")
    && (forall i, j :: 0 <= i < j < |st.log| ==> !Provides(db, st.log[i], st.log[j]))
  }

  lemma TurnKeepsApart(db: Database, st: State)
    requires Apart(db, st) && st.installed != [] && st.missing != [] && Turn(db, st).Some?
    ensures Apart(db, Turn(db, st).value)
  {
    hide Find, IsInstalled;
    var name, next := st.missing[0], Turn(db, st).value;
    if !IsInstalled(st, name) {
      InstalledAfter(st, next, Find(db, name).value, name);
    } else {
      SameInstalled(st, next);
    }
  }

  lemma SameInstalled(st: State, next: State)
    requires st.installed == next.installed
    ensures forall w :: IsInstalled(next, w) <==> IsInstalled(st, w)
  {
  }

  lemma {:induction false} LoopKeepsApart(db: Database, st: State)
    requires Apart(db, st) && st.installed != []
    ensures Loop(db, st).Some? ==> Apart(db, Loop(db, st).value)
    decreases |Left(db, st)|, |st.missing|
  {
    hide Apart, Left, Find;
    if st.missing != [] && Turn(db, st).Some? {
      TurnKeepsApart(db, st);
      TurnShrinks(db, st);
      LoopKeepsApart(db, Turn(db, st).value);
    }
  }

  /** Asking for two words that find one package installs both of them. */
  lemma TwoWordsTwice(db: Database, v: Word, w: Word)
    requires v != w && w != "" && Find(db, v).Some? && Find(db, v) == Find(db, w)
    requires w !in Find(db, v).value.provided
    requires Loop(db, Start([v, w])).Some?
    ensures !UnpacksDistinct(db, [v, w])
  {
    var p := Find(db, v).value;
    var s0 := Start([v, w]);
    var s1 := State([w] + [""] + Needs(p), [""] + [""] + p.provided + [""] + [v], [v]);
    TurnIs(db, s0);
    assert [v, w][1..] == [w] && [] + [v] == [v];
    assert Turn(db, s0) == Some(s1);
    var installed := s1.installed + [""] + p.provided + [""] + [w];
    assert s1.installed[1..] == [""] + p.provided + [""] + [v];
    TurnIs(db, s1);
    var s2 := Turn(db, s1).value;
    assert s2.log == [v] + [w] && s2.installed == installed;
    assert Loop(db, s0) == Loop(db, s1) == Loop(db, s2);
    hide Find, Turn, Needs;
    LoopGrows(db, s2);
    var log := Loop(db, s2).value.log;
    assert log[0] == v && log[1] == w;
    UnpacksOnce(db, [v, w]);
  }

  lemma {:induction false} LoopGrows(db: Database, st: State)
    requires st.installed != []
    ensures Loop(db, st).Some? ==> st.log <= Loop(db, st).value.log
    decreases |Left(db, st)|, |st.missing|
  {
    hide Left, Find;
    if st.missing != [] && Turn(db, st).Some? {
      TurnShrinks(db, st);
      LoopGrows(db, Turn(db, st).value);
    }
  }

  /** A database on which it can come to unpack a package twice: gtk is taken for the beginning of
      gtk-2x.  (The second time, tar finds the files there and fails, because it is told to keep
      them; the script ends at that point.) */
  lemma UnpacksTwice()
    ensures var db := [Package("gtk-2x", "1.0", [], [])];
            && Loop(db, Start(["gtk", "gtk-2x"])).Some?
            && Loop(db, Start(["gtk", "gtk-2x"])).value.log == ["gtk", "gtk-2x"]
            && Find(db, "gtk") == Find(db, "gtk-2x") == Some(db[0])
  {
    hide Find, Matches, Needs, Turn, IsInstalled;
    var db := [Package("gtk-2x", "1.0", [], [])];
    var s0 := Start(["gtk", "gtk-2x"]);
    var s1 := State(["gtk-2x", ""], ["", "", "", "gtk"], ["gtk"]);
    var s2 := State(["", ""], ["", "", "", "gtk", "", "", "gtk-2x"], ["gtk", "gtk-2x"]);
    var s3, s4 := State([""], s2.installed, s2.log), State([], s2.installed, s2.log);
    FindsBoth();
    Installs(db, s0, s1);
    assert "gtk-2x"[3] == '-';
    assert s1.installed[1..] == ["", "", "gtk"];
    Installs(db, s1, s2);
    assert s2.installed[1] == "" && "" in s2.installed[1..];
    TurnIs(db, s2);
    TurnIs(db, s3);
    assert Loop(db, s4) == Some(s4);
    assert Loop(db, s3) == Loop(db, s4);
    assert Loop(db, s2) == Loop(db, s3);
    assert Loop(db, s1) == Loop(db, s2);
    assert Loop(db, s0) == Loop(db, s1);
  }

  lemma FindsBoth()
    ensures var db := [Package("gtk-2x", "1.0", [], [])];
            Find(db, "gtk") == Find(db, "gtk-2x") == Some(db[0]) && Needs(db[0]) == []
  {
    var db := [Package("gtk-2x", "1.0", [], [])];
    assert db[0].Pkgver() == "gtk-2x-1.0";
    assert "gtk" + "-" == "gtk-2x-1.0"[..4] && "gtk-2x" + "-" == "gtk-2x-1.0"[..7];
    assert Matches(db[0], "gtk") && Matches(db[0], "gtk-2x");
  }

  /** A turn that installs a package that neither needs nor provides anything. */
  lemma Installs(db: Database, st: State, next: State)
    requires st.missing != [] && st.installed != [] && st.missing[0] !in st.installed[1..]
    requires Find(db, st.missing[0]).Some?
    requires Needs(Find(db, st.missing[0]).value) == [] && Find(db, st.missing[0]).value.provided == []
    requires next == State(st.missing[1..] + [""], st.installed + ["", "", st.missing[0]], st.log + [st.missing[0]])
    ensures Turn(db, st) == Some(next)
  {
    hide Find, Needs, Turn;
    TurnIs(db, st);
    assert st.missing[1..] + [""] + [] == next.missing;
    assert st.installed + [""] + [] + [""] + [st.missing[0]] == next.installed;
  }

  // ---- The script ----

  /** installer/arch/bootstrap, from its list of packages to the list of what it installed. */
  method Bootstrap(db: Database, packagesBootstrap: seq<Word>) returns (ok: bool, bootstrappkg: seq<Word>)
    ensures var r := Loop(db, Start(packagesBootstrap));
            ok == r.Some? && (ok ==> bootstrappkg == r.value.log)
  {
    hide Turn, Left;
    var missing, installed := packagesBootstrap, [""];
    bootstrappkg := [];
    while missing != []
      invariant installed != []
      invariant Loop(db, Start(packagesBootstrap)) == Loop(db, State(missing, installed, bootstrappkg))
      decreases |Left(db, State(missing, installed, bootstrappkg))|, |missing|
    {
      ghost var st := State(missing, installed, bootstrappkg);
      TurnIs(db, st);
      var package := missing[0];
      missing := missing[1..];
      if package in installed[1..] {
        TurnShrinks(db, st);
        continue;
      }
      var pkg := Find(db, package);
      if pkg.None? {
        return false, bootstrappkg;
      }
      TurnShrinks(db, st);
      bootstrappkg := bootstrappkg + [package];
      installed := installed + [""] + pkg.value.provided + [""] + [package];
      missing := missing + [""] + Needs(pkg.value);
    }
    return true, bootstrappkg;
  }

  lemma TurnIs(db: Database, st: State)
    requires st.missing != [] && st.installed != []
    ensures st.missing[0] in st.installed[1..] ==>
              Turn(db, st) == Some(State(st.missing[1..], st.installed, st.log))
    ensures st.missing[0] !in st.installed[1..] && Find(db, st.missing[0]).None? ==> Turn(db, st).None?
    ensures st.missing[0] !in st.installed[1..] && Find(db, st.missing[0]).Some? ==>
              var p := Find(db, st.missing[0]).value;
              Turn(db, st) == Some(State(st.missing[1..] + [""] + Needs(p),
                                         st.installed + [""] + p.provided + [""] + [st.missing[0]],
                                         st.log + [st.missing[0]]))
  {
  }
}
