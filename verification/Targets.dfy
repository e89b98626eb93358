/** Target resolution: targets/common, run for each chosen target by installer/main.sh.  Sourcing
    a target marks it in a file, sources what it requires, and then emits its script. */
module Targets {
  import opened Options
  import opened Sequences

  type Name = string

  /** What a target file sets before it sources targets/common.  An inert one never does. */
  datatype Target = Target(required: seq<Name>, provided: seq<Name>, inert: bool)
  type Repository = map<Name, Target>

  /** A line of the PROVIDES file. */
  datatype Line = Line(name: Name, target: Name)

  /** The lines of the file of marks, and the targets whose scripts were emitted, in order. */
  datatype State = State(marks: seq<Name>, out: seq<Name>)

  // ---- Which target stands for a requirement ----

  predicate EndsWith(s: Name, t: Name) {
    |t| <= |s| && s[|s| - |t|..] == t
  }

  /** The first line that the pattern `t=` matches decides. */
  function Resolve(lines: seq<Line>, t: Name): Name {
    if lines == [] then t else if EndsWith(lines[0].name, t) then lines[0].target else Resolve(lines[1..], t)
  }

  /** What is meant: the first target that provides t itself. */
  function Provider(lines: seq<Line>, t: Name): Name {
    if lines == [] then t else if lines[0].name == t then lines[0].target else Provider(lines[1..], t)
  }

  /** The first line that matches is about a longer name. */
  predicate Shadowed(lines: seq<Line>, t: Name) {
    lines != [] && if EndsWith(lines[0].name, t) then lines[0].name != t else Shadowed(lines[1..], t)
  }

  lemma {:induction false} ResolveFinds(lines: seq<Line>, t: Name)
    ensures !Shadowed(lines, t) ==> Resolve(lines, t) == Provider(lines, t)
    ensures Shadowed(lines, t) ==> exists l :: l in lines && l.target == Resolve(lines, t) && l.name != t
    ensures Provider(lines, t) == t || exists l :: l in lines && l.target == Provider(lines, t) && l.name == t
  {
    if lines != [] {
      assert lines[0] in lines;
      ResolveFinds(lines[1..], t);
    }
  }

  /** No target provides two names, and none that is provided for provides itself. */
  predicate OneNameEach(lines: seq<Line>, t: Name) {
    && (forall k, l :: k in lines && l in lines && k.target == l.target ==> k.name == l.name)
    && (forall l :: l in lines ==> l.target != t)
  }

  /** The pattern finds the provider that is meant unless a longer name comes first; and then it
      does not, if each target provides one name. */
  lemma ResolveIsProvider(lines: seq<Line>, t: Name)
    ensures !Shadowed(lines, t) ==> Resolve(lines, t) == Provider(lines, t)
    ensures OneNameEach(lines, t) && Shadowed(lines, t) ==> Resolve(lines, t) != Provider(lines, t)
  {
    ResolveFinds(lines, t);
  }

  /** In this repository x11 is the only name provided, and no name of a target is shorter: the
      pattern is right for all of them. */
  lemma {:induction false} RightForX11(lines: seq<Line>, t: Name)
    requires (forall l :: l in lines ==> l.name == "x11") && |"x11"| <= |t|
    ensures Resolve(lines, t) == Provider(lines, t)
  {
    if lines != [] {
      assert lines[0] in lines;
      RightForX11(lines[1..], t);
      assert lines[0].name[0..] == lines[0].name;
    }
  }

  /** The PROVIDES file with these names, from these targets. */
  function Pairs(names: seq<Name>, targets: seq<Name>): (r: seq<Line>)
    requires |names| == |targets|
    ensures |r| == |names|
  {
    seq(|names|, i requires 0 <= i < |names| => Line(names[i], targets[i]))
  }

  /** Without any assumption on the targets: the names provided, in their order, make the pattern
      right for whatever targets provide them, exactly if no longer name comes first. */
  lemma RightForAllTargets(names: seq<Name>, t: Name)
    ensures (forall targets: seq<Name> :: |targets| == |names| ==>
               Resolve(Pairs(names, targets), t) == Provider(Pairs(names, targets), t))
       <==> !Shadowed(Pairs(names, names), t)
  {
    forall targets: seq<Name> | |targets| == |names|
      ensures Shadowed(Pairs(names, targets), t) == Shadowed(Pairs(names, names), t)
      ensures !Shadowed(Pairs(names, names), t) ==>
                Resolve(Pairs(names, targets), t) == Provider(Pairs(names, targets), t)
    {
      ShadowedByNames(Pairs(names, targets), Pairs(names, names), t);
      ResolveIsProvider(Pairs(names, targets), t);
    }
    if Shadowed(Pairs(names, names), t) {
      var targets := Distinct(names, t);
      ShadowedByNames(Pairs(names, targets), Pairs(names, names), t);
      ResolveIsProvider(Pairs(names, targets), t);
      assert Resolve(Pairs(names, targets), t) != Provider(Pairs(names, targets), t) by {
        DistinctTargets(names, t);
      }
    }
  }

  lemma {:induction false} ShadowedByNames(k: seq<Line>, l: seq<Line>, t: Name)
    requires |k| == |l| && forall i :: 0 <= i < |k| ==> k[i].name == l[i].name
    ensures Shadowed(k, t) == Shadowed(l, t)
  {
    if k != [] {
      assert k[0].name == l[0].name;
      forall i | 0 <= i < |k[1..]| ensures k[1..][i].name == l[1..][i].name {
        assert k[1 + i].name == l[1 + i].name;
      }
      ShadowedByNames(k[1..], l[1..], t);
    }
  }

  /** Targets that are equal exactly for equal names, and none of them t: the names, made longer. */
  function Distinct(names: seq<Name>, t: Name): (r: seq<Name>)
    ensures |r| == |names|
    ensures forall i :: 0 <= i < |names| ==> r[i] == names[i] + "/" + t
  {
    seq(|names|, i requires 0 <= i < |names| => names[i] + "/" + t)
  }

  lemma DistinctTargets(names: seq<Name>, t: Name)
    ensures OneNameEach(Pairs(names, Distinct(names, t)), t)
  {
    var lines := Pairs(names, Distinct(names, t));
    forall k, l | k in lines && l in lines && k.target == l.target ensures k.name == l.name {
      assert k.target == k.name + "/" + t && l.target == l.name + "/" + t;
      assert |k.name| == |l.name|;
      assert k.target[..|k.name|] == k.name && l.target[..|l.name|] == l.name;
    }
    forall l | l in lines ensures l.target != t {
      assert |l.target| > |t|;
    }
  }

  lemma ResolveCanMiss()
    ensures Resolve([Line("gtk-x11", "a"), Line("x11", "b")], "x11") == "a"
    ensures Provider([Line("gtk-x11", "a"), Line("x11", "b")], "x11") == "b"
  {
    var lines := [Line("gtk-x11", "a"), Line("x11", "b")];
    assert lines[1..] == [Line("x11", "b")];
    assert "gtk-x11"[4..] == "x11";
    assert "gtk-x11"[0] == 'g';
  }

  // ---- The traversal ----

  function Unmarked(repo: Repository, st: State): set<Name> {
    set t | t in repo && t !in st.marks
  }

  /** The target and all it provides count as done before its requirements are looked at. */
  function Mark(repo: Repository, t: Name, st: State): State
    requires t in repo
  {
    State(st.marks + [t] + repo[t].provided, st.out)
  }

  /** None when a target file is missing, which ends the whole installation. */
  function Install(repo: Repository, lines: seq<Line>, t: Name, st: State): (r: Option<State>)
    ensures r.Some? ==> st.marks <= r.value.marks && st.out <= r.value.out
    decreases |Unmarked(repo, st)|, 0
  {
    if t !in repo then None
    else if repo[t].inert || t in st.marks then Some(st)
    else
      UnmarkedShrinks(repo, st, Mark(repo, t, st), t);
      var r := InstallAll(repo, lines, Resolved(lines, repo[t].required), Mark(repo, t, st));
      if r.None? then None else Some(State(r.value.marks, r.value.out + [t]))
  }

  function InstallAll(repo: Repository, lines: seq<Line>, ts: seq<Name>, st: State): (r: Option<State>)
    ensures r.Some? ==> st.marks <= r.value.marks && st.out <= r.value.out
    decreases |Unmarked(repo, st)|, |ts|
  {
    if ts == [] then Some(st)
    else
      var first := Install(repo, lines, ts[0], st);
      if first.None? then None
      else
        UnmarkedKeeps(repo, st, first.value);
        InstallAll(repo, lines, ts[1..], first.value)
  }

  function Resolved(lines: seq<Line>, ts: seq<Name>): (r: seq<Name>)
    ensures |r| == |ts|
  {
    seq(|ts|, i requires 0 <= i < |ts| => Resolve(lines, ts[i]))
  }

  lemma UnmarkedKeeps(repo: Repository, st: State, st': State)
    requires st.marks <= st'.marks
    ensures Unmarked(repo, st') <= Unmarked(repo, st) && |Unmarked(repo, st')| <= |Unmarked(repo, st)|
  {
    SubsetSize(Unmarked(repo, st'), Unmarked(repo, st));
  }

  lemma UnmarkedShrinks(repo: Repository, st: State, st': State, t: Name)
    requires st.marks <= st'.marks && t in repo && t !in st.marks && t in st'.marks
    ensures |Unmarked(repo, st')| < |Unmarked(repo, st)|
  {
    SubsetSize(Unmarked(repo, st'), Unmarked(repo, st) - {t});
  }

  // ---- Each target once, and every requirement ----

  /** Nothing was emitted twice, nor without a mark. */
  ghost predicate Sane(repo: Repository, st: State) {
    NoDuplicates(st.out) && forall t :: t in st.out ==> t in st.marks && t in repo && !repo[t].inert
  }

  predicate Done(repo: Repository, st: State, t: Name) {
    t in st.marks || (t in repo && repo[t].inert)
  }

  /** The requirements of what was emitted are marked. */
  ghost predicate Closed(repo: Repository, lines: seq<Line>, st: State) {
    forall x, r :: x in st.out && x in repo && r in repo[x].required ==> Done(repo, st, Resolve(lines, r))
  }

  /** What is newly emitted was not marked before. */
  ghost predicate OnlyUnmarked(st: State, st': State) {
    st.out <= st'.out && forall t :: t in st'.out[|st.out|..] ==> t !in st.marks
  }

  lemma {:induction false} InstallKeepsSane(repo: Repository, lines: seq<Line>, t: Name, st: State)
    requires Sane(repo, st) && Closed(repo, lines, st)
    ensures var r := Install(repo, lines, t, st);
            r.Some? ==> Sane(repo, r.value) && Closed(repo, lines, r.value) && OnlyUnmarked(st, r.value)
                        && Done(repo, r.value, t)
    decreases |Unmarked(repo, st)|, 0
  {
    if t in repo && !repo[t].inert && t !in st.marks {
      var marked := Mark(repo, t, st);
      var needs := Resolved(lines, repo[t].required);
      UnmarkedShrinks(repo, st, marked, t);
      InstallAllKeepsSane(repo, lines, needs, marked);
      var r := InstallAll(repo, lines, needs, marked);
      if r.Some? {
        Emit(repo, lines, t, st, marked, r.value);
      }
    }
  }

  lemma Emit(repo: Repository, lines: seq<Line>, t: Name, st: State, marked: State, before: State)
    requires t in repo && !repo[t].inert && t !in st.marks && Sane(repo, st)
    requires marked == Mark(repo, t, st) && marked.marks <= before.marks
    requires Sane(repo, before) && Closed(repo, lines, before) && OnlyUnmarked(marked, before)
    requires forall q :: q in Resolved(lines, repo[t].required) ==> Done(repo, before, q)
    ensures var after := State(before.marks, before.out + [t]);
            Sane(repo, after) && Closed(repo, lines, after) && OnlyUnmarked(st, after) && Done(repo, after, t)
  {
    var after := State(before.marks, before.out + [t]);
    assert before.out == st.out + before.out[|st.out|..];
    assert after.out[|st.out|..] == before.out[|st.out|..] + [t];
    assert t in marked.marks;
    assert t !in before.out;
    forall x, r | x in after.out && x in repo && r in repo[x].required ensures Done(repo, after, Resolve(lines, r)) {
      if x in before.out {
        assert Done(repo, before, Resolve(lines, r));
      } else {
        var i :| 0 <= i < |repo[t].required| && repo[t].required[i] == r;
        assert x == t;
        assert Resolved(lines, repo[t].required)[i] == Resolve(lines, r);
        assert Done(repo, before, Resolve(lines, r));
      }
    }
  }

  lemma {:induction false} InstallAllKeepsSane(repo: Repository, lines: seq<Line>, ts: seq<Name>, st: State)
    requires Sane(repo, st) && Closed(repo, lines, st)
    ensures var r := InstallAll(repo, lines, ts, st);
            r.Some? ==> Sane(repo, r.value) && Closed(repo, lines, r.value) && OnlyUnmarked(st, r.value)
                        && forall t :: t in ts ==> Done(repo, r.value, t)
    decreases |Unmarked(repo, st)|, |ts|
  {
    hide Sane, Closed, OnlyUnmarked, Done, Install, Unmarked;
    if ts == [] {
      NothingIsUnmarked(st);
    } else {
      InstallKeepsSane(repo, lines, ts[0], st);
      var first := Install(repo, lines, ts[0], st);
      if first.Some? {
        UnmarkedKeeps(repo, st, first.value);
        InstallAllKeepsSane(repo, lines, ts[1..], first.value);
        var r := InstallAll(repo, lines, ts[1..], first.value);
        if r.Some? {
          assert InstallAll(repo, lines, ts, st) == r;
          OnlyUnmarkedOn(st, first.value, r.value);
          DoneLater(repo, ts, first.value, r.value);
        }
      }
    }
  }

  lemma NothingIsUnmarked(st: State)
    ensures OnlyUnmarked(st, st)
  {
  }

  lemma OnlyUnmarkedOn(a: State, b: State, c: State)
    requires a.marks <= b.marks <= c.marks && a.out <= b.out <= c.out
    requires OnlyUnmarked(a, b) && OnlyUnmarked(b, c)
    ensures OnlyUnmarked(a, c)
  {
    assert c.out[|a.out|..] == b.out[|a.out|..] + c.out[|b.out|..];
    assert forall t :: t in a.marks ==> t in b.marks;
  }

  lemma DoneLater(repo: Repository, ts: seq<Name>, b: State, c: State)
    requires ts != [] && b.marks <= c.marks && Done(repo, b, ts[0]) && forall t :: t in ts[1..] ==> Done(repo, c, t)
    ensures forall t :: t in ts ==> Done(repo, c, t)
  {
    assert forall t :: t in b.marks ==> t in c.marks;
    assert forall t :: t in ts ==> t == ts[0] || t in ts[1..];
  }

  // ---- The order ----

  predicate Inert(repo: Repository, t: Name) {
    t in repo && repo[t].inert
  }

  /** The rank certifies that the resolved requirements of these targets have no cycle. */
  ghost predicate Ranked(repo: Repository, lines: seq<Line>, names: seq<Name>, rank: Name -> nat) {
    forall x, r :: x in names && x in repo && r in repo[x].required ==>
      Inert(repo, Resolve(lines, r)) || rank(Resolve(lines, r)) < rank(x)
  }

  /** One of these targets provides t. */
  ghost predicate Covered(repo: Repository, names: seq<Name>, t: Name) {
    exists y :: y in names && y in repo && t in repo[y].provided
  }

  /** q comes before position i of the output, or never: it is inert, or it is marked because some
      target that is or will be emitted provides it.  `stack` holds those that are being sourced. */
  ghost predicate Before(repo: Repository, st: State, i: nat, stack: seq<Name>, q: Name)
    requires i <= |st.out|
  {
    Inert(repo, q) || q in st.out[..i]
    || (q in st.marks && q !in st.out + stack && Covered(repo, st.out + stack, q))
  }

  ghost predicate Ordered(repo: Repository, lines: seq<Line>, st: State, stack: seq<Name>) {
    forall i, r :: 0 <= i < |st.out| && st.out[i] in repo && r in repo[st.out[i]].required ==>
      Before(repo, st, i, stack, Resolve(lines, r))
  }

  /** Every mark is that of a target emitted or being sourced, or provided by one. */
  ghost predicate Explained(repo: Repository, st: State, stack: seq<Name>) {
    forall m :: m in st.marks ==> m in st.out || m in stack || Covered(repo, st.out + stack, m)
  }

  /** Everything being sourced is of higher rank. */
  ghost predicate Above(stack: seq<Name>, rank: Name -> nat, t: Name) {
    forall a :: a in stack ==> rank(t) < rank(a)
  }

  ghost predicate InOrder(repo: Repository, lines: seq<Line>, st: State, stack: seq<Name>) {
    Ordered(repo, lines, st, stack) && Explained(repo, st, stack)
  }

  lemma CoveredGrows(repo: Repository, names: seq<Name>, more: seq<Name>, t: Name)
    requires Covered(repo, names, t) && forall y :: y in names ==> y in more
    ensures Covered(repo, more, t)
  {
  }

  /** Marking t puts it on the stack. */
  lemma Push(repo: Repository, lines: seq<Line>, t: Name, st: State, stack: seq<Name>)
    requires InOrder(repo, lines, st, stack) && t in repo && t !in st.marks
    ensures InOrder(repo, lines, Mark(repo, t, st), stack + [t])
  {
    var marked, stack' := Mark(repo, t, st), stack + [t];
    forall m | m in marked.marks ensures m in marked.out || m in stack' || Covered(repo, marked.out + stack', m) {
      if m in st.marks {
        if Covered(repo, st.out + stack, m) {
          CoveredGrows(repo, st.out + stack, marked.out + stack', m);
        }
      } else if m in repo[t].provided {
        assert t in marked.out + stack';
      }
    }
    forall i, r | 0 <= i < |st.out| && st.out[i] in repo && r in repo[st.out[i]].required
      ensures Before(repo, marked, i, stack', Resolve(lines, r))
    {
      StillBefore(repo, st, i, stack, marked, stack', Resolve(lines, r));
    }
  }

  /** What is marked is not sourced again, so what never comes will not come later. */
  lemma StillBefore(repo: Repository, st: State, i: nat, stack: seq<Name>, st': State, stack': seq<Name>, q: Name)
    requires i <= |st.out| && st.out <= st'.out && Before(repo, st, i, stack, q)
    requires forall m :: m in st.marks ==> m in st'.marks
    requires forall y :: y in st.out + stack ==> y in st'.out + stack'
    requires forall y :: y in st'.out + stack' ==> y in st.out + stack || y !in st.marks
    ensures Before(repo, st', i, stack', q)
  {
    assert st'.out[..i] == st.out[..i];
    if Covered(repo, st.out + stack, q) {
      CoveredGrows(repo, st.out + stack, st'.out + stack', q);
    }
  }

  /** Emitting t takes it off the stack; its requirements come before it, because none of them
      can be on the stack. */
  lemma Pop(repo: Repository, lines: seq<Line>, t: Name, st: State, stack: seq<Name>, final: seq<Name>,
            rank: Name -> nat)
    requires InOrder(repo, lines, st, stack + [t]) && t in repo
    requires t in final && Ranked(repo, lines, final, rank) && Above(stack, rank, t)
    requires forall r :: r in repo[t].required ==> Done(repo, st, Resolve(lines, r))
    ensures InOrder(repo, lines, State(st.marks, st.out + [t]), stack)
  {
    var after := State(st.marks, st.out + [t]);
    assert forall y :: y in st.out + (stack + [t]) <==> y in after.out + stack;
    forall m | m in st.marks ensures m in after.out || m in stack || Covered(repo, after.out + stack, m) {
      if Covered(repo, st.out + (stack + [t]), m) {
        CoveredGrows(repo, st.out + (stack + [t]), after.out + stack, m);
      }
    }
    forall i, r | 0 <= i < |after.out| && after.out[i] in repo && r in repo[after.out[i]].required
      ensures Before(repo, after, i, stack, Resolve(lines, r))
    {
      var q := Resolve(lines, r);
      if i < |st.out| {
        StillBefore(repo, st, i, stack + [t], after, stack, q);
      } else {
        assert after.out[..i] == st.out;
        assert Done(repo, st, q);
        if !Inert(repo, q) && Covered(repo, st.out + (stack + [t]), q) {
          CoveredGrows(repo, st.out + (stack + [t]), after.out + stack, q);
        }
      }
    }
  }

  /** `final` is what is emitted in the end. */
  lemma {:induction false} InstallInOrder(repo: Repository, lines: seq<Line>, t: Name, st: State, stack: seq<Name>,
                                          final: seq<Name>, rank: Name -> nat)
    requires Sane(repo, st) && Closed(repo, lines, st)
    requires InOrder(repo, lines, st, stack) && Ranked(repo, lines, final, rank)
    requires Inert(repo, t) || Above(stack, rank, t)
    requires var r := Install(repo, lines, t, st); r.Some? ==> r.value.out <= final
    ensures var r := Install(repo, lines, t, st);
            r.Some? ==> InOrder(repo, lines, r.value, stack)
    decreases |Unmarked(repo, st)|, 0
  {
    hide InOrder, Sane, Closed, Ranked;
    if Install(repo, lines, t, st).Some? && !repo[t].inert && t !in st.marks {
      var marked := Mark(repo, t, st);
      var needs := Resolved(lines, repo[t].required);
      UnmarkedShrinks(repo, st, marked, t);
      var r := InstallAll(repo, lines, needs, marked);
      Push(repo, lines, t, st, stack);
      MarkKeepsSane(repo, lines, t, st);
      InstallAllKeepsSane(repo, lines, needs, marked);
      assert (r.value.out + [t])[|r.value.out|] == t;
      NeedsBelow(repo, lines, t, stack, final, rank);
      InstallAllInOrder(repo, lines, needs, marked, stack + [t], final, rank);
      forall q | q in repo[t].required ensures Done(repo, r.value, Resolve(lines, q)) {
        var i :| 0 <= i < |repo[t].required| && repo[t].required[i] == q;
        assert needs[i] == Resolve(lines, q);
      }
      Pop(repo, lines, t, r.value, stack, final, rank);
    }
  }

  lemma MarkKeepsSane(repo: Repository, lines: seq<Line>, t: Name, st: State)
    requires Sane(repo, st) && Closed(repo, lines, st) && t in repo
    ensures Sane(repo, Mark(repo, t, st))
    ensures Closed(repo, lines, Mark(repo, t, st))
  {
    var marked := Mark(repo, t, st);
    forall x, r | x in st.out && x in repo && r in repo[x].required ensures Done(repo, marked, Resolve(lines, r)) {
      assert Done(repo, st, Resolve(lines, r));
    }
  }

  lemma NeedsBelow(repo: Repository, lines: seq<Line>, t: Name, stack: seq<Name>, final: seq<Name>, rank: Name -> nat)
    requires t in repo && t in final && Ranked(repo, lines, final, rank) && Above(stack, rank, t)
    ensures forall q :: q in Resolved(lines, repo[t].required) ==> Inert(repo, q) || Above(stack + [t], rank, q)
  {
    forall q | q in Resolved(lines, repo[t].required) ensures Inert(repo, q) || Above(stack + [t], rank, q) {
      var i :| 0 <= i < |repo[t].required| && Resolved(lines, repo[t].required)[i] == q;
      assert repo[t].required[i] in repo[t].required;
    }
  }

  lemma {:induction false} InstallAllInOrder(repo: Repository, lines: seq<Line>, ts: seq<Name>, st: State,
                                             stack: seq<Name>, final: seq<Name>, rank: Name -> nat)
    requires Sane(repo, st) && Closed(repo, lines, st)
    requires InOrder(repo, lines, st, stack) && Ranked(repo, lines, final, rank)
    requires forall t :: t in ts ==> Inert(repo, t) || Above(stack, rank, t)
    requires var r := InstallAll(repo, lines, ts, st); r.Some? ==> r.value.out <= final
    ensures var r := InstallAll(repo, lines, ts, st);
            r.Some? ==> InOrder(repo, lines, r.value, stack)
    decreases |Unmarked(repo, st)|, |ts|
  {
    hide InOrder, Sane, Closed, Above, Ranked;
    if ts != [] && InstallAll(repo, lines, ts, st).Some? {
      var first := Install(repo, lines, ts[0], st);
      InstallInOrder(repo, lines, ts[0], st, stack, final, rank);
      InstallKeepsSane(repo, lines, ts[0], st);
      UnmarkedKeeps(repo, st, first.value);
      InstallAllInOrder(repo, lines, ts[1..], first.value, stack, final, rank);
    }
  }

  // ---- The driver ----

  /** The first run over the chosen targets collects what they provide. */
  function ProvidedBy(repo: Repository, ts: seq<Name>): (r: Option<seq<Line>>) {
    if ts == [] then Some([])
    else if ts[0] !in repo then None
    else
      var rest := ProvidedBy(repo, ts[1..]);
      if rest.None? then None
      else Some(OwnLines(repo, ts[0]) + rest.value)
  }

  function OwnLines(repo: Repository, t: Name): seq<Line>
    requires t in repo
  {
    if repo[t].inert then [] else LinesOf(repo[t].provided, t)
  }

  function LinesOf(names: seq<Name>, t: Name): (r: seq<Line>)
    ensures |r| == |names|
  {
    seq(|names|, i requires 0 <= i < |names| => Line(names[i], t))
  }

  function Plus(before: seq<Line>, lines: Option<seq<Line>>): Option<seq<Line>> {
    if lines.None? then None else Some(before + lines.value)
  }

  lemma PlusFirst(repo: Repository, before: seq<Line>, ts: seq<Name>)
    requires ts != [] && ts[0] in repo
    ensures Plus(before, ProvidedBy(repo, ts)) == Plus(before + OwnLines(repo, ts[0]), ProvidedBy(repo, ts[1..]))
  {
    hide OwnLines;
    var rest := ProvidedBy(repo, ts[1..]);
    if rest.Some? {
      Associative(before, OwnLines(repo, ts[0]), rest.value);
    }
  }

  const POST_COMMON: Name := "post-common"

  /** Everything that is sourced, in order: the custom target file, the chosen targets, and what
      comes last always. */
  function Sourced(custom: Option<Name>, targets: seq<Name>): seq<Name> {
    (if custom.Some? then [custom.value] else []) + targets + [POST_COMMON]
  }

  function LinesFor(repo: Repository, targets: seq<Name>, restore: bool): seq<Line> {
    if restore then []
    else if ProvidedBy(repo, targets).Some? then ProvidedBy(repo, targets).value else []
  }

  function Drive(repo: Repository, custom: Option<Name>, targets: seq<Name>, restore: bool): Option<State> {
    if !restore && ProvidedBy(repo, targets).None? then None
    else InstallAll(repo, LinesFor(repo, targets, restore), Sourced(custom, targets), State([], []))
  }

  lemma {:induction false} ProviderInFirst(own: seq<Line>, rest: seq<Line>, target: Name, t: Name)
    requires forall l :: l in own ==> l.target == target
    ensures Provider(own + rest, t) == if exists l :: l in own && l.name == t then target else Provider(rest, t)
  {
    if own == [] {
      assert own + rest == rest;
    } else {
      assert own[0] in own;
      assert (own + rest)[1..] == own[1..] + rest;
      ProviderInFirst(own[1..], rest, target, t);
    }
  }

  /** The target stands for this name, unless another one comes first. */
  predicate Offers(repo: Repository, t: Name, name: Name) {
    t in repo && !repo[t].inert && name in repo[t].provided
  }

  lemma OwnLinesAre(repo: Repository, t: Name, name: Name)
    requires t in repo
    ensures forall l :: l in OwnLines(repo, t) ==> l.target == t
    ensures (exists l :: l in OwnLines(repo, t) && l.name == name) <==> Offers(repo, t, name)
  {
    if !repo[t].inert && name in repo[t].provided {
      var i :| 0 <= i < |repo[t].provided| && repo[t].provided[i] == name;
      assert OwnLines(repo, t)[i].name == name;
    }
  }

  /** Of several chosen targets that provide a name, the one chosen first stands for it; and the name
      stands for itself if there is none, or if only host-bin is restored. */
  lemma {:induction false} FirstChosenStandsFor(repo: Repository, targets: seq<Name>, name: Name)
    requires ProvidedBy(repo, targets).Some?
    ensures forall i :: 0 <= i < |targets| && Offers(repo, targets[i], name)
                        && (forall j :: 0 <= j < i ==> !Offers(repo, targets[j], name)) ==>
              Provider(LinesFor(repo, targets, false), name) == targets[i]
    ensures (forall t :: t in targets ==> !Offers(repo, t, name)) ==>
              Provider(LinesFor(repo, targets, false), name) == name
    ensures Provider(LinesFor(repo, targets, true), name) == name
  {
    if targets != [] {
      var first, rest := targets[0], targets[1..];
      FirstChosenStandsFor(repo, rest, name);
      OwnLinesAre(repo, first, name);
      ProviderInFirst(OwnLines(repo, first), ProvidedBy(repo, rest).value, first, name);
      hide Offers, OwnLines, Provider;
      forall i | 0 < i < |targets| && Offers(repo, targets[i], name)
                 && (forall j :: 0 <= j < i ==> !Offers(repo, targets[j], name))
        ensures Provider(LinesFor(repo, targets, false), name) == targets[i]
      {
        assert targets[i] == rest[i - 1];
        assert forall j :: 0 <= j < i - 1 ==> rest[j] == targets[j + 1];
        assert !Offers(repo, targets[0], name);
      }
    }
  }

  /** An installation that succeeds emits no target twice; the custom target file, the chosen
      targets and post-common are marked, and so is every resolved requirement of what is emitted,
      unless it is inert. */
  lemma InstallsWhatIsNeeded(repo: Repository, custom: Option<Name>, targets: seq<Name>, restore: bool)
    requires Drive(repo, custom, targets, restore).Some?
    ensures var st := Drive(repo, custom, targets, restore).value;
            var lines := LinesFor(repo, targets, restore);
            && NoDuplicates(st.out)
            && (custom.Some? ==> Done(repo, st, custom.value))
            && (forall t :: t in targets ==> Done(repo, st, t))
            && Done(repo, st, "post-common")
            && (forall x, r :: x in st.out && x in repo && r in repo[x].required ==> Done(repo, st, Resolve(lines, r)))
  {
    InstallAllKeepsSane(repo, LinesFor(repo, targets, restore), Sourced(custom, targets), State([], []));
    SourcedAre(custom, targets);
  }

  lemma SourcedAre(custom: Option<Name>, targets: seq<Name>)
    ensures forall t :: t in Sourced(custom, targets) <==> custom == Some(t) || t in targets || t == "post-common"
  {
  }

  // ---- Nothing more than what is needed ----

  /** Something named here requires t. */
  ghost predicate Needed(repo: Repository, lines: seq<Line>, names: set<Name>, t: Name) {
    exists x, r :: x in names && x in repo && r in repo[x].required && Resolve(lines, r) == t
  }

  ghost predicate Provides(repo: Repository, names: set<Name>, m: Name) {
    exists y :: y in names && y in repo && m in repo[y].provided
  }

  /** What is marked is named here, or provided by what is; all of it is marked; and each name is
      one of the roots or is needed by another. */
  ghost predicate Accounted(repo: Repository, lines: seq<Line>, marks: seq<Name>, names: set<Name>, roots: seq<Name>) {
    && (forall m :: m in marks <==> m in names || Provides(repo, names, m))
    && (forall y :: y in names ==> y in roots || Needed(repo, lines, names, y))
  }

  /** What was emitted, and what is being sourced. */
  function Names(st: State, stack: set<Name>): set<Name> {
    (set t | t in st.out) + stack
  }

  lemma MarkAccounts(repo: Repository, lines: seq<Line>, t: Name, st: State, names: set<Name>, roots: seq<Name>)
    requires Accounted(repo, lines, st.marks, names, roots) && t in repo
    requires t in roots || Needed(repo, lines, names, t)
    ensures Accounted(repo, lines, Mark(repo, t, st).marks, names + {t}, roots)
    ensures forall q :: q in Resolved(lines, repo[t].required) ==> Needed(repo, lines, names + {t}, q)
  {
    var marks := Mark(repo, t, st).marks;
    forall m ensures m in marks <==> m in names + {t} || Provides(repo, names + {t}, m) {
      if Provides(repo, names, m) {
        var y :| y in names && y in repo && m in repo[y].provided;
        assert y in names + {t};
      }
      if m in repo[t].provided {
        assert t in names + {t};
      }
    }
    forall y | y in names + {t} && y !in roots ensures Needed(repo, lines, names + {t}, y) {
      NeededOn(repo, lines, names, names + {t}, y);
    }
    forall q | q in Resolved(lines, repo[t].required) ensures Needed(repo, lines, names + {t}, q) {
      var i :| 0 <= i < |repo[t].required| && Resolved(lines, repo[t].required)[i] == q;
      assert repo[t].required[i] in repo[t].required && t in names + {t};
    }
  }

  lemma NeededOn(repo: Repository, lines: seq<Line>, names: set<Name>, more: set<Name>, t: Name)
    requires Needed(repo, lines, names, t) && names <= more
    ensures Needed(repo, lines, more, t)
  {
    var x, r :| x in names && x in repo && r in repo[x].required && Resolve(lines, r) == t;
    assert x in more;
  }

  lemma {:induction false} InstallAccounts(repo: Repository, lines: seq<Line>, t: Name, st: State, stack: set<Name>,
                                           roots: seq<Name>)
    requires Accounted(repo, lines, st.marks, Names(st, stack), roots)
    requires t in roots || Needed(repo, lines, Names(st, stack), t)
    ensures var r := Install(repo, lines, t, st);
            r.Some? ==> Accounted(repo, lines, r.value.marks, Names(r.value, stack), roots)
    decreases |Unmarked(repo, st)|, 0
  {
    hide Accounted, Needed;
    if Install(repo, lines, t, st).Some? && !repo[t].inert && t !in st.marks {
      var marked, needs := Mark(repo, t, st), Resolved(lines, repo[t].required);
      UnmarkedShrinks(repo, st, marked, t);
      MarkAccounts(repo, lines, t, st, Names(st, stack), roots);
      assert Names(st, stack) + {t} == Names(marked, stack + {t});
      InstallAllAccounts(repo, lines, needs, marked, stack + {t}, roots);
      var r := InstallAll(repo, lines, needs, marked).value;
      assert Names(State(r.marks, r.out + [t]), stack) == Names(r, stack + {t});
    }
  }

  lemma {:induction false} InstallAllAccounts(repo: Repository, lines: seq<Line>, ts: seq<Name>, st: State,
                                              stack: set<Name>, roots: seq<Name>)
    requires Accounted(repo, lines, st.marks, Names(st, stack), roots)
    requires forall t :: t in ts ==> t in roots || Needed(repo, lines, Names(st, stack), t)
    ensures var r := InstallAll(repo, lines, ts, st);
            r.Some? ==> Accounted(repo, lines, r.value.marks, Names(r.value, stack), roots)
    decreases |Unmarked(repo, st)|, |ts|
  {
    hide Accounted, Needed, Install;
    if ts != [] && Install(repo, lines, ts[0], st).Some? {
      var first := Install(repo, lines, ts[0], st).value;
      InstallAccounts(repo, lines, ts[0], st, stack, roots);
      UnmarkedKeeps(repo, st, first);
      assert Names(st, stack) <= Names(first, stack);
      forall t | t in ts[1..] && t !in roots ensures Needed(repo, lines, Names(first, stack), t) {
        NeededOn(repo, lines, Names(st, stack), Names(first, stack), t);
      }
      InstallAllAccounts(repo, lines, ts[1..], first, stack, roots);
    }
  }

  /** And it emits nothing else: every target emitted is the custom target file, a chosen target,
      post-common, or what a requirement of an emitted one resolves to.  The marks are exactly what
      was emitted and what that provides. */
  lemma InstallsNothingElse(repo: Repository, custom: Option<Name>, targets: seq<Name>, restore: bool)
    requires Drive(repo, custom, targets, restore).Some?
    ensures var st := Drive(repo, custom, targets, restore).value;
            var names := set t | t in st.out;
            && (forall t :: t in st.out ==>
                  || custom == Some(t) || t in targets || t == "post-common"
                  || Needed(repo, LinesFor(repo, targets, restore), names, t))
            && (forall m :: m in st.marks <==> m in names || Provides(repo, names, m))
  {
    hide Needed, Provides;
    var st, lines := Drive(repo, custom, targets, restore).value, LinesFor(repo, targets, restore);
    NothingAccounts(repo, lines, Sourced(custom, targets));
    SourcedAre(custom, targets);
    InstallAllAccounts(repo, lines, Sourced(custom, targets), State([], []), {}, Sourced(custom, targets));
    hide Drive, LinesFor, Sourced, InstallAll;
    assert Names(st, {}) == set t | t in st.out;
  }

  lemma NothingAccounts(repo: Repository, lines: seq<Line>, roots: seq<Name>)
    ensures Accounted(repo, lines, [], Names(State([], []), {}), roots)
  {
  }

  /** Nothing but the end of the installation asks for post-common, and nothing provides it. */
  ghost predicate OnlyAtTheEnd(repo: Repository, lines: seq<Line>, custom: Option<Name>, targets: seq<Name>) {
    && "post-common" in repo && !repo["post-common"].inert
    && custom != Some("post-common") && "post-common" !in targets
    && (forall x, r :: x in repo && r in repo[x].required ==> Resolve(lines, r) != "post-common")
    && (forall y :: y in repo ==> "post-common" !in repo[y].provided)
  }

  /** Then it comes last, whatever the custom target file and the chosen targets require. */
  lemma PostCommonIsLast(repo: Repository, custom: Option<Name>, targets: seq<Name>, restore: bool)
    requires Drive(repo, custom, targets, restore).Some?
    requires OnlyAtTheEnd(repo, LinesFor(repo, targets, restore), custom, targets)
    ensures var out := Drive(repo, custom, targets, restore).value.out;
            out != [] && out[|out| - 1] == "post-common"
  {
    var lines := LinesFor(repo, targets, restore);
    var chosen := (if custom.Some? then [custom.value] else []) + targets;
    InstallAllLast(repo, lines, chosen, POST_COMMON, State([], []));
    NothingAccounts(repo, lines, chosen);
    InstallAllAccounts(repo, lines, chosen, State([], []), {}, chosen);
    NotYet(repo, lines, InstallAll(repo, lines, chosen, State([], [])).value, chosen);
  }

  lemma NotYet(repo: Repository, lines: seq<Line>, st: State, roots: seq<Name>)
    requires Accounted(repo, lines, st.marks, Names(st, {}), roots) && OnlyAtTheEnd(repo, lines, None, roots)
    ensures POST_COMMON !in st.marks
  {
  }

  lemma {:induction false} InstallAllLast(repo: Repository, lines: seq<Line>, ts: seq<Name>, t: Name, st: State)
    ensures InstallAll(repo, lines, ts + [t], st)
         == if InstallAll(repo, lines, ts, st).None? then None
            else Install(repo, lines, t, InstallAll(repo, lines, ts, st).value)
    decreases |ts|
  {
    hide Install;
    if ts == [] {
      assert ts + [t] == [t];
      InstallAllOne(repo, lines, t, st);
    } else {
      assert (ts + [t])[1..] == ts[1..] + [t];
      var first := Install(repo, lines, ts[0], st);
      if first.Some? {
        InstallAllLast(repo, lines, ts[1..], t, first.value);
      }
    }
  }

  /** Every requirement of an emitted target comes before it, or never does, because it is inert
      or because some emitted target provides it. */
  ghost predicate RequiredFirst(repo: Repository, lines: seq<Line>, out: seq<Name>) {
    forall i, r :: 0 <= i < |out| && out[i] in repo && r in repo[out[i]].required ==>
      ComesFirst(repo, out, i, Resolve(lines, r))
  }

  ghost predicate ComesFirst(repo: Repository, out: seq<Name>, i: nat, q: Name)
    requires i <= |out|
  {
    Inert(repo, q) || q in out[..i] || (q !in out && Covered(repo, out, q))
  }

  /** If the resolved requirements of the emitted targets have no cycle, they come first. */
  lemma RequirementsComeFirst(repo: Repository, custom: Option<Name>, targets: seq<Name>, restore: bool,
                              rank: Name -> nat)
    requires Drive(repo, custom, targets, restore).Some?
    requires Ranked(repo, LinesFor(repo, targets, restore), Drive(repo, custom, targets, restore).value.out, rank)
    ensures RequiredFirst(repo, LinesFor(repo, targets, restore), Drive(repo, custom, targets, restore).value.out)
  {
    hide Ranked;
    var lines := LinesFor(repo, targets, restore);
    var st := Drive(repo, custom, targets, restore).value;
    InstallAllInOrder(repo, lines, Sourced(custom, targets), State([], []), [], st.out, rank);
    assert st.out + [] == st.out;
    forall i, r | 0 <= i < |st.out| && st.out[i] in repo && r in repo[st.out[i]].required
      ensures ComesFirst(repo, st.out, i, Resolve(lines, r))
    {
      assert Before(repo, st, i, [], Resolve(lines, r));
    }
  }

  /** Position of a target in the output, from 1; 0 for all others. */
  function Position(out: seq<Name>, t: Name): (p: nat)
    ensures p <= |out| && (0 < p <==> t in out) && (0 < p ==> out[p - 1] == t)
  {
    if out == [] then 0
    else
      var last := |out| - 1;
      assert out == out[..last] + [out[last]];
      if out[last] == t then |out| else Position(out[..last], t)
  }

  /** And only then: an installation emits every requirement first if and only if the resolved
      requirements of what it emits have no cycle. */
  lemma OrderIsAcyclicity(repo: Repository, custom: Option<Name>, targets: seq<Name>, restore: bool)
    requires Drive(repo, custom, targets, restore).Some?
    ensures var out := Drive(repo, custom, targets, restore).value.out;
            var lines := LinesFor(repo, targets, restore);
            RequiredFirst(repo, lines, out) <==> exists rank: Name -> nat :: Ranked(repo, lines, out, rank)
  {
    var out := Drive(repo, custom, targets, restore).value.out;
    var lines := LinesFor(repo, targets, restore);
    InstallsWhatIsNeeded(repo, custom, targets, restore);
    hide Drive, LinesFor;
    if RequiredFirst(repo, lines, out) {
      PositionIsRank(repo, lines, out);
      assert Ranked(repo, lines, out, t => Position(out, t));
    }
    if rank: Name -> nat :| Ranked(repo, lines, out, rank) {
      RequirementsComeFirst(repo, custom, targets, restore, rank);
    }
  }

  lemma PositionIsRank(repo: Repository, lines: seq<Line>, out: seq<Name>)
    requires NoDuplicates(out) && RequiredFirst(repo, lines, out)
    ensures Ranked(repo, lines, out, t => Position(out, t))
  {
    forall x, r | x in out && x in repo && r in repo[x].required
      ensures Inert(repo, Resolve(lines, r)) || Position(out, Resolve(lines, r)) < Position(out, x)
    {
      var i, q := Position(out, x) - 1, Resolve(lines, r);
      assert ComesFirst(repo, out, i, q);
      if q in out[..i] {
        var j :| 0 <= j < i && out[j] == q;
        assert out[Position(out, q) - 1] == out[j];
      }
    }
  }

  /** Every requirement is resolved to a target that exists. */
  ghost predicate Complete(repo: Repository, lines: seq<Line>) {
    forall x, r :: x in repo && r in repo[x].required ==> Resolve(lines, r) in repo
  }

  lemma {:induction false} InstallSucceeds(repo: Repository, lines: seq<Line>, t: Name, st: State)
    requires Complete(repo, lines) && t in repo
    ensures Install(repo, lines, t, st).Some?
    decreases |Unmarked(repo, st)|, 0
  {
    if !repo[t].inert && t !in st.marks {
      UnmarkedShrinks(repo, st, Mark(repo, t, st), t);
      forall q | q in Resolved(lines, repo[t].required) ensures q in repo {
        var i :| 0 <= i < |repo[t].required| && Resolved(lines, repo[t].required)[i] == q;
        assert repo[t].required[i] in repo[t].required;
      }
      InstallAllSucceeds(repo, lines, Resolved(lines, repo[t].required), Mark(repo, t, st));
    }
  }

  lemma {:induction false} InstallAllSucceeds(repo: Repository, lines: seq<Line>, ts: seq<Name>, st: State)
    requires Complete(repo, lines) && forall t :: t in ts ==> t in repo
    ensures InstallAll(repo, lines, ts, st).Some?
    decreases |Unmarked(repo, st)|, |ts|
  {
    if ts != [] {
      InstallSucceeds(repo, lines, ts[0], st);
      var first := Install(repo, lines, ts[0], st).value;
      UnmarkedKeeps(repo, st, first);
      InstallAllSucceeds(repo, lines, ts[1..], first);
    }
  }

  lemma {:induction false} ProvidedBySucceeds(repo: Repository, ts: seq<Name>)
    ensures ProvidedBy(repo, ts).Some? <==> forall t :: t in ts ==> t in repo
  {
    if ts != [] {
      ProvidedBySucceeds(repo, ts[1..]);
      assert ts == [ts[0]] + ts[1..];
    }
  }

  /** An installation ends in success, whatever cycles there are, if nothing is missing. */
  lemma SucceedsIfComplete(repo: Repository, custom: Option<Name>, targets: seq<Name>, restore: bool)
    requires Complete(repo, LinesFor(repo, targets, restore))
    requires forall t :: t in Sourced(custom, targets) ==> t in repo
    ensures Drive(repo, custom, targets, restore).Some?
  {
    assert forall t :: t in targets ==> t in Sourced(custom, targets);
    ProvidedBySucceeds(repo, targets);
    InstallAllSucceeds(repo, LinesFor(repo, targets, restore), Sourced(custom, targets), State([], []));
  }

  /** The targets of this repository that an installation of xiwi involves. */
  const XIWI: Repository := map["audio" := Target([], [], true),
                                "extension" := Target(["x11"], [], false),
                                "xiwi" := Target(["audio", "extension"], ["x11"], false),
                                POST_COMMON := Target([], [], false)]

  /** With a cycle the order can be broken: extension requires x11, which xiwi provides, and xiwi
      requires extension, which therefore comes first. */
  lemma CycleBreaksOrder()
    ensures var r := Drive(XIWI, None, ["xiwi"], false);
            r.Some? && r.value.out == ["extension", "xiwi", POST_COMMON]
            && !RequiredFirst(XIWI, LinesFor(XIWI, ["xiwi"], false), r.value.out)
  {
    hide InstallAll, Install;
    var lines := [Line("x11", "xiwi")];
    XiwiLines();
    XiwiComesLast();
    var st := State(["xiwi", "x11", "extension"], ["extension", "xiwi"]);
    CommonComesLast(lines, st);
    assert Sourced(None, ["xiwi"]) == ["xiwi", POST_COMMON];
    InstallAllTwo(XIWI, lines, "xiwi", POST_COMMON, State([], []));
    var out: seq<Name> := ["extension", "xiwi"];
    assert out + [POST_COMMON] == ["extension", "xiwi", POST_COMMON];
    OrderIsBroken(lines);
  }

  lemma XiwiLines()
    ensures ProvidedBy(XIWI, ["xiwi"]) == Some([Line("x11", "xiwi")])
  {
    assert ["xiwi"][1..] == [];
    assert LinesOf(["x11"], "xiwi") + [] == [Line("x11", "xiwi")];
  }

  lemma OrderIsBroken(lines: seq<Line>)
    requires lines == [Line("x11", "xiwi")]
    ensures !RequiredFirst(XIWI, lines, ["extension", "xiwi", POST_COMMON])
  {
    var out: seq<Name> := ["extension", "xiwi", POST_COMMON];
    assert out[0] == "extension" && out[1] == "xiwi" && Resolve(lines, "x11") == "xiwi";
    assert !ComesFirst(XIWI, out, 0, Resolve(lines, "x11"));
  }

  lemma XiwiComesLast()
    ensures Install(XIWI, [Line("x11", "xiwi")], "xiwi", State([], []))
         == Some(State(["xiwi", "x11", "extension"], ["extension", "xiwi"]))
  {
    var lines := [Line("x11", "xiwi")];
    var st := State(["xiwi", "x11"], []);
    ResolveOther(lines, "audio");
    ResolveOther(lines, "extension");
    assert Resolved(lines, ["audio", "extension"]) == ["audio", "extension"];
    assert Mark(XIWI, "xiwi", State([], [])) == st;
    ExtensionComesFirst(lines, st);
    assert Install(XIWI, lines, "audio", st) == Some(st);
    InstallAllTwo(XIWI, lines, "audio", "extension", st);
    var first: seq<Name> := ["extension"];
    assert first + ["xiwi"] == ["extension", "xiwi"];
  }

  lemma ExtensionComesFirst(lines: seq<Line>, st: State)
    requires lines == [Line("x11", "xiwi")] && st == State(["xiwi", "x11"], [])
    ensures Install(XIWI, lines, "extension", st) == Some(State(["xiwi", "x11", "extension"], ["extension"]))
  {
    var st2 := State(["xiwi", "x11", "extension"], []);
    assert Resolved(lines, ["x11"]) == ["xiwi"];
    assert Mark(XIWI, "extension", st) == st2;
    InstallAllOne(XIWI, lines, "xiwi", st2);
    assert Install(XIWI, lines, "xiwi", st2) == Some(st2);
    var first: seq<Name> := ["extension"];
    assert st2.out + first == first;
  }

  lemma CommonComesLast(lines: seq<Line>, st: State)
    requires POST_COMMON !in st.marks
    ensures Install(XIWI, lines, POST_COMMON, st) == Some(State(st.marks + [POST_COMMON], st.out + [POST_COMMON]))
  {
    assert Resolved(lines, []) == [];
    assert Mark(XIWI, POST_COMMON, st) == State(st.marks + [POST_COMMON], st.out) by {
      assert st.marks + [POST_COMMON] + [] == st.marks + [POST_COMMON];
    }
  }

  lemma InstallAllTwo(repo: Repository, lines: seq<Line>, t: Name, u: Name, st: State)
    ensures InstallAll(repo, lines, [t, u], st)
         == if Install(repo, lines, t, st).None? then None
            else Install(repo, lines, u, Install(repo, lines, t, st).value)
  {
    assert [t, u][1..] == [u];
    if Install(repo, lines, t, st).Some? {
      InstallAllOne(repo, lines, u, Install(repo, lines, t, st).value);
    }
  }

  lemma InstallAllOne(repo: Repository, lines: seq<Line>, t: Name, st: State)
    ensures InstallAll(repo, lines, [t], st) == Install(repo, lines, t, st)
  {
    assert [t][1..] == [];
  }

  lemma ResolveOther(lines: seq<Line>, t: Name)
    requires lines == [Line("x11", "xiwi")] && |t| > 3
    ensures Resolve(lines, t) == t
  {
    assert lines[1..] == [];
  }

  // ---- The list of chosen targets ----

  /** Adds the targets of a list file: those that exist and were not chosen already. */
  function AddTargets(repo: Repository, targets: seq<Name>, listed: seq<Name>): seq<Name>
    decreases |listed|
  {
    if listed == [] then targets
    else if listed[0] == "" || listed[0] in targets || listed[0] !in repo then AddTargets(repo, targets, listed[1..])
    else AddTargets(repo, targets + [listed[0]], listed[1..])
  }

  /** What was chosen explicitly stays first; what is added exists and is no repetition; and
      nothing is left out that exists. */
  lemma {:induction false} AddsEachOnce(repo: Repository, targets: seq<Name>, listed: seq<Name>)
    ensures var r := AddTargets(repo, targets, listed);
            && targets <= r
            && (forall t :: t in r <==> t in targets || (t in listed && t != "" && t in repo))
            && (NoDuplicates(targets) ==> NoDuplicates(r))
    decreases |listed|
  {
    if listed != [] {
      var more := if listed[0] == "" || listed[0] in targets || listed[0] !in repo then targets
                  else targets + [listed[0]];
      AddsEachOnce(repo, more, listed[1..]);
      assert listed == [listed[0]] + listed[1..];
    }
  }

  // ---- The shell scripts ----

  class Installer {
    const repo: Repository
    /** The comma-separated list of targets, without its empty fields. */
    var targets: seq<Name>
    var provides_: seq<Line>
    var dedup: seq<Name>
    var prepare: seq<Name>

    constructor (repo: Repository, targets: seq<Name>)
      ensures this.repo == repo && this.targets == targets && provides_ == [] && dedup == [] && prepare == []
    {
      this.repo, this.targets := repo, targets;
      provides_, dedup, prepare := [], [], [];
    }

    ghost function Value(): State
      reads this
    {
      State(dedup, prepare)
    }

    method DedupTargets(listed: seq<Name>)
      modifies this`targets
      ensures targets == AddTargets(repo, old(targets), listed)
    {
      var t := listed;
      while t != []
        invariant AddTargets(repo, targets, t) == AddTargets(repo, old(targets), listed)
        decreases |t|
      {
        var target := t[0];
        t := t[1..];
        if target == "" {
          continue;
        }
        if target in targets {
          continue;
        }
        if target !in repo {
          continue;
        }
        targets := targets + [target];
      }
    }

    /** Sources a target; false when something is missing. */
    method Source(target: Name) returns (ok: bool)
      modifies this`dedup, this`prepare
      ensures var r := Install(repo, provides_, target, old(Value()));
              ok == r.Some? && (ok ==> Value() == r.value)
      decreases |Unmarked(repo, Value())|, 0
    {
      if target !in repo {
        return false;
      }
      var file := repo[target];
      if file.inert || target in dedup {
        return true;
      }
      dedup := dedup + [target];
      for i := 0 to |file.provided|
        invariant prepare == old(prepare) && dedup == old(dedup) + [target] + file.provided[..i]
      {
        dedup := dedup + [file.provided[i]];
      }
      assert file.provided[..|file.provided|] == file.provided;
      ghost var marked, needs := Value(), Resolved(provides_, file.required);
      assert marked == Mark(repo, target, old(Value()));
      UnmarkedShrinks(repo, old(Value()), marked, target);
      ok := SourceAll(file.required);
      if ok {
        prepare := prepare + [target];
      }
    }

    /** Sources the providers of the requirements, until one fails. */
    method SourceAll(required: seq<Name>) returns (ok: bool)
      modifies this`dedup, this`prepare
      ensures var r := InstallAll(repo, provides_, Resolved(provides_, required), old(Value()));
              ok == r.Some? && (ok ==> Value() == r.value)
      decreases |Unmarked(repo, Value())|, 1
    {
      ghost var needs := Resolved(provides_, required);
      for i := 0 to |required|
        invariant old(dedup) <= dedup
        invariant InstallAll(repo, provides_, needs, old(Value())) == InstallAll(repo, provides_, needs[i..], Value())
      {
        var t := FindProvider(required[i]);
        UnmarkedKeeps(repo, old(Value()), Value());
        ok := Source(t);
        if !ok {
          return false;
        }
      }
      return true;
    }

    /** awk: the second field of the first line that matches, or the name itself. */
    method FindProvider(t: Name) returns (r: Name)
      ensures r == Resolve(provides_, t)
    {
      var i := 0;
      while i < |provides_|
        invariant 0 <= i <= |provides_|
        invariant Resolve(provides_, t) == Resolve(provides_[i..], t)
      {
        if EndsWith(provides_[i].name, t) {
          return provides_[i].target;
        }
        i := i + 1;
      }
      return t;
    }

    method CollectProvides() returns (ok: bool)
      modifies this`provides_
      ensures (if ok then Some(provides_) else None) == Plus(old(provides_), ProvidedBy(repo, targets))
    {
      var t := targets;
      while t != []
        invariant Plus(provides_, ProvidedBy(repo, t)) == Plus(old(provides_), ProvidedBy(repo, targets))
        decreases |t|
      {
        var target := t[0];
        if target !in repo {
          return false;
        }
        PlusFirst(repo, provides_, t);
        t := t[1..];
        if repo[target].inert {
          assert provides_ + [] == provides_;
          continue;
        }
        ghost var before := provides_;
        var names := repo[target].provided;
        for i := 0 to |names|
          invariant provides_ == before + LinesOf(names, target)[..i]
        {
          provides_ := provides_ + [Line(names[i], target)];
        }
        assert LinesOf(names, target)[..|names|] == LinesOf(names, target);
      }
      assert provides_ + [] == provides_;
      return true;
    }

    /** The end of installer/main.sh, on fresh files. */
    method Run(custom: Option<Name>, restore: bool) returns (ok: bool)
      requires provides_ == [] && dedup == [] && prepare == []
      modifies this
      ensures var r := Drive(repo, custom, targets, restore);
              ok == r.Some? && (ok ==> Value() == r.value)
      ensures targets == old(targets)
    {
      if !restore {
        ok := CollectProvides();
        if !ok {
          return false;
        }
        assert [] + ProvidedBy(repo, targets).value == ProvidedBy(repo, targets).value;
      }
      var all := Sourced(custom, targets);
      for i := 0 to |all|
        invariant targets == old(targets) && provides_ == LinesFor(repo, targets, restore)
        invariant InstallAll(repo, provides_, all, State([], [])) == InstallAll(repo, provides_, all[i..], Value())
      {
        ok := Source(all[i]);
        if !ok {
          return false;
        }
      }
      return true;
    }
  }
}
