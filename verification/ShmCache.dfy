/** The two-entry cache of src/fbserver.c: which of the client's shared memory segments are
    mapped, by client address, and the signature check that decides whether a cached mapping
    may still be used. */
module ShmCache {
  import opened Options
  import opened SharedMemory

  datatype Entry = Entry(paddr: nat, fd: int, map_: Option<Segment>, length: nat)

  /** `open` holds the descriptors opened and not closed by this code. */
  datatype Cache = Cache(entries: seq<Entry>, next: nat, open: set<int>)

  const EMPTY: Cache := Cache([Entry(0, 0, None, 0), Entry(0, 0, None, 0)], 0, {})

  /** What asking the helper for a segment and mapping it comes to. */
  datatype Fetch = NoHelper | NoFile | NoMap(fd: int) | Mapped(seg: Segment, fd: int)

  // ---- The operations on values ----

  function CloseMmap(c: Cache, i: nat): (r: Cache)
    requires i < |c.entries|
    ensures |r.entries| == |c.entries|
  {
    if c.entries[i].map_.None? then c
    else Cache(c.entries[i := c.entries[i].(map_ := None)], c.next, c.open - {c.entries[i].fd})
  }

  /** Runs the helper for entry i; false if the lookup fails there and then. */
  function FetchShm(c: Cache, i: nat, paddr: nat, length: nat, f: Fetch): (r: (Cache, bool))
    requires i < |c.entries|
    ensures |r.0.entries| == |c.entries| && r.0.next == c.next
  {
    match f
    case NoHelper => (c, false)
    case NoFile => (c.(entries := c.entries[i := c.entries[i].(paddr := paddr, fd := -1)]), false)
    case NoMap(fd) => (c.(entries := c.entries[i := Entry(paddr, fd, None, length)], open := c.open - {fd}), false)
    case Mapped(seg, fd) =>
      (c.(entries := c.entries[i := Entry(paddr, fd, Some(seg), length)], open := c.open + {fd}), true)
  }

  function Matches(c: Cache, i: nat, sig: Signature, m: Memory): bool
    requires i < |c.entries|
  {
    c.entries[i].map_.Some? && SignatureOf(m, c.entries[i].map_.value) == Some(sig)
  }

  /** At most two turns of: use the mapping if its signature is right, else fetch another. */
  function Tries(c: Cache, i: nat, paddr: nat, sig: Signature, length: nat, m: Memory, fetches: seq<Fetch>)
    : (r: (Cache, Option<nat>))
    requires i < |c.entries|
    ensures |r.0.entries| == |c.entries| && r.0.next == c.next
    ensures r.1.Some? ==> r.1.value == i
    decreases |fetches|
  {
    if fetches == [] then (c, None)
    else if Matches(c, i, sig, m) then (c, Some(i))
    else
      var (c', ok) := FetchShm(CloseMmap(c, i), i, paddr, length, fetches[0]);
      if ok then Tries(c', i, paddr, sig, length, m, fetches[1..]) else (c', None)
  }

  /** The entry to use, after evicting one if the address is in neither. */
  function Select(c: Cache, paddr: nat): (r: (Cache, nat))
    requires |c.entries| == 2 && c.next < 2
    ensures r.1 < 2 && |r.0.entries| == 2 && r.0.next < 2
  {
    if c.entries[0].paddr == paddr then (c, 0)
    else if c.entries[1].paddr == paddr then (c, 1)
    else (CloseMmap(c.(next := (c.next + 1) % 2), c.next), c.next)
  }

  function Find(c: Cache, paddr: nat, sig: Signature, length: nat, m: Memory, f0: Fetch, f1: Fetch)
    : (r: (Cache, Option<nat>))
    requires |c.entries| == 2 && c.next < 2
    ensures |r.0.entries| == 2 && r.0.next < 2
    ensures r.1.Some? ==> r.1.value < 2
  {
    var (c', i) := Select(c, paddr);
    Tries(c', i, paddr, sig, length, m, [f0, f1])
  }

  /** The segment that a lookup gives. */
  function Found(c: Cache, paddr: nat, sig: Signature, length: nat, m: Memory, f0: Fetch, f1: Fetch): Option<Segment>
    requires |c.entries| == 2 && c.next < 2
  {
    var (c', r) := Find(c, paddr, sig, length, m, f0, f1);
    if r.Some? then c'.entries[r.value].map_ else None
  }

  function Disconnect(c: Cache): Cache
    requires |c.entries| == 2
  {
    CloseMmap(CloseMmap(c, 0), 1)
  }

  // ---- The invariant ----

  /** Entries do not share an address, other than the initial 0, and the open descriptors are
      exactly those of the entries with a live mapping, one each. */
  ghost predicate Valid(c: Cache) {
    && |c.entries| == 2 && c.next < 2
    && (c.entries[0].paddr == c.entries[1].paddr ==> c.entries[0].paddr == 0)
    && (forall fd :: fd in c.open <==> Holds(c.entries[0], fd) || Holds(c.entries[1], fd))
    && (c.entries[0].map_.Some? && c.entries[1].map_.Some? ==> c.entries[0].fd != c.entries[1].fd)
  }

  predicate Holds(e: Entry, fd: int) {
    e.map_.Some? && e.fd == fd
  }

  predicate FreshFd(c: Cache, f: Fetch) {
    f.NoMap? || f.Mapped? ==> f.fd !in c.open
  }

  /** An entry may be given an address that the other one does not have. */
  predicate Available(c: Cache, i: nat, paddr: nat) {
    |c.entries| == 2 && i < 2 && (c.entries[1 - i].paddr == paddr ==> c.entries[i].paddr == paddr)
  }

  lemma CloseKeepsValid(c: Cache, i: nat)
    requires Valid(c) && i < 2
    ensures Valid(CloseMmap(c, i)) && CloseMmap(c, i).open <= c.open
  {
  }

  lemma FetchKeepsValid(c: Cache, i: nat, paddr: nat, length: nat, f: Fetch)
    requires Valid(c) && i < 2 && c.entries[i].map_.None? && Available(c, i, paddr) && FreshFd(c, f)
    ensures Valid(FetchShm(c, i, paddr, length, f).0) && Available(FetchShm(c, i, paddr, length, f).0, i, paddr)
    ensures FetchShm(c, i, paddr, length, f).1 ==> FetchShm(c, i, paddr, length, f).0.entries[i].paddr == paddr
  {
  }

  lemma SelectKeepsValid(c: Cache, paddr: nat)
    requires Valid(c)
    ensures Valid(Select(c, paddr).0) && Select(c, paddr).0.open <= c.open
    ensures Available(Select(c, paddr).0, Select(c, paddr).1, paddr)
  {
  }

  /** The descriptors are new when they are opened; they may have been used and closed before. */
  predicate FreshFds(c: Cache, i: nat, paddr: nat, sig: Signature, length: nat, m: Memory, fetches: seq<Fetch>)
    requires i < |c.entries|
    decreases |fetches|
  {
    fetches == [] || Matches(c, i, sig, m)
    || (FreshFd(CloseMmap(c, i), fetches[0])
        && (fetches[0].Mapped? ==>
              FreshFds(FetchShm(CloseMmap(c, i), i, paddr, length, fetches[0]).0,
                       i, paddr, sig, length, m, fetches[1..])))
  }

  predicate Possible(c: Cache, paddr: nat, sig: Signature, length: nat, m: Memory, f0: Fetch, f1: Fetch)
    requires |c.entries| == 2 && c.next < 2
  {
    FreshFds(Select(c, paddr).0, Select(c, paddr).1, paddr, sig, length, m, [f0, f1])
  }

  lemma {:induction false} TriesKeepValid(c: Cache, i: nat, paddr: nat, sig: Signature, length: nat, m: Memory,
                                          fetches: seq<Fetch>)
    requires Valid(c) && i < 2 && Available(c, i, paddr) && (c.entries[i].map_.Some? ==> c.entries[i].paddr == paddr)
    requires FreshFds(c, i, paddr, sig, length, m, fetches)
    ensures var (c', r) := Tries(c, i, paddr, sig, length, m, fetches);
            && Valid(c')
            && (r.Some? ==> r.value < 2 && c'.entries[r.value].paddr == paddr && Matches(c', r.value, sig, m))
    decreases |fetches|
  {
    if fetches != [] && !Matches(c, i, sig, m) {
      CloseKeepsValid(c, i);
      var closed := CloseMmap(c, i);
      FetchKeepsValid(closed, i, paddr, length, fetches[0]);
      if fetches[0].Mapped? {
        TriesKeepValid(FetchShm(closed, i, paddr, length, fetches[0]).0, i, paddr, sig, length, m, fetches[1..]);
      }
    }
  }

  /** Every lookup keeps the cache valid, and what it returns is a live mapping for the
      requested address that carries the requested signature.  */
  lemma FindKeepsValid(c: Cache, paddr: nat, sig: Signature, length: nat, m: Memory, f0: Fetch, f1: Fetch)
    requires Valid(c) && Possible(c, paddr, sig, length, m, f0, f1)
    ensures var (c', r) := Find(c, paddr, sig, length, m, f0, f1);
            && Valid(c')
            && (r.Some? ==> r.value < 2 && c'.entries[r.value].paddr == paddr && Matches(c', r.value, sig, m))
  {
    hide Tries, FreshFds, Matches;
    SelectKeepsValid(c, paddr);
    var (c1, i) := Select(c, paddr);
    TriesKeepValid(c1, i, paddr, sig, length, m, [f0, f1]);
  }

  /** A lookup succeeds exactly if the address is cached under the right signature, or the
      first segment fetched has it.  What the second fetch finds is kept, but not returned. */
  lemma FindSucceeds(c: Cache, paddr: nat, sig: Signature, length: nat, m: Memory, f0: Fetch, f1: Fetch)
    requires Valid(c)
    ensures Find(c, paddr, sig, length, m, f0, f1).1.Some?
       <==> || Cached(c, paddr, sig, m)
            || (f0.Mapped? && SignatureOf(m, f0.seg) == Some(sig))
  {
    var (c1, i) := Select(c, paddr);
    assert [f0, f1][1..] == [f1];
    if !Matches(c1, i, sig, m) && f0.Mapped? {
      LastTry(FetchShm(CloseMmap(c1, i), i, paddr, length, f0).0, i, paddr, sig, length, m, f1);
    }
  }

  /** So when only the second segment fetched has the signature, the lookup fails; but the next
      one for it will find it in the cache. */
  lemma SecondFetchIsKept(c: Cache, paddr: nat, sig: Signature, length: nat, m: Memory, f0: Fetch, f1: Fetch)
    requires Valid(c) && !Cached(c, paddr, sig, m)
    requires f0.Mapped? && SignatureOf(m, f0.seg) != Some(sig)
    requires f1.Mapped? && SignatureOf(m, f1.seg) == Some(sig)
    ensures var (c', r) := Find(c, paddr, sig, length, m, f0, f1);
            r.None? && Cached(c', paddr, sig, m)
  {
    var (c1, i) := Select(c, paddr);
    var (c2, _) := FetchShm(CloseMmap(c1, i), i, paddr, length, f0);
    var (c3, _) := FetchShm(CloseMmap(c2, i), i, paddr, length, f1);
    assert [f0, f1][1..] == [f1] && [f1][1..] == [];
    assert Tries(c2, i, paddr, sig, length, m, [f1]) == (c3, None);
    assert Find(c, paddr, sig, length, m, f0, f1) == (c3, None);
  }

  /** Such a lookup: the helper first gives a segment that has another signature. */
  lemma SecondFetchIsLost(sig: Signature, other: Signature)
    requires sig != other
    ensures var m: Memory := map[0 := other, 1 := sig];
            var (c, r) := Find(EMPTY, 4096, sig, 8, m, Mapped(0, 3), Mapped(1, 4));
            r.None? && c.entries[0] == Entry(4096, 4, Some(1), 8)
  {
    var m: Memory := map[0 := other, 1 := sig];
    assert other[..8] == other && sig[..8] == sig;
    var c1 := EMPTY.(next := 1);
    var c2 := FetchShm(c1, 0, 4096, 8, Mapped(0, 3)).0;
    var fetches := [Mapped(0, 3), Mapped(1, 4)];
    assert fetches[1..] == [Mapped(1, 4)] && fetches[1..][1..] == [];
    assert Select(EMPTY, 4096) == (c1, 0);
    assert !Matches(c1, 0, sig, m) && !Matches(c2, 0, sig, m);
    assert Tries(c1, 0, 4096, sig, 8, m, fetches) == Tries(c2, 0, 4096, sig, 8, m, fetches[1..]);
  }

  lemma LastTry(c: Cache, i: nat, paddr: nat, sig: Signature, length: nat, m: Memory, f: Fetch)
    requires i < |c.entries|
    ensures Tries(c, i, paddr, sig, length, m, [f]).1.Some? <==> Matches(c, i, sig, m)
  {
    assert [f][1..] == [];
  }

  /** The first entry for the address is mapped and carries the signature. */
  predicate Cached(c: Cache, paddr: nat, sig: Signature, m: Memory)
    requires |c.entries| == 2
  {
    if c.entries[0].paddr == paddr then Matches(c, 0, sig, m)
    else c.entries[1].paddr == paddr && Matches(c, 1, sig, m)
  }

  /** It is cached, but was mapped with another length. */
  predicate CachedOtherwise(c: Cache, paddr: nat, sig: Signature, m: Memory, length: nat)
    requires |c.entries| == 2
  {
    Cached(c, paddr, sig, m) && c.entries[if c.entries[0].paddr == paddr then 0 else 1].length != length
  }

  /** With an honest helper the lookup succeeds, and the entry has the length asked for unless it
      was cached with another one. */
  lemma FindWithHonestHelper(c: Cache, paddr: nat, sig: Signature, length: nat, m: Memory, f0: Fetch, f1: Fetch)
    requires Valid(c) && f0.Mapped? && SignatureOf(m, f0.seg) == Some(sig)
    ensures var (c', r) := Find(c, paddr, sig, length, m, f0, f1);
            && r.Some? && c'.entries[r.value].map_.Some?
            && (c'.entries[r.value].length == length <==> !CachedOtherwise(c, paddr, sig, m, length))
  {
    var (c1, i) := Select(c, paddr);
    assert [f0, f1][1..] == [f1];
    if !Matches(c1, i, sig, m) {
      var c2 := FetchShm(CloseMmap(c1, i), i, paddr, length, f0).0;
      assert Matches(c2, i, sig, m);
      assert Tries(c2, i, paddr, sig, length, m, [f1]) == (c2, Some(i));
    }
  }

  lemma DisconnectClosesAll(c: Cache)
    requires Valid(c)
    ensures Valid(Disconnect(c)) && Disconnect(c).open == {}
    ensures Disconnect(c).entries[0].map_.None? && Disconnect(c).entries[1].map_.None?
  {
    CloseKeepsValid(c, 0);
    CloseKeepsValid(CloseMmap(c, 0), 1);
    assert forall fd :: fd !in Disconnect(c).open;
  }

  /** When only one segment carries the signature, the cached lookup gives no other. */
  lemma CachedIsUncached(c: Cache, paddr: nat, sig: Signature, length: nat, m: Memory, f0: Fetch, f1: Fetch,
                         seg: Segment)
    requires Valid(c) && Possible(c, paddr, sig, length, m, f0, f1)
    requires forall s :: s in m ==> (SignatureOf(m, s) == Some(sig) <==> s == seg)
    ensures var (c', r) := Find(c, paddr, sig, length, m, f0, f1);
            r.Some? ==> c'.entries[r.value].map_ == Some(seg)
  {
    FindKeepsValid(c, paddr, sig, length, m, f0, f1);
  }

  /** A lookup that starts with an empty cache, so that only the helper can find the segment,
      gives the first segment fetched, exactly if it carries the signature. */
  lemma UncachedFinds(paddr: nat, sig: Signature, length: nat, m: Memory, f0: Fetch, f1: Fetch)
    ensures Found(EMPTY, paddr, sig, length, m, f0, f1)
         == if f0.Mapped? && SignatureOf(m, f0.seg) == Some(sig) then Some(f0.seg) else None
  {
    FindSucceeds(EMPTY, paddr, sig, length, m, f0, f1);
    var (c1, i) := Select(EMPTY, paddr);
    assert [f0, f1][1..] == [f1];
    if f0.Mapped? && SignatureOf(m, f0.seg) == Some(sig) {
      var c2 := FetchShm(CloseMmap(c1, i), i, paddr, length, f0).0;
      assert Tries(c2, i, paddr, sig, length, m, [f1]) == (c2, Some(i));
    }
  }

  /** If no other segment carries the signature, the cached lookup gives what the uncached one
      gives, whenever that gives anything, and nothing else otherwise. */
  lemma CachedFindsWhatUncachedFinds(c: Cache, paddr: nat, sig: Signature, length: nat, m: Memory, f0: Fetch, f1: Fetch,
                                     seg: Segment)
    requires Valid(c) && Possible(c, paddr, sig, length, m, f0, f1)
    requires forall s :: s in m ==> (SignatureOf(m, s) == Some(sig) <==> s == seg)
    ensures var uncached := Found(EMPTY, paddr, sig, length, m, f0, f1);
            var cached := Found(c, paddr, sig, length, m, f0, f1);
            && uncached in {None, Some(seg)} && cached in {None, Some(seg)}
            && (uncached == Some(seg) ==> cached == Some(seg))
  {
    hide Find, Valid, Possible, Cached;
    UncachedFinds(paddr, sig, length, m, f0, f1);
    FindSucceeds(c, paddr, sig, length, m, f0, f1);
    CachedIsUncached(c, paddr, sig, length, m, f0, f1, seg);
  }

  // ---- Runs: lookups and disconnections, while the client changes the memory at will ----

  datatype Call =
    | Lookup(paddr: nat, sig: Signature, length: nat, m: Memory, f0: Fetch, f1: Fetch)
    | HangUp

  function After(c: Cache, call: Call): (r: Cache)
    requires |c.entries| == 2 && c.next < 2
    ensures |r.entries| == 2 && r.next < 2
  {
    match call
    case Lookup(paddr, sig, length, m, f0, f1) => Find(c, paddr, sig, length, m, f0, f1).0
    case HangUp => Disconnect(c)
  }

  function Run(calls: seq<Call>): (r: Cache)
    ensures |r.entries| == 2 && r.next < 2
  {
    if calls == [] then EMPTY else After(Run(calls[..|calls| - 1]), calls[|calls| - 1])
  }

  predicate AllPossible(calls: seq<Call>) {
    calls == []
    || (AllPossible(calls[..|calls| - 1])
        && match calls[|calls| - 1]
           case Lookup(paddr, sig, length, m, f0, f1) =>
             Possible(Run(calls[..|calls| - 1]), paddr, sig, length, m, f0, f1)
           case HangUp => true)
  }

  lemma {:induction false} RunsKeepValid(calls: seq<Call>)
    requires AllPossible(calls)
    ensures Valid(Run(calls))
    ensures calls != [] && calls[|calls| - 1].HangUp? ==> Run(calls).open == {}
  {
    hide Find, Disconnect;
    if calls != [] {
      var before := Run(calls[..|calls| - 1]);
      RunsKeepValid(calls[..|calls| - 1]);
      match calls[|calls| - 1]
      case Lookup(paddr, sig, length, m, f0, f1) => FindKeepsValid(before, paddr, sig, length, m, f0, f1);
      case HangUp => DisconnectClosesAll(before);
    }
  }

  // ---- Eviction ----

  predicate Has(c: Cache, paddr: nat)
    requires |c.entries| == 2
  {
    c.entries[0].paddr == paddr || c.entries[1].paddr == paddr
  }

  lemma {:induction false} TriesKeepOther(c: Cache, i: nat, paddr: nat, sig: Signature, length: nat, m: Memory,
                                          fetches: seq<Fetch>)
    requires |c.entries| == 2 && i < 2
    ensures var c' := Tries(c, i, paddr, sig, length, m, fetches).0;
            && c'.entries[1 - i] == c.entries[1 - i]
            && c'.entries[i].paddr in {c.entries[i].paddr, paddr}
    decreases |fetches|
  {
    if fetches != [] && !Matches(c, i, sig, m) && fetches[0].Mapped? {
      var fetched := FetchShm(CloseMmap(c, i), i, paddr, length, fetches[0]).0;
      TriesKeepOther(fetched, i, paddr, sig, length, m, fetches[1..]);
    }
  }

  /** A lookup of an address that is in neither entry takes the entry whose turn it is, leaves the
      other alone, and passes the turn. */
  lemma EvictsInTurn(c: Cache, paddr: nat, sig: Signature, length: nat, m: Memory, f0: Fetch, f1: Fetch)
    requires |c.entries| == 2 && c.next < 2 && !Has(c, paddr)
    ensures var (c', r) := Find(c, paddr, sig, length, m, f0, f1);
            && c'.next == 1 - c.next && c'.entries[1 - c.next] == c.entries[1 - c.next]
            && (r.Some? ==> r.value == c.next)
  {
    hide Tries;
    TriesKeepOther(Select(c, paddr).0, c.next, paddr, sig, length, m, [f0, f1]);
  }

  /** What one lookup of a new address has cached survives the next one: after both, the entries
      are what each of them left. */
  lemma NewestSurvives(c: Cache, l1: Call, l2: Call)
    requires |c.entries| == 2 && c.next < 2 && l1.Lookup? && l2.Lookup?
    requires !Has(c, l1.paddr) && !Has(After(c, l1), l2.paddr)
    ensures After(After(c, l1), l2).entries[c.next] == After(c, l1).entries[c.next]
    ensures After(After(c, l1), l2).next == c.next
  {
    hide Find;
    EvictsInTurn(c, l1.paddr, l1.sig, l1.length, l1.m, l1.f0, l1.f1);
    EvictsInTurn(After(c, l1), l2.paddr, l2.sig, l2.length, l2.m, l2.f0, l2.f1);
  }

  /** A lookup of a cached address changes no address, and nothing at all if it is cached under the
      right signature. */
  lemma FindsInPlace(c: Cache, paddr: nat, sig: Signature, length: nat, m: Memory, f0: Fetch, f1: Fetch)
    requires |c.entries| == 2 && c.next < 2 && Has(c, paddr)
    ensures var c' := Find(c, paddr, sig, length, m, f0, f1).0;
            && c'.next == c.next
            && c'.entries[0].paddr == c.entries[0].paddr && c'.entries[1].paddr == c.entries[1].paddr
            && (Cached(c, paddr, sig, m) ==> c' == c)
  {
    TriesKeepOther(c, if c.entries[0].paddr == paddr then 0 else 1, paddr, sig, length, m, [f0, f1]);
  }

  lemma StaysInPlace(c: Cache, call: Call)
    requires |c.entries| == 2 && c.next < 2 && (call.Lookup? ==> Has(c, call.paddr))
    ensures var c' := After(c, call);
            && c'.next == c.next
            && c'.entries[0].paddr == c.entries[0].paddr && c'.entries[1].paddr == c.entries[1].paddr
  {
    hide Find;
    if call.Lookup? {
      FindsInPlace(c, call.paddr, call.sig, call.length, call.m, call.f0, call.f1);
    }
  }

  /** Once two addresses are cached, calls that look up no third one, however many, keep both, with
      disconnections in between or not. */
  lemma {:induction false} WorkingSetStays(calls: seq<Call>, more: seq<Call>)
    requires forall call :: call in more && call.Lookup? ==> Has(Run(calls), call.paddr)
    ensures var c, c' := Run(calls), Run(calls + more);
            && c'.next == c.next
            && c'.entries[0].paddr == c.entries[0].paddr && c'.entries[1].paddr == c.entries[1].paddr
  {
    if more == [] {
      assert calls + more == calls;
    } else {
      hide After;
      var last := more[|more| - 1];
      assert last in more;
      assert (calls + more)[..|calls + more| - 1] == calls + more[..|more| - 1];
      WorkingSetStays(calls, more[..|more| - 1]);
      StaysInPlace(Run(calls + more[..|more| - 1]), last);
    }
  }

  // ---- The static array ----

  class Shm {
    const cache: array<Entry>
    var next: nat
    var open: set<int>

    ghost predicate WellFormed()
      reads this
    {
      cache.Length == 2 && next < 2
    }

    ghost function Value(): Cache
      reads this, cache
    {
      Cache(cache[..], next, open)
    }

    constructor ()
      ensures WellFormed() && Value() == EMPTY && fresh(cache)
    {
      cache := new Entry[2](_ => Entry(0, 0, None, 0));
      next, open := 0, {};
    }

    method Close(i: nat)
      requires WellFormed() && i < 2
      modifies this`open, cache
      ensures Value() == CloseMmap(old(Value()), i)
    {
      if cache[i].map_.None? {
        return;
      }
      open := open - {cache[i].fd};
      cache[i] := cache[i].(map_ := None);
    }

    /** The descriptor and mapping that result from asking the helper, into entry i. */
    method Fetch(i: nat, paddr: nat, length: nat, f: Fetch) returns (ok: bool)
      requires WellFormed() && i < 2
      modifies this`open, cache
      ensures WellFormed() && (Value(), ok) == FetchShm(old(Value()), i, paddr, length, f)
    {
      if f.NoHelper? {
        return false;
      }
      cache[i] := cache[i].(paddr := paddr);
      if f.NoFile? {
        cache[i] := cache[i].(fd := -1);
        assert cache[..] == old(cache[..])[i := cache[i]];
        return false;
      }
      cache[i] := cache[i].(fd := f.fd, length := length);
      open := open + {f.fd};
      if f.NoMap? {
        cache[i] := cache[i].(map_ := None);
        open := open - {f.fd};
        assert open == old(open) - {f.fd};
        assert cache[..] == old(cache[..])[i := cache[i]];
        return false;
      }
      cache[i] := cache[i].(map_ := Some(f.seg));
      assert cache[..] == old(cache[..])[i := cache[i]];
      return true;
    }

    /** `fetches` is what the helper and the system would answer in the two turns. */
    method FindShm(paddr: nat, sig: Signature, length: nat, m: Memory, fetches: seq<Fetch>) returns (r: Option<nat>)
      requires WellFormed() && |fetches| == 2
      modifies this`open, this`next, cache
      ensures WellFormed()
      ensures (Value(), r) == Find(old(Value()), paddr, sig, length, m, fetches[0], fetches[1])
    {
      hide CloseMmap, FetchShm, Matches;
      var i: nat;
      if cache[0].paddr == paddr {
        i := 0;
      } else if cache[1].paddr == paddr {
        i := 1;
      } else {
        i := next;
        next := (next + 1) % 2;
        Close(i);
      }
      assert (Value(), i) == Select(old(Value()), paddr);
      assert fetches == fetches[0..] == [fetches[0], fetches[1]];
      var try := 0;
      while try < 2
        invariant WellFormed() && i < 2 && 0 <= try <= 2
        invariant Find(old(Value()), paddr, sig, length, m, fetches[0], fetches[1])
               == Tries(Value(), i, paddr, sig, length, m, fetches[try..])
      {
        var right := SignatureMatches(i, sig, m);
        if right {
          return Some(i);
        }
        Close(i);
        var ok := Fetch(i, paddr, length, fetches[try]);
        if !ok {
          return None;
        }
        try := try + 1;
      }
      return None;
    }

    method SignatureMatches(i: nat, sig: Signature, m: Memory) returns (r: bool)
      requires WellFormed() && i < 2
      ensures r == Matches(Value(), i, sig, m)
    {
      return cache[i].map_.Some? && SignatureOf(m, cache[i].map_.value) == Some(sig);
    }
  }
}
