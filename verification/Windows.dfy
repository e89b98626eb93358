/** Raising a window without a window manager: raiseWindow of src/wmtools.c. */
module Windows {
  import opened Arithmetic
  import opened Options

  type Window = nat

  /** Requests to the X server. */
  datatype Call = Unmap(w: Window) | Restack(order: seq<Window>) | Map(w: Window) | Redraw(w: Window)

  /** The windows front to back, given them back to front. */
  function Front(children: seq<Window>): (r: seq<Window>)
    ensures |r| == |children|
  {
    seq(|children|, p requires 0 <= p < |children| => children[|children| - 1 - p])
  }

  /** The same cyclic order, starting at position k. */
  function Rotated(s: seq<Window>, k: nat): (r: seq<Window>)
    requires k <= |s|
    ensures |r| == |s|
  {
    s[k..] + s[..k]
  }

  /** The slot that the i-th window from the back goes to. */
  function Slot(n: nat, i: nat, rotate: nat): (p: nat)
    requires i < n && rotate < n
    ensures p < n
  {
    n - 1 - (i + rotate) % n
  }

  /** The remainder of a number that is at most one modulus out of range. */
  function Wrap(n: int, a: int): int {
    if a < 0 then a + n else if a < n then a else a - n
  }

  lemma WrapIsModulo(n: int, a: int)
    requires 0 < n && -n <= a < 2 * n
    ensures a % n == Wrap(n, a)
  {
    if a < 0 {
      QuotientIs(n, a, -1, a + n);
    } else if a < n {
      QuotientIs(n, a, 0, a);
    } else {
      QuotientIs(n, a, 1, a - n);
    }
  }

  lemma SlotWraps(n: nat, i: nat, rotate: nat)
    requires i < n && rotate < n
    ensures Slot(n, i, rotate) == n - 1 - Wrap(n, i + rotate)
  {
    WrapIsModulo(n, i + rotate);
  }

  /** Every slot p is written once: by window (n - 1 - p - rotate) mod n. */
  lemma SlotIsTaken(n: nat, p: nat, rotate: nat, i: nat)
    requires p < n && rotate < n && i < n
    ensures Slot(n, i, rotate) == p <==> i == (n - 1 - p - rotate) % n
  {
    hide Slot;
    SlotWraps(n, i, rotate);
    WrapIsModulo(n, n - 1 - p - rotate);
  }

  /** What the loop writes is the front-to-back order, rotated. */
  lemma SlotsRotate(children: seq<Window>, order: seq<Window>, rotate: nat)
    requires |order| == |children| && rotate < |children|
    requires forall i :: 0 <= i < |children| ==> order[Slot(|children|, i, rotate)] == children[i]
    ensures order == Rotated(Front(children), rotate)
  {
    hide Slot;
    var n := |children|;
    forall p | 0 <= p < n ensures order[p] == Rotated(Front(children), rotate)[p] {
      var i := Wrap(n, n - 1 - p - rotate);
      SlotWraps(n, i, rotate);
      assert order[Slot(n, i, rotate)] == children[i];
    }
  }

  /** The same by index: slot p holds child (n - 1 - p - rotate) mod n. */
  lemma RotatedAt(children: seq<Window>, rotate: nat, p: nat)
    requires p < |children| && rotate < |children|
    ensures var n := |children|;
            0 <= (n - 1 - p - rotate) % n < n
            && Rotated(Front(children), rotate)[p] == children[(n - 1 - p - rotate) % n]
  {
    WrapIsModulo(|children|, |children| - 1 - p - rotate);
  }

  lemma RotatedIsPermutation(s: seq<Window>, k: nat)
    requires k <= |s|
    ensures multiset(Rotated(s, k)) == multiset(s)
  {
    assert s == s[..k] + s[k..];
  }

  lemma {:induction false} FrontIsPermutation(s: seq<Window>)
    ensures multiset(Front(s)) == multiset(s)
  {
    if s != [] {
      var last := |s| - 1;
      FrontIsPermutation(s[..last]);
      assert s == s[..last] + [s[last]];
      assert Front(s) == [s[last]] + Front(s[..last]);
    }
  }

  /** Position from the front of a window, or the number of windows. */
  function Depth(children: seq<Window>, w: Window): (r: nat)
    ensures r <= |children|
    ensures r < |children| ==> Front(children)[r] == w
    ensures w !in Front(children)[..r]
    ensures r == |children| ==> w !in children
  {
    if children == [] then 0
    else
      var last := |children| - 1;
      if children[last] == w then 0
      else
        var r := 1 + Depth(children[..last], w);
        assert Front(children) == [children[last]] + Front(children[..last]);
        assert children == children[..last] + [children[last]];
        r
  }

  datatype Status = Raised | XError | NoWindow

  /** What is to happen, given the children of the root window back to front: the requested
      window goes in front, and the others keep their cyclic order. */
  ghost predicate IsRaise(children: seq<Window>, w: Window, calls: seq<Call>) {
    var k := Depth(children, w);
    k < |children|
    && if k == 0 then calls == []
       else calls == [Unmap(children[|children| - 1]), Restack(Rotated(Front(children), k)),
                      Map(children[|children| - 1])]
  }

  lemma RaisedIsInFront(children: seq<Window>, w: Window, calls: seq<Call>)
    requires IsRaise(children, w, calls)
    ensures w in children
    ensures calls != [] ==>
              var order := Rotated(Front(children), Depth(children, w));
              calls[1] == Restack(order) && order[0] == w && multiset(order) == multiset(children)
    ensures calls == [] ==> Front(children)[0] == w
  {
    RotatedIsPermutation(Front(children), Depth(children, w));
    FrontIsPermutation(children);
    assert w in Front(children);
    assert w in multiset(Front(children));
  }

  /** `tree` is the answer to XQueryTree, `attributes` tells whether the root's could be read. */
  method RaiseWindow(tree: Option<array<Window>>, window: Window, attributes: bool)
    returns (status: Status, calls: seq<Call>)
    ensures tree.None? ==> status.XError? && calls == []
    ensures tree.Some? && window !in tree.value[..] ==> status.NoWindow? && calls == []
    ensures tree.Some? && window in tree.value[..] ==>
              && status == (if attributes then Raised else XError)
              && var redraws := if attributes then [Redraw(window), Redraw(window)] else [];
                 exists raise :: IsRaise(tree.value[..], window, raise) && calls == raise + redraws
  {
    calls := [];
    if tree.None? {
      return XError, calls;
    }
    var children := tree.value;
    var n := children.Length;
    var rotate := 0;
    while rotate < n
      invariant 0 <= rotate <= n
      invariant window !in Front(children[..])[..rotate]
    {
      if children[n - 1 - rotate] == window {
        break;
      }
      rotate := rotate + 1;
    }
    FoundAtDepth(children[..], window, rotate);
    if rotate == n {
      return NoWindow, calls;
    }
    if rotate > 0 {
      calls := calls + [Unmap(children[n - 1])];
      var neworder := new Window[n];
      Restacked(children, rotate, neworder);
      calls := calls + [Restack(neworder[..])];
      calls := calls + [Map(children[n - 1])];
    }
    assert IsRaise(children[..], window, calls);
    ghost var raise := calls;
    assert raise + [] == raise;
    if !attributes {
      return XError, calls;
    }
    calls := calls + [Redraw(window)];
    calls := calls + [Redraw(window)];
    assert calls == raise + [Redraw(window), Redraw(window)];
    return Raised, calls;
  }

  lemma FoundAtDepth(children: seq<Window>, w: Window, rotate: nat)
    requires rotate <= |children| && w !in Front(children)[..rotate]
    requires rotate < |children| ==> Front(children)[rotate] == w
    ensures Depth(children, w) == rotate
    ensures rotate < |children| <==> w in children
  {
    var r := Depth(children, w);
    assert forall k :: 0 <= k < r ==> Front(children)[..r][k] == Front(children)[k];
    assert forall k :: 0 <= k < rotate ==> Front(children)[..rotate][k] == Front(children)[k];
    if r < |children| {
      assert children[|children| - 1 - r] == w;
    }
  }

  /** The loop that fills the new order. */
  method Restacked(children: array<Window>, rotate: nat, neworder: array<Window>)
    requires rotate < children.Length == neworder.Length && children != neworder
    modifies neworder
    ensures neworder[..] == Rotated(Front(children[..]), rotate)
  {
    hide Slot;
    var n := children.Length;
    for i := 0 to n
      invariant forall k :: 0 <= k < i ==> neworder[Slot(n, k, rotate)] == children[k]
    {
      SlotWraps(n, i, rotate);
      WrapIsModulo(n, i + rotate);
      forall k | 0 <= k < i ensures Slot(n, k, rotate) != Slot(n, i, rotate) {
        SlotWraps(n, k, rotate);
      }
      neworder[n - 1 - (i + rotate) % n] := children[i];
    }
    SlotsRotate(children[..], neworder[..], rotate);
  }
}
