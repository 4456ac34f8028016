/** Depth-first search over cut points, as facts about rows of cuts. */
module RegexSearch {
  import opened RegexMeaning

  /** Continuing `next` settles what continuing `pre` gives. */
  ghost predicate Settles(ops: seq<Op>, s: Subject, next: seq<int>, pre: seq<int>)
    requires Fine(ops)
  {
    (NoEvent(ops, s, next) ==> NoEvent(ops, s, pre))
    && forall e :: First(ops, s, next, e) ==> First(ops, s, pre, e)
  }

  lemma SettlesTransitive(ops: seq<Op>, s: Subject, x: seq<int>, y: seq<int>, z: seq<int>)
    requires Fine(ops) && Settles(ops, s, x, y) && Settles(ops, s, y, z)
    ensures Settles(ops, s, x, z)
  {
  }

  lemma Monotone(ops: seq<Op>, s: Subject, cuts: seq<int>, i: nat, j: nat)
    requires Fine(ops) && Partial(ops, s, cuts) && i <= j < |cuts|
    ensures 0 <= cuts[i] <= cuts[j] <= |s.text|
    decreases j - i
  {
    if i < j {
      Monotone(ops, s, cuts, i, j - 1);
      assert Fits(ops, s, cuts, j - 1);
    } else if i > 0 {
      assert Fits(ops, s, cuts, i - 1);
    }
  }

  /** Whether operator i fits depends on the cuts up to i + 1 only. */
  lemma FitsLocal(ops: seq<Op>, s: Subject, x: seq<int>, y: seq<int>, i: nat)
    requires Fine(ops) && i < |ops| && i + 1 < |x| && i + 1 < |y|
    requires x[..i + 2] == y[..i + 2]
    ensures OpFine(ops, i) && Fits(ops, s, x, i) == Fits(ops, s, y, i)
  {
    assert OpFine(ops, i);
    assert forall j :: 0 <= j < i + 2 ==> x[j] == x[..i + 2][j] == y[j];
  }

  lemma PartialExtend(ops: seq<Op>, s: Subject, pre: seq<int>, b: int)
    requires Fine(ops) && Partial(ops, s, pre) && |pre| <= |ops|
    requires Fits(ops, s, pre + [b], |pre| - 1)
    ensures Partial(ops, s, pre + [b])
  {
    var x := pre + [b];
    forall i | 0 <= i < |x| - 1
      ensures Fits(ops, s, x, i)
    {
      if i < |pre| - 1 {
        assert x[..i + 2] == pre[..i + 2];
        FitsLocal(ops, s, x, pre, i);
      }
    }
  }

  /** An event beyond `pre` has a next cut, and that cut fits. */
  lemma NextCut(ops: seq<Op>, s: Subject, pre: seq<int>, x: seq<int>)
    requires Fine(ops) && Partial(ops, s, pre) && |pre| <= |ops| && !Stuck(ops, s, pre)
    requires Event(ops, s, x) && pre <= x
    ensures |pre| < |x| && pre + [x[|pre|]] <= x
    ensures Fits(ops, s, pre + [x[|pre|]], |pre| - 1)
    ensures !NoEvent(ops, s, pre + [x[|pre|]])
  {
    assert |x| == |pre| ==> x == pre;
    var i := |pre| - 1;
    var y := pre + [x[|pre|]];
    assert Fits(ops, s, x, i);
    assert y == x[..|pre| + 1];
    assert y[..i + 2] == x[..i + 2];
    FitsLocal(ops, s, x, y, i);
  }

  /** A cut that does not fit leads nowhere. */
  lemma Misfit(ops: seq<Op>, s: Subject, pre: seq<int>, b: int)
    requires Fine(ops) && Partial(ops, s, pre) && |pre| <= |ops| && !Stuck(ops, s, pre)
    requires !Fits(ops, s, pre + [b], |pre| - 1)
    ensures NoEvent(ops, s, pre + [b])
  {
    forall x | Event(ops, s, x)
      ensures !(pre + [b] <= x)
    {
      if pre + [b] <= x {
        assert pre <= x && x[|pre|] == b;
        NextCut(ops, s, pre, x);
      }
    }
  }

  /** Nothing after any next cut: nothing after `pre`. */
  lemma Exhausted(ops: seq<Op>, s: Subject, pre: seq<int>)
    requires Fine(ops) && Partial(ops, s, pre) && |pre| <= |ops| && !Stuck(ops, s, pre)
    requires forall b :: NoEvent(ops, s, pre + [b])
    ensures NoEvent(ops, s, pre)
  {
    forall x | Event(ops, s, x)
      ensures !(pre <= x)
    {
      if pre <= x {
        NextCut(ops, s, pre, x);
      }
    }
  }

  /** The first event after the greatest next cut that has one is the first after `pre`. */
  lemma Descend(ops: seq<Op>, s: Subject, pre: seq<int>, b: int, e: seq<int>)
    requires Fine(ops) && Partial(ops, s, pre) && |pre| <= |ops| && !Stuck(ops, s, pre)
    requires forall c :: c > b ==> NoEvent(ops, s, pre + [c])
    requires First(ops, s, pre + [b], e)
    ensures First(ops, s, pre, e)
  {
    assert pre <= pre + [b] <= e;
    forall x | Event(ops, s, x) && pre <= x
      ensures e <= x || Greater(e, x)
    {
      NextCut(ops, s, pre, x);
      var c := x[|pre|];
      if c == b {
        assert pre + [b] <= x;
      } else {
        assert e[|pre|] == b > x[|pre|];
        assert e[..|pre|] == pre == x[..|pre|];
      }
    }
  }

  /** When only one next cut can fit, the search moves to it. */
  lemma Forced(ops: seq<Op>, s: Subject, pre: seq<int>, b: int)
    requires Fine(ops) && Partial(ops, s, pre) && |pre| <= |ops| && !Stuck(ops, s, pre)
    requires forall c :: c != b ==> !Fits(ops, s, pre + [c], |pre| - 1)
    ensures Settles(ops, s, pre + [b], pre)
  {
    forall c | c != b
      ensures NoEvent(ops, s, pre + [c])
    {
      Misfit(ops, s, pre, c);
    }
    if NoEvent(ops, s, pre + [b]) {
      Exhausted(ops, s, pre);
    }
    forall e | First(ops, s, pre + [b], e)
      ensures First(ops, s, pre, e)
    {
      Descend(ops, s, pre, b, e);
    }
  }

  /** When no next cut fits, there is nothing after `pre`. */
  lemma DeadEnd(ops: seq<Op>, s: Subject, pre: seq<int>)
    requires Fine(ops) && Partial(ops, s, pre) && |pre| <= |ops| && !Stuck(ops, s, pre)
    requires forall c :: !Fits(ops, s, pre + [c], |pre| - 1)
    ensures NoEvent(ops, s, pre)
  {
    forall c
      ensures NoEvent(ops, s, pre + [c])
    {
      Misfit(ops, s, pre, c);
    }
    Exhausted(ops, s, pre);
  }

  /** A full match or a stuck row is its own first event. */
  lemma EventIsFirst(ops: seq<Op>, s: Subject, e: seq<int>)
    requires Fine(ops) && Event(ops, s, e)
    ensures First(ops, s, e, e)
  {
  }
}
