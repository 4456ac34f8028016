/** The matcher can run for ever, on a starred reference to a bracket that took nothing.  For which patterns a text
    makes it do so can be read off the pattern. */
module RegexHangs {
  import opened Bytes
  import opened RegexMeaning
  import opened RegexSearch

  // ----- the condition

  /** A repetition of `a` that must take a character can take one. */
  predicate Satisfiable(a: Atom) {
    exists c: byte :: Takes(a, c)
  }

  /** The least that operator i takes, if the operators before it take the least they can. */
  function Least(ops: seq<Op>, i: nat): nat
    requires i < |ops|
    decreases i, 0
  {
    match ops[i]
    case One(_) => 1
    case Between(_, lo, _) => lo
    case Back(k) =>
      var o, c := Place(ops, Open(k)), Place(ops, Close(k));
      if o < c < i && Low(ops, o) <= Low(ops, c) then Low(ops, c) - Low(ops, o) else 0
    case _ => 0
  }

  /** Where operator i then begins. */
  function Low(ops: seq<Op>, i: nat): nat
    requires i <= |ops|
    decreases i
  {
    if i == 0 then 0 else Low(ops, i - 1) + Least(ops, i - 1)
  }

  /** Operator j does not keep a text from reaching operator i, all taking the least they can. */
  predicate Passes(ops: seq<Op>, j: nat, i: nat)
    requires j < i <= |ops|
  {
    match ops[j]
    case One(a) => Satisfiable(a)
    case Between(a, lo, _) => lo > 0 ==> Satisfiable(a)
    case Dollar => Low(ops, i) == Low(ops, j)
    case _ => true
  }

  /** Operator i is a starred reference that can be reached with nothing in its bracket. */
  predicate CanStick(ops: seq<Op>, i: nat)
    requires i < |ops|
  {
    ops[i].BackMany?
    && (var o, c := Place(ops, Open(ops[i].k)), Place(ops, Close(ops[i].k)); o < c < i && Low(ops, o) == Low(ops, c))
    && forall j :: 0 <= j < i ==> Passes(ops, j, i)
  }

  /** A pattern that has such a reference. */
  predicate CanHang(ops: seq<Op>) {
    exists i :: 0 <= i < |ops| && CanStick(ops, i)
  }

  /** The first thing that a search from p comes upon has no way out. */
  ghost predicate HangsAt(ops: seq<Op>, s: Subject, p: int)
    requires Fine(ops)
  {
    exists x :: First(ops, s, [p], x) && Stuck(ops, s, x)
  }

  // ----- a way of matching takes no less

  lemma LowGrows(ops: seq<Op>, i: nat, j: nat)
    requires i <= j <= |ops|
    ensures Low(ops, i) <= Low(ops, j)
    decreases j
  {
    if i < j {
      LowGrows(ops, i, j - 1);
    }
  }

  lemma {:induction false} TakesLeast(ops: seq<Op>, s: Subject, cuts: seq<int>, i: nat, j: nat)
    requires Fine(ops) && Partial(ops, s, cuts) && i <= j < |cuts|
    ensures cuts[j] - cuts[i] >= Low(ops, j) - Low(ops, i)
    decreases j
  {
    if i < j {
      TakesLeast(ops, s, cuts, i, j - 1);
      assert OpFine(ops, j - 1) && Fits(ops, s, cuts, j - 1);
      if ops[j - 1].Back? {
        var o, c := Place(ops, Open(ops[j - 1].k)), Place(ops, Close(ops[j - 1].k));
        TakesLeast(ops, s, cuts, o, c);
        Monotone(ops, s, cuts, o, c);
        Monotone(ops, s, cuts, c, j - 1);
      }
    }
  }

  /** A row of cuts that ends in a stuck place shows that its operator can stick. */
  lemma StuckCanStick(ops: seq<Op>, s: Subject, x: seq<int>)
    requires Fine(ops) && Stuck(ops, s, x)
    ensures |x| <= |ops| && CanStick(ops, |x| - 1)
  {
    var i := |x| - 1;
    assert OpFine(ops, i);
    var o, c := Place(ops, Open(ops[i].k)), Place(ops, Close(ops[i].k));
    Monotone(ops, s, x, o, c);
    Monotone(ops, s, x, c, i);
    assert x[o] == x[c] by {
      assert |Slice(s.text, x[o], x[c])| == x[c] - x[o];
    }
    TakesLeast(ops, s, x, o, c);
    LowGrows(ops, o, c);
    forall j | 0 <= j < i
      ensures Passes(ops, j, i)
    {
      StuckPasses(ops, s, x, j);
    }
  }

  lemma StuckPasses(ops: seq<Op>, s: Subject, x: seq<int>, j: nat)
    requires Fine(ops) && Partial(ops, s, x) && j < |x| - 1
    ensures Passes(ops, j, |x| - 1)
  {
    assert OpFine(ops, j) && Fits(ops, s, x, j);
    match ops[j]
    case Dollar =>
      TakesLeast(ops, s, x, j, |x| - 1);
      LowGrows(ops, j, |x| - 1);
      Monotone(ops, s, x, j, |x| - 1);
    case One(a) => assert Takes(a, s.text[x[j]]);
    case Between(a, lo, _) =>
      if lo > 0 {
        assert Takes(a, s.text[x[j]]);
      }
    case _ =>
  }

  // ----- the shortest text that reaches an operator

  ghost function Pick(a: Atom): byte {
    if Satisfiable(a) then var c: byte :| Takes(a, c); c else NUL
  }

  /** What operator i takes of it. */
  ghost function Piece(ops: seq<Op>, i: nat): (r: seq<byte>)
    requires i < |ops|
    ensures |r| == Least(ops, i)
    decreases i, 1
  {
    match ops[i]
    case One(a) => [Pick(a)]
    case Between(a, lo, _) => seq(lo, n => Pick(a))
    case Back(k) =>
      var o, c := Place(ops, Open(k)), Place(ops, Close(k));
      if o < c < i && Low(ops, o) <= Low(ops, c) then
        LowGrows(ops, c, i);
        Shortest(ops, i)[Low(ops, o)..Low(ops, c)]
      else []
    case _ => []
  }

  ghost function Shortest(ops: seq<Op>, i: nat): (r: seq<byte>)
    requires i <= |ops|
    ensures |r| == Low(ops, i)
    decreases i, 0
  {
    if i == 0 then [] else Shortest(ops, i - 1) + Piece(ops, i - 1)
  }

  ghost function Lows(ops: seq<Op>, i: nat): (r: seq<int>)
    requires i <= |ops|
  {
    seq(i + 1, j requires 0 <= j < i + 1 => Low(ops, j))
  }

  lemma {:induction false} ShortestPrefix(ops: seq<Op>, j: nat, i: nat)
    requires j <= i <= |ops|
    ensures Low(ops, j) <= Low(ops, i) && Shortest(ops, i)[..Low(ops, j)] == Shortest(ops, j)
    decreases i
  {
    if j < i {
      ShortestPrefix(ops, j, i - 1);
      assert Shortest(ops, i)[..Low(ops, i - 1)] == Shortest(ops, i - 1);
      assert Shortest(ops, i)[..Low(ops, j)] == Shortest(ops, i)[..Low(ops, i - 1)][..Low(ops, j)];
    } else {
      assert Shortest(ops, i)[..Low(ops, j)] == Shortest(ops, i);
    }
  }

  /** Operator j finds its piece in it. */
  lemma PieceThere(ops: seq<Op>, j: nat, i: nat)
    requires j < i <= |ops|
    ensures Low(ops, j) + Least(ops, j) == Low(ops, j + 1) <= Low(ops, i)
    ensures Shortest(ops, i)[Low(ops, j)..Low(ops, j + 1)] == Piece(ops, j)
  {
    ShortestPrefix(ops, j + 1, i);
    assert Shortest(ops, i)[Low(ops, j)..Low(ops, j + 1)] == Shortest(ops, i)[..Low(ops, j + 1)][Low(ops, j)..];
    assert (Shortest(ops, j) + Piece(ops, j))[Low(ops, j)..] == Piece(ops, j);
  }

  lemma PickFine(a: Atom)
    requires AtomFine(a) && Satisfiable(a)
    ensures Takes(a, Pick(a)) && Pick(a) != NUL
  {
  }

  lemma PieceIsText(ops: seq<Op>, i: nat, n: nat)
    requires i < n <= |ops| && OpFine(ops, i) && Passes(ops, i, n) && IsText(Shortest(ops, i))
    ensures IsText(Piece(ops, i))
  {
    match ops[i]
    case One(a) => PickFine(a);
    case Between(a, lo, _) =>
      if lo > 0 {
        PickFine(a);
      }
    case Back(k) =>
      LowGrows(ops, Place(ops, Open(k)), Place(ops, Close(k)));
      LowGrows(ops, Place(ops, Close(k)), i);
    case _ =>
  }

  lemma {:induction false} ShortestIsText(ops: seq<Op>, i: nat, n: nat)
    requires Fine(ops) && i <= n <= |ops| && forall j :: 0 <= j < i ==> Passes(ops, j, n)
    ensures IsText(Shortest(ops, i))
    decreases i
  {
    hide Piece;
    if i > 0 {
      ShortestIsText(ops, i - 1, n);
      assert OpFine(ops, i - 1) && Passes(ops, i - 1, n);
      PieceIsText(ops, i - 1, n);
    }
  }

  /** The least cuts are a way of matching it, when `locs` is no position of a text. */
  lemma LowsFit(ops: seq<Op>, i: nat, j: nat, locs: int)
    requires Fine(ops) && i <= |ops| && (forall k :: 0 <= k < i ==> Passes(ops, k, i)) && j < i && locs < 0
    ensures OpFine(ops, j) && Fits(ops, Subject(Shortest(ops, i), locs), Lows(ops, i), j)
  {
    assert OpFine(ops, j) && Passes(ops, j, i);
    hide Shortest, Piece;
    var s, cuts := Subject(Shortest(ops, i), locs), Lows(ops, i);
    PieceThere(ops, j, i);
    var a, b := cuts[j], cuts[j + 1];
    assert s.text[a..b] == Piece(ops, j);
    match ops[j]
    case One(at) => OneFits(ops, j, at, s.text, a);
    case Between(at, lo, hi) => BetweenFits(ops, j, at, lo, hi, s, a);
    case Back(k) => BackFits(ops, i, j, k);
    case _ =>
  }

  lemma OneFits(ops: seq<Op>, j: nat, at: Atom, text: seq<byte>, a: nat)
    requires j < |ops| && ops[j] == One(at) && AtomFine(at) && Satisfiable(at)
    requires a + 1 <= |text| && text[a..a + 1] == Piece(ops, j)
    ensures Takes(at, text[a])
  {
    PickFine(at);
    assert text[a] == text[a..a + 1][0];
  }

  lemma BetweenFits(ops: seq<Op>, j: nat, at: Atom, lo: byte, hi: byte, s: Subject, a: nat)
    requires j < |ops| && ops[j] == Between(at, lo, hi) && AtomFine(at) && (lo > 0 ==> Satisfiable(at))
    requires a + lo <= |s.text| && s.text[a..a + lo] == Piece(ops, j)
    ensures Run(at, s.text, a, a + lo)
  {
    forall n | a <= n < a + lo
      ensures Takes(at, s.text[n])
    {
      PickFine(at);
      assert s.text[n] == s.text[a..a + lo][n - a];
    }
  }

  lemma SlicePrefix(s: seq<byte>, i: nat, j: nat, n: nat)
    requires i <= j <= n <= |s|
    ensures s[i..j] == s[..n][i..j]
  {
  }

  lemma BackFits(ops: seq<Op>, i: nat, j: nat, k: byte)
    requires Fine(ops) && j < i <= |ops| && ops[j] == Back(k)
    ensures Refers(ops, k, j)
    ensures Low(ops, j) <= Low(ops, j + 1) <= |Shortest(ops, i)|
    ensures Shortest(ops, i)[Low(ops, j)..Low(ops, j + 1)]
         == Bracket(ops, Subject(Shortest(ops, i), -1), Lows(ops, i), k)
  {
    assert OpFine(ops, j);
    var o, c := Place(ops, Open(k)), Place(ops, Close(k));
    PieceThere(ops, j, i);
    LowGrows(ops, o, c);
    LowGrows(ops, c, j);
    ShortestPrefix(ops, j, i);
    SlicePrefix(Shortest(ops, i), Low(ops, o), Low(ops, c), Low(ops, j));
  }

  /** So a reference that can stick is stuck on it. */
  lemma StuckOnShortest(ops: seq<Op>, i: nat, locs: int)
    requires Fine(ops) && i < |ops| && CanStick(ops, i) && locs < 0
    ensures IsText(Shortest(ops, i)) && Stuck(ops, Subject(Shortest(ops, i), locs), Lows(ops, i))
  {
    ShortestIsText(ops, i, i);
    forall j | 0 <= j < i
      ensures OpFine(ops, j) && Fits(ops, Subject(Shortest(ops, i), locs), Lows(ops, i), j)
    {
      LowsFit(ops, i, j, locs);
    }
    assert OpFine(ops, i);
  }

  // ----- a search always comes upon its first event

  lemma {:induction false} SomeFirst(ops: seq<Op>, s: Subject, pre: seq<int>) returns (e: seq<int>)
    requires Fine(ops) && Partial(ops, s, pre) && !NoEvent(ops, s, pre)
    ensures First(ops, s, pre, e)
    decreases |ops| + 1 - |pre|
  {
    if Event(ops, s, pre) {
      EventIsFirst(ops, s, pre);
      return pre;
    }
    var x :| Event(ops, s, x) && pre <= x;
    assert |pre| <= |ops| by {
      assert |x| == |pre| ==> x == pre;
    }
    NextCut(ops, s, pre, x);
    forall c | c > |s.text|
      ensures NoEvent(ops, s, pre + [c])
    {
      Misfit(ops, s, pre, c);
    }
    var b := |s.text|;
    while NoEvent(ops, s, pre + [b])
      invariant x[|pre|] <= b && forall c :: c > b ==> NoEvent(ops, s, pre + [c])
      decreases b - x[|pre|]
    {
      b := b - 1;
    }
    if !Fits(ops, s, pre + [b], |pre| - 1) {
      Misfit(ops, s, pre, b);
    }
    PartialExtend(ops, s, pre, b);
    e := SomeFirst(ops, s, pre + [b]);
    Descend(ops, s, pre, b, e);
  }

  /** There is one first event at most. */
  lemma FirstIsOne(ops: seq<Op>, s: Subject, pre: seq<int>, x: seq<int>, y: seq<int>)
    requires Fine(ops) && First(ops, s, pre, x) && First(ops, s, pre, y)
    ensures x == y
  {
    if Greater(x, y) {
      NotBoth(x, y);
    } else if Greater(y, x) {
      NotBoth(y, x);
    }
  }

  lemma FullNotHanging(ops: seq<Op>, s: Subject, p: int, e: seq<int>)
    requires Fine(ops) && First(ops, s, [p], e) && Full(ops, s, e)
    ensures !HangsAt(ops, s, p)
  {
    forall x | First(ops, s, [p], x)
      ensures x == e
    {
      FirstIsOne(ops, s, [p], x, e);
    }
  }

  lemma NotBoth(x: seq<int>, y: seq<int>)
    requires Greater(x, y)
    ensures !Greater(y, x) && !(y <= x)
  {
    var k :| 0 <= k < |x| && k < |y| && x[..k] == y[..k] && x[k] > y[k];
    assert forall j :: 0 <= j < k ==> x[j] == x[..k][j] == y[j];
  }

  // ----- when a search hangs

  /** On the shortest text that reaches operator i, a match of the whole pattern would have to pass the place
      where operator i is stuck. */
  lemma MatchPassesStuck(ops: seq<Op>, i: nat, locs: int, z: seq<int>)
    requires Fine(ops) && i < |ops| && CanStick(ops, i) && locs < 0
    requires Full(ops, Subject(Shortest(ops, i), locs), z) && z[0] == 0
    ensures Lows(ops, i) <= z
  {
    var s := Subject(Shortest(ops, i), locs);
    forall j | 0 <= j <= i
      ensures z[j] == Low(ops, j)
    {
      TakesLeast(ops, s, z, 0, j);
      TakesLeast(ops, s, z, j, i);
      Monotone(ops, s, z, i, i);
    }
    assert z[..i + 1] == Lows(ops, i);
  }

  /** A text on which the search from its beginning hangs. */
  lemma HangsOnShortest(ops: seq<Op>, i: nat, locs: int)
    requires Fine(ops) && i < |ops| && CanStick(ops, i) && locs < 0
    ensures IsText(Shortest(ops, i)) && HangsAt(ops, Subject(Shortest(ops, i), locs), 0)
  {
    var s, x := Subject(Shortest(ops, i), locs), Lows(ops, i);
    StuckOnShortest(ops, i, locs);
    assert Event(ops, s, x) && [0] <= x;
    var e := SomeFirst(ops, s, [0]);
    if Full(ops, s, e) {
      assert [0] <= e;
      MatchPassesStuck(ops, i, locs, e);
      assert e <= x || Greater(e, x);
      if Greater(e, x) {
        NotBoth(e, x);
      }
    }
  }

  /** A pattern can hang the matcher exactly when it has a starred reference that can be reached with nothing in
      its bracket: then some text does it, from its beginning, and otherwise none does from anywhere. */
  lemma HangsWhen(ops: seq<Op>, locs: int)
    requires Fine(ops) && locs < 0
    ensures CanHang(ops) <==> exists text :: IsText(text) && HangsAt(ops, Subject(text, locs), 0)
    ensures !CanHang(ops) ==> forall s, p :: !HangsAt(ops, s, p)
  {
    if CanHang(ops) {
      var i :| 0 <= i < |ops| && CanStick(ops, i);
      HangsOnShortest(ops, i, locs);
    } else {
      forall s, p
        ensures !HangsAt(ops, s, p)
      {
        NeverHangs(ops, s, p);
      }
    }
  }

  lemma NeverHangs(ops: seq<Op>, s: Subject, p: int)
    requires Fine(ops) && !CanHang(ops)
    ensures !HangsAt(ops, s, p)
  {
    forall x | Stuck(ops, s, x)
      ensures false
    {
      StuckCanStick(ops, s, x);
    }
  }

  // ----- two patterns

  /** `\(a*\)\1*` */
  function StarredEmpty(): seq<Op> {
    [Open(0), Many(Chr(97)), Close(0), BackMany(0)]
  }

  lemma StarredEmptyFine()
    ensures Fine(StarredEmpty())
  {
    var ops := StarredEmpty();
    assert Place(ops, Open(0)) == 0 && Place(ops, Close(0)) == 2 by {
      assert ops[0] == Open(0) && ops[2] == Close(0);
    }
  }

  lemma OnlyWay(s: Subject, x: seq<int>)
    requires Fine(StarredEmpty()) && s.text == [98] && Event(StarredEmpty(), s, x) && [0] <= x
    ensures [0, 0, 0, 0] <= x
  {
    var ops := StarredEmpty();
    assert |x| >= 4;
    assert x[0] == 0;
    assert OpFine(ops, 0) && Fits(ops, s, x, 0);
    assert OpFine(ops, 1) && Fits(ops, s, x, 1);
    assert OpFine(ops, 2) && Fits(ops, s, x, 2);
    assert x[2] == 0 by {
      assert !Takes(Chr(97), s.text[0]);
    }
  }

  /** It hangs on "b". */
  lemma HangWitness(locs: int)
    requires locs < 0
    ensures Fine(StarredEmpty()) && CanHang(StarredEmpty()) && HangsAt(StarredEmpty(), Subject([98], locs), 0)
  {
    StarredEmptyFine();
    var ops, s, e := StarredEmpty(), Subject([98], locs), [0, 0, 0, 0];
    assert Partial(ops, s, e) by {
      forall i | 0 <= i < 3
        ensures OpFine(ops, i) && Fits(ops, s, e, i)
      {
        assert OpFine(ops, i);
      }
    }
    assert OpFine(ops, 3);
    assert Stuck(ops, s, e);
    forall x | Event(ops, s, x) && [0] <= x
      ensures e <= x
    {
      OnlyWay(s, x);
    }
    assert First(ops, s, [0], e);
    StuckCanStick(ops, s, e);
  }

  /** `\(a\)\(\1\)\2*` */
  function StarredCopy(): seq<Op> {
    [Open(0), One(Chr(97)), Close(0), Open(1), Back(0), Close(1), BackMany(1)]
  }

  lemma CopyPlaces()
    ensures Place(StarredCopy(), Open(0)) == 0 && Place(StarredCopy(), Close(0)) == 2
    ensures Place(StarredCopy(), Open(1)) == 3 && Place(StarredCopy(), Close(1)) == 5
  {
    var ops := StarredCopy();
    assert ops[0] == Open(0) && ops[2] == Close(0) && ops[3] == Open(1) && ops[5] == Close(1);
  }

  lemma CopyFine()
    ensures Fine(StarredCopy())
  {
    hide Place;
    CopyPlaces();
  }

  /** It hangs on nothing: the second bracket must take what the first has taken. */
  lemma NoHangWitness()
    ensures Fine(StarredCopy()) && !CanHang(StarredCopy())
    ensures forall s, p :: !HangsAt(StarredCopy(), s, p)
  {
    CopyFine();
    CopyTakes();
    hide CanHang, HangsAt;
    HangsWhen(StarredCopy(), -1);
  }

  lemma CopyTakes()
    ensures !CanHang(StarredCopy())
  {
    hide Place;
    var ops := StarredCopy();
    CopyPlaces();
    assert Low(ops, 2) == 1 && Low(ops, 3) == 1;
    assert Low(ops, 5) == Low(ops, 4) + 1;
    assert Low(ops, 4) == Low(ops, 3);
  }
}
