/** A pattern compiled and then looked for: the two halves of the header put together. */
module RegexUse {
  import opened Bytes
  import opened RegexMeaning
  import opened RegexHangs
  import opened RegexCode
  import opened RegexMatcher
  import opened RegexSyntax
  import opened RegexCompile
  import opened RegexRoundTrip

  /** The starts a search tries: all of the text, or its beginning only when the pattern has `^`. */
  predicate Start(p: Pattern, text: seq<byte>, i: int) {
    if p.anchored then i == 0 else 0 <= i <= |text|
  }

  /** The pattern matches text[i..j]. */
  ghost predicate MatchesAt(p: Pattern, s: Subject, i: int, j: int) {
    Fine(Ops(p)) && Start(p, s.text, i) && Matches(Ops(p), s, i, j)
  }

  /** What a search has found out. */
  ghost predicate Answered(r: Answer, e: seq<int>, p: Pattern, s: Subject, loc1: int, loc2: int) {
    Fine(Ops(p))
    && match r
       case No => forall i, j :: !MatchesAt(p, s, i, j)
       case Yes =>
         MatchesAt(p, s, loc1, loc2)
         && (forall i, j :: MatchesAt(p, s, i, j) ==> loc1 <= i)
         && Full(Ops(p), s, e) && e[0] == loc1 && e[|Ops(p)|] == loc2
         && (forall x :: Full(Ops(p), s, x) && x[0] == loc1 && x != e ==> Greater(e, x))
       case Hangs =>
         Start(p, s.text, loc1) && Stuck(Ops(p), s, e) && e[0] == loc1
         && (forall i, j :: MatchesAt(p, s, i, j) ==> loc1 <= i)
         && (forall x :: Full(Ops(p), s, x) && x[0] == loc1 ==> e <= x || Greater(e, x))
  }

  lemma FullStarts(ops: seq<Op>, s: Subject, p: int, x: seq<int>)
    requires Fine(ops) && Full(ops, s, x) && x[0] == p
    ensures Event(ops, s, x) && [p] <= x
  {
  }

  lemma NoEventNoMatch(ops: seq<Op>, s: Subject, p: int)
    requires Fine(ops) && NoEvent(ops, s, [p])
    ensures forall q :: !Matches(ops, s, p, q)
  {
    forall x | Event(ops, s, x)
      ensures x[0] != p
    {
      assert [x[0]] <= x;
    }
  }

  lemma FirstBeats(ops: seq<Op>, s: Subject, p: int, e: seq<int>)
    requires Fine(ops) && First(ops, s, [p], e)
    ensures |e| >= 1 && e[0] == p
    ensures forall x :: Full(ops, s, x) && x[0] == p ==> e <= x || Greater(e, x)
  {
    assert [p] <= e;
    forall x | Full(ops, s, x) && x[0] == p
      ensures e <= x || Greater(e, x)
    {
      FullStarts(ops, s, p, x);
    }
  }

  /** The machine's answer at one start, or over all starts, in terms of the pattern. */
  lemma AnchoredAnswer(r: Answer, e: seq<int>, p: Pattern, s: Subject, loc2: int, bras: seq<int>, brae: seq<int>)
    requires Fine(Ops(p)) && p.anchored && Verdict(r, e, Ops(p), s, [0], loc2, bras, brae)
    ensures Answered(r, e, p, s, 0, loc2)
  {
    var ops := Ops(p);
    if r == No {
      NoEventNoMatch(ops, s, 0);
    } else {
      FirstBeats(ops, s, 0, e);
      if r == Yes {
        assert Matches(ops, s, 0, loc2);
      }
    }
  }

  lemma LeftmostAnswer(r: Answer, e: seq<int>, p: Pattern, s: Subject, loc1: int, loc2: int)
    requires Fine(Ops(p)) && !p.anchored && Leftmost(r, e, Ops(p), s, 0, loc1, loc2)
    ensures Answered(r, e, p, s, loc1, loc2)
  {
    var ops := Ops(p);
    forall i, j | 0 <= i && (r == No ==> i <= |s.text|) && (r != No ==> i < loc1)
      ensures !Matches(ops, s, i, j)
    {
      assert NoEvent(ops, s, [i]);
      NoEventNoMatch(ops, s, i);
    }
    if r != No {
      FirstBeats(ops, s, loc1, e);
      if r == Yes {
        assert Matches(ops, s, loc1, loc2);
      }
    }
  }

  /** The search comes upon a place with no way out before it comes upon a match. */
  ghost predicate Hanging(p: Pattern, s: Subject) {
    Fine(Ops(p))
    && exists i :: Start(p, s.text, i) && HangsAt(Ops(p), s, i) && forall j, k :: j < i ==> !MatchesAt(p, s, j, k)
  }

  lemma NoEventNoHang(ops: seq<Op>, s: Subject, p: int)
    requires Fine(ops) && NoEvent(ops, s, [p])
    ensures !HangsAt(ops, s, p)
  {
  }

  lemma AnchoredHangs(r: Answer, e: seq<int>, p: Pattern, s: Subject, loc2: int, bras: seq<int>, brae: seq<int>)
    requires Fine(Ops(p)) && p.anchored && Verdict(r, e, Ops(p), s, [0], loc2, bras, brae)
    ensures r == Hangs <==> Hanging(p, s)
  {
    AnswerIsMeaning(r, e, Ops(p), s, 0, loc2, bras, brae);
  }

  lemma LeftmostHangs(r: Answer, e: seq<int>, p: Pattern, s: Subject, loc1: int, loc2: int)
    requires Fine(Ops(p)) && !p.anchored && Leftmost(r, e, Ops(p), s, 0, loc1, loc2)
    ensures r == Hangs <==> Hanging(p, s)
  {
    var ops := Ops(p);
    forall i | 0 <= i && (if r == No then i <= |s.text| else i < loc1)
      ensures !HangsAt(ops, s, i) && forall j :: !Matches(ops, s, i, j)
    {
      assert NoEvent(ops, s, [i]);
      NoEventNoHang(ops, s, i);
      NoEventNoMatch(ops, s, i);
    }
    if r == Hangs {
      assert HangsAt(ops, s, loc1);
    } else if r == Yes {
      FullNotHanging(ops, s, loc1, e);
      assert [loc1] <= e;
      assert Matches(ops, s, loc1, loc2);
      assert MatchesAt(p, s, loc1, loc2);
    }
  }

  /** Whether a pattern can hang the search is read off the pattern: if it can, some text does it, and otherwise
      none does. */
  lemma PatternHangs(p: Pattern, locs: int)
    requires Fine(Ops(p)) && locs < 0
    ensures CanHang(Ops(p)) <==> exists text :: IsText(text) && Hanging(p, Subject(text, locs))
    ensures !CanHang(Ops(p)) ==> forall s :: !Hanging(p, s)
  {
    HangsWhen(Ops(p), locs);
    if CanHang(Ops(p)) {
      var text :| IsText(text) && HangsAt(Ops(p), Subject(text, locs), 0);
      assert Start(p, text, 0);
      assert Hanging(p, Subject(text, locs));
    }
  }

  lemma OneMore(it: Item, rest: seq<Item>, ctx: Ctx, eof: byte)
    ensures OpsOf([it] + rest, ctx) == [OpOf(it, ctx)] + OpsOf(rest, After(it, ctx))
    ensures ItemsFine([it] + rest, ctx, eof)
            <==> ItemFine(it, rest == [], ctx, eof) && ItemsFine(rest, After(it, ctx), eof)
  {
    assert ([it] + rest)[1..] == rest;
  }

  /** `\(a*\)\1*` */
  function StarredPattern(): Pattern {
    Pattern(false,
            [Item(OpenB, Once)] + ([Item(Lit(97, false), Rep.Star)]
                                   + ([Item(CloseB, Once)] + ([Item(Ref(1), Rep.Star)] + []))))
  }

  lemma WrittenFine()
    ensures PatternFine(StarredPattern(), 47) && Ops(StarredPattern()) == StarredEmpty()
  {
    var p := StarredPattern();
    var i0, i1, i2, i3 := Item(OpenB, Once), Item(Lit(97, false), Rep.Star), Item(CloseB, Once), Item(Ref(1), Rep.Star);
    var c1 := Ctx(false, true, 1, [0], {});
    var c2 := Ctx(false, false, 1, [0], {});
    var c3 := Ctx(false, true, 1, [], {0});
    assert After(i0, CTX0) == c1 && After(i1, c1) == c2 && After(i2, c2) == c3;
    OneMore(i0, [i1] + ([i2] + ([i3] + [])), CTX0, 47);
    OneMore(i1, [i2] + ([i3] + []), c1, 47);
    OneMore(i2, [i3] + [], c2, 47);
    OneMore(i3, [], c3, 47);
    hide OpsOf, ItemsFine;
    assert Ops(p) == StarredEmpty();
  }

  /** As it is written it is well formed, and hangs the search on "b". */
  lemma WrittenWitness(locs: int)
    requires locs < 0
    ensures PatternFine(StarredPattern(), 47) && Hanging(StarredPattern(), Subject([98], locs))
  {
    hide PatternFine, Ops;
    WrittenFine();
    HangWitness(locs);
    assert Start(StarredPattern(), [98], 0);
  }

  /** `step` on the code of a pattern. */
  method Find(re: Regexp, ghost p: Pattern, code: seq<byte>, text: seq<byte>) returns (r: Answer, ghost e: seq<int>)
    requires re.Shape() && re.circf == p.anchored && IsText(text)
    requires Fine(Ops(p)) && Holds(code, 0, Ops(p), 0)
    modifies re, re.bras, re.brae
    ensures Answered(r, e, p, Subject(text, old(re.locs)), re.loc1, re.loc2)
    ensures r == Hangs <==> Hanging(p, Subject(text, old(re.locs)))
  {
    ghost var s := Subject(text, re.locs);
    r, e := re.Step(code, text, 0, 0, Ops(p));
    hide Leftmost, Verdict, Hanging, Answered;
    if p.anchored {
      AnchoredAnswer(r, e, p, s, re.loc2, re.bras[..], re.brae[..]);
      AnchoredHangs(r, e, p, s, re.loc2, re.bras[..], re.brae[..]);
    } else {
      LeftmostAnswer(r, e, p, s, re.loc1, re.loc2);
      LeftmostHangs(r, e, p, s, re.loc1, re.loc2);
    }
  }

  lemma CompiledHolds(p: Pattern, eof: byte, code: seq<byte>)
    requires PatternFine(p, eof) && code == EncAll(Ops(p)) + [CCEOF]
    ensures Fine(Ops(p)) && Holds(code, 0, Ops(p), 0)
  {
    PatternNumbered(p, eof);
    assert Ops(p)[0..] == Ops(p);
    EncAllHolds(code, 0, Ops(p), 0);
  }

  /** The buffer has the byte at `endbuf`, or that byte is not needed. */
  predicate Writable(pat: seq<byte>, eof: byte, sed: bool, endbuf: nat, length: nat) {
    0 < length && (endbuf < length || (endbuf == length && !CompileOverruns(pat, eof, sed, endbuf)))
  }

  /** Compiles a well-formed pattern, ended by the delimiter or by a newline, and looks for it: error 50 exactly
      when the buffer is too small; otherwise the leftmost match, the one that gives earlier items as much as they
      can take, or the news that there is none.  It hangs exactly where the search does. */
  method Search(re: Regexp, ghost p: Pattern, pat: seq<byte>, buf: array<byte>, endbuf: nat, eof: byte,
                ghost last: byte, text: seq<byte>)
    returns (err: nat, r: Answer, ghost e: seq<int>)
    requires re.Shape() && PatternFine(p, eof) && IsText(text)
    requires Show(p) + [last] <= pat && (last == eof || (last == NEWLINE && !re.sed))
    requires Writable(pat, eof, re.sed, endbuf, buf.Length)
    modifies re, re.bras, re.brae, buf
    ensures err == (if |EncAll(Ops(p))| >= endbuf then 50 else 0)
    ensures err == 0 ==> Answered(r, e, p, Subject(text, old(re.locs)), re.loc1, re.loc2)
    ensures err == 0 ==> (r == Hangs <==> Hanging(p, Subject(text, old(re.locs))))
  {
    hide Hanging, Answered;
    var code;
    err, code := CompilePattern(re, p, pat, buf, endbuf, eof, last);
    r, e := No, [];
    if err == 0 {
      CompiledHolds(p, eof, code);
      r, e := Find(re, p, code, text);
    }
  }

  /** `compile` on the text of a well-formed pattern. */
  method CompilePattern(re: Regexp, ghost p: Pattern, pat: seq<byte>, buf: array<byte>, endbuf: nat, eof: byte,
                        ghost last: byte)
    returns (err: nat, code: seq<byte>)
    requires PatternFine(p, eof) && Show(p) + [last] <= pat && (last == eof || (last == NEWLINE && !re.sed))
    requires Writable(pat, eof, re.sed, endbuf, buf.Length)
    modifies re`nbra, re`circf, re`nodelim, buf
    ensures err == (if |EncAll(Ops(p))| >= endbuf then 50 else 0)
    ensures err == 0 ==> code == EncAll(Ops(p)) + [CCEOF] && re.circf == p.anchored
    ensures err == 0 ==> re.nodelim == (last != eof || old(re.nodelim))
  {
    hide CompileOf, Show, EncAll, Ops;
    ghost var o, before := CompileOf(pat, eof, re.sed, endbuf, buf[0] != 0), buf[..];
    CompileShown(p, eof, re.sed, endbuf, buf[0] != 0, last, pat);
    var sp, ep;
    err, sp, ep := Compile(re, pat, buf, 0, endbuf, eof);
    code := [];
    if err == 0 {
      FromStart(o, err, sp, ep, before, buf[..], old(re.nodelim), re.nodelim);
      code := buf[..ep];
    }
  }

  lemma FromStart(o: Outcome, err: nat, sp: nat, ep: nat, before: seq<byte>, after: seq<byte>, n0: bool, n: bool)
    requires Finished(o, err, sp, ep, 0, before, after, n0, n) && o.Compiled?
    ensures ep <= |after| && after[..ep] == o.code
  {
    assert before[..0] + o.code == o.code;
  }
}
