/** What a regular expression means, with no machine in sight.

    A pattern is a row of operators.  A way of matching it is a row of *cut points*: positions of
    the text, one before each operator and one after the last, such that every operator accepts
    the stretch between its two cuts.  A back-reference accepts the stretch that lies between the
    cuts of its brackets, so no bracket table is needed to say what it means. */
module RegexMeaning {
  import opened Bytes

  /** The inside of `[...]`: a first character, then single characters and range ends. */
  datatype ClassItem = Single(c: byte) | To(c: byte)
  datatype Class = Class(neg: bool, first: byte, rest: seq<ClassItem>, dash: bool)

  predicate InSpan(lo: byte, x: byte, hi: byte) {
    lo <= x <= hi
  }

  function Span(lo: byte, hi: byte): set<byte> {
    set x: byte | InSpan(lo, x, hi)
  }

  /** Characters listed after `prev`; a range end takes the character before it as its start. */
  function Members(prev: byte, rest: seq<ClassItem>): set<byte>
    decreases |rest|
  {
    if rest == [] then {}
    else
      (match rest[0]
       case Single(c) => {c}
       case To(c) => {c} + Span(prev, c))
      + Members(rest[0].c, rest[1..])
  }

  function Listed(k: Class): set<byte> {
    {k.first} + Members(k.first, k.rest) + (if k.dash then {MINUS} else {})
  }

  predicate InClass(k: Class, c: byte) {
    c != NUL && (c in Listed(k)) != k.neg
  }

  /** One-character matchers. */
  datatype Atom = Chr(c: byte) | Any | Cls(k: Class)

  predicate Takes(a: Atom, c: byte) {
    match a
    case Chr(d) => c == d
    case Any => c != NUL
    case Cls(k) => InClass(k, c)
  }

  /** No matcher may accept the NUL that ends the text. */
  predicate AtomFine(a: Atom) {
    match a
    case Chr(c) => c != NUL
    case Any => true
    case Cls(k) => NUL !in Listed(k)
  }

  /** Operators, brackets already numbered from 0.  `hi == OPEN_END` is an interval with no upper
      number, which admits at most 20000 characters past the lower one. */
  datatype Op =
    | One(a: Atom)
    | Many(a: Atom)
    | Between(a: Atom, lo: byte, hi: byte)
    | Dollar
    | Open(k: byte)
    | Close(k: byte)
    | Back(k: byte)
    | BackMany(k: byte)

  const NBRA := 9
  const OPEN_END: byte := 255

  function Extra(lo: byte, hi: byte): nat
    requires lo <= hi
  {
    if hi == OPEN_END then 20000 else hi - lo
  }

  /** The first place an operator stands, or the length if it stands nowhere. */
  function Place(ops: seq<Op>, op: Op): (i: nat)
    ensures i <= |ops|
    ensures i < |ops| ==> ops[i] == op
    ensures forall j :: 0 <= j < i ==> ops[j] != op
  {
    if ops == [] then 0
    else if ops[0] == op then 0
    else 1 + Place(ops[1..], op)
  }

  ghost predicate Refers(ops: seq<Op>, k: byte, i: nat) {
    Place(ops, Open(k)) < Place(ops, Close(k)) < i
  }

  /** Brackets are numbered below NBRA with no number used twice, back-references look at brackets
      closed to their left, and no one-character matcher accepts the terminating NUL. */
  ghost predicate OpFine(ops: seq<Op>, i: nat)
    requires i < |ops|
  {
    match ops[i]
    case One(a) => AtomFine(a)
    case Many(a) => AtomFine(a)
    case Between(a, lo, hi) => lo <= hi && AtomFine(a)
    case Dollar => true
    case Open(k) => k < NBRA && Place(ops, Open(k)) == i
    case Close(k) => k < NBRA && Place(ops, Close(k)) == i
    case Back(k) => k < NBRA && Refers(ops, k, i)
    case BackMany(k) => k < NBRA && Refers(ops, k, i)
  }

  ghost predicate Fine(ops: seq<Op>) {
    forall i :: 0 <= i < |ops| ==> OpFine(ops, i)
  }

  /** A text ends where its NUL stands, so it holds none.  `locs` is the position at which the
      caller forbids a repetition to give characters back (-1, say, when it does not). */
  datatype Subject = Subject(text: seq<byte>, locs: int)

  ghost predicate IsText(text: seq<byte>) {
    NUL !in text
  }

  ghost predicate Run(a: Atom, text: seq<byte>, lo: int, hi: int) {
    0 <= lo <= hi <= |text| && forall j :: lo <= j < hi ==> Takes(a, text[j])
  }

  /** `locs` lies in the run that a repetition starting at `lo` could take, at or after `hi`. */
  ghost predicate Blocked(a: Atom, s: Subject, lo: int, hi: int, most: int) {
    hi <= s.locs <= most && Run(a, s.text, lo, s.locs)
  }

  /** text[lo..hi] is `w` any number of times. */
  ghost predicate Copies(text: seq<byte>, lo: nat, hi: nat, w: seq<byte>)
    requires lo <= hi <= |text|
    decreases hi - lo
  {
    lo == hi
    || (w != [] && lo + |w| <= hi && text[lo..lo + |w|] == w && Copies(text, lo + |w|, hi, w))
  }

  /** The text between a pair of cuts. */
  function Slice(text: seq<byte>, lo: int, hi: int): seq<byte> {
    if 0 <= lo <= hi <= |text| then text[lo..hi] else []
  }

  function Bracket(ops: seq<Op>, s: Subject, cuts: seq<int>, k: byte): seq<byte>
    requires Place(ops, Open(k)) < |cuts| && Place(ops, Close(k)) < |cuts|
  {
    Slice(s.text, cuts[Place(ops, Open(k))], cuts[Place(ops, Close(k))])
  }

  /** Operator i accepts the text between cut i and cut i + 1. */
  ghost predicate Fits(ops: seq<Op>, s: Subject, cuts: seq<int>, i: nat)
    requires i < |ops| && i + 1 < |cuts| && OpFine(ops, i)
  {
    var a, b := cuts[i], cuts[i + 1];
    0 <= a <= b <= |s.text| &&
    match ops[i]
    case One(at) => b == a + 1 && Takes(at, s.text[a])
    case Many(at) => Run(at, s.text, a, b) && !Blocked(at, s, a, b, |s.text|)
    case Between(at, lo, hi) =>
      lo <= b - a <= lo + Extra(lo, hi) && Run(at, s.text, a, b)
      && !Blocked(at, s, a, b, a + lo + Extra(lo, hi))
    case Dollar => a == b == |s.text|
    case Open(_) => a == b
    case Close(_) => a == b
    case Back(k) => s.text[a..b] == Bracket(ops, s, cuts, k)
    case BackMany(k) => Copies(s.text, a, b, Bracket(ops, s, cuts, k))
  }

  /** `cuts` is a way of matching the first |cuts| - 1 operators. */
  ghost predicate Partial(ops: seq<Op>, s: Subject, cuts: seq<int>)
    requires Fine(ops)
  {
    1 <= |cuts| <= |ops| + 1
    && 0 <= cuts[0] <= |s.text|
    && forall i :: 0 <= i < |cuts| - 1 ==> Fits(ops, s, cuts, i)
  }

  ghost predicate Full(ops: seq<Op>, s: Subject, cuts: seq<int>)
    requires Fine(ops)
  {
    Partial(ops, s, cuts) && |cuts| == |ops| + 1
  }

  /** The pattern matches text[p..q]. */
  ghost predicate Matches(ops: seq<Op>, s: Subject, p: int, q: int)
    requires Fine(ops)
  {
    exists cuts :: Full(ops, s, cuts) && cuts[0] == p && cuts[|ops|] == q
  }

  /** The next operator is a starred reference to a bracket that took nothing: the matcher's scan
      for further copies of the empty string has no end. */
  ghost predicate Stuck(ops: seq<Op>, s: Subject, cuts: seq<int>)
    requires Fine(ops)
  {
    Partial(ops, s, cuts)
    && |cuts| <= |ops|
    && var i := |cuts| - 1;
       ops[i].BackMany? && assert OpFine(ops, i); Bracket(ops, s, cuts, ops[i].k) == []
  }

  /** What a depth-first search comes upon: a full match, or a place with no way out. */
  ghost predicate Event(ops: seq<Op>, s: Subject, cuts: seq<int>)
    requires Fine(ops)
  {
    Full(ops, s, cuts) || Stuck(ops, s, cuts)
  }

  /** Search order: at the first cut where they differ, x takes more than y. */
  ghost predicate Greater(x: seq<int>, y: seq<int>) {
    exists k :: 0 <= k < |x| && k < |y| && x[..k] == y[..k] && x[k] > y[k]
  }

  /** `e` comes before every other event that continues `pre`. */
  ghost predicate First(ops: seq<Op>, s: Subject, pre: seq<int>, e: seq<int>)
    requires Fine(ops)
  {
    Event(ops, s, e) && pre <= e
    && forall x :: Event(ops, s, x) && pre <= x ==> e <= x || Greater(e, x)
  }

  ghost predicate NoEvent(ops: seq<Op>, s: Subject, pre: seq<int>)
    requires Fine(ops)
  {
    forall x :: Event(ops, s, x) ==> !(pre <= x)
  }
}
