/** Saving a document by its changes: the edits of one change, sorted from the end of the text,
    against one simultaneous replacement of the flat text. */
module DocumentChanges {
  import opened LineEdits
  import opened LineText
  import opened TextAlgebra

  datatype Edit = Edit(range: Range, text: string)

  /** A document change: edits given in the text as it was before the change, or a new marker. */
  datatype Change = Edits(edits: seq<Edit>) | Eol(eol: string)

  predicate Numbered(r: Range) {
    r.startLineNumber >= 1 && r.endLineNumber >= 1
  }

  predicate Addressed(edits: seq<Edit>) {
    forall i :: 0 <= i < |edits| ==> Numbered(edits[i].range)
  }

  predicate WellFormed(changes: seq<Change>) {
    forall i :: 0 <= i < |changes| ==>
      match changes[i] case Edits(edits) => Addressed(edits) case Eol(eol) => IsEol(eol)
  }

  /** `content.split(eol)`: a break other than the marker stays in its line. */
  function SplitAt(t: string, eol: string): (lines: seq<string>)
    requires eol != ""
    ensures |lines| > 0 && Join(lines, eol) == t
    decreases |t|
  {
    if t == "" then [""]
    else if eol <= t then
      var rest := SplitAt(t[|eol|..], eol);
      JoinNewLine(rest, eol);
      assert eol + t[|eol|..] == t;
      [""] + rest
    else
      var rest := SplitAt(t[1..], eol);
      JoinPrepend(t[0], rest, eol);
      assert [t[0]] + t[1..] == t;
      Prepend(t[0], rest)
  }

  /** The marker begins somewhere in the line. */
  ghost predicate Holds(line: string, eol: string) {
    exists k :: MarkerAt(line, eol, k)
  }

  predicate MarkerAt(line: string, eol: string, k: int) {
    0 <= k <= |line| - |eol| && line[k..k + |eol|] == eol
  }

  /** Lines of a content between its markers. */
  ghost predicate AreLinesOf(lines: seq<string>, content: string, eol: string) {
    |lines| > 0 && Join(lines, eol) == content && forall i :: 0 <= i < |lines| ==> !Holds(lines[i], eol)
  }

  lemma FirstLineStarts(lines: seq<string>, t: string, eol: string)
    requires |lines| > 0 && Join(lines, eol) == t
    ensures lines[0] <= t
  {
  }

  lemma MarkerStarts(line: string, t: string, eol: string)
    requires line <= t
    ensures MarkerAt(line, eol, 0) ==> eol <= t
  {
  }

  lemma MarkerBehind(c: char, line: string, eol: string, k: int)
    requires k != 0
    ensures MarkerAt([c] + line, eol, k) ==> MarkerAt(line, eol, k - 1)
  {
    if MarkerAt([c] + line, eol, k) {
      assert ([c] + line)[k..k + |eol|] == line[k - 1..k - 1 + |eol|];
    }
  }

  /** A character in front makes a marker only together with what was in front before. */
  lemma HoldsInFront(c: char, line: string, t: string, eol: string)
    requires line <= t && !Holds(line, eol) && IsEol(eol) && !(eol <= [c] + t)
    ensures !Holds([c] + line, eol)
  {
    MarkerStarts([c] + line, [c] + t, eol);
    forall k
      ensures !MarkerAt([c] + line, eol, k)
    {
      if k != 0 {
        MarkerBehind(c, line, eol, k);
      }
    }
  }

  lemma {:induction false} SplitAtGivesLines(t: string, eol: string)
    requires IsEol(eol)
    ensures AreLinesOf(SplitAt(t, eol), t, eol)
    decreases |t|
  {
    if t != "" {
      if eol <= t {
        SplitAtGivesLines(t[|eol|..], eol);
      } else {
        var rest := SplitAt(t[1..], eol);
        SplitAtGivesLines(t[1..], eol);
        FirstLineStarts(rest, t[1..], eol);
        assert [t[0]] + t[1..] == t;
        HoldsInFront(t[0], rest[0], t[1..], eol);
      }
    }
  }

  lemma JoinFirst(lines: seq<string>, eol: string)
    requires |lines| > 0
    ensures Join(lines, eol) == lines[0] + (if |lines| == 1 then "" else eol + Join(lines[1..], eol))
  {
  }

  /** What follows a first line is nothing, or begins with the marker: a longer one would hold it. */
  lemma LongerFirstHolds(x: string, a: string, y: string, b: string, eol: string)
    requires IsEol(eol) && x + a == y + b && |x| < |y|
    requires (a == "" || eol <= a) && (b == "" || eol <= b)
    ensures Holds(y, eol)
  {
    var t, n := x + a, |x|;
    MarkerFollows(x, a, eol);
    assert b != "" ==> t[|y|] == b[0] == '\r' || eol == "\n";
    assert t[n + |eol| - 1] == '\n';
    assert n + |eol| <= |y|;
    assert y == t[..|y|];
    assert y[n..n + |eol|] == t[n..n + |eol|];
    assert MarkerAt(y, eol, n);
  }

  lemma MarkerFollows(x: string, a: string, eol: string)
    requires eol <= a
    ensures |x| + |eol| <= |x + a| && (x + a)[|x|..|x| + |eol|] == eol
    ensures forall i :: 0 <= i < |eol| ==> (x + a)[|x| + i] == eol[i]
  {
  }

  /** Only one list of lines is that of a content. */
  lemma {:induction false} LinesAreUnique(xs: seq<string>, ys: seq<string>, content: string, eol: string)
    requires IsEol(eol) && AreLinesOf(xs, content, eol) && AreLinesOf(ys, content, eol)
    ensures xs == ys
    decreases |xs|
  {
    var a := if |xs| == 1 then "" else eol + Join(xs[1..], eol);
    var b := if |ys| == 1 then "" else eol + Join(ys[1..], eol);
    JoinFirst(xs, eol);
    JoinFirst(ys, eol);
    if |xs[0]| < |ys[0]| {
      LongerFirstHolds(xs[0], a, ys[0], b, eol);
    } else if |ys[0]| < |xs[0]| {
      LongerFirstHolds(ys[0], b, xs[0], a, eol);
    }
    SameParts(xs[0], a, ys[0], b);
    if |xs| > 1 {
      assert a != "";
      SameParts(eol, Join(xs[1..], eol), eol, Join(ys[1..], eol));
      LinesAreUnique(xs[1..], ys[1..], Join(xs[1..], eol), eol);
      assert xs == [xs[0]] + xs[1..] && ys == [ys[0]] + ys[1..];
    } else {
      assert |ys| == 1;
      assert xs == [xs[0]] && ys == [ys[0]];
    }
  }

  lemma SameParts(x: string, a: string, y: string, b: string)
    requires x + a == y + b && |x| == |y|
    ensures x == y && a == b
  {
    assert (x + a)[..|x|] == x && (y + b)[..|y|] == y;
    assert (x + a)[|x|..] == a && (y + b)[|y|..] == b;
  }

  /** Several edits, one after the other. */
  function AllChanged(lines: seq<string>, edits: seq<Edit>): seq<string>
    requires Addressed(edits)
    decreases |edits|
  {
    if edits == [] then lines else AllChanged(Changed(lines, edits[0].range, edits[0].text), edits[1..])
  }

  predicate AtOrBefore(p: Position, q: Position) {
    p.lineNumber < q.lineNumber || (p.lineNumber == q.lineNumber && p.column <= q.column)
  }

  /** Disjoint ranges of the text, sorted from a position on towards the start. */
  predicate DescendingFrom(v: seq<string>, edits: seq<Edit>, p: Position)
    decreases |edits|
  {
    edits == [] || (&& ValidRange(v, edits[0].range)
                    && AtOrBefore(edits[0].range.End(), p)
                    && DescendingFrom(v, edits[1..], edits[0].range.Start()))
  }

  function EndOf(v: seq<string>): Position
    requires |v| > 0
  {
    Position(|v|, |v[|v| - 1]| + 1)
  }

  predicate Descending(v: seq<string>, edits: seq<Edit>)
    requires |v| > 0
  {
    DescendingFrom(v, edits, EndOf(v))
  }

  // ----- the flat text -----

  /** The text from one offset to another, to be replaced. */
  datatype Splice = Splice(from: int, to: int, text: string)

  /** Disjoint stretches of the first `n` characters, the last one first. */
  predicate Fit(splices: seq<Splice>, n: int)
    decreases |splices|
  {
    splices == [] || (0 <= splices[0].from <= splices[0].to <= n && Fit(splices[1..], splices[0].from))
  }

  /** All the stretches replaced at once: their offsets are those of the original text. */
  function Replaced(flat: string, splices: seq<Splice>): string
    requires Fit(splices, |flat|)
    decreases |splices|
  {
    if splices == [] then flat
    else
      var last := splices[0];
      Replaced(flat[..last.from], splices[1..]) + last.text + flat[last.to..]
  }

  function SpliceOf(v: seq<string>, eol: string, edit: Edit): Splice
    requires ValidRange(v, edit.range)
  {
    Splice(OffsetAt(v, eol, edit.range.Start()), OffsetAt(v, eol, edit.range.End()), NormalizeBreaks(edit.text, eol))
  }

  function SplicesOf(v: seq<string>, eol: string, edits: seq<Edit>, p: Position): (splices: seq<Splice>)
    requires DescendingFrom(v, edits, p)
    ensures |splices| == |edits|
    decreases |edits|
  {
    if edits == [] then []
    else [SpliceOf(v, eol, edits[0])] + SplicesOf(v, eol, edits[1..], edits[0].range.Start())
  }

  lemma OffsetsAscend(v: seq<string>, eol: string, p: Position, q: Position)
    requires InText(v, p) && InText(v, q) && AtOrBefore(p, q)
    ensures 0 <= OffsetAt(v, eol, p) <= OffsetAt(v, eol, q) <= |Join(v, eol)|
  {
    FlatPieces(v, Range(p.lineNumber, p.column, q.lineNumber, q.column), eol);
  }

  lemma {:induction false} SplicesFit(v: seq<string>, eol: string, edits: seq<Edit>, p: Position)
    requires InText(v, p) && DescendingFrom(v, edits, p)
    ensures Fit(SplicesOf(v, eol, edits, p), OffsetAt(v, eol, p))
    decreases |edits|
  {
    if edits != [] {
      var r, splices := edits[0].range, SplicesOf(v, eol, edits, p);
      OffsetsAscend(v, eol, r.Start(), r.End());
      OffsetsAscend(v, eol, r.End(), p);
      SplicesFit(v, eol, edits[1..], r.Start());
      assert splices[1..] == SplicesOf(v, eol, edits[1..], r.Start());
    }
  }

  /** The flat text with all edits replaced at once. */
  function AllReplaced(v: seq<string>, eol: string, edits: seq<Edit>): string
    requires |v| > 0 && Descending(v, edits)
  {
    SplicesFitText(v, eol, edits);
    Replaced(Join(v, eol), SplicesOf(v, eol, edits, EndOf(v)))
  }

  lemma SplicesFitText(v: seq<string>, eol: string, edits: seq<Edit>)
    requires |v| > 0 && Descending(v, edits)
    ensures Fit(SplicesOf(v, eol, edits, EndOf(v)), |Join(v, eol)|)
  {
    SplicesFit(v, eol, edits, EndOf(v));
    OffsetsAscend(v, eol, EndOf(v), EndOf(v));
    FitsMore(SplicesOf(v, eol, edits, EndOf(v)), OffsetAt(v, eol, EndOf(v)), |Join(v, eol)|);
  }

  lemma FitsMore(splices: seq<Splice>, n: int, m: int)
    requires Fit(splices, n) && n <= m
    ensures Fit(splices, m)
  {
  }

  // ----- one after the other is all at once -----

  /** What follows the last stretch is not touched. */
  lemma ReplacedInFront(x: string, y: string, splices: seq<Splice>)
    requires Fit(splices, |x|)
    ensures Fit(splices, |x + y|) && Replaced(x + y, splices) == Replaced(x, splices) + y
  {
    FitsMore(splices, |x|, |x + y|);
    if splices != [] {
      var last := splices[0];
      assert (x + y)[..last.from] == x[..last.from];
      assert (x + y)[last.to..] == x[last.to..] + y;
    }
  }

  /** Places in front of an edit stay where they are. */
  lemma PlaceStays(v: seq<string>, r: Range, text: string, p: Position, eol: string)
    requires ValidRange(v, r) && InText(v, p) && AtOrBefore(p, r.Start())
    ensures InText(Edited(v, r, text), p)
    ensures OffsetAt(Edited(v, r, text), eol, p) == OffsetAt(v, eol, p)
  {
    var e, s := Edited(v, r, text), r.startLineNumber;
    InsertedRangeCuts(v, r, text);
    SameBegin(v, e, r.Start(), p);
  }

  lemma SameBegin(v: seq<string>, e: seq<string>, q: Position, p: Position)
    requires InText(v, q) && InText(e, q) && Before(v, q) == Before(e, q)
    requires InText(v, p) && AtOrBefore(p, q)
    ensures InText(e, p) && e[..p.lineNumber - 1] == v[..p.lineNumber - 1]
  {
    var n := q.lineNumber - 1;
    assert Before(v, q)[..n] == v[..n] && Before(e, q)[..n] == e[..n];
    assert Before(v, q)[n] == v[n][..q.column - 1] && Before(e, q)[n] == e[n][..q.column - 1];
    assert v[..n][..p.lineNumber - 1] == v[..p.lineNumber - 1];
    assert e[..n][..p.lineNumber - 1] == e[..p.lineNumber - 1];
    if p.lineNumber - 1 < n {
      assert v[p.lineNumber - 1] == v[..n][p.lineNumber - 1] == e[..n][p.lineNumber - 1] == e[p.lineNumber - 1];
    }
  }

  lemma {:induction false} EditsStay(v: seq<string>, r: Range, text: string, edits: seq<Edit>, p: Position, eol: string)
    requires ValidRange(v, r) && AtOrBefore(p, r.Start()) && DescendingFrom(v, edits, p)
    ensures DescendingFrom(Edited(v, r, text), edits, p)
    ensures SplicesOf(Edited(v, r, text), eol, edits, p) == SplicesOf(v, eol, edits, p)
    decreases |edits|
  {
    if edits != [] {
      var q := edits[0].range;
      PlaceStays(v, r, text, q.Start(), eol);
      PlaceStays(v, r, text, q.End(), eol);
      EditsStay(v, r, text, edits[1..], q.Start(), eol);
    }
  }

  lemma {:induction false} AllChangedReplaces(lines: seq<string>, edits: seq<Edit>, p: Position, eol: string)
    requires Addressed(edits) && InText(View(lines), p) && DescendingFrom(View(lines), edits, p)
    ensures Fit(SplicesOf(View(lines), eol, edits, p), |Join(View(lines), eol)|)
    ensures Join(AllChanged(lines, edits), eol) == Replaced(Join(View(lines), eol), SplicesOf(View(lines), eol, edits, p))
    decreases |edits|
  {
    var v := View(lines);
    OffsetsAscend(v, eol, p, p);
    SplicesFit(v, eol, edits, p);
    FitsMore(SplicesOf(v, eol, edits, p), OffsetAt(v, eol, p), |Join(v, eol)|);
    if edits == [] {
      assert Join(v, eol) == Join(lines, eol);
    } else {
      FirstThenOthers(lines, edits, p, eol);
    }
  }

  lemma EditShows(lines: seq<string>, r: Range, text: string)
    requires ValidRange(View(lines), r)
    ensures View(Changed(lines, r, text)) == Edited(View(lines), r, text)
  {
    ChangedInText(lines, r, text, "");
    StoredShows(lines, r, text);
  }

  lemma ViewJoins(lines: seq<string>, eol: string)
    ensures Join(View(lines), eol) == Join(lines, eol)
  {
  }

  lemma OtherGrouping(x: string, y: string, z: string)
    ensures x + y + z == x + (y + z)
  {
  }

  lemma EditSplices(v: seq<string>, edit: Edit, eol: string)
    requires ValidRange(v, edit.range)
    ensures
      var s := SpliceOf(v, eol, edit);
      && 0 <= s.from <= s.to <= |Join(v, eol)|
      && Join(Edited(v, edit.range, edit.text), eol) == Join(v, eol)[..s.from] + (s.text + Join(v, eol)[s.to..])
  {
    EditSplicesFlatText(v, edit.range, edit.text, eol);
    var s := SpliceOf(v, eol, edit);
    OtherGrouping(Join(v, eol)[..s.from], s.text, Join(v, eol)[s.to..]);
  }

  lemma ReplacedFirst(flat: string, s: Splice, others: seq<Splice>, changed: string)
    requires 0 <= s.from <= s.to <= |flat| && Fit(others, s.from)
    requires changed == flat[..s.from] + (s.text + flat[s.to..])
    ensures Fit([s] + others, |flat|) && Fit(others, |changed|)
    ensures Replaced(changed, others) == Replaced(flat, [s] + others)
  {
    assert ([s] + others)[1..] == others;
    ReplacedInFront(flat[..s.from], s.text + flat[s.to..], others);
    var front := Replaced(flat[..s.from], others);
    assert front + (s.text + flat[s.to..]) == front + s.text + flat[s.to..];
  }

  lemma FirstThenOthers(lines: seq<string>, edits: seq<Edit>, p: Position, eol: string)
    requires edits != [] && Addressed(edits) && InText(View(lines), p) && DescendingFrom(View(lines), edits, p)
    requires Fit(SplicesOf(View(lines), eol, edits, p), |Join(View(lines), eol)|)
    ensures Join(AllChanged(lines, edits), eol) == Replaced(Join(View(lines), eol), SplicesOf(View(lines), eol, edits, p))
    decreases |edits|, 0
  {
    var v, first, rest := View(lines), edits[0], edits[1..];
    var changed, start := Changed(lines, first.range, first.text), first.range.Start();
    EditShows(lines, first.range, first.text);
    EditSplices(v, first, eol);
    EditsStay(v, first.range, first.text, rest, start, eol);
    PlaceStays(v, first.range, first.text, start, eol);
    AllChangedReplaces(changed, rest, start, eol);
    SplicesFit(v, eol, rest, start);
    ReplacedFirst(Join(v, eol), SpliceOf(v, eol, first), SplicesOf(v, eol, rest, start), Join(View(changed), eol));
  }

  /** Main result: edits given in one text and sorted from its end, applied one after the other,
      are the replacement of all their stretches of the flat text at once. */
  lemma DescendingEditsAreSimultaneous(lines: seq<string>, edits: seq<Edit>, eol: string)
    requires Addressed(edits) && Descending(View(lines), edits)
    ensures Join(AllChanged(lines, edits), eol) == AllReplaced(View(lines), eol, edits)
  {
    AllChangedReplaces(lines, edits, EndOf(View(lines)), eol);
  }

  // ----- any other order goes wrong -----

  function Repeat<T>(x: T, n: nat): (r: seq<T>)
    ensures |r| == n && forall i :: 0 <= i < n ==> r[i] == x
  {
    seq(n, i => x)
  }

  /** `n` lines of `w` characters each. */
  function Block(n: nat, w: nat): (lines: seq<string>)
    ensures |lines| == n && AllBreakFree(lines)
    ensures forall i :: 0 <= i < n ==> lines[i] == Repeat('x', w)
  {
    Repeat(Repeat('x', w), n)
  }

  lemma {:induction false} NoOtherCharacter(lines: seq<string>, eol: string, c: char)
    requires c !in eol && forall i :: 0 <= i < |lines| ==> c !in lines[i]
    ensures c !in Join(lines, eol)
    decreases |lines|
  {
    if |lines| > 1 {
      NoOtherCharacter(lines[1..], eol, c);
    }
  }

  /** The text of a block, and what it is when split and normalised again. */
  lemma BlockText(n: nat, w: nat, text: string, eol: string)
    requires n > 0 && IsEol(eol) && text == Join(Block(n, w), "\n")
    ensures Split(text) == Block(n, w) && 'y' !in NormalizeBreaks(text, eol)
  {
    SplitJoin(Block(n, w), "\n");
    JoinSplit(text, eol);
    NoOtherCharacter(Block(n, w), eol, 'y');
  }

  /** Places behind the start of an inserted block, and on its lines, lie inside it. */
  lemma InsideBlock(v: seq<string>, r: Range, n: nat, w: nat, text: string, p: Position)
    requires ValidRange(v, r) && n > 0 && Split(text) == Block(n, w)
    requires r.startLineNumber <= p.lineNumber <= r.startLineNumber + n - 2 && 1 <= p.column <= w + 1
    ensures InText(Edited(v, r, text), p)
  {
    var b, a := Before(v, r.Start()), After(v, r.End());
    var g := Glue(b, Block(n, w));
    var line := p.lineNumber - 1;
    assert Edited(v, r, text) == Glue(g, a);
    assert Glue(g, a)[line] == g[line];
    assert |g[line]| >= w;
  }

  /** The inserted text ends where its range ends. */
  lemma InsertedTextEnds(v: seq<string>, r: Range, text: string, eol: string)
    requires ValidRange(v, r)
    ensures ValidRange(Edited(v, r, text), InsertedRange(r, text))
    ensures OffsetAt(Edited(v, r, text), eol, InsertedRange(r, text).End())
            == OffsetAt(v, eol, r.Start()) + |NormalizeBreaks(text, eol)|
  {
    var e, i := Edited(v, r, text), InsertedRange(r, text);
    InsertedRangeCuts(v, r, text);
    PlaceBehind(e, i.End(), eol);
    PlaceBehind(v, r.End(), eol);
    EditSplices(v, Edit(r, text), eol);
  }

  lemma PlaceBehind(v: seq<string>, p: Position, eol: string)
    requires InText(v, p)
    ensures 0 <= OffsetAt(v, eol, p) == |Join(v, eol)| - |Join(After(v, p), eol)|
  {
    FlatPlace(v, p, eol);
  }

  lemma OffsetsBetween(e: seq<string>, from: Position, p: Position, to: Position, eol: string)
    requires InText(e, from) && InText(e, to) && p.column >= 1 && InText(e, Position(p.lineNumber, p.column + 1))
    requires AtOrBefore(from, p) && AtOrBefore(Position(p.lineNumber, p.column + 1), to)
    ensures InText(e, p) && OffsetAt(e, eol, from) <= OffsetAt(e, eol, p) < OffsetAt(e, eol, to)
  {
    OffsetsAscend(e, eol, from, p);
    OffsetsAscend(e, eol, Position(p.lineNumber, p.column + 1), to);
    assert OffsetAt(e, eol, Position(p.lineNumber, p.column + 1)) == OffsetAt(e, eol, p) + 1;
  }

  /** The offset of a place inside inserted text points into that text. */
  lemma PointsIntoText(v: seq<string>, r: Range, text: string, p: Position, eol: string)
    requires ValidRange(v, r) && InText(Edited(v, r, text), Position(p.lineNumber, p.column + 1)) && p.column >= 1
    requires AtOrBefore(r.Start(), p) && AtOrBefore(Position(p.lineNumber, p.column + 1), InsertedRange(r, text).End())
    ensures InText(Edited(v, r, text), p)
    ensures OffsetAt(v, eol, r.Start()) <= OffsetAt(Edited(v, r, text), eol, p)
            < OffsetAt(v, eol, r.Start()) + |NormalizeBreaks(text, eol)|
  {
    InsertedTextEnds(v, r, text, eol);
    PlaceStays(v, r, text, r.Start(), eol);
    OffsetsBetween(Edited(v, r, text), r.Start(), p, InsertedRange(r, text).End(), eol);
  }

  lemma CharacterAt(x: string, y: string, z: string, k: int)
    requires |x| <= k < |x| + |y|
    ensures (x + y + z)[k] in y
  {
    assert (x + y + z)[k] == y[k - |x|];
  }

  /** The text that goes wrong: a block long enough to hold the other range. */
  function Swamp(r: Range, q: Range): string
    requires r.startLineNumber <= q.endLineNumber && q.startColumn >= 0 && q.endColumn >= 0
  {
    Join(Block(q.endLineNumber - r.startLineNumber + 2, q.startColumn + q.endColumn + 1), "\n")
  }

  /** A block that reaches below a range has it inside. */
  lemma RangeInsideBlock(v: seq<string>, r: Range, q: Range, n: nat, w: nat, text: string, eol: string)
    requires ValidRange(v, r) && ValidRange(v, q) && AtOrBefore(r.Start(), q.Start())
    requires n == q.endLineNumber - r.startLineNumber + 2 && w == q.startColumn + q.endColumn + 1
    requires Split(text) == Block(n, w)
    ensures ValidRange(Edited(v, r, text), q)
    ensures OffsetAt(v, eol, r.Start()) <= OffsetAt(Edited(v, r, text), eol, q.Start())
            < OffsetAt(v, eol, r.Start()) + |NormalizeBreaks(text, eol)|
  {
    InsideBlock(v, r, n, w, text, q.Start());
    InsideBlock(v, r, n, w, text, q.End());
    InsideBlock(v, r, n, w, text, Position(q.startLineNumber, q.startColumn + 1));
    assert InsertedRange(r, text).endLineNumber == r.startLineNumber + n - 1;
    PointsIntoText(v, r, text, q.Start(), eol);
  }

  /** After the swamp, the other range lies inside it. */
  lemma Swamped(v: seq<string>, r: Range, q: Range, eol: string)
    requires ValidRange(v, r) && ValidRange(v, q) && AtOrBefore(r.Start(), q.Start()) && IsEol(eol)
    ensures
      var e, t := Edited(v, r, Swamp(r, q)), NormalizeBreaks(Swamp(r, q), eol);
      && ValidRange(e, q) && 'y' !in t
      && OffsetAt(v, eol, r.Start()) <= OffsetAt(e, eol, q.Start()) < OffsetAt(v, eol, r.Start()) + |t|
  {
    var n, w := q.endLineNumber - r.startLineNumber + 2, q.startColumn + q.endColumn + 1;
    var text := Swamp(r, q);
    BlockText(n, w, text, eol);
    RangeInsideBlock(v, r, q, n, w, text, eol);
  }

  /** Two disjoint ranges applied from the start of the text on: for some texts the result is not
      the replacement of both. */
  lemma OrderMatters(lines: seq<string>, r: Range, q: Range, eol: string)
    requires ValidRange(View(lines), r) && ValidRange(View(lines), q) && AtOrBefore(r.End(), q.Start()) && IsEol(eol)
    ensures exists t, u :: Misplaced(lines, r, t, q, u, eol)
  {
    var v, t := View(lines), Swamp(r, q);
    Swamped(v, r, q, eol);
    BothAscending(lines, r, t, q, eol);
    BothReplaced(v, r, t, q, "y", eol, OffsetAt(Edited(v, r, t), eol, q.Start()));
    assert Misplaced(lines, r, t, q, "y", eol);
  }

  /** Applying the edit of the upper range first does not give the replacement of both. */
  ghost predicate Misplaced(lines: seq<string>, r: Range, t: string, q: Range, u: string, eol: string) {
    && Numbered(r) && Numbered(q)
    && Descending(View(lines), [Edit(q, u), Edit(r, t)])
    && Join(AllChanged(lines, [Edit(r, t), Edit(q, u)]), eol) != AllReplaced(View(lines), eol, [Edit(q, u), Edit(r, t)])
  }

  lemma OnlyOne(lines: seq<string>, r: Range, t: string)
    requires Numbered(r)
    ensures AllChanged(lines, [Edit(r, t)]) == Changed(lines, r, t)
  {
    assert [Edit(r, t)][1..] == [];
  }

  lemma OneByOne(lines: seq<string>, r: Range, t: string, q: Range, u: string)
    requires Numbered(r) && Numbered(q)
    ensures AllChanged(lines, [Edit(r, t), Edit(q, u)]) == Changed(Changed(lines, r, t), q, u)
  {
    assert [Edit(r, t), Edit(q, u)][1..] == [Edit(q, u)];
    OnlyOne(Changed(lines, r, t), q, u);
  }

  lemma OneCharacter(eol: string)
    ensures NormalizeBreaks("y", eol) == "y"
  {
    assert "y"[1..] == "";
  }

  lemma CharacterIn(flat: string, from: int, to: int, all: string)
    requires 0 <= from <= to <= |flat| && all == flat[..from] + "y" + flat[to..]
    ensures from < |all| && all[from] == 'y'
  {
  }

  lemma CharacterInserted(e: seq<string>, q: Range, eol: string)
    requires ValidRange(e, q)
    ensures 0 <= OffsetAt(e, eol, q.Start()) < |Join(Edited(e, q, "y"), eol)|
    ensures Join(Edited(e, q, "y"), eol)[OffsetAt(e, eol, q.Start())] == 'y'
  {
    EditSplicesFlatText(e, q, "y", eol);
    OneCharacter(eol);
    CharacterIn(Join(e, eol), OffsetAt(e, eol, q.Start()), OffsetAt(e, eol, q.End()), Join(Edited(e, q, "y"), eol));
  }

  lemma BothAscending(lines: seq<string>, r: Range, t: string, q: Range, eol: string)
    requires ValidRange(View(lines), r) && ValidRange(View(lines), q) && ValidRange(Edited(View(lines), r, t), q)
    ensures
      var all := Join(AllChanged(lines, [Edit(r, t), Edit(q, "y")]), eol);
      var o := OffsetAt(Edited(View(lines), r, t), eol, q.Start());
      0 <= o < |all| && all[o] == 'y'
  {
    OneByOne(lines, r, t, q, "y");
    EditShows(lines, r, t);
    EditShows(Changed(lines, r, t), q, "y");
    ViewJoins(Changed(Changed(lines, r, t), q, "y"), eol);
    CharacterInserted(Edited(View(lines), r, t), q, eol);
  }

  lemma BothReplaced(v: seq<string>, r: Range, t: string, q: Range, u: string, eol: string, o: int)
    requires |v| > 0 && ValidRange(v, r) && ValidRange(v, q) && AtOrBefore(r.End(), q.Start())
    requires OffsetAt(v, eol, r.Start()) <= o < OffsetAt(v, eol, r.Start()) + |NormalizeBreaks(t, eol)|
    ensures
      var edits := [Edit(q, u), Edit(r, t)];
      && Descending(v, edits)
      && 0 <= o < |AllReplaced(v, eol, edits)| && AllReplaced(v, eol, edits)[o] in NormalizeBreaks(t, eol)
  {
    var edits, s, last := [Edit(q, u), Edit(r, t)], SpliceOf(v, eol, Edit(r, t)), SpliceOf(v, eol, Edit(q, u));
    TwoDescending(v, Edit(q, u), Edit(r, t), eol);
    OffsetsAscend(v, eol, r.Start(), r.End());
    OffsetsAscend(v, eol, r.End(), q.Start());
    OffsetsAscend(v, eol, q.Start(), q.End());
    TwoReplaced(Join(v, eol), s, last);
    CharacterAt(Join(v, eol)[..s.from], s.text, Join(v, eol)[..last.from][s.to..] + last.text + Join(v, eol)[last.to..], o);
  }

  lemma TwoDescending(v: seq<string>, last: Edit, first: Edit, eol: string)
    requires |v| > 0 && ValidRange(v, first.range) && ValidRange(v, last.range)
    requires AtOrBefore(first.range.End(), last.range.Start())
    ensures Descending(v, [last, first])
    ensures SplicesOf(v, eol, [last, first], EndOf(v)) == [SpliceOf(v, eol, last)] + [SpliceOf(v, eol, first)]
  {
    assert [last, first][1..] == [first] && [first][1..] == [];
    assert DescendingFrom(v, [first], last.range.Start());
    assert SplicesOf(v, eol, [first], last.range.Start()) == [SpliceOf(v, eol, first)];
  }

  lemma OneReplaced(flat: string, s: Splice)
    requires 0 <= s.from <= s.to <= |flat|
    ensures Fit([s], |flat|) && Replaced(flat, [s]) == flat[..s.from] + s.text + flat[s.to..]
  {
    assert [s][1..] == [];
    assert Fit([s][1..], s.from);
  }

  lemma TakeOfTake(flat: string, m: int, n: int)
    requires 0 <= m <= n <= |flat|
    ensures flat[..n][..m] == flat[..m]
  {
  }

  lemma Regroup(a: string, b: string, c: string, d: string, e: string)
    ensures (a + b + c) + d + e == a + b + (c + d + e)
  {
  }

  lemma TwoReplaced(flat: string, s: Splice, last: Splice)
    requires 0 <= s.from <= s.to <= last.from <= last.to <= |flat|
    ensures Fit([last] + [s], |flat|)
    ensures Replaced(flat, [last] + [s])
            == flat[..s.from] + s.text + (flat[..last.from][s.to..] + last.text + flat[last.to..])
  {
    var front := flat[..last.from];
    assert ([last] + [s])[1..] == [s] && ([last] + [s])[0] == last;
    OneReplaced(front, s);
    TakeOfTake(flat, s.from, last.from);
    Regroup(flat[..s.from], s.text, front[s.to..], last.text, flat[last.to..]);
  }

  // ----- whole runs of changes -----

  /** The content after changes of a document shown as these lines with this marker. */
  function ContentAfter(lines: seq<string>, eol: string, changes: seq<Change>): string
    requires WellFormed(changes)
    decreases |changes|
  {
    if changes == [] then Join(lines, eol)
    else
      match changes[0]
      case Edits(edits) => ContentAfter(AllChanged(lines, edits), eol, changes[1..])
      case Eol(marker) => ContentAfter(lines, marker, changes[1..])
  }

  /** `applyChanges`. */
  method ApplyChanges(content: string, changes: seq<Change>, eol: string) returns (result: string)
    requires IsEol(eol) && WellFormed(changes)
    ensures forall lines :: AreLinesOf(lines, content, eol) ==> result == ContentAfter(lines, eol, changes)
  {
    SplitAtGivesLines(content, eol);
    forall lines | AreLinesOf(lines, content, eol)
      ensures lines == SplitAt(content, eol)
    {
      LinesAreUnique(lines, SplitAt(content, eol), content, eol);
    }
    var textLines := new BasicTextLines(SplitAt(content, eol), eol);
    for i := 0 to |changes|
      invariant textLines.Valid()
      invariant ContentAfter(textLines.lines, textLines.eol, changes[i..])
                == ContentAfter(SplitAt(content, eol), eol, changes)
    {
      assert changes[i..][1..] == changes[i + 1..];
      match changes[i] {
        case Edits(edits) => ApplyEdits(textLines, edits);
        case Eol(marker) => textLines.AcceptEol(marker);
      }
    }
    result := textLines.GetContent();
  }

  method ApplyEdits(textLines: BasicTextLines, edits: seq<Edit>)
    requires textLines.Valid() && Addressed(edits)
    modifies textLines
    ensures textLines.Valid() && textLines.eol == old(textLines.eol)
    ensures textLines.lines == AllChanged(old(textLines.lines), edits)
  {
    for j := 0 to |edits|
      invariant textLines.Valid() && textLines.eol == old(textLines.eol)
      invariant AllChanged(textLines.lines, edits[j..]) == AllChanged(old(textLines.lines), edits)
    {
      assert edits[j..][1..] == edits[j + 1..];
      textLines.AcceptChange(edits[j].range, edits[j].text);
    }
  }

  /** Nothing changed is nothing changed, and one change is its simultaneous replacement, whatever
      breaks the content has. */
  lemma OneChangeReplaces(content: string, lines: seq<string>, edits: seq<Edit>, eol: string)
    requires IsEol(eol) && AreLinesOf(lines, content, eol) && Addressed(edits) && Descending(lines, edits)
    ensures ContentAfter(lines, eol, []) == content
    ensures ContentAfter(lines, eol, [Edits(edits)]) == AllReplaced(lines, eol, edits)
  {
    DescendingEditsAreSimultaneous(lines, edits, eol);
    assert [Edits(edits)][1..] == [];
  }

  /** Every content has its lines, and only these. */
  lemma EveryContentHasLines(content: string, eol: string) returns (lines: seq<string>)
    requires IsEol(eol)
    ensures forall other :: AreLinesOf(other, content, eol) <==> other == lines
    ensures lines == Split(content) <==> AllBreakFree(lines)
  {
    lines := SplitAt(content, eol);
    SplitAtGivesLines(content, eol);
    forall other | AreLinesOf(other, content, eol)
      ensures other == lines
    {
      LinesAreUnique(other, lines, content, eol);
    }
    if AllBreakFree(lines) {
      SplitJoin(lines, eol);
    }
  }

  /** Every edit change is sorted and lies in the text as it is then. */
  ghost predicate Lawful(flat: string, eol: string, changes: seq<Change>)
    decreases |changes|
  {
    changes == [] ||
    match changes[0]
    case Edits(edits) =>
      Descending(Split(flat), edits) && Lawful(AllReplaced(Split(flat), eol, edits), eol, changes[1..])
    case Eol(marker) => Lawful(NormalizeBreaks(flat, marker), marker, changes[1..])
  }

  /** The same changes on the flat text alone. */
  ghost function FlatAfter(flat: string, eol: string, changes: seq<Change>): string
    requires Lawful(flat, eol, changes)
    decreases |changes|
  {
    if changes == [] then flat
    else
      match changes[0]
      case Edits(edits) => FlatAfter(AllReplaced(Split(flat), eol, edits), eol, changes[1..])
      case Eol(marker) => FlatAfter(NormalizeBreaks(flat, marker), marker, changes[1..])
  }

  lemma {:induction false} AllChangedBreakFree(lines: seq<string>, edits: seq<Edit>)
    requires AllBreakFree(lines) && Addressed(edits)
    ensures AllBreakFree(AllChanged(lines, edits))
    decreases |edits|
  {
    if edits != [] {
      ChangedMeaning(lines, edits[0].range, edits[0].text, "");
      AllChangedBreakFree(Changed(lines, edits[0].range, edits[0].text), edits[1..]);
    }
  }

  lemma ShownText(lines: seq<string>, eol: string)
    requires AllBreakFree(lines) && IsEol(eol)
    ensures Split(Join(lines, eol)) == View(lines)
  {
    SplitJoin(View(lines), eol);
    ViewJoins(lines, eol);
  }

  lemma NewMarkerNormalizes(lines: seq<string>, eol: string, marker: string)
    requires AllBreakFree(lines) && IsEol(eol)
    ensures Join(lines, marker) == NormalizeBreaks(Join(lines, eol), marker)
  {
    ShownText(lines, eol);
    JoinSplit(Join(lines, eol), marker);
    ViewJoins(lines, marker);
  }

  /** Main result: over any run of sorted changes, the line array and its marker do what replacing
      stretches of one flat string, and rewriting its breaks, would do. */
  lemma {:induction false} ChangesAreFlat(lines: seq<string>, eol: string, changes: seq<Change>)
    requires AllBreakFree(lines) && IsEol(eol) && WellFormed(changes) && Lawful(Join(lines, eol), eol, changes)
    ensures ContentAfter(lines, eol, changes) == FlatAfter(Join(lines, eol), eol, changes)
    decreases |changes|
  {
    if changes != [] {
      assert forall i :: 0 <= i < |changes[1..]| ==> changes[1..][i] == changes[i + 1];
      match changes[0]
      case Edits(edits) =>
        ShownText(lines, eol);
        DescendingEditsAreSimultaneous(lines, edits, eol);
        AllChangedBreakFree(lines, edits);
        ChangesAreFlat(AllChanged(lines, edits), eol, changes[1..]);
      case Eol(marker) =>
        NewMarkerNormalizes(lines, eol, marker);
        ChangesAreFlat(lines, marker, changes[1..]);
    }
  }
}
