/** The text algebra behind the line model: splitting on line breaks, joining with an
    end-of-line marker, and gluing two runs of lines at their meeting point. */
module TextAlgebra {

  predicate IsBreak(c: char) {
    c == '\r' || c == '\n'
  }

  predicate BreakFree(s: string) {
    forall i :: 0 <= i < |s| ==> !IsBreak(s[i])
  }

  predicate AllBreakFree(lines: seq<string>) {
    forall i :: 0 <= i < |lines| ==> BreakFree(lines[i])
  }

  predicate StartsWithCRLF(t: string) {
    |t| > 1 && t[0] == '\r' && t[1] == '\n'
  }

  /** `text.split(/\r\n|\r|\n/)`: the leftmost alternative takes CR LF as one break. */
  function Split(t: string): (lines: seq<string>)
    ensures |lines| > 0
    ensures AllBreakFree(lines)
  {
    if t == "" then [""]
    else if StartsWithCRLF(t) then [""] + Split(t[2..])
    else if IsBreak(t[0]) then [""] + Split(t[1..])
    else Prepend(t[0], Split(t[1..]))
  }

  function Prepend(c: char, lines: seq<string>): (r: seq<string>)
    requires |lines| > 0
    ensures |r| == |lines|
    ensures !IsBreak(c) && AllBreakFree(lines) ==> AllBreakFree(r)
  {
    [[c] + lines[0]] + lines[1..]
  }

  /** `lines.join(eol)`. */
  function Join(lines: seq<string>, eol: string): string {
    if |lines| == 0 then ""
    else if |lines| == 1 then lines[0]
    else lines[0] + eol + Join(lines[1..], eol)
  }

  /** Number of line breaks in a text, read character by character. */
  function CountBreaks(t: string): nat {
    if t == "" then 0
    else if StartsWithCRLF(t) then 1 + CountBreaks(t[2..])
    else (if IsBreak(t[0]) then 1 else 0) + CountBreaks(t[1..])
  }

  /** The text with every line break rewritten as `eol`, read character by character. */
  function NormalizeBreaks(t: string, eol: string): string {
    if t == "" then ""
    else if StartsWithCRLF(t) then eol + NormalizeBreaks(t[2..], eol)
    else if IsBreak(t[0]) then eol + NormalizeBreaks(t[1..], eol)
    else [t[0]] + NormalizeBreaks(t[1..], eol)
  }

  /** The last line of `xs` continued by the first line of `ys`. */
  function Glue(xs: seq<string>, ys: seq<string>): (zs: seq<string>)
    requires |xs| > 0 && |ys| > 0
    ensures |zs| == |xs| + |ys| - 1
  {
    xs[..|xs| - 1] + [xs[|xs| - 1] + ys[0]] + ys[1..]
  }

  /** A carriage return and a line feed that only become one break once `a` meets `b`. */
  predicate Fuses(a: string, b: string) {
    a != "" && b != "" && a[|a| - 1] == '\r' && b[0] == '\n'
  }

  predicate IsEol(eol: string) {
    eol == "\n" || eol == "\r\n"
  }

  lemma GlueAssociative(xs: seq<string>, ys: seq<string>, zs: seq<string>)
    requires |xs| > 0 && |ys| > 0 && |zs| > 0
    ensures Glue(Glue(xs, ys), zs) == Glue(xs, Glue(ys, zs))
  {
    if |ys| == 1 {
      assert xs[|xs| - 1] + ys[0] + zs[0] == xs[|xs| - 1] + (ys[0] + zs[0]);
    }
  }

  lemma {:induction false} JoinGlue(xs: seq<string>, ys: seq<string>, eol: string)
    requires |xs| > 0 && |ys| > 0
    ensures Join(Glue(xs, ys), eol) == Join(xs, eol) + Join(ys, eol)
  {
    if |xs| == 1 {
      assert Glue(xs, ys)[1..] == ys[1..];
    } else {
      JoinGlue(xs[1..], ys, eol);
      assert Glue(xs, ys)[1..] == Glue(xs[1..], ys);
    }
  }

  lemma GlueNewLine(xs: seq<string>, ys: seq<string>)
    requires |xs| > 0 && |ys| > 0
    ensures Glue([""] + xs, ys) == [""] + Glue(xs, ys)
  {
  }

  lemma GluePrepend(c: char, xs: seq<string>, ys: seq<string>)
    requires |xs| > 0 && |ys| > 0
    ensures Glue(Prepend(c, xs), ys) == Prepend(c, Glue(xs, ys))
  {
    if |xs| == 1 {
      assert [c] + (xs[0] + ys[0]) == [c] + xs[0] + ys[0];
    }
  }

  lemma {:induction false} SplitConcat(a: string, b: string)
    requires !Fuses(a, b)
    ensures Split(a + b) == Glue(Split(a), Split(b))
  {
    if a == "" {
      assert a + b == b;
      assert "" + Split(b)[0] == Split(b)[0];
    } else if StartsWithCRLF(a) {
      assert (a + b)[2..] == a[2..] + b;
      SplitConcat(a[2..], b);
      GlueNewLine(Split(a[2..]), Split(b));
    } else {
      assert (a + b)[1..] == a[1..] + b;
      assert (a + b)[0] == a[0];
      assert !StartsWithCRLF(a + b);
      SplitConcat(a[1..], b);
      if IsBreak(a[0]) {
        GlueNewLine(Split(a[1..]), Split(b));
      } else {
        GluePrepend(a[0], Split(a[1..]), Split(b));
      }
    }
  }

  /** When a break fuses, splitting the whole text yields one line fewer than gluing. */
  lemma {:induction false} SplitFused(a: string, b: string)
    requires Fuses(a, b)
    ensures |Split(a + b)| == |Split(a)| + |Split(b)| - 2
  {
    if StartsWithCRLF(a) {
      assert (a + b)[2..] == a[2..] + b;
      SplitFused(a[2..], b);
    } else if |a| == 1 {
      assert (a + b)[2..] == b[1..];
    } else {
      assert (a + b)[1..] == a[1..] + b;
      SplitFused(a[1..], b);
    }
  }

  lemma {:induction false} SplitBreakFree(s: string)
    requires BreakFree(s)
    ensures Split(s) == [s]
  {
    if s != "" {
      SplitBreakFree(s[1..]);
      assert [s[0]] + s[1..] == s;
    }
  }

  /** Only carriage returns and line feeds break lines. */
  lemma {:induction false} OneLineExactly(text: string)
    ensures |Split(text)| == 1 <==> '\r' !in text && '\n' !in text
    ensures '\r' !in text && '\n' !in text ==> Split(text) == [text]
  {
    if text != "" {
      assert text == [text[0]] + text[1..];
      OneLineExactly(text[1..]);
    }
  }

  /** Either alone, and the two together, break a line once. */
  lemma EachBreakIsOne()
    ensures Split("\r") == Split("\n") == Split("\r\n") == ["", ""]
    ensures Split("\n\r") == ["", "", ""]
    ensures IsEol("\n") && IsEol("\r\n") && !IsEol("\r")
  {
    assert "\r"[1..] == "\n"[1..] == "\r\n"[2..] == "" && "\n\r"[1..] == "\r";
  }

  /** Splitting undoes joining: a non-empty array of break-free lines survives the round trip. */
  lemma {:induction false} SplitJoin(lines: seq<string>, eol: string)
    requires |lines| > 0 && AllBreakFree(lines) && IsEol(eol)
    ensures Split(Join(lines, eol)) == lines
  {
    SplitBreakFree(lines[0]);
    if |lines| > 1 {
      var rest := Join(lines[1..], eol);
      SplitJoin(lines[1..], eol);
      assert (eol + rest)[|eol|..] == rest;
      assert Split(eol + rest) == [""] + lines[1..];
      SplitConcat(lines[0], eol + rest);
      assert lines[0] + (eol + rest) == lines[0] + eol + rest;
      assert lines[0] + "" == lines[0];
      assert Glue([lines[0]], [""] + lines[1..]) == lines;
    } else {
      assert lines == [lines[0]];
    }
  }

  lemma JoinNewLine(rest: seq<string>, eol: string)
    requires |rest| > 0
    ensures Join([""] + rest, eol) == eol + Join(rest, eol)
  {
    assert ([""] + rest)[1..] == rest;
    assert "" + eol == eol;
  }

  lemma JoinPrepend(c: char, rest: seq<string>, eol: string)
    requires |rest| > 0
    ensures Join(Prepend(c, rest), eol) == [c] + Join(rest, eol)
  {
    assert Prepend(c, rest)[1..] == rest[1..];
    if |rest| > 1 {
      var tail := Join(rest[1..], eol);
      assert ([c] + rest[0]) + eol + tail == [c] + (rest[0] + eol + tail);
    }
  }

  /** Joining after splitting rewrites every break of the text as the chosen marker. */
  lemma {:induction false} JoinSplit(t: string, eol: string)
    ensures Join(Split(t), eol) == NormalizeBreaks(t, eol)
  {
    if t == "" {
    } else if StartsWithCRLF(t) {
      JoinSplit(t[2..], eol);
      JoinNewLine(Split(t[2..]), eol);
    } else if IsBreak(t[0]) {
      JoinSplit(t[1..], eol);
      JoinNewLine(Split(t[1..]), eol);
    } else {
      JoinSplit(t[1..], eol);
      JoinPrepend(t[0], Split(t[1..]), eol);
    }
  }

  lemma {:induction false} SplitCounts(t: string)
    ensures |Split(t)| == CountBreaks(t) + 1
  {
    if t == "" {
    } else if StartsWithCRLF(t) {
      SplitCounts(t[2..]);
    } else {
      SplitCounts(t[1..]);
    }
  }
}

/** Edits given as 1-based line/column ranges, proved equal to splicing one flat string. */
module LineEdits {
  import opened TextAlgebra

  datatype Position = Position(lineNumber: int, column: int)

  datatype Range = Range(startLineNumber: int, startColumn: int, endLineNumber: int, endColumn: int) {
    function Start(): Position { Position(startLineNumber, startColumn) }
    function End(): Position { Position(endLineNumber, endColumn) }
  }

  /** An empty array displays as one empty line. */
  function View(lines: seq<string>): (v: seq<string>)
    ensures |v| > 0
  {
    if lines == [] then [""] else lines
  }

  predicate InText(v: seq<string>, p: Position) {
    1 <= p.lineNumber <= |v| && 1 <= p.column <= |v[p.lineNumber - 1]| + 1
  }

  /** A range inside the text whose end does not precede its start. */
  predicate ValidRange(v: seq<string>, r: Range) {
    && InText(v, r.Start())
    && InText(v, r.End())
    && (r.startLineNumber < r.endLineNumber
        || (r.startLineNumber == r.endLineNumber && r.startColumn <= r.endColumn))
  }

  /** Lines up to a position. */
  function Before(v: seq<string>, p: Position): (b: seq<string>)
    requires InText(v, p)
    ensures |b| == p.lineNumber
  {
    v[..p.lineNumber - 1] + [v[p.lineNumber - 1][..p.column - 1]]
  }

  /** Lines from a position on. */
  function After(v: seq<string>, p: Position): (a: seq<string>)
    requires InText(v, p)
    ensures |a| == |v| - p.lineNumber + 1
  {
    [v[p.lineNumber - 1][p.column - 1..]] + v[p.lineNumber..]
  }

  /** Lines inside a range: the text an edit removes. */
  function Selected(v: seq<string>, r: Range): (s: seq<string>)
    requires ValidRange(v, r)
    ensures |s| == r.endLineNumber - r.startLineNumber + 1
  {
    if r.startLineNumber == r.endLineNumber then
      [v[r.startLineNumber - 1][r.startColumn - 1..r.endColumn - 1]]
    else
      [v[r.startLineNumber - 1][r.startColumn - 1..]]
      + v[r.startLineNumber..r.endLineNumber - 1]
      + [v[r.endLineNumber - 1][..r.endColumn - 1]]
  }

  /** The lines shown after a range has been replaced by a text. */
  function Edited(v: seq<string>, r: Range, text: string): (e: seq<string>)
    requires ValidRange(v, r)
    ensures |e| > 0
  {
    Glue(Glue(Before(v, r.Start()), Split(text)), After(v, r.End()))
  }

  /** The stored array after an edit. Only an array without lines receiving no text stays
      without lines. */
  function Stored(lines: seq<string>, r: Range, text: string): (e: seq<string>)
    requires ValidRange(View(lines), r)
  {
    if lines == [] && text == "" then [] else Edited(View(lines), r, text)
  }

  /** Characters before a position in the flat text. */
  function OffsetAt(v: seq<string>, eol: string, p: Position): (o: int)
    requires InText(v, p)
  {
    LengthOfLines(v[..p.lineNumber - 1], eol) + p.column - 1
  }

  function LengthOfLines(lines: seq<string>, eol: string): nat {
    if lines == [] then 0 else |lines[0]| + |eol| + LengthOfLines(lines[1..], eol)
  }

  lemma CutBreakFree(s: string, from: int, to: int)
    requires 0 <= from <= to <= |s| && BreakFree(s)
    ensures BreakFree(s[from..to]) && BreakFree(s[from..]) && BreakFree(s[..to])
  {
  }

  lemma PiecesBreakFree(v: seq<string>, r: Range)
    requires AllBreakFree(v) && ValidRange(v, r)
    ensures AllBreakFree(Before(v, r.Start()))
    ensures AllBreakFree(Selected(v, r))
    ensures AllBreakFree(After(v, r.End()))
  {
    var first, last := v[r.startLineNumber - 1], v[r.endLineNumber - 1];
    CutBreakFree(first, r.startColumn - 1, if r.startLineNumber == r.endLineNumber then r.endColumn - 1 else |first|);
    CutBreakFree(first, 0, r.startColumn - 1);
    CutBreakFree(last, r.endColumn - 1, |last|);
    CutBreakFree(last, 0, r.endColumn - 1);
  }

  lemma GlueBreakFree(xs: seq<string>, ys: seq<string>)
    requires |xs| > 0 && |ys| > 0 && AllBreakFree(xs) && AllBreakFree(ys)
    ensures AllBreakFree(Glue(xs, ys))
  {
    assert BreakFree(xs[|xs| - 1] + ys[0]);
  }

  /** Edits keep line breaks out of the array. */
  lemma EditedBreakFree(v: seq<string>, r: Range, text: string)
    requires AllBreakFree(v) && ValidRange(v, r)
    ensures AllBreakFree(Edited(v, r, text))
  {
    PiecesBreakFree(v, r);
    GlueBreakFree(Before(v, r.Start()), Split(text));
    GlueBreakFree(Glue(Before(v, r.Start()), Split(text)), After(v, r.End()));
  }

  lemma {:induction false} JoinBefore(ls: seq<string>, last: string, eol: string)
    ensures |Join(ls + [last], eol)| == LengthOfLines(ls, eol) + |last|
  {
    if ls != [] {
      JoinBefore(ls[1..], last, eol);
      assert (ls + [last])[1..] == ls[1..] + [last];
    }
  }

  lemma BeforeSelected(v: seq<string>, r: Range)
    requires ValidRange(v, r)
    ensures Glue(Before(v, r.Start()), Selected(v, r)) == Before(v, r.End())
  {
    var first := v[r.startLineNumber - 1];
    if r.startLineNumber == r.endLineNumber {
      assert first[..r.startColumn - 1] + first[r.startColumn - 1..r.endColumn - 1] == first[..r.endColumn - 1];
    } else {
      assert first[..r.startColumn - 1] + first[r.startColumn - 1..] == first;
    }
  }

  lemma BeforeAfter(v: seq<string>, p: Position)
    requires InText(v, p)
    ensures Glue(Before(v, p), After(v, p)) == v
  {
    var line := v[p.lineNumber - 1];
    assert line[..p.column - 1] + line[p.column - 1..] == line;
  }

  lemma OffsetMeasuresBefore(v: seq<string>, p: Position, eol: string)
    requires InText(v, p)
    ensures OffsetAt(v, eol, p) == |Join(Before(v, p), eol)|
  {
    JoinBefore(v[..p.lineNumber - 1], v[p.lineNumber - 1][..p.column - 1], eol);
  }

  lemma SliceOfThree(x: string, y: string, z: string)
    ensures (x + y + z)[..|x|] == x
    ensures (x + y + z)[|x|..|x + y|] == y
    ensures (x + y + z)[|x + y|..] == z
  {
  }

  /** Every text falls apart into the part before a range, the range, and the part after; the
      two offsets of the range cut the flat text at the same places. */
  lemma FlatPieces(v: seq<string>, r: Range, eol: string)
    requires ValidRange(v, r)
    ensures 0 <= OffsetAt(v, eol, r.Start()) <= OffsetAt(v, eol, r.End()) <= |Join(v, eol)|
    ensures Join(v, eol)[..OffsetAt(v, eol, r.Start())] == Join(Before(v, r.Start()), eol)
    ensures Join(v, eol)[OffsetAt(v, eol, r.Start())..OffsetAt(v, eol, r.End())] == Join(Selected(v, r), eol)
    ensures Join(v, eol)[OffsetAt(v, eol, r.End())..] == Join(After(v, r.End()), eol)
  {
    var b, s, a := Before(v, r.Start()), Selected(v, r), After(v, r.End());
    var x, y, z := Join(b, eol), Join(s, eol), Join(a, eol);
    OffsetMeasuresBefore(v, r.Start(), eol);
    OffsetMeasuresBefore(v, r.End(), eol);
    BeforeSelected(v, r);
    BeforeAfter(v, r.End());
    JoinGlue(b, s, eol);
    JoinGlue(Before(v, r.End()), a, eol);
    assert Join(v, eol) == x + y + z;
    SliceOfThree(x, y, z);
  }

  /** Main refinement: editing the array is splicing the flat text, breaks normalised. */
  lemma EditSplicesFlatText(v: seq<string>, r: Range, text: string, eol: string)
    requires ValidRange(v, r)
    ensures
      var flat := Join(v, eol);
      var from, to := OffsetAt(v, eol, r.Start()), OffsetAt(v, eol, r.End());
      && 0 <= from <= to <= |flat|
      && Join(Edited(v, r, text), eol) == flat[..from] + NormalizeBreaks(text, eol) + flat[to..]
  {
    FlatPieces(v, r, eol);
    JoinSplit(text, eol);
    var b, a := Before(v, r.Start()), After(v, r.End());
    JoinGlue(Glue(b, Split(text)), a, eol);
    JoinGlue(b, Split(text), eol);
  }

  /** The line count moves by the breaks inserted minus the breaks deleted. */
  lemma EditCountsBreaks(v: seq<string>, r: Range, text: string)
    requires ValidRange(v, r)
    ensures |Edited(v, r, text)| == |v| + CountBreaks(text) - (r.endLineNumber - r.startLineNumber)
    ensures AllBreakFree(v) ==>
              forall eol :: IsEol(eol) ==> r.endLineNumber - r.startLineNumber == CountBreaks(Join(Selected(v, r), eol))
  {
    SplitCounts(text);
    if AllBreakFree(v) {
      forall eol | IsEol(eol)
        ensures r.endLineNumber - r.startLineNumber == CountBreaks(Join(Selected(v, r), eol))
      {
        PiecesBreakFree(v, r);
        SplitJoin(Selected(v, r), eol);
        SplitCounts(Join(Selected(v, r), eol));
      }
    }
  }

  /** The range that a text occupies once inserted at the start of `r`. */
  function InsertedRange(r: Range, text: string): Range {
    var ins := Split(text);
    if |ins| == 1 then
      Range(r.startLineNumber, r.startColumn, r.startLineNumber, r.startColumn + |ins[0]|)
    else
      Range(r.startLineNumber, r.startColumn, r.startLineNumber + |ins| - 1, |ins[|ins| - 1]| + 1)
  }

  /** Glued lines fall apart again at the glue point. */
  lemma GlueCut(x: seq<string>, a: seq<string>)
    requires |x| > 0 && |a| > 0
    ensures
      var e, p := Glue(x, a), Position(|x|, |x[|x| - 1]| + 1);
      InText(e, p) && Before(e, p) == x && After(e, p) == a
  {
    var joint := x[|x| - 1] + a[0];
    assert joint[..|x[|x| - 1]|] == x[|x| - 1];
    assert joint[|x[|x| - 1]|..] == a[0];
  }

  lemma InsertedRangeCuts(v: seq<string>, r: Range, text: string)
    requires ValidRange(v, r)
    ensures
      var e, i := Edited(v, r, text), InsertedRange(r, text);
      && ValidRange(e, i)
      && Before(e, i.Start()) == Before(v, r.Start())
      && After(e, i.End()) == After(v, r.End())
  {
    var ins, b, a := Split(text), Before(v, r.Start()), After(v, r.End());
    var e, i := Edited(v, r, text), InsertedRange(r, text);
    assert i.Start() == Position(|b|, |b[|b| - 1]| + 1);
    assert InText(e, i.Start()) && Before(e, i.Start()) == b by {
      GlueAssociative(b, ins, a);
      GlueCut(b, Glue(ins, a));
    }
    InsertedRangeEnds(b, ins, r, text);
    GlueCut(Glue(b, ins), a);
  }

  lemma InsertedRangeEnds(b: seq<string>, ins: seq<string>, r: Range, text: string)
    requires |b| == r.startLineNumber && |b| > 0 && |b[|b| - 1]| == r.startColumn - 1 && ins == Split(text)
    ensures InsertedRange(r, text).End() == Position(|Glue(b, ins)|, |Glue(b, ins)[|Glue(b, ins)| - 1]| + 1)
  {
  }

  lemma SameBehind(x: string, a: string, b: string)
    requires x + a == x + b
    ensures a == b
  {
    assert (x + a)[|x|..] == a && (x + b)[|x|..] == b;
  }

  lemma SameBefore(a: string, b: string, x: string)
    requires a + x == b + x
    ensures a == b
  {
    assert |a| == |b|;
    assert (a + x)[..|a|] == a && (b + x)[..|b|] == b;
  }

  /** Between the same lines only the same lines look the same. */
  lemma GlueCancels(b: seq<string>, x: seq<string>, y: seq<string>, a: seq<string>)
    requires |b| > 0 && |x| > 0 && |y| > 0 && |a| > 0
    requires Glue(Glue(b, x), a) == Glue(Glue(b, y), a)
    ensures x == y
  {
    var n, g, h := |b| - 1, Glue(b, x), Glue(b, y);
    assert |x| == |y|;
    forall i | 0 <= i < |g|
      ensures g[i] == h[i]
    {
      if i < |g| - 1 {
        assert Glue(g, a)[i] == g[i] && Glue(h, a)[i] == h[i];
      } else {
        assert Glue(g, a)[i] == g[i] + a[0] && Glue(h, a)[i] == h[i] + a[0];
        SameBefore(g[i], h[i], a[0]);
      }
    }
    forall i | 0 <= i < |x|
      ensures x[i] == y[i]
    {
      if i == 0 {
        assert g[n] == b[n] + x[0] && h[n] == b[n] + y[0];
        SameBehind(b[n], x[0], y[0]);
      } else {
        assert g[n + i] == x[i] && h[n + i] == y[i];
      }
    }
  }

  /** Undo: replacing the inserted range by the deleted text, joined with either marker, gives
      back the text shown before, if and only if no deleted line holds a break itself. Markers
      never enter `Edited`, so `acceptEol` calls between the two edits change nothing. */
  lemma UndoRestoresLines(v: seq<string>, r: Range, text: string, eol: string)
    requires ValidRange(v, r) && IsEol(eol)
    ensures
      var e, i := Edited(v, r, text), InsertedRange(r, text);
      ValidRange(e, i) && (Edited(e, i, Join(Selected(v, r), eol)) == v <==> AllBreakFree(Selected(v, r)))
  {
    var b, gone, a := Before(v, r.Start()), Selected(v, r), After(v, r.End());
    InsertedRangeCuts(v, r, text);
    BeforeSelected(v, r);
    BeforeAfter(v, r.End());
    if AllBreakFree(gone) {
      SplitJoin(gone, eol);
    } else if Glue(Glue(b, Split(Join(gone, eol))), a) == Glue(Glue(b, gone), a) {
      GlueCancels(b, Split(Join(gone, eol)), gone, a);
    }
  }

  /** The stored array comes back too, unless the edit put text into an array without lines. */
  lemma UndoRestoresArrayExactly(lines: seq<string>, r: Range, text: string, eol: string)
    requires ValidRange(View(lines), r) && IsEol(eol)
    ensures
      var e, i, gone := Stored(lines, r, text), InsertedRange(r, text), Selected(View(lines), r);
      && ValidRange(View(e), i)
      && (Stored(e, i, Join(gone, eol)) == lines <==> AllBreakFree(gone) && !(lines == [] && text != ""))
  {
    StoredShows(lines, r, text);
    UndoRestoresLines(View(lines), r, text, eol);
    if lines == [] {
      UndoOnNothing(r, text, eol);
    }
  }

  lemma UndoOnNothing(r: Range, text: string, eol: string)
    requires ValidRange([""], r)
    ensures var e, i, gone := Stored([], r, text), InsertedRange(r, text), Selected([""], r);
      && gone == [""]
      && (ValidRange(View(e), i) ==> (Stored(e, i, Join(gone, eol)) == [] <==> text == ""))
  {
    assert ""[0..0] == "";
    assert Selected([""], r) == [""];
  }

  /** Re-splitting the spliced flat text, the inserted text normalised first, gives the edited
      array if and only if no line of it holds a break itself. */
  lemma EditIsSplitOfSplice(v: seq<string>, r: Range, text: string, eol: string)
    requires ValidRange(v, r) && IsEol(eol)
    ensures
      var flat := Join(v, eol);
      var from, to := OffsetAt(v, eol, r.Start()), OffsetAt(v, eol, r.End());
      && 0 <= from <= to <= |flat|
      && (Split(flat[..from] + NormalizeBreaks(text, eol) + flat[to..]) == Edited(v, r, text)
          <==> AllBreakFree(Edited(v, r, text)))
  {
    EditSplicesFlatText(v, r, text, eol);
    if AllBreakFree(Edited(v, r, text)) {
      SplitJoin(Edited(v, r, text), eol);
    }
  }

  lemma {:induction false} JoinNeverEndsInCR(lines: seq<string>, eol: string)
    requires |lines| > 0 && AllBreakFree(lines) && IsEol(eol)
    ensures Join(lines, eol) != "" ==> Join(lines, eol)[|Join(lines, eol)| - 1] != '\r'
  {
    if |lines| > 1 {
      JoinNeverEndsInCR(lines[1..], eol);
    }
  }

  /** Splicing the raw text instead, without normalising, agrees with the array exactly when
      no carriage return at the end of the insertion meets a line feed just after the range. */
  lemma RawSpliceAgreesExactly(v: seq<string>, r: Range, text: string, eol: string)
    requires AllBreakFree(v) && ValidRange(v, r) && IsEol(eol)
    ensures
      var flat := Join(v, eol);
      var from, to := OffsetAt(v, eol, r.Start()), OffsetAt(v, eol, r.End());
      && 0 <= from <= to <= |flat|
      && (Split(flat[..from] + text + flat[to..]) == Edited(v, r, text) <==> !Fuses(text, flat[to..]))
  {
    var b, a := Before(v, r.Start()), After(v, r.End());
    FlatPieces(v, r, eol);
    PiecesBreakFree(v, r);
    RawGlueAgreesExactly(b, text, a, eol);
  }

  lemma RawGlueAgreesExactly(b: seq<string>, text: string, a: seq<string>, eol: string)
    requires |b| > 0 && |a| > 0 && AllBreakFree(b) && AllBreakFree(a) && IsEol(eol)
    ensures Split(Join(b, eol) + text + Join(a, eol)) == Glue(Glue(b, Split(text)), a)
            <==> !Fuses(text, Join(a, eol))
  {
    var flatB, flatA := Join(b, eol), Join(a, eol);
    JoinNeverEndsInCR(b, eol);
    SplitJoin(b, eol);
    SplitJoin(a, eol);
    SplitConcat(flatB, text);
    assert Fuses(flatB + text, flatA) <==> Fuses(text, flatA);
    GluedUnlessFused(flatB + text, flatA);
  }

  lemma GluedUnlessFused(x: string, y: string)
    ensures Split(x + y) == Glue(Split(x), Split(y)) <==> !Fuses(x, y)
  {
    if Fuses(x, y) {
      SplitFused(x, y);
      assert |Split(x + y)| != |Glue(Split(x), Split(y))|;
    } else {
      SplitConcat(x, y);
    }
  }

  /** The flat content has the range replaced by the text, and the line count follows. */
  predicate IsSpliced(before: seq<string>, after: seq<string>, r: Range, text: string, eol: string)
    requires ValidRange(View(before), r)
  {
    var v := View(before);
    var flat, from, to := Join(v, eol), OffsetAt(v, eol, r.Start()), OffsetAt(v, eol, r.End());
    && 0 <= from <= to <= |flat|
    && Join(after, eol) == flat[..from] + NormalizeBreaks(text, eol) + flat[to..]
    && |View(after)| == |v| + CountBreaks(text) - (r.endLineNumber - r.startLineNumber)
  }

  /** What one edit does to the stored array, in terms of the flat content and of lines. */
  lemma StoredSplices(lines: seq<string>, r: Range, text: string, eol: string)
    requires ValidRange(View(lines), r)
    ensures AllBreakFree(lines) ==> AllBreakFree(Stored(lines, r, text))
    ensures IsSpliced(lines, Stored(lines, r, text), r, text, eol)
  {
    StoredShows(lines, r, text);
    EditSplicesFlatText(View(lines), r, text, eol);
    EditCountsBreaks(View(lines), r, text);
    if AllBreakFree(lines) {
      EditedBreakFree(View(lines), r, text);
    }
    assert Join(View(Stored(lines, r, text)), eol) == Join(Stored(lines, r, text), eol);
  }

  lemma StoredShows(lines: seq<string>, r: Range, text: string)
    requires ValidRange(View(lines), r)
    ensures View(Stored(lines, r, text)) == Edited(View(lines), r, text)
  {
    if lines == [] && text == "" {
      assert r == CaretAt(r.Start());
      InsertNothing([""], r.Start());
    }
  }

  lemma StoredTwice(lines: seq<string>, r: Range, text: string)
    requires ValidRange(View(lines), r)
    ensures
      var d := Stored(lines, r, "");
      InText(View(d), r.Start()) && Stored(d, CaretAt(r.Start()), text) == Stored(lines, r, text)
  {
    StoredShows(lines, r, "");
    DeleteThenInsert(View(lines), r, text);
  }

  function CaretAt(p: Position): Range {
    Range(p.lineNumber, p.column, p.lineNumber, p.column)
  }

  lemma GlueEmpty(xs: seq<string>)
    requires |xs| > 0
    ensures Glue(xs, [""]) == xs
  {
    assert xs[|xs| - 1] + "" == xs[|xs| - 1];
  }

  lemma InsertNothing(v: seq<string>, p: Position)
    requires InText(v, p)
    ensures Edited(v, CaretAt(p), "") == v
  {
    BeforeAfter(v, p);
    GlueEmpty(Before(v, p));
  }

  /** Deleting a range and inserting at its start is the one-step replacement. */
  lemma DeleteThenInsert(v: seq<string>, r: Range, text: string)
    requires ValidRange(v, r)
    ensures InText(Edited(v, r, ""), r.Start())
    ensures Edited(Edited(v, r, ""), CaretAt(r.Start()), text) == Edited(v, r, text)
  {
    InsertedRangeCuts(v, r, "");
  }

  lemma PlacesOf(v: seq<string>, p: Position, head: string, q: Position, tail: string)
    requires InText(v, p) && InText(v, q)
    requires head == v[p.lineNumber - 1][..p.column - 1] && tail == v[q.lineNumber - 1][q.column - 1..]
    ensures Before(v, p) == v[..p.lineNumber - 1] + [head] && After(v, q) == [tail] + v[q.lineNumber..]
  {
  }
}

/** The editable line array, edited at any place. */
module LineText {
  import opened LineEdits
  import opened TextAlgebra

  /** `lines.splice(k, 0, line)`. */
  function SpliceIn(lines: seq<string>, k: int, line: string): seq<string>
    requires 0 <= k <= |lines|
  {
    lines[..k] + [line] + lines[k..]
  }

  lemma SpliceAfter(a: seq<string>, b: seq<string>, c: seq<string>, line: string)
    ensures SpliceIn(a + b + c, |a| + |b|, line) == a + (b + [line]) + c
  {
  }

  lemma GrowSlice(s: seq<string>, i: int)
    requires 1 <= i < |s|
    ensures s[1..i + 1] == s[1..i] + [s[i]]
  {
  }

  lemma GlueOne(above: seq<string>, head: string, ins: string, tail: string, below: seq<string>)
    ensures Glue(Glue(above + [head], [ins]), [tail] + below) == above + [head + ins + tail] + below
  {
  }

  lemma GlueAround(above: seq<string>, head: string, ins: seq<string>, tail: string, below: seq<string>)
    requires |ins| > 1
    ensures
      Glue(Glue(above + [head], ins), [tail] + below)
      == (above + [head + ins[0]]) + (ins[1..|ins| - 1] + [ins[|ins| - 1] + tail]) + below
  {
    var g := Glue(above + [head], ins);
    assert g == above + [head + ins[0]] + ins[1..];
    assert g[..|g| - 1] == above + [head + ins[0]] + ins[1..|ins| - 1];
    assert ([tail] + below)[1..] == below;
  }

  /** One line replaced, and those from it up to `n` dropped. */
  lemma JoinedLines(v: seq<string>, s: int, n: nat, joint: string)
    requires 1 <= s <= |v| && s <= n
    ensures var w := v[s - 1 := joint];
      && w[..s] + From(w, n) == v[..s - 1] + [joint] + From(v, n)
      && (n == s ==> w == v[..s - 1] + [joint] + From(v, n))
  {
    UpdatePieces(v, s - 1, joint);
    var w := v[s - 1 := joint];
    assert w == w[..s] + w[s..];
    assert From(w, n) == From(v, n);
  }

  lemma UpdatePieces(v: seq<string>, at: int, x: string)
    requires 0 <= at < |v|
    ensures v[at := x][..at + 1] == v[..at] + [x]
    ensures v[at := x][at + 1..] == v[at + 1..]
  {
  }

  lemma UpdateLast(v: seq<string>, x: string)
    requires |v| > 1
    ensures v[|v| - 1 := x][1..] == v[1..|v| - 1] + [x]
  {
  }

  /** Where a column cuts a line: `substring` keeps the cut within the line. */
  function Cut(line: string, column: int): (k: nat)
    ensures k <= |line|
    ensures 1 <= column <= |line| + 1 ==> k == column - 1
    ensures column < 1 ==> k == 0
    ensures column > |line| + 1 ==> k == |line|
  {
    if column < 1 then 0 else if column > |line| then |line| else column - 1
  }

  /** The array long enough to have `n` lines; the holes that a write behind its end leaves are
      shown as empty lines. */
  function Padded(lines: seq<string>, n: int): (r: seq<string>)
    ensures |r| == if |lines| < n then n else |lines|
    ensures AllBreakFree(lines) ==> AllBreakFree(r)
    decreases n - |lines|
  {
    if |lines| >= n then lines else Padded(lines + [""], n)
  }

  lemma PaddedIsView(lines: seq<string>, n: int)
    requires 1 <= n <= |View(lines)|
    ensures Padded(lines, n) == View(lines)
  {
    if lines == [] {
      assert lines + [""] == [""];
    }
  }

  /** `this._lines[index] || ''`, for a line number. */
  function LineAt(lines: seq<string>, lineNumber: int): string {
    if 1 <= lineNumber <= |lines| then lines[lineNumber - 1] else ""
  }

  function From(lines: seq<string>, n: nat): seq<string> {
    if n <= |lines| then lines[n..] else []
  }

  /** What deleting any range leaves. Lines that end before they start lose nothing but are joined
      all the same. */
  function Deleted(lines: seq<string>, r: Range): seq<string>
    requires r.startLineNumber >= 1 && r.endLineNumber >= 1
  {
    var s, e := r.startLineNumber, r.endLineNumber;
    if r.Start() == r.End() then lines
    else
      var v, first, last := Padded(lines, s), LineAt(lines, s), LineAt(lines, e);
      v[..s - 1] + [first[..Cut(first, r.startColumn)] + last[Cut(last, r.endColumn)..]] + From(v, if s < e then e else s)
  }

  /** What inserting at any position leaves. */
  function Inserted(lines: seq<string>, p: Position, text: string): seq<string>
    requires p.lineNumber >= 1
  {
    if text == "" then lines
    else
      var v, line := Padded(lines, p.lineNumber), LineAt(lines, p.lineNumber);
      Glue(Glue(v[..p.lineNumber - 1] + [line[..Cut(line, p.column)]], Split(text)),
           [line[Cut(line, p.column)..]] + v[p.lineNumber..])
  }

  function EmptyLines(n: nat): (r: seq<string>)
    ensures |r| == n && forall i :: 0 <= i < n ==> r[i] == ""
  {
    seq(n, _ => "")
  }

  lemma {:induction false} PaddedWithEmptyLines(lines: seq<string>, n: nat)
    requires n >= |lines|
    ensures Padded(lines, n) == lines + EmptyLines(n - |lines|)
    decreases n - |lines|
  {
    if n > |lines| {
      PaddedWithEmptyLines(lines + [""], n);
    }
  }

  lemma EmptyLinesAbove(lines: seq<string>, n: nat)
    requires n > |lines|
    ensures Padded(lines, n)[..n - 1] == lines + EmptyLines(n - 1 - |lines|)
    ensures [""] + Padded(lines, n)[n..] == [""]
  {
    PaddedWithEmptyLines(lines, n);
  }

  lemma GlueBelow(above: seq<string>, parts: seq<string>)
    requires |parts| > 0
    ensures Glue(Glue(above + [""], parts), [""]) == above + parts
  {
    assert parts == [parts[0]] + parts[1..];
    GlueLast(above, "", parts[0], parts[1..]);
    assert "" + parts[0] == parts[0];
    assert above + [parts[0]] + parts[1..] == above + parts;
    GlueEmpty(above + parts);
  }

  lemma InsertedOnEmptyLine(lines: seq<string>, p: Position, text: string, above: seq<string>)
    requires p.lineNumber > |lines| && text != ""
    requires above == Padded(lines, p.lineNumber)[..p.lineNumber - 1]
    requires [""] + Padded(lines, p.lineNumber)[p.lineNumber..] == [""]
    ensures Inserted(lines, p, text) == Glue(Glue(above + [""], Split(text)), [""])
  {
    assert LineAt(lines, p.lineNumber) == "";
  }

  /** Below the text, inserting fills the lines in between with nothing, and starts a line of its own. */
  lemma InsertedBelowText(lines: seq<string>, p: Position, text: string)
    requires p.lineNumber > |lines| && text != ""
    ensures Inserted(lines, p, text) == lines + EmptyLines(p.lineNumber - 1 - |lines|) + Split(text)
  {
    var above := lines + EmptyLines(p.lineNumber - 1 - |lines|);
    EmptyLinesAbove(lines, p.lineNumber);
    InsertedOnEmptyLine(lines, p, text, above);
    GlueBelow(above, Split(text));
  }

  /** Deleting to below the text takes all of it from the start on; deleting below it only fills
      lines in, and from there to a place in the text repeats what is behind that place. */
  lemma DeletedBelowText(lines: seq<string>, r: Range)
    requires r.startLineNumber >= 1 && r.endLineNumber >= 1 && r.Start() != r.End()
    ensures r.startLineNumber <= |lines| < r.endLineNumber ==>
      var first := lines[r.startLineNumber - 1];
      Deleted(lines, r) == lines[..r.startLineNumber - 1] + [first[..Cut(first, r.startColumn)]]
    ensures |lines| < r.startLineNumber && |lines| < r.endLineNumber ==>
      Deleted(lines, r) == lines + EmptyLines(r.startLineNumber - |lines|)
    ensures r.endLineNumber <= |lines| < r.startLineNumber ==>
      var last := lines[r.endLineNumber - 1];
      Deleted(lines, r) == lines + EmptyLines(r.startLineNumber - 1 - |lines|) + [last[Cut(last, r.endColumn)..]]
  {
    var s, e := r.startLineNumber, r.endLineNumber;
    var first, last := LineAt(lines, s), LineAt(lines, e);
    var head, tail := first[..Cut(first, r.startColumn)], last[Cut(last, r.endColumn)..];
    assert Deleted(lines, r) == Padded(lines, s)[..s - 1] + [head + tail] + From(Padded(lines, s), if s < e then e else s);
    if s <= |lines| {
      assert |lines| < e ==> tail == "" && head + tail == head && From(lines, e) == [];
    } else {
      EmptyLinesAbove(lines, s);
      assert From(Padded(lines, s), if s < e then e else s) == [];
      assert head == "" && head + tail == tail;
      assert |lines| < e ==> EmptyLines(s - |lines|) == EmptyLines(s - 1 - |lines|) + [tail];
    }
  }

  /** What stays of the first line, and of the last one. */
  function Head(lines: seq<string>, r: Range): string
    requires 1 <= r.startLineNumber <= |View(lines)|
  {
    var first := View(lines)[r.startLineNumber - 1];
    first[..Cut(first, r.startColumn)]
  }

  function Tail(lines: seq<string>, r: Range): string
    requires 1 <= r.endLineNumber <= |View(lines)|
  {
    var last := View(lines)[r.endLineNumber - 1];
    last[Cut(last, r.endColumn)..]
  }

  /** The first line that a deletion leaves below the joined one: lines in between go only if the
      start is above the end. */
  function Resumes(r: Range): int {
    if r.startLineNumber < r.endLineNumber then r.endLineNumber else r.startLineNumber
  }

  predicate LinesInText(v: seq<string>, r: Range) {
    1 <= r.startLineNumber <= |v| && 1 <= r.endLineNumber <= |v|
  }

  lemma DeletedShape(lines: seq<string>, r: Range)
    requires LinesInText(View(lines), r) && r.Start() != r.End()
    ensures Deleted(lines, r)
            == View(lines)[..r.startLineNumber - 1] + [Head(lines, r) + Tail(lines, r)] + View(lines)[Resumes(r)..]
  {
    PaddedIsView(lines, r.startLineNumber);
    assert LineAt(lines, r.startLineNumber) == View(lines)[r.startLineNumber - 1];
    assert LineAt(lines, r.endLineNumber) == View(lines)[r.endLineNumber - 1];
  }

  lemma GlueLast(above: seq<string>, head: string, tail: string, below: seq<string>)
    ensures Glue(above + [head], [tail] + below) == above + [head + tail] + below
  {
  }

  lemma NothingBetween(lines: seq<string>, r: Range, above: seq<string>, below: seq<string>)
    requires ValidRange(View(lines), r)
    requires above == View(lines)[..r.startLineNumber - 1] && below == View(lines)[r.endLineNumber..]
    ensures Edited(View(lines), r, "") == above + [Head(lines, r) + Tail(lines, r)] + below
  {
    PlacesOf(View(lines), r.Start(), Head(lines, r), r.End(), Tail(lines, r));
    assert Split("") == [""];
    GlueEmpty(above + [Head(lines, r)]);
    GlueLast(above, Head(lines, r), Tail(lines, r), below);
  }

  lemma DeletedIsStored(lines: seq<string>, r: Range)
    requires ValidRange(View(lines), r)
    ensures Deleted(lines, r) == Stored(lines, r, "")
  {
    if r.Start() == r.End() {
      assert r == CaretAt(r.Start());
      InsertNothing(View(lines), r.Start());
    } else {
      DeletedShape(lines, r);
      NothingBetween(lines, r, View(lines)[..r.startLineNumber - 1], View(lines)[r.endLineNumber..]);
    }
  }

  lemma InsertedShape(lines: seq<string>, p: Position, text: string)
    requires InText(View(lines), p) && text != ""
    ensures Inserted(lines, p, text) == Glue(Glue(Before(View(lines), p), Split(text)), After(View(lines), p))
  {
    var v := View(lines);
    PaddedIsView(lines, p.lineNumber);
    assert LineAt(lines, p.lineNumber) == v[p.lineNumber - 1];
    assert Cut(v[p.lineNumber - 1], p.column) == p.column - 1;
  }

  lemma InsertedIsStored(lines: seq<string>, p: Position, text: string)
    requires InText(View(lines), p)
    ensures Inserted(lines, p, text) == Stored(lines, CaretAt(p), text)
  {
    if text == "" {
      InsertNothing(View(lines), p);
    } else {
      InsertedShape(lines, p, text);
      assert CaretAt(p).Start() == p == CaretAt(p).End();
    }
  }

  lemma PiecesOfAnyLine(line: string, column: int)
    requires BreakFree(line)
    ensures BreakFree(line[..Cut(line, column)]) && BreakFree(line[Cut(line, column)..])
  {
  }

  lemma AnyEditBreakFree(lines: seq<string>, r: Range, text: string)
    requires AllBreakFree(lines) && r.startLineNumber >= 1 && r.endLineNumber >= 1
    ensures AllBreakFree(Deleted(lines, r)) && AllBreakFree(Inserted(lines, r.Start(), text))
  {
    var first, last := LineAt(lines, r.startLineNumber), LineAt(lines, r.endLineNumber);
    PiecesOfAnyLine(first, r.startColumn);
    PiecesOfAnyLine(last, r.endColumn);
    var v, line := Padded(lines, r.startLineNumber), first;
    var above := v[..r.startLineNumber - 1] + [line[..Cut(line, r.startColumn)]];
    GlueBreakFree(above, Split(text));
    GlueBreakFree(Glue(above, Split(text)), [line[Cut(line, r.startColumn)..]] + v[r.startLineNumber..]);
  }

  /** The edit of `acceptChange`, at any place: delete, then insert at the start. */
  function Changed(lines: seq<string>, r: Range, text: string): seq<string>
    requires r.startLineNumber >= 1 && r.endLineNumber >= 1
  {
    Inserted(Deleted(lines, r), r.Start(), text)
  }

  /** Inside the text, the edit is the one-step replacement and splices the flat text. */
  lemma ChangedInText(lines: seq<string>, r: Range, text: string, eol: string)
    requires ValidRange(View(lines), r)
    ensures Changed(lines, r, text) == Stored(lines, r, text)
    ensures IsSpliced(lines, Changed(lines, r, text), r, text, eol)
  {
    DeletedIsStored(lines, r);
    StoredTwice(lines, r, text);
    InsertedIsStored(Stored(lines, r, ""), r.Start(), text);
    StoredSplices(lines, r, text, eol);
  }

  lemma ChangedMeaning(lines: seq<string>, r: Range, text: string, eol: string)
    requires r.startLineNumber >= 1 && r.endLineNumber >= 1
    ensures AllBreakFree(lines) ==> AllBreakFree(Changed(lines, r, text))
    ensures ValidRange(View(lines), r) ==> Changed(lines, r, text) == Stored(lines, r, text)
    ensures ValidRange(View(lines), r) ==> IsSpliced(lines, Changed(lines, r, text), r, text, eol)
  {
    if AllBreakFree(lines) {
      AnyEditBreakFree(lines, r, "");
      AnyEditBreakFree(Deleted(lines, r), CaretAt(r.Start()), text);
    }
    if ValidRange(View(lines), r) {
      ChangedInText(lines, r, text, eol);
    }
  }

  lemma ChangedAtCaret(
      lines: seq<string>, p: Position, text: string,
      above: seq<string>, head: string, tail: string, below: seq<string>)
    requires InText(View(lines), p) && text != ""
    requires above == View(lines)[..p.lineNumber - 1] && below == View(lines)[p.lineNumber..]
    requires head == View(lines)[p.lineNumber - 1][..p.column - 1] && tail == View(lines)[p.lineNumber - 1][p.column - 1..]
    ensures Changed(lines, CaretAt(p), text) == Glue(Glue(above + [head], Split(text)), [tail] + below)
  {
    assert Deleted(lines, CaretAt(p)) == lines;
    InsertedShape(lines, p, text);
  }

  /** Text without carriage returns and line feeds only changes the line it is put into. */
  lemma PlainTextStaysOnLine(lines: seq<string>, p: Position, text: string)
    requires InText(View(lines), p) && '\r' !in text && '\n' !in text && text != ""
    ensures
      var v, n := View(lines), p.lineNumber - 1;
      && Changed(lines, CaretAt(p), text) == v[..n] + [v[n][..p.column - 1] + text + v[n][p.column - 1..]] + v[n + 1..]
      && |Changed(lines, CaretAt(p), text)| == |v|
  {
    var v, n := View(lines), p.lineNumber - 1;
    var above, head, tail, below := v[..n], v[n][..p.column - 1], v[n][p.column - 1..], v[n + 1..];
    OneLineExactly(text);
    ChangedAtCaret(lines, p, text, above, head, tail, below);
    GlueOne(above, head, text, tail, below);
  }

  /** A single break tears the line in two. */
  lemma BreakTearsLine(lines: seq<string>, p: Position, break_: string)
    requires InText(View(lines), p) && break_ in {"\r", "\n", "\r\n"}
    ensures
      var v, n := View(lines), p.lineNumber - 1;
      Changed(lines, CaretAt(p), break_) == v[..n] + [v[n][..p.column - 1]] + [v[n][p.column - 1..]] + v[n + 1..]
  {
    var v, n := View(lines), p.lineNumber - 1;
    var above, head, tail, below := v[..n], v[n][..p.column - 1], v[n][p.column - 1..], v[n + 1..];
    EachBreakIsOne();
    ChangedAtCaret(lines, p, break_, above, head, tail, below);
    GlueTorn(above, head, tail, below);
  }

  lemma GlueTorn(above: seq<string>, head: string, tail: string, below: seq<string>)
    ensures Glue(Glue(above + [head], ["", ""]), [tail] + below) == above + [head] + [tail] + below
  {
    assert head + "" == head && "" + tail == tail;
    var g := Glue(above + [head], ["", ""]);
    assert g == above + [head] + [""];
    assert g[..|g| - 1] == above + [head] && ([tail] + below)[1..] == below;
  }

  /** The range with its columns moved into their lines. */
  function Clamped(v: seq<string>, r: Range): Range
    requires 1 <= r.startLineNumber <= |v| && 1 <= r.endLineNumber <= |v|
  {
    Range(r.startLineNumber, Cut(v[r.startLineNumber - 1], r.startColumn) + 1,
          r.endLineNumber, Cut(v[r.endLineNumber - 1], r.endColumn) + 1)
  }

  lemma AroundOne(above: seq<string>, x: string, below: seq<string>)
    ensures var all := above + [x] + below;
      |all| == |above| + 1 + |below| && all[..|above|] == above && all[|above|] == x && all[|above| + 1..] == below
  {
  }

  lemma HeadMeetsTail(lines: seq<string>, r: Range)
    requires LinesInText(View(lines), r) && r.Start() == r.End()
    ensures Head(lines, r) + Tail(lines, r) == View(lines)[r.startLineNumber - 1]
  {
    var line := View(lines)[r.startLineNumber - 1];
    assert line == line[..Cut(line, r.startColumn)] + line[Cut(line, r.startColumn)..];
  }

  lemma DeletedPieces(lines: seq<string>, r: Range)
    requires LinesInText(View(lines), r)
    ensures
      var v, s, m, d := View(lines), r.startLineNumber, Resumes(r), Padded(Deleted(lines, r), r.startLineNumber);
      && |d| == |v| - (m - s) && d[..s - 1] == v[..s - 1] && d[s..] == v[m..]
      && LineAt(Deleted(lines, r), s) == d[s - 1] == Head(lines, r) + Tail(lines, r)
  {
    PaddedIsView(lines, r.startLineNumber);
    if r.Start() == r.End() {
      HeadMeetsTail(lines, r);
    } else {
      DeletedShape(lines, r);
      AroundOne(View(lines)[..r.startLineNumber - 1], Head(lines, r) + Tail(lines, r), View(lines)[Resumes(r)..]);
    }
  }

  /** Where the insertion goes on the line that the deletion leaves. */
  lemma InsertionPlace(lines: seq<string>, r: Range, text: string, joint: string)
    requires LinesInText(View(lines), r) && text != "" && joint == Head(lines, r) + Tail(lines, r)
    ensures
      var v, s, k := View(lines), r.startLineNumber, Cut(joint, r.startColumn);
      Changed(lines, r, text) == Glue(Glue(v[..s - 1] + [joint[..k]], Split(text)), [joint[k..]] + v[Resumes(r)..])
  {
    DeletedPieces(lines, r);
  }

  lemma CutAtHead(head: string, tail: string, k: nat)
    requires k == |head|
    ensures (head + tail)[..k] == head && (head + tail)[k..] == tail
  {
  }

  lemma InsertedAtHead(lines: seq<string>, r: Range, text: string)
    requires LinesInText(View(lines), r) && text != ""
    requires Cut(Head(lines, r) + Tail(lines, r), r.startColumn) == |Head(lines, r)|
    ensures var v, s := View(lines), r.startLineNumber;
      Changed(lines, r, text) == Glue(Glue(v[..s - 1] + [Head(lines, r)], Split(text)), [Tail(lines, r)] + v[Resumes(r)..])
  {
    InsertionPlace(lines, r, text, Head(lines, r) + Tail(lines, r));
    CutAtHead(Head(lines, r), Tail(lines, r), Cut(Head(lines, r) + Tail(lines, r), r.startColumn));
  }

  lemma ClampedPlaces(lines: seq<string>, r: Range)
    requires 1 <= r.startLineNumber <= r.endLineNumber <= |View(lines)|
    requires ValidRange(View(lines), Clamped(View(lines), r))
    ensures var v, c := View(lines), Clamped(View(lines), r);
      && Before(v, c.Start()) == v[..r.startLineNumber - 1] + [Head(lines, r)]
      && After(v, c.End()) == [Tail(lines, r)] + v[r.endLineNumber..]
  {
    var c := Clamped(View(lines), r);
    assert c.startColumn - 1 == Cut(View(lines)[r.startLineNumber - 1], r.startColumn);
    assert c.endColumn - 1 == Cut(View(lines)[r.endLineNumber - 1], r.endColumn);
    PlacesOf(View(lines), c.Start(), Head(lines, r), c.End(), Tail(lines, r));
  }

  lemma ClampedIsTheSame(lines: seq<string>, r: Range, text: string)
    requires 1 <= r.startLineNumber <= r.endLineNumber <= |View(lines)| && text != ""
    requires ValidRange(View(lines), Clamped(View(lines), r))
    requires Cut(Head(lines, r) + Tail(lines, r), r.startColumn) == |Head(lines, r)|
    ensures Changed(lines, r, text) == Stored(lines, Clamped(View(lines), r), text)
  {
    InsertedAtHead(lines, r, text);
    ClampedPlaces(lines, r);
  }

  lemma FirstOfBreak(above: seq<string>, head: string, tail: string, below: seq<string>)
    ensures var g := Glue(Glue(above + [head], Split("\n")), [tail] + below);
      |g| > |above| && g[|above|] == head
  {
    assert "\n"[1..] == "" && Split("\n") == ["", ""];
    GlueAround(above, head, ["", ""], tail, below);
    assert head + "" == head;
  }

  lemma TextSlipsBehind(lines: seq<string>, r: Range)
    requires 1 <= r.startLineNumber <= r.endLineNumber <= |View(lines)|
    requires ValidRange(View(lines), Clamped(View(lines), r))
    requires Cut(Head(lines, r) + Tail(lines, r), r.startColumn) > |Head(lines, r)|
    ensures Changed(lines, r, "\n") != Stored(lines, Clamped(View(lines), r), "\n")
  {
    var v, s, joint := View(lines), r.startLineNumber, Head(lines, r) + Tail(lines, r);
    var k := Cut(joint, r.startColumn);
    InsertionPlace(lines, r, "\n", joint);
    FirstOfBreak(v[..s - 1], joint[..k], joint[k..], v[Resumes(r)..]);
    assert Changed(lines, r, "\n")[s - 1] == joint[..k];
    ClampedPlaces(lines, r);
    FirstOfBreak(v[..s - 1], Head(lines, r), Tail(lines, r), v[r.endLineNumber..]);
    assert Stored(lines, Clamped(v, r), "\n")[s - 1] == Head(lines, r);
  }

  /** Columns outside their lines are as good as the nearest ones inside, whatever the text, if
      and only if the start does not lie beyond its line or nothing follows the range on the last
      line: a start beyond its line lets the text slip behind what is joined to that line. */
  lemma ClampsExactly(lines: seq<string>, r: Range)
    requires 1 <= r.startLineNumber <= r.endLineNumber <= |View(lines)|
    requires ValidRange(View(lines), Clamped(View(lines), r))
    ensures
      (forall text :: text != "" ==> Changed(lines, r, text) == Stored(lines, Clamped(View(lines), r), text))
      <==> r.startColumn <= |View(lines)[r.startLineNumber - 1]| + 1 || Tail(lines, r) == ""
  {
    var first, joint := View(lines)[r.startLineNumber - 1], Head(lines, r) + Tail(lines, r);
    if r.startColumn <= |first| + 1 || Tail(lines, r) == "" {
      assert Cut(joint, r.startColumn) == |Head(lines, r)|;
      forall text | text != ""
        ensures Changed(lines, r, text) == Stored(lines, Clamped(View(lines), r), text)
      {
        ClampedIsTheSame(lines, r, text);
      }
    } else {
      TextSlipsBehind(lines, r);
    }
  }

  lemma FlatGlue(b: seq<string>, text: string, a: seq<string>, eol: string)
    requires |b| > 0 && |a| > 0
    ensures Join(Glue(Glue(b, Split(text)), a), eol) == Join(b, eol) + NormalizeBreaks(text, eol) + Join(a, eol)
  {
    JoinSplit(text, eol);
    JoinGlue(Glue(b, Split(text)), a, eol);
    JoinGlue(b, Split(text), eol);
  }

  lemma FlatPlace(v: seq<string>, p: Position, eol: string)
    requires InText(v, p)
    ensures 0 <= OffsetAt(v, eol, p) <= |Join(v, eol)|
    ensures Join(v, eol)[..OffsetAt(v, eol, p)] == Join(Before(v, p), eol)
    ensures Join(v, eol)[OffsetAt(v, eol, p)..] == Join(After(v, p), eol)
  {
    FlatPieces(v, CaretAt(p), eol);
  }

  /** Between two places in the text, in whatever order, the edit leaves what is before the start,
      the text, and the rest of the end's line, above what the deletion has left below. */
  lemma ChangedBetween(lines: seq<string>, r: Range, text: string, eol: string)
    requires InText(View(lines), r.Start()) && InText(View(lines), r.End())
    ensures
      var v := View(lines);
      Join(Changed(lines, r, text), eol)
      == Join(Before(v, r.Start()), eol) + NormalizeBreaks(text, eol) + Join([Tail(lines, r)] + v[Resumes(r)..], eol)
  {
    var v := View(lines);
    var b, a := Before(v, r.Start()), [Tail(lines, r)] + v[Resumes(r)..];
    assert b == v[..r.startLineNumber - 1] + [Head(lines, r)];
    FlatGlue(b, text, a, eol);
    if text != "" {
      InsertedAtHead(lines, r, text);
    } else {
      NothingInserted(lines, r, b, a, eol);
    }
  }

  lemma NothingInserted(lines: seq<string>, r: Range, b: seq<string>, a: seq<string>, eol: string)
    requires InText(View(lines), r.Start()) && InText(View(lines), r.End())
    requires b == Before(View(lines), r.Start()) && a == [Tail(lines, r)] + View(lines)[Resumes(r)..]
    ensures Join(Deleted(lines, r), eol) == Join(Glue(Glue(b, Split("")), a), eol)
  {
    assert Split("") == [""];
    GlueEmpty(b);
    if r.Start() == r.End() {
      assert a == After(View(lines), r.Start());
      BeforeAfter(View(lines), r.Start());
      assert Join(View(lines), eol) == Join(lines, eol);
    } else {
      DeletedShape(lines, r);
      GlueLast(View(lines)[..r.startLineNumber - 1], Head(lines, r), Tail(lines, r), View(lines)[Resumes(r)..]);
    }
  }

  lemma {:induction false} JoinLength(first: string, below: seq<string>, eol: string)
    ensures |Join([first] + below, eol)| == |first| + LengthOfLines(below, eol)
    decreases |below|
  {
    assert ([first] + below)[1..] == below;
    if below != [] {
      JoinLength(below[0], below[1..], eol);
      assert [below[0]] + below[1..] == below;
    }
  }

  lemma {:induction false} FewerLinesAreShorter(lines: seq<string>, n: nat, eol: string)
    requires n <= |lines| && eol != ""
    ensures LengthOfLines(lines[n..], eol) <= LengthOfLines(lines, eol)
    ensures n > 0 ==> LengthOfLines(lines[n..], eol) < LengthOfLines(lines, eol)
  {
    if n > 0 {
      FewerLinesAreShorter(lines[1..], n - 1, eol);
      assert lines[1..][n - 1..] == lines[n..];
    }
  }

  lemma SameEnds(x: string, n: string, y: string, z: string)
    ensures x + n + y == x + n + z <==> y == z
  {
    if x + n + y == x + n + z {
      SameBehind(x + n, y, z);
    }
  }

  /** Fewer lines below the same one make a shorter text. */
  lemma LinesAreLost(tail: string, v: seq<string>, n: nat, m: nat, eol: string)
    requires n <= m <= |v| && eol != ""
    ensures Join([tail] + v[n..], eol) == Join([tail] + v[m..], eol) <==> n == m
  {
    JoinLength(tail, v[n..], eol);
    JoinLength(tail, v[m..], eol);
    FewerLinesAreShorter(v[n..], m - n, eol);
    assert v[n..][m - n..] == v[m..];
  }

  lemma FlatEnd(v: seq<string>, p: Position, tail: string, eol: string)
    requires InText(v, p) && tail == v[p.lineNumber - 1][p.column - 1..]
    ensures 0 <= OffsetAt(v, eol, p) <= |Join(v, eol)|
    ensures Join(v, eol)[OffsetAt(v, eol, p)..] == Join([tail] + v[p.lineNumber..], eol)
  {
    FlatPlace(v, p, eol);
  }

  /** Main result on ranges given backwards: between two places in the text an edit replaces what
      the two offsets enclose if and only if the start is not on a later line than the end. On one
      line a start behind the end thus repeats what is in between. From a later line on, the rest
      of the start's line and all lines between the two are lost, and only the end's line goes on
      behind the text. */
  lemma SplicesExactlyFromAbove(lines: seq<string>, r: Range, text: string, eol: string)
    requires InText(View(lines), r.Start()) && InText(View(lines), r.End()) && eol != ""
    ensures
      var v := View(lines);
      var flat, from, to := Join(v, eol), OffsetAt(v, eol, r.Start()), OffsetAt(v, eol, r.End());
      && 0 <= from <= |flat| && 0 <= to <= |flat|
      && (Join(Changed(lines, r, text), eol) == flat[..from] + NormalizeBreaks(text, eol) + flat[to..]
          <==> r.startLineNumber <= r.endLineNumber)
      && (r.startLineNumber > r.endLineNumber ==>
            Join(Changed(lines, r, text), eol)
            == flat[..from] + NormalizeBreaks(text, eol) + Join([Tail(lines, r)] + v[r.startLineNumber..], eol))
  {
    var v, tail := View(lines), Tail(lines, r);
    var x, n := Join(Before(v, r.Start()), eol), NormalizeBreaks(text, eol);
    ChangedBetween(lines, r, text, eol);
    FlatPlace(v, r.Start(), eol);
    FlatEnd(v, r.End(), tail, eol);
    SameEnds(x, n, Join([tail] + v[Resumes(r)..], eol), Join([tail] + v[r.endLineNumber..], eol));
    LinesAreLost(tail, v, r.endLineNumber, Resumes(r), eol);
  }

  class BasicTextLines {
    var lines: seq<string>
    var eol: string

    ghost predicate Valid()
      reads this
    {
      IsEol(eol)
    }

    /** A line may hold a break other than the marker that the content was split at. */
    constructor (lines: seq<string>, eol: string)
      requires IsEol(eol)
      ensures Valid() && this.lines == lines && this.eol == eol
    {
      this.lines, this.eol := lines, eol;
    }

    method GetContent() returns (content: string)
      requires Valid()
      ensures content == Join(lines, eol)
      ensures Split(content) == View(lines) <==> AllBreakFree(lines)
    {
      if AllBreakFree(lines) {
        SplitJoin(View(lines), eol);
      }
      assert Join(View(lines), eol) == Join(lines, eol);
      content := Join(lines, eol);
    }

    method SetLineText(lineIndex: int, newValue: string)
      requires 0 <= lineIndex
      modifies this`lines
      ensures lines == Padded(old(lines), lineIndex + 1)[lineIndex := newValue]
    {
      lines := Padded(lines, lineIndex + 1)[lineIndex := newValue];
    }

    method AcceptEol(eol: string)
      requires Valid() && IsEol(eol)
      modifies this`eol
      ensures Valid() && this.eol == eol
    {
      this.eol := eol;
    }

    /** Applies one edit, at any place with line numbers from one on. For a range inside the text
        the flat content afterwards is the flat content before, with the offset range replaced by
        the inserted text, its breaks rewritten as the marker. */
    method AcceptChange(range: Range, text: string)
      requires Valid() && range.startLineNumber >= 1 && range.endLineNumber >= 1
      modifies this`lines
      ensures Valid() && (AllBreakFree(old(lines)) ==> AllBreakFree(lines))
      ensures lines == Changed(old(lines), range, text)
      ensures ValidRange(View(old(lines)), range) ==> lines == Stored(old(lines), range, text)
      ensures ValidRange(View(old(lines)), range) ==> IsSpliced(old(lines), lines, range, text, eol)
    {
      ChangedMeaning(lines, range, text, eol);
      AcceptDeleteRange(range);
      AcceptInsertText(range.Start(), text);
    }

    method AcceptDeleteRange(range: Range)
      requires range.startLineNumber >= 1 && range.endLineNumber >= 1
      modifies this`lines
      ensures lines == Deleted(old(lines), range)
    {
      var s, e := range.startLineNumber, range.endLineNumber;
      var first, last := LineAt(lines, s), LineAt(lines, e);
      var joint := first[..Cut(first, range.startColumn)] + last[Cut(last, range.endColumn)..];
      JoinedLines(Padded(lines, s), s, if s < e then e else s, joint);
      if s == e {
        if range.startColumn == range.endColumn {
          return;
        }
        SetLineText(s - 1, joint);
        return;
      }
      SetLineText(s - 1, joint);
      if s < e {
        lines := lines[..s] + From(lines, e);
      }
    }

    method AcceptInsertText(position: Position, insertText: string)
      requires position.lineNumber >= 1
      modifies this`lines
      ensures lines == Inserted(old(lines), position, insertText)
    {
      if |insertText| == 0 {
        return;
      }
      var n, line := position.lineNumber, LineAt(lines, position.lineNumber);
      ghost var v := Padded(lines, n);
      var insertLines := Split(insertText);
      if |insertLines| == 1 {
        GlueOne(v[..n - 1], line[..Cut(line, position.column)], insertLines[0], line[Cut(line, position.column)..], v[n..]);
        InsertWithinLine(position, insertLines[0]);
        return;
      }
      GlueAround(v[..n - 1], line[..Cut(line, position.column)], insertLines, line[Cut(line, position.column)..], v[n..]);
      InsertSeveralLines(position, insertLines);
    }

    method InsertWithinLine(position: Position, text: string)
      requires position.lineNumber >= 1
      modifies this`lines
      ensures
        var v, line := Padded(old(lines), position.lineNumber), LineAt(old(lines), position.lineNumber);
        var k := Cut(line, position.column);
        lines == v[..position.lineNumber - 1] + [line[..k] + text + line[k..]] + v[position.lineNumber..]
    {
      ghost var v := Padded(lines, position.lineNumber);
      var at := position.lineNumber - 1;
      var line := LineAt(lines, position.lineNumber);
      var k := Cut(line, position.column);
      SetLineText(at, line[..k] + text + line[k..]);
      UpdatePieces(v, at, line[..k] + text + line[k..]);
      assert lines == lines[..at + 1] + lines[at + 1..];
    }

    /** The first inserted line ends the edited line, the last one takes over its rest. */
    method InsertSeveralLines(position: Position, newLines: seq<string>)
      requires position.lineNumber >= 1 && |newLines| > 1
      modifies this`lines
      ensures
        var v, line := Padded(old(lines), position.lineNumber), LineAt(old(lines), position.lineNumber);
        var k := Cut(line, position.column);
        lines == (v[..position.lineNumber - 1] + [line[..k] + newLines[0]])
                 + (newLines[1..|newLines| - 1] + [newLines[|newLines| - 1] + line[k..]])
                 + v[position.lineNumber..]
    {
      ghost var v := Padded(lines, position.lineNumber);
      var at := position.lineNumber - 1;
      var line := LineAt(lines, position.lineNumber);
      var k, n := Cut(line, position.column), |newLines|;
      var insertLines := newLines[n - 1 := newLines[n - 1] + line[k..]];
      UpdateLast(newLines, insertLines[n - 1]);
      SetLineText(at, line[..k] + insertLines[0]);
      UpdatePieces(v, at, line[..k] + insertLines[0]);
      InsertFurtherLines(position.lineNumber, insertLines);
    }

    /** The insertion loop: all lines but the first go below `lineNumber`, one splice each. */
    method InsertFurtherLines(lineNumber: int, insertLines: seq<string>)
      requires 1 <= lineNumber <= |lines| && |insertLines| > 0
      modifies this`lines
      ensures lines == old(lines)[..lineNumber] + insertLines[1..] + old(lines)[lineNumber..]
    {
      ghost var above, below := lines[..lineNumber], lines[lineNumber..];
      var i := 1;
      while i < |insertLines|
        invariant 1 <= i <= |insertLines|
        invariant lines == above + insertLines[1..i] + below
      {
        lines := SpliceIn(lines, lineNumber + i - 1, insertLines[i]);
        SpliceAfter(above, insertLines[1..i], below, insertLines[i]);
        GrowSlice(insertLines, i);
        i := i + 1;
      }
    }
  }
}
