/** Waiting for the gateway's ready announcement: a size-bounded line reader fed with
    arbitrary chunks of standard output, racing exit, error and timeout. */
module ReadyFramer {
  import opened TextAlgebra

  const READY_LINE_LIMIT_BYTES := 64 * 1024

  /** What the parser makes of a line: an announcement, something else, or an exception, as on
      the line `null`, which is JSON but has no properties. */
  datatype Parsed<E> = Announcement(event: E) | Other | Throws

  /** `Crashed` is no settlement: the exception leaves the data listener and nothing handles it. */
  datatype Outcome<E> = Pending | Ready(event: E) | TooLong | Exited | Errored | TimedOut | Crashed

  datatype Event = Data(chunk: string) | Exit | Error | Timeout

  /** UTF-8 length of one character. */
  function CharBytes(c: char): nat {
    if c as int < 0x80 then 1 else if c as int < 0x800 then 2 else if c as int < 0x1_0000 then 3 else 4
  }

  function ByteLength(s: string): nat {
    if s == "" then 0 else CharBytes(s[0]) + ByteLength(s[1..])
  }

  /** A character weighs one byte exactly if it is ASCII, and four at most. */
  lemma {:induction false} ByteLengthBounds(s: string)
    ensures |s| <= ByteLength(s) <= 4 * |s|
    ensures ByteLength(s) == |s| <==> forall i :: 0 <= i < |s| ==> s[i] as int < 128
  {
    if s != "" {
      ByteLengthBounds(s[1..]);
      assert forall i :: 0 < i < |s| ==> s[i] == s[1..][i - 1];
    }
  }

  /** Two bytes up to eleven bits, three up to sixteen, four beyond. */
  lemma WiderCharacters(c: char, rest: string)
    ensures 0x80 <= c as int < 0x800 ==> ByteLength([c] + rest) == 2 + ByteLength(rest)
    ensures 0x800 <= c as int < 0x1_0000 ==> ByteLength([c] + rest) == 3 + ByteLength(rest)
    ensures 0x1_0000 <= c as int ==> ByteLength([c] + rest) == 4 + ByteLength(rest)
  {
    assert ([c] + rest)[1..] == rest;
  }

  /** Position of the first line feed, or the length of the text. */
  function FirstNewline(t: string): (n: nat)
    ensures n <= |t|
    ensures n < |t| ==> t[n] == '\n'
    ensures '\n' !in t[..n]
  {
    if t == "" || t[0] == '\n' then 0
    else
      var n := FirstNewline(t[1..]);
      assert t[..n + 1] == [t[0]] + t[1..][..n];
      n + 1
  }

  // ----- what the stream means, read line by line -----

  /** The complete lines of a text followed by its unfinished tail. */
  function SplitLines(t: string): (lines: seq<string>)
    ensures |lines| > 0
  {
    if t == "" then [""]
    else if t[0] == '\n' then [""] + SplitLines(t[1..])
    else Prepend(t[0], SplitLines(t[1..]))
  }

  function ReadLines<E>(lines: seq<string>, parse: string -> Parsed<E>): Outcome<E>
    requires |lines| > 0
  {
    if ByteLength(lines[0]) > READY_LINE_LIMIT_BYTES then TooLong
    else if |lines| == 1 then Pending
    else
      match parse(lines[0])
      case Announcement(e) => Ready(e)
      case Throws => Crashed
      case Other => ReadLines(lines[1..], parse)
  }

  function ReadText<E>(t: string, parse: string -> Parsed<E>): Outcome<E> {
    ReadLines(SplitLines(t), parse)
  }

  /** A line that neither announces readiness nor exceeds the limit. */
  predicate Skipped<E>(line: string, parse: string -> Parsed<E>) {
    ByteLength(line) <= READY_LINE_LIMIT_BYTES && parse(line) == Other
  }

  ghost predicate SkippedBefore<E>(lines: seq<string>, k: nat, parse: string -> Parsed<E>)
    requires k <= |lines|
  {
    forall j :: 0 <= j < k ==> Skipped(lines[j], parse)
  }

  /** The first complete line that parses wins, unless that line or an earlier one is too long. */
  ghost predicate Announces<E>(lines: seq<string>, k: nat, e: E, parse: string -> Parsed<E>) {
    && k < |lines| - 1 && SkippedBefore(lines, k, parse)
    && ByteLength(lines[k]) <= READY_LINE_LIMIT_BYTES && parse(lines[k]) == Announcement(e)
  }

  /** The first complete line the parser throws on, unless an earlier one decides. */
  ghost predicate Crashes<E>(lines: seq<string>, k: nat, parse: string -> Parsed<E>) {
    && k < |lines| - 1 && SkippedBefore(lines, k, parse)
    && ByteLength(lines[k]) <= READY_LINE_LIMIT_BYTES && parse(lines[k]) == Throws
  }

  /** The first line that is too long, unfinished tail included, before any announcement. */
  ghost predicate Overflows<E>(lines: seq<string>, k: nat, parse: string -> Parsed<E>) {
    k < |lines| && SkippedBefore(lines, k, parse) && ByteLength(lines[k]) > READY_LINE_LIMIT_BYTES
  }

  lemma SkippedShift<E>(lines: seq<string>, k: nat, parse: string -> Parsed<E>)
    requires 0 < k <= |lines|
    ensures SkippedBefore(lines, k, parse) <==> Skipped(lines[0], parse) && SkippedBefore(lines[1..], k - 1, parse)
  {
    if Skipped(lines[0], parse) && SkippedBefore(lines[1..], k - 1, parse) {
      forall j | 0 <= j < k
        ensures Skipped(lines[j], parse)
      {
        if j > 0 {
          assert lines[j] == lines[1..][j - 1];
        }
      }
    }
  }

  /** What `ReadLines` decides, stated without recursion. */
  lemma {:induction false} ReadLinesMeaning<E(!new)>(lines: seq<string>, parse: string -> Parsed<E>)
    requires |lines| > 0
    ensures forall e :: ReadLines(lines, parse) == Ready(e) <==> exists k :: Announces(lines, k, e, parse)
    ensures ReadLines(lines, parse) == TooLong <==> exists k :: Overflows(lines, k, parse)
    ensures ReadLines(lines, parse) == Crashed <==> exists k :: Crashes(lines, k, parse)
    ensures ReadLines(lines, parse) in {Pending, TooLong, Crashed} || ReadLines(lines, parse).Ready?
  {
    var r := ReadLines(lines, parse);
    if |lines| > 1 && Skipped(lines[0], parse) {
      var tail := lines[1..];
      ReadLinesMeaning(tail, parse);
      forall k | 0 < k <= |lines|
        ensures SkippedBefore(lines, k, parse) <==> SkippedBefore(tail, k - 1, parse)
      {
        SkippedShift(lines, k, parse);
      }
      forall k: nat, e
        ensures Announces(tail, k, e, parse) <==> Announces(lines, k + 1, e, parse)
      {
      }
      forall k: nat
        ensures Overflows(tail, k, parse) <==> Overflows(lines, k + 1, parse)
      {
      }
      forall k: nat
        ensures Crashes(tail, k, parse) <==> Crashes(lines, k + 1, parse)
      {
      }
      forall e
        ensures r == Ready(e) <==> exists k :: Announces(lines, k, e, parse)
      {
        if k: nat :| Announces(lines, k, e, parse) {
          assert Announces(tail, k - 1, e, parse);
        }
      }
      if k: nat :| Overflows(lines, k, parse) {
        assert Overflows(tail, k - 1, parse);
      }
      if k: nat :| Crashes(lines, k, parse) {
        assert Crashes(tail, k - 1, parse);
      }
    } else {
      assert SkippedBefore(lines, 0, parse);
      forall k: nat | 0 < k <= |lines|
        ensures !SkippedBefore(lines, k, parse) || |lines| == 1
      {
        if |lines| > 1 {
          assert !Skipped(lines[0], parse);
        }
      }
      assert r == TooLong ==> Overflows(lines, 0, parse);
      assert r.Ready? ==> Announces(lines, 0, r.event, parse);
      assert r == Crashed ==> Crashes(lines, 0, parse);
    }
  }

  // ----- reading in chunks -----

  lemma {:induction false} ByteLengthAppend(a: string, b: string)
    ensures ByteLength(a + b) == ByteLength(a) + ByteLength(b)
  {
    if a == "" {
      assert a + b == b;
    } else {
      ByteLengthAppend(a[1..], b);
      assert (a + b)[1..] == a[1..] + b;
    }
  }

  lemma {:induction false} SplitLinesConcat(a: string, b: string)
    ensures SplitLines(a + b) == Glue(SplitLines(a), SplitLines(b))
  {
    if a == "" {
      assert a + b == b;
      assert "" + SplitLines(b)[0] == SplitLines(b)[0];
    } else {
      assert (a + b)[1..] == a[1..] + b && (a + b)[0] == a[0];
      SplitLinesConcat(a[1..], b);
      GlueNewLine(SplitLines(a[1..]), SplitLines(b));
      GluePrepend(a[0], SplitLines(a[1..]), SplitLines(b));
    }
  }

  lemma {:induction false} OneLine(t: string)
    requires '\n' !in t
    ensures SplitLines(t) == [t]
  {
    if t != "" {
      OneLine(t[1..]);
      assert [t[0]] + t[1..] == t;
    }
  }

  lemma GlueTail(xs: seq<string>, ys: seq<string>)
    requires |xs| > 1 && |ys| > 0
    ensures Glue(xs, ys)[1..] == Glue(xs[1..], ys) && Glue(xs, ys)[0] == xs[0]
  {
  }

  /** What more text does to lines already read without a decision: only the tail matters. */
  lemma {:induction false} PendingExtends<E>(xs: seq<string>, ys: seq<string>, parse: string -> Parsed<E>)
    requires |xs| > 0 && |ys| > 0
    requires ReadLines(xs, parse) == Pending
    ensures ReadLines(Glue(xs, ys), parse) == ReadLines(Glue([xs[|xs| - 1]], ys), parse)
  {
    if |xs| > 1 {
      PendingExtends(xs[1..], ys, parse);
      GlueTail(xs, ys);
      assert xs[1..][|xs| - 2] == xs[|xs| - 1];
    } else {
      assert xs == [xs[0]];
    }
  }

  /** A decision is final: text that follows cannot change it. */
  lemma {:induction false} DecisionStands<E>(xs: seq<string>, ys: seq<string>, parse: string -> Parsed<E>)
    requires |xs| > 0 && |ys| > 0
    requires ReadLines(xs, parse) != Pending
    ensures ReadLines(Glue(xs, ys), parse) == ReadLines(xs, parse)
  {
    if |xs| == 1 {
      ByteLengthAppend(xs[0], ys[0]);
    } else {
      assert Glue(xs, ys)[1..] == Glue(xs[1..], ys);
      if Skipped(xs[0], parse) {
        DecisionStands(xs[1..], ys, parse);
      }
    }
  }

  lemma ReadTextStands<E>(t: string, more: string, parse: string -> Parsed<E>)
    requires ReadText(t, parse) != Pending
    ensures ReadText(t + more, parse) == ReadText(t, parse)
  {
    SplitLinesConcat(t, more);
    DecisionStands(SplitLines(t), SplitLines(more), parse);
  }

  function LastOf(lines: seq<string>): string
    requires |lines| > 0
  {
    lines[|lines| - 1]
  }

  /** After text without a decision, reading on is reading the unfinished tail and what follows. */
  lemma ReadTextResumes<E>(t: string, more: string, parse: string -> Parsed<E>)
    requires ReadText(t, parse) == Pending
    ensures
      var tail := LastOf(SplitLines(t));
      && ReadText(t + more, parse) == ReadText(tail + more, parse)
      && LastOf(SplitLines(t + more)) == LastOf(SplitLines(tail + more))
  {
    var tail := LastOf(SplitLines(t));
    SplitLinesConcat(t, more);
    PendingExtends(SplitLines(t), SplitLines(more), parse);
    TailIsOneLine(t);
    OneLine(tail);
    SplitLinesConcat(tail, more);
  }

  lemma {:induction false} TailIsOneLine(t: string)
    ensures '\n' !in LastOf(SplitLines(t))
  {
    if t != "" {
      TailIsOneLine(t[1..]);
    }
  }

  lemma {:induction false} TailIsShort<E>(lines: seq<string>, parse: string -> Parsed<E>)
    requires |lines| > 0 && ReadLines(lines, parse) == Pending
    ensures ByteLength(LastOf(lines)) <= READY_LINE_LIMIT_BYTES
  {
    if |lines| > 1 {
      TailIsShort(lines[1..], parse);
    }
  }

  lemma LineThenRest(line: string, rest: string)
    requires '\n' !in line
    ensures SplitLines(line + (['\n'] + rest)) == [line] + SplitLines(rest)
  {
    OneLine(line);
    SplitLinesConcat(line, ['\n'] + rest);
    assert (['\n'] + rest)[1..] == rest;
    assert line + "" == line;
    assert Glue([line], [""] + SplitLines(rest)) == [line] + SplitLines(rest);
  }

  lemma CutAt(buffer: string, t: string, n: nat)
    requires n < |t|
    ensures buffer + t == (buffer + t[..n]) + ([t[n]] + t[n + 1..])
  {
  }

  /** Reading `text` has come down to reading the buffer and what remains of the chunk. */
  ghost predicate ComesDownTo<E>(text: string, buffer: string, remaining: string, parse: string -> Parsed<E>) {
    && '\n' !in buffer
    && ReadText(text, parse) == ReadText(buffer + remaining, parse)
    && LastOf(SplitLines(text)) == LastOf(SplitLines(buffer + remaining))
  }

  lemma ReadTail<E>(text: string, buffer: string, remaining: string, parse: string -> Parsed<E>)
    requires ComesDownTo(text, buffer, remaining, parse) && FirstNewline(remaining) == |remaining|
    ensures ReadText(text, parse) == if ByteLength(buffer + remaining) > READY_LINE_LIMIT_BYTES then TooLong else Pending
    ensures LastOf(SplitLines(text)) == buffer + remaining
  {
    assert remaining[..|remaining|] == remaining;
    OneLine(buffer + remaining);
  }

  lemma ReadLine<E>(text: string, buffer: string, remaining: string, parse: string -> Parsed<E>)
    requires ComesDownTo(text, buffer, remaining, parse) && FirstNewline(remaining) < |remaining|
    ensures
      var n := FirstNewline(remaining);
      var line := buffer + remaining[..n];
      if ByteLength(line) > READY_LINE_LIMIT_BYTES then ReadText(text, parse) == TooLong
      else if parse(line) == Throws then ReadText(text, parse) == Crashed
      else if parse(line).Announcement? then ReadText(text, parse) == Ready(parse(line).event)
      else ComesDownTo(text, "", remaining[n + 1..], parse)
  {
    var n := FirstNewline(remaining);
    var line, rest := buffer + remaining[..n], remaining[n + 1..];
    CutAt(buffer, remaining, n);
    LineThenRest(line, rest);
    assert ([line] + SplitLines(rest))[1..] == SplitLines(rest);
    assert "" + rest == rest;
  }

  /** What the piece up to the next line feed decides: the last one has none behind it. */
  lemma ReadPiece<E>(text: string, buffer: string, remaining: string, parse: string -> Parsed<E>)
    requires ComesDownTo(text, buffer, remaining, parse)
    ensures
      var n := FirstNewline(remaining);
      var line := buffer + remaining[..n];
      if ByteLength(line) > READY_LINE_LIMIT_BYTES then ReadText(text, parse) == TooLong
      else if n == |remaining| then ReadText(text, parse) == Pending && LastOf(SplitLines(text)) == line
      else if parse(line) == Throws then ReadText(text, parse) == Crashed
      else if parse(line).Announcement? then ReadText(text, parse) == Ready(parse(line).event)
      else ComesDownTo(text, "", remaining[n + 1..], parse)
  {
    if FirstNewline(remaining) < |remaining| {
      ReadLine(text, buffer, remaining, parse);
    } else {
      assert remaining[..|remaining|] == remaining;
      ReadTail(text, buffer, remaining, parse);
    }
  }

  class ReadyWaiter<E(!new)> {
    const parse: string -> Parsed<E>
    var buffer: string
    var bufferBytes: nat
    var settled: bool
    var outcome: Outcome<E>
    var settlements: nat
    /** Standard output received while listening. */
    ghost var received: string

    ghost predicate Valid()
      reads this
    {
      && settled == (outcome != Pending && outcome != Crashed)
      && settlements == (if settled then 1 else 0)
      && (if outcome == Pending then Following()
          else outcome in {Exited, Errored, TimedOut} || outcome == ReadText(received, parse))
      && bufferBytes <= READY_LINE_LIMIT_BYTES
    }

    /** Nothing decided yet, and the buffer holds the unfinished tail of the output. */
    ghost predicate Following()
      reads this
    {
      && ReadText(received, parse) == Pending
      && buffer == LastOf(SplitLines(received))
      && bufferBytes == ByteLength(buffer)
    }

    constructor (parse: string -> Parsed<E>)
      ensures Valid() && this.parse == parse && received == "" && outcome == Pending
    {
      this.parse := parse;
      buffer, bufferBytes, settled, outcome, settlements, received := "", 0, false, Pending, 0, "";
    }

    method Finish(o: Outcome<E>)
      requires o != Pending && o != Crashed
      modifies this`settled, this`outcome, this`settlements
      ensures settled && outcome == (if old(settled) then old(outcome) else o)
      ensures settlements == old(settlements) + (if old(settled) then 0 else 1)
    {
      if settled {
        return;
      }
      settled := true;
      outcome := o;
      settlements := settlements + 1;
    }

    /** One chunk of output. Listeners are detached once settled, so it is ignored then. */
    method OnData(chunk: string)
      requires Valid() && outcome != Crashed
      modifies this
      ensures Valid()
      ensures received == old(received) + (if old(settled) then "" else chunk)
      ensures outcome == if old(settled) then old(outcome) else ReadText(received, parse)
    {
      if settled {
        assert received + "" == received;
        return;
      }
      ReadTextResumes(received, chunk, parse);
      TailIsOneLine(received);
      received := received + chunk;
      ReadLinesOf(chunk);
    }

    /** The reading loop: the chunk is cut at line feeds, each line is tried in turn. */
    method ReadLinesOf(chunk: string)
      requires outcome == Pending && !settled
      requires '\n' !in buffer && bufferBytes == ByteLength(buffer) && bufferBytes <= READY_LINE_LIMIT_BYTES
      modifies this`buffer, this`bufferBytes, this`settled, this`outcome, this`settlements
      ensures outcome == ReadText(old(buffer) + chunk, parse)
      ensures settled == (outcome != Pending && outcome != Crashed)
      ensures settlements == old(settlements) + (if settled then 1 else 0)
      ensures bufferBytes <= READY_LINE_LIMIT_BYTES
      ensures outcome == Pending ==> buffer == LastOf(SplitLines(old(buffer) + chunk)) && bufferBytes == ByteLength(buffer)
    {
      ghost var text := buffer + chunk;
      var remaining, more := chunk, true;
      while more
        invariant more ==> outcome == Pending && !settled && settlements == old(settlements)
        invariant more ==> bufferBytes == ByteLength(buffer) && bufferBytes <= READY_LINE_LIMIT_BYTES
        invariant more ==> ComesDownTo(text, buffer, remaining, parse)
        invariant !more ==> HasRead(text, old(settlements))
        decreases more, |remaining|
      {
        more, remaining := ReadOnePiece(text, remaining);
      }
    }

    /** The whole text has been read, as far as that goes. */
    ghost predicate HasRead(text: string, before: nat)
      reads this`buffer, this`bufferBytes, this`settled, this`outcome, this`settlements
    {
      && outcome == ReadText(text, parse) && settled == (outcome != Pending && outcome != Crashed)
      && settlements == before + (if settled then 1 else 0) && bufferBytes <= READY_LINE_LIMIT_BYTES
      && (outcome == Pending ==> buffer == LastOf(SplitLines(text)) && bufferBytes == ByteLength(buffer))
    }

    /** The text up to the next line feed: a line to try, or the unfinished tail. */
    method ReadOnePiece(ghost text: string, remaining: string) returns (more: bool, rest: string)
      requires outcome == Pending && !settled
      requires bufferBytes == ByteLength(buffer) && bufferBytes <= READY_LINE_LIMIT_BYTES
      requires ComesDownTo(text, buffer, remaining, parse)
      modifies this`buffer, this`bufferBytes, this`settled, this`outcome, this`settlements
      ensures more ==> outcome == Pending && !settled && settlements == old(settlements)
      ensures more ==> buffer == "" && bufferBytes == 0 && |rest| < |remaining| && ComesDownTo(text, "", rest, parse)
      ensures !more ==> HasRead(text, old(settlements))
    {
      more, rest := false, "";
      var newline := FirstNewline(remaining);
      ReadPiece(text, buffer, remaining, parse);
      var piece := remaining[..newline];
      ByteLengthAppend(buffer, piece);
      var pieceBytes := ByteLength(piece);
      if bufferBytes + pieceBytes > READY_LINE_LIMIT_BYTES {
        Finish(TooLong);
        return;
      }
      buffer := buffer + piece;
      bufferBytes := bufferBytes + pieceBytes;
      if newline == |remaining| {
        return;
      }
      var parsed := parse(buffer);
      if parsed == Throws {
        outcome := Crashed;
        return;
      }
      buffer := "";
      bufferBytes := 0;
      if parsed.Announcement? {
        Finish(Ready(parsed.event));
        return;
      }
      more, rest := true, remaining[newline + 1..];
    }

    method OnExit()
      requires Valid() && outcome != Crashed
      modifies this
      ensures Valid() && received == old(received)
      ensures outcome == if old(settled) then old(outcome) else Exited
    {
      Finish(Exited);
    }

    method OnError()
      requires Valid() && outcome != Crashed
      modifies this
      ensures Valid() && received == old(received)
      ensures outcome == if old(settled) then old(outcome) else Errored
    {
      Finish(Errored);
    }

    method OnTimeout()
      requires Valid() && outcome != Crashed
      modifies this
      ensures Valid() && received == old(received)
      ensures outcome == if old(settled) then old(outcome) else TimedOut
    {
      Finish(TimedOut);
    }
  }

  /** In characters: more than 65536 on a line are always too many, and as many ASCII ones are
      not; a line of others may be too long from 16385 on. */
  lemma LimitInCharacters<E>(line: string, parse: string -> Parsed<E>)
    requires '\n' !in line
    ensures |line| > 65536 ==> ReadText(line, parse) == TooLong
    ensures |line| <= 16384 ==> ReadText(line, parse) == Pending
    ensures |line| <= 65536 && (forall i :: 0 <= i < |line| ==> line[i] as int < 128) ==> ReadText(line, parse) == Pending
  {
    OneLine(line);
    ByteLengthBounds(line);
  }

  // ----- whole runs -----

  /** All output that arrives before the first other event. */
  function TextBefore(events: seq<Event>): string {
    if events == [] || !events[0].Data? then "" else events[0].chunk + TextBefore(events[1..])
  }

  /** The first event that is not output. */
  function Interruption<E>(events: seq<Event>): Outcome<E> {
    if events == [] then Pending
    else
      match events[0]
      case Data(_) => Interruption(events[1..])
      case Exit => Exited
      case Error => Errored
      case Timeout => TimedOut
  }

  /** What waiting comes to: the output decides if it can, else the first other event does. */
  function Verdict<E>(events: seq<Event>, parse: string -> Parsed<E>): Outcome<E> {
    var o := ReadText(TextBefore(events), parse);
    if o != Pending then o else Interruption(events)
  }

  function AsData(chunks: seq<string>): seq<Event> {
    if chunks == [] then [] else [Data(chunks[0])] + AsData(chunks[1..])
  }

  function Concat(chunks: seq<string>): string {
    if chunks == [] then "" else chunks[0] + Concat(chunks[1..])
  }

  lemma DataFirst<E>(chunk: string, events: seq<Event>)
    ensures TextBefore([Data(chunk)] + events) == chunk + TextBefore(events)
    ensures Interruption<E>([Data(chunk)] + events) == Interruption(events)
  {
    assert ([Data(chunk)] + events)[1..] == events;
  }

  lemma {:induction false} ChunksThen<E>(chunks: seq<string>, rest: seq<Event>)
    ensures TextBefore(AsData(chunks) + rest) == Concat(chunks) + TextBefore(rest)
    ensures Interruption<E>(AsData(chunks) + rest) == Interruption(rest)
  {
    if chunks == [] {
      assert AsData(chunks) + rest == rest;
      assert "" + TextBefore(rest) == TextBefore(rest);
    } else {
      var head, tail := chunks[0], AsData(chunks[1..]) + rest;
      ChunksThen<E>(chunks[1..], rest);
      DataFirst<E>(head, tail);
      assert AsData(chunks) + rest == [Data(head)] + tail;
      assert head + (Concat(chunks[1..]) + TextBefore(rest)) == head + Concat(chunks[1..]) + TextBefore(rest);
    }
  }

  /** Chunk boundaries never matter: however the same output is cut, the verdict is the same. */
  lemma ChunkingIsInvisible<E>(chunks: seq<string>, others: seq<string>, rest: seq<Event>, parse: string -> Parsed<E>)
    requires Concat(chunks) == Concat(others)
    ensures Verdict(AsData(chunks) + rest, parse) == Verdict(AsData(others) + rest, parse)
  {
    ChunksThen<E>(chunks, rest);
    ChunksThen<E>(others, rest);
  }

  /** The verdict still open after some output, with the events to come. */
  function VerdictFrom<E>(outcome: Outcome<E>, received: string, events: seq<Event>, parse: string -> Parsed<E>): Outcome<E> {
    if outcome != Pending then outcome
    else
      var o := ReadText(received + TextBefore(events), parse);
      if o != Pending then o else Interruption(events)
  }

  lemma VerdictAfterData<E>(received: string, events: seq<Event>, parse: string -> Parsed<E>)
    requires events != [] && events[0].Data?
    ensures
      var more := received + events[0].chunk;
      VerdictFrom(ReadText(more, parse), more, events[1..], parse) == VerdictFrom(Pending, received, events, parse)
  {
    var more, later := received + events[0].chunk, TextBefore(events[1..]);
    assert more + later == received + (events[0].chunk + later);
    if ReadText(more, parse) != Pending {
      ReadTextStands(more, later, parse);
    }
  }

  /** Feeding a waiter a whole run of events, in any chunking, ends in the verdict, having
      settled at most once. */
  method Replay<E(!new)>(events: seq<Event>, parse: string -> Parsed<E>) returns (outcome: Outcome<E>, settlements: nat)
    ensures outcome == Verdict(events, parse)
    ensures settlements == if outcome == Pending || outcome == Crashed then 0 else 1
  {
    var waiter := new ReadyWaiter(parse);
    var i := 0;
    assert events[0..] == events;
    assert "" + TextBefore(events) == TextBefore(events);
    while i < |events| && waiter.outcome != Crashed
      invariant 0 <= i <= |events|
      invariant fresh(waiter) && waiter.Valid() && waiter.parse == parse
      invariant VerdictFrom(waiter.outcome, waiter.received, events[i..], parse) == Verdict(events, parse)
      invariant waiter.outcome == Pending ==> ReadText(waiter.received, parse) == Pending
    {
      assert events[i..][1..] == events[i + 1..];
      assert waiter.received + "" == waiter.received;
      match events[i] {
        case Data(chunk) =>
          VerdictAfterData(waiter.received, events[i..], parse);
          waiter.OnData(chunk);
        case Exit => waiter.OnExit();
        case Error => waiter.OnError();
        case Timeout => waiter.OnTimeout();
      }
      i := i + 1;
    }
    outcome, settlements := waiter.outcome, waiter.settlements;
    assert waiter.received + "" == waiter.received;
  }
}
