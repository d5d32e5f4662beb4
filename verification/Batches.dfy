/** Cutting the list of source files into lint batches: a greedy cut under two limits. */
module Batches {

  const MAX_BATCH_FILES := 30
  const MAX_BATCH_SOURCE_BYTES := 300 * 1024

  type Sizes = string -> nat

  function Bytes(files: seq<string>, size: Sizes): nat {
    if files == [] then 0 else size(files[0]) + Bytes(files[1..], size)
  }

  /** A batch the linter may be given: one file of any size, or several within both limits. */
  predicate Allowed(batch: seq<string>, size: Sizes) {
    |batch| == 1 || (1 < |batch| <= MAX_BATCH_FILES && Bytes(batch, size) <= MAX_BATCH_SOURCE_BYTES)
  }

  function Flatten(batches: seq<seq<string>>): seq<string> {
    if batches == [] then [] else batches[0] + Flatten(batches[1..])
  }

  /** A way of cutting `files`, in order, into allowed batches. */
  predicate IsCut(batches: seq<seq<string>>, files: seq<string>, size: Sizes) {
    Flatten(batches) == files && forall i :: 0 <= i < |batches| ==> Allowed(batches[i], size)
  }

  /** Where one batch may not grow by the file that follows it. */
  predicate Full(batch: seq<string>, next: string, size: Sizes) {
    |batch| >= MAX_BATCH_FILES || Bytes(batch, size) + size(next) > MAX_BATCH_SOURCE_BYTES
  }

  predicate CutWhereFull(batches: seq<seq<string>>, i: nat, size: Sizes)
    requires i < |batches| - 1
  {
    |batches[i + 1]| > 0 && Full(batches[i], batches[i + 1][0], size)
  }

  /** No batch could have taken the first file of the batch after it. */
  predicate Tight(batches: seq<seq<string>>, size: Sizes) {
    forall i :: 0 <= i < |batches| - 1 ==> CutWhereFull(batches, i, size)
  }

  /** The two limits of a batch of several files. */
  lemma AllowedMeaning(batch: seq<string>, size: Sizes)
    ensures Allowed(batch, size) <==> |batch| == 1 || (2 <= |batch| <= 30 && Bytes(batch, size) <= 307200)
  {
  }

  lemma {:induction false} BytesAppend(a: seq<string>, b: seq<string>, size: Sizes)
    ensures Bytes(a + b, size) == Bytes(a, size) + Bytes(b, size)
  {
    if a == [] {
      assert a + b == b;
    } else {
      BytesAppend(a[1..], b, size);
      assert (a + b)[1..] == a[1..] + b;
    }
  }

  lemma {:induction false} FlattenAppend(bs: seq<seq<string>>, b: seq<string>)
    ensures Flatten(bs + [b]) == Flatten(bs) + b
  {
    if bs == [] {
      assert bs + [b] == [b] && [b][1..] == [];
    } else {
      FlattenAppend(bs[1..], b);
      assert (bs + [b])[1..] == bs[1..] + [b];
    }
  }

  lemma FlattenOne(bs: seq<seq<string>>)
    ensures |bs| == 1 ==> Flatten(bs) == bs[0]
  {
    if |bs| == 1 {
      assert bs[1..] == [];
    }
  }

  /** A run of consecutive files of an allowed batch is itself allowed. */
  lemma PartAllowed(batch: seq<string>, from: nat, to: nat, size: Sizes)
    requires Allowed(batch, size) && from < to <= |batch|
    ensures Allowed(batch[from..to], size)
  {
    var a, b, c := batch[..from], batch[from..to], batch[to..];
    BytesAppend(a, b, size);
    BytesAppend(a + b, c, size);
    assert a + b + c == batch;
  }

  lemma TailTight(batches: seq<seq<string>>, size: Sizes)
    requires |batches| > 0 && Tight(batches, size)
    ensures Tight(batches[1..], size)
  {
    var tail := batches[1..];
    forall i | 0 <= i < |tail| - 1
      ensures CutWhereFull(tail, i, size)
    {
      assert CutWhereFull(batches, i + 1, size);
    }
  }

  /** Staying ahead: a tight cut of a suffix of what `other` covers never needs more batches. */
  lemma {:induction false} TightIsShortest(tight: seq<seq<string>>, other: seq<seq<string>>, ahead: nat, size: Sizes)
    requires Tight(tight, size)
    requires forall i :: 0 <= i < |tight| ==> Allowed(tight[i], size)
    requires forall i :: 0 <= i < |other| ==> Allowed(other[i], size)
    requires ahead <= |Flatten(other)| && Flatten(tight) == Flatten(other)[ahead..]
    ensures |tight| <= |other|
    decreases |other|
  {
    if tight != [] {
      assert |Flatten(tight)| > 0;
      var rest := Flatten(other[1..]);
      assert Flatten(other) == other[0] + rest;
      if ahead >= |other[0]| {
        assert Flatten(other)[ahead..] == rest[ahead - |other[0]|..];
        TightIsShortest(tight, other[1..], ahead - |other[0]|, size);
      } else {
        FirstBatchReaches(tight, other, ahead, size);
        var taken := |tight[0]| - (|other[0]| - ahead);
        assert Flatten(tight[1..]) == Flatten(tight)[|tight[0]|..];
        assert Flatten(tight[1..]) == rest[taken..];
        TailTight(tight, size);
        TightIsShortest(tight[1..], other[1..], taken, size);
      }
    }
  }

  /** The first batch of a tight cut reaches at least to the end of the other cut's batch. */
  lemma FirstBatchReaches(tight: seq<seq<string>>, other: seq<seq<string>>, ahead: nat, size: Sizes)
    requires tight != [] && other != []
    requires Tight(tight, size) && Allowed(other[0], size) && Allowed(tight[0], size)
    requires ahead < |other[0]|
    requires Flatten(tight) == Flatten(other)[ahead..]
    ensures |tight[0]| >= |other[0]| - ahead
  {
    var k, later, rest := |tight[0]|, Flatten(tight[1..]), Flatten(other[1..]);
    assert (other[0] + rest)[ahead..] == tight[0] + later;
    if k < |other[0]| - ahead {
      assert |(other[0] + rest)[ahead..]| == |other[0]| - ahead + |rest|;
      assert later != [] && |tight| > 1;
      assert CutWhereFull(tight, 0, size);
      NextFile(tight);
      Meet(tight[0], later, other[0], ahead, rest);
      FullStays(tight[0], later[0], other[0], ahead, size);
    }
  }

  lemma NextFile(batches: seq<seq<string>>)
    requires |batches| > 1 && batches[1] != []
    ensures Flatten(batches[1..]) != [] && Flatten(batches[1..])[0] == batches[1][0]
  {
    assert batches[1..][0] == batches[1];
  }

  lemma Meet(batch: seq<string>, later: seq<string>, whole: seq<string>, from: nat, rest: seq<string>)
    requires from + |batch| < |whole| && later != [] && (whole + rest)[from..] == batch + later
    ensures whole[from..from + |batch| + 1] == batch + [later[0]]
  {
    forall j | 0 <= j <= |batch|
      ensures whole[from + j] == (batch + [later[0]])[j]
    {
      assert (whole + rest)[from..][j] == (batch + later)[j];
    }
  }

  lemma FullStays(batch: seq<string>, next: string, whole: seq<string>, from: nat, size: Sizes)
    requires Allowed(whole, size) && |batch| > 0 && from + |batch| + 1 <= |whole|
    requires whole[from..from + |batch| + 1] == batch + [next]
    ensures !Full(batch, next, size)
  {
    PartAllowed(whole, from, from + |batch| + 1, size);
    BytesAppend(batch, [next], size);
    OneFile(next, size);
  }

  /** The batches so far and the one being filled, once a file has been read. */
  predicate Greedy(batches: seq<seq<string>>, files: seq<string>, size: Sizes) {
    IsCut(batches, files, size) && Tight(batches, size)
  }

  lemma OneFile(value: string, size: Sizes)
    ensures Bytes([value], size) == size(value)
    ensures Flatten([[value]]) == [value]
  {
    assert [value][1..] == [];
    FlattenOne([[value]]);
  }

  lemma StartBatch(batches: seq<seq<string>>, batch: seq<string>, files: seq<string>, value: string, size: Sizes)
    requires Greedy(batches + [batch], files, size) && Full(batch, value, size)
    ensures Greedy(batches + [batch] + [[value]], files + [value], size)
  {
    var bs := batches + [batch];
    OneFile(value, size);
    FlattenAppend(bs, [value]);
    var next := bs + [[value]];
    forall i | 0 <= i < |next| - 1
      ensures CutWhereFull(next, i, size)
    {
      if i < |bs| - 1 {
        assert next[i] == bs[i] && next[i + 1] == bs[i + 1];
        assert CutWhereFull(bs, i, size);
      }
    }
  }

  lemma FillBatch(batches: seq<seq<string>>, batch: seq<string>, files: seq<string>, value: string, size: Sizes)
    requires Greedy(batches + [batch], files, size) && |batch| > 0 && !Full(batch, value, size)
    ensures Greedy(batches + [batch + [value]], files + [value], size)
  {
    var bs, next := batches + [batch], batches + [batch + [value]];
    OneFile(value, size);
    BytesAppend(batch, [value], size);
    FlattenAppend(batches, batch);
    FlattenAppend(batches, batch + [value]);
    assert Allowed(batch + [value], size);
    forall i | 0 <= i < |next|
      ensures Allowed(next[i], size)
    {
      if i < |batches| {
        assert next[i] == bs[i];
      }
    }
    forall i | 0 <= i < |next| - 1
      ensures CutWhereFull(next, i, size)
    {
      assert next[i] == bs[i] && next[i + 1][0] == bs[i + 1][0];
      assert CutWhereFull(bs, i, size);
    }
  }

  /** The greedy loop. No other way of cutting the list into allowed batches is shorter. */
  method CreateBatches(values: seq<string>, size: Sizes) returns (batches: seq<seq<string>>)
    ensures IsCut(batches, values, size)
    ensures Tight(batches, size)
    ensures forall other :: IsCut(other, values, size) ==> |batches| <= |other|
  {
    batches := [];
    var batch: seq<string> := [];
    var sourceBytes := 0;
    for i := 0 to |values|
      invariant sourceBytes == Bytes(batch, size)
      invariant batch == [] <==> i == 0
      invariant if i == 0 then batches == [] else Greedy(batches + [batch], values[..i], size)
    {
      var value := values[i];
      var valueBytes := size(value);
      ghost var was, open := batches, batch;
      if |batch| > 0 && (|batch| >= MAX_BATCH_FILES || sourceBytes + valueBytes > MAX_BATCH_SOURCE_BYTES) {
        batches := batches + [batch];
        batch := [];
        sourceBytes := 0;
      }
      AddFile(was, open, values[..i], value, size);
      BytesAppend(batch, [value], size);
      OneFile(value, size);
      assert values[..i + 1] == values[..i] + [value];
      batch := batch + [value];
      sourceBytes := sourceBytes + valueBytes;
    }
    assert values[..|values|] == values;
    if |batch| > 0 {
      batches := batches + [batch];
    }
    ShortestCut(batches, values, size);
  }

  lemma AddFile(batches: seq<seq<string>>, batch: seq<string>, files: seq<string>, value: string, size: Sizes)
    requires batch == [] <==> files == []
    requires if files == [] then batches == [] else Greedy(batches + [batch], files, size)
    ensures batch == [] ==> Greedy(batches + [[] + [value]], files + [value], size)
    ensures batch != [] && Full(batch, value, size) ==> Greedy(batches + [batch] + [[] + [value]], files + [value], size)
    ensures batch != [] && !Full(batch, value, size) ==> Greedy(batches + [batch + [value]], files + [value], size)
  {
    assert [] + [value] == [value];
    if batch == [] {
      OneFile(value, size);
      assert batches + [[value]] == [[value]] && files + [value] == [value];
    } else if Full(batch, value, size) {
      StartBatch(batches, batch, files, value, size);
    } else {
      FillBatch(batches, batch, files, value, size);
    }
  }

  lemma ShortestCut(batches: seq<seq<string>>, files: seq<string>, size: Sizes)
    requires Greedy(batches, files, size)
    ensures forall other :: IsCut(other, files, size) ==> |batches| <= |other|
  {
    forall other | IsCut(other, files, size)
      ensures |batches| <= |other|
    {
      TightIsShortest(batches, other, 0, size);
    }
  }
}
