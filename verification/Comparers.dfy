/** Comparison functions and the laws a sort relies on. */
module SortOrders {

  /** A comparison result is negative, zero or positive. Swapping the arguments flips the sign,
      and "at most" is transitive; `on` is the set of values the laws are claimed for. */
  ghost predicate FlipsAt<T>(c: (T, T) -> int, a: T, b: T) {
    (c(a, b) > 0 <==> c(b, a) < 0) && (c(a, b) < 0 <==> c(b, a) > 0)
  }

  ghost predicate TransitiveAt<T>(c: (T, T) -> int, a: T, b: T, d: T) {
    c(a, b) <= 0 && c(b, d) <= 0 ==> c(a, d) <= 0
  }

  ghost predicate TotalPreorder<T(!new)>(c: (T, T) -> int, on: T -> bool) {
    && (forall a, b :: on(a) && on(b) ==> FlipsAt(c, a, b))
    && (forall a, b, d :: on(a) && on(b) && on(d) ==> TransitiveAt(c, a, b, d))
  }

  /** What the laws give about three values. */
  lemma Chains<T(!new)>(c: (T, T) -> int, on: T -> bool, x: T, y: T, z: T)
    requires TotalPreorder(c, on) && on(x) && on(y) && on(z)
    ensures FlipsAt(c, x, y) && FlipsAt(c, y, z) && FlipsAt(c, x, z)
    ensures c(x, y) <= 0 && c(y, z) <= 0 ==> c(x, z) <= 0
    ensures c(x, y) == 0 && c(y, z) == 0 ==> c(x, z) == 0
    ensures c(x, y) <= 0 && c(y, z) <= 0 && (c(x, y) < 0 || c(y, z) < 0) ==> c(x, z) < 0
    ensures c(x, x) == 0
  {
    assert FlipsAt(c, x, y) && FlipsAt(c, y, z) && FlipsAt(c, x, z) && FlipsAt(c, x, x);
    assert TransitiveAt(c, x, y, z) && TransitiveAt(c, z, y, x) && TransitiveAt(c, z, x, y) && TransitiveAt(c, y, z, x);
  }

  /** Compare by `c`, and by `d` where `c` does not tell the values apart. */
  function Then<T>(c: (T, T) -> int, d: (T, T) -> int): (T, T) -> int {
    (a, b) => if c(a, b) != 0 then c(a, b) else d(a, b)
  }

  lemma ThenIsPreorder<T(!new)>(c: (T, T) -> int, d: (T, T) -> int, on: T -> bool)
    requires TotalPreorder(c, on) && TotalPreorder(d, on)
    ensures TotalPreorder(Then(c, d), on)
  {
    var e := Then(c, d);
    forall a, b | on(a) && on(b)
      ensures FlipsAt(e, a, b)
    {
      assert FlipsAt(c, a, b) && FlipsAt(d, a, b);
    }
    forall x, y, z | on(x) && on(y) && on(z)
      ensures TransitiveAt(e, x, y, z)
    {
      Chains(c, on, x, y, z);
      Chains(d, on, x, y, z);
    }
  }

  function ByRank<T>(rank: T -> int): (T, T) -> int {
    (a, b) => if rank(a) < rank(b) then -1 else if rank(a) > rank(b) then 1 else 0
  }

  lemma RankIsPreorder<T(!new)>(rank: T -> int, on: T -> bool)
    ensures TotalPreorder(ByRank(rank), on)
  {
  }

  /** The comparison of what `key` makes of the values. */
  lemma KeyedIsPreorder<S(!new), T(!new)>(c: (T, T) -> int, on: T -> bool, key: S -> T, d: (S, S) -> int, onKeyed: S -> bool)
    requires TotalPreorder(c, on)
    requires forall s :: onKeyed(s) ==> on(key(s))
    requires forall s, t :: d(s, t) == c(key(s), key(t))
    ensures TotalPreorder(d, onKeyed)
  {
    forall a, b | onKeyed(a) && onKeyed(b)
      ensures FlipsAt(d, a, b)
    {
      assert FlipsAt(c, key(a), key(b));
    }
    forall x, y, z | onKeyed(x) && onKeyed(y) && onKeyed(z)
      ensures TransitiveAt(d, x, y, z)
    {
      assert TransitiveAt(c, key(x), key(y), key(z));
    }
  }
}

/** The comparators of file names, paths and search results. */
module Comparers {
  import opened Options
  import opened SortOrders
  import opened StringOrder

  /** What the platform provides: a collator and whether it orders digits by value, locale
      comparison, lower case, and the path separator. */
  datatype Locale = Locale(
    collate: (string, string) -> int, numeric: bool,
    localeCompare: (string, string) -> int, lower: string -> string, sep: char)

  function OrEmpty(name: Option<string>): string {
    if name.Some? then name.value else ""
  }

  function CompareFileNames(l: Locale, one: Option<string>, other: Option<string>): int {
    FileNames(l, OrEmpty(one), OrEmpty(other))
  }

  /** A missing name is compared like the empty one. */
  lemma MissingIsEmpty(l: Locale, name: string)
    ensures CompareFileNames(l, None, Some(name)) == FileNames(l, "", name)
    ensures CompareFileNames(l, Some(name), None) == FileNames(l, name, "")
    ensures CompareFileNames(l, None, None) == FileNames(l, "", "")
  {
  }

  function FileNames(l: Locale, a: string, b: string): int {
    var result := l.collate(a, b);
    if l.numeric && result == 0 && a != b then
      if Less(a, b) then -1 else 1
    else
      result
  }

  function Folded(l: Locale, s: string, caseSensitive: bool): string {
    if caseSensitive || s == "" then s else l.lower(s)
  }

  function ComparePathComponents(l: Locale, one: string, other: string, caseSensitive: bool): int {
    var a, b := Folded(l, one, caseSensitive), Folded(l, other, caseSensitive);
    if a == b then 0 else if Less(a, b) then -1 else 1
  }

  /** `split(sep)`. */
  function Parts(s: string, sep: char): (r: seq<string>)
    ensures |r| >= 1
  {
    if s == "" then [""] else WithFirst(s[0], Parts(s[1..], sep), sep)
  }

  function WithFirst(c: char, parts: seq<string>, sep: char): (r: seq<string>)
    requires |parts| >= 1
    ensures |r| >= 1
  {
    if c == sep then [""] + parts else [[c] + parts[0]] + parts[1..]
  }

  /** Folder names from the top, then the file name; a file comes before the folders beside it. */
  function PartsOrder(l: Locale, a: seq<string>, b: seq<string>, caseSensitive: bool): int
    requires a != [] && b != []
  {
    if |a| == 1 && |b| == 1 then FileNames(l, a[0], b[0])
    else if |a| == 1 then -1
    else if |b| == 1 then 1
    else
      var r := ComparePathComponents(l, a[0], b[0], caseSensitive);
      if r != 0 then r else PartsOrder(l, a[1..], b[1..], caseSensitive)
  }

  function PathOrder(l: Locale, one: string, other: string, caseSensitive: bool): int {
    PartsOrder(l, Parts(one, l.sep), Parts(other, l.sep), caseSensitive)
  }

  method ComparePaths(l: Locale, one: string, other: string, caseSensitive: bool) returns (r: int)
    ensures r == PathOrder(l, one, other, caseSensitive)
  {
    var oneParts, otherParts := Parts(one, l.sep), Parts(other, l.sep);
    var lastOne, lastOther := |oneParts| - 1, |otherParts| - 1;
    var i := 0;
    while true
      invariant 0 <= i <= lastOne && i <= lastOther
      invariant PartsOrder(l, oneParts[i..], otherParts[i..], caseSensitive) == PathOrder(l, one, other, caseSensitive)
      decreases lastOne - i
    {
      var endOne, endOther := lastOne == i, lastOther == i;
      if endOne && endOther {
        return CompareFileNames(l, Some(oneParts[i]), Some(otherParts[i]));
      } else if endOne {
        return -1;
      } else if endOther {
        return 1;
      }
      var result := ComparePathComponents(l, oneParts[i], otherParts[i], caseSensitive);
      if result != 0 {
        return result;
      }
      i := i + 1;
    }
  }

  function ByPrefix(a: string, b: string, lookFor: string): int {
    if (lookFor <= a) != (lookFor <= b) then
      if lookFor <= a then -1 else 1
    else if lookFor <= a && lookFor <= b then
      if |a| < |b| then -1 else if |a| > |b| then 1 else 0
    else
      0
  }

  function CompareByPrefix(l: Locale, one: string, other: string, lookFor: string): int {
    ByPrefix(l.lower(one), l.lower(other), lookFor)
  }

  predicate EndsWith(s: string, suffix: string) {
    |suffix| <= |s| && s[|s| - |suffix|..] == suffix
  }

  function CompareAnything(l: Locale, one: string, other: string, lookFor: string): int {
    var a, b := l.lower(one), l.lower(other);
    var prefixCompare := CompareByPrefix(l, one, other, lookFor);
    if prefixCompare != 0 then prefixCompare
    else if EndsWith(a, lookFor) != EndsWith(b, lookFor) then
      if EndsWith(a, lookFor) then -1 else 1
    else
      var r := FileNames(l, a, b);
      if r != 0 then r else l.localeCompare(a, b)
  }

  // ---- The laws ----

  ghost predicate Lawful(l: Locale) {
    TotalPreorder(l.collate, (s: string) => true) && TotalPreorder(l.localeCompare, (s: string) => true)
  }

  predicate IsName(s: string, sep: char) {
    sep !in s
  }

  function FileOrder(l: Locale): (string, string) -> int {
    (a, b) => FileNames(l, a, b)
  }

  function CodeOrder(): (string, string) -> int {
    (a, b) => if a == b then 0 else if Less(a, b) then -1 else 1
  }

  lemma CodeOrderIsPreorder(on: string -> bool)
    ensures TotalPreorder(CodeOrder(), on)
  {
    var c := CodeOrder();
    forall a, b
      ensures FlipsAt(c, a, b)
    {
      CodeOrderFlips(a, b);
    }
    forall x, y, z
      ensures TransitiveAt(c, x, y, z)
    {
      if Less(x, y) && Less(y, z) {
        LessTransitive(x, y, z);
        CodeOrderFlips(x, z);
      }
    }
  }

  lemma CodeOrderFlips(a: string, b: string)
    ensures FlipsAt(CodeOrder(), a, b)
  {
    LessTotal(a, b);
    if Less(a, b) && Less(b, a) {
      LessTransitive(a, b, a);
      LessIrreflexive(a);
    }
  }

  /** The file name order is a total preorder, and tells all names apart if the collator is numeric. */
  lemma FileOrderIsPreorder(l: Locale)
    requires Lawful(l)
    ensures TotalPreorder(FileOrder(l), (s: string) => true)
    ensures l.numeric ==> forall a, b :: FileNames(l, a, b) == 0 <==> a == b
  {
    var on := (s: string) => true;
    var c := Then(l.collate, CodeOrder());
    CodeOrderIsPreorder(on);
    ThenIsPreorder(l.collate, CodeOrder(), on);
    forall a, b
      ensures l.numeric ==> FileNames(l, a, b) == c(a, b)
      ensures !l.numeric ==> FileNames(l, a, b) == l.collate(a, b)
      ensures l.numeric ==> (FileNames(l, a, b) == 0 <==> a == b)
    {
      Chains(l.collate, on, a, b, b);
    }
    KeyedIsPreorder(if l.numeric then c else l.collate, on, s => s, FileOrder(l), on);
  }

  ghost predicate AllNames(parts: seq<string>, sep: char) {
    forall i :: 0 <= i < |parts| ==> IsName(parts[i], sep)
  }

  lemma {:induction false} PartsAreNames(s: string, sep: char)
    ensures AllNames(Parts(s, sep), sep)
  {
    if s != "" {
      PartsAreNames(s[1..], sep);
    }
  }

  lemma {:induction false} NameIsOnePart(s: string, sep: char)
    requires IsName(s, sep)
    ensures Parts(s, sep) == [s]
  {
    if s != "" {
      NameIsOnePart(s[1..], sep);
      assert s == [s[0]] + s[1..];
    }
  }

  /** Cutting at a separator. */
  lemma {:induction false} PartsBelowFolder(folder: string, rest: string, sep: char)
    ensures Parts(folder + [sep] + rest, sep) == Parts(folder, sep) + Parts(rest, sep)
  {
    var whole := folder + [sep] + rest;
    if folder == "" {
      assert whole[1..] == rest;
      assert Parts(folder, sep) == [""];
    } else {
      PartsBelowFolder(folder[1..], rest, sep);
      assert whole[1..] == folder[1..] + [sep] + rest;
      FirstOfConcat(folder[0], Parts(folder[1..], sep), Parts(rest, sep), sep);
    }
  }

  lemma FirstOfConcat(c: char, a: seq<string>, b: seq<string>, sep: char)
    requires |a| >= 1
    ensures WithFirst(c, a + b, sep) == WithFirst(c, a, sep) + b
  {
  }

  lemma OnlyTheEmptyPath(s: string, sep: char)
    requires s != ""
    ensures Parts(s, sep) != Parts("", sep)
  {
    assert |Parts(s[1..], sep)| >= 1;
    assert s[0] != sep ==> Parts(s, sep)[0] == [s[0]] + Parts(s[1..], sep)[0];
  }

  /** Different paths have different parts. */
  lemma {:induction false} PartsTellApart(a: string, b: string, sep: char)
    requires Parts(a, sep) == Parts(b, sep)
    ensures a == b
  {
    if a == "" || b == "" {
      if a != "" {
        OnlyTheEmptyPath(a, sep);
      }
      if b != "" {
        OnlyTheEmptyPath(b, sep);
      }
    } else {
      var ra, rb := Parts(a[1..], sep), Parts(b[1..], sep);
      if a[0] == sep {
        assert Parts(b, sep)[0] == "";
        assert b[0] == sep;
        assert ra == Parts(a, sep)[1..] && rb == Parts(b, sep)[1..];
      } else {
        assert Parts(a, sep)[0] == [a[0]] + ra[0];
        assert b[0] != sep;
        assert Parts(b, sep)[0] == [b[0]] + rb[0];
        assert ([a[0]] + ra[0])[1..] == ra[0] && ([b[0]] + rb[0])[1..] == rb[0];
        assert ra == [ra[0]] + Parts(a, sep)[1..] && rb == [rb[0]] + Parts(b, sep)[1..];
      }
      PartsTellApart(a[1..], b[1..], sep);
      assert a == [a[0]] + a[1..] && b == [b[0]] + b[1..];
    }
  }

  lemma ComponentChains(l: Locale, x: string, y: string, z: string, caseSensitive: bool)
    ensures ComparePathComponents(l, x, y, caseSensitive) > 0 <==> ComparePathComponents(l, y, x, caseSensitive) < 0
    ensures var c := (a, b) => ComparePathComponents(l, a, b, caseSensitive);
      && (c(x, y) <= 0 && c(y, z) <= 0 ==> c(x, z) <= 0)
      && (c(x, y) == 0 && c(y, z) == 0 ==> c(x, z) == 0)
      && (c(x, y) <= 0 && c(y, z) <= 0 && (c(x, y) < 0 || c(y, z) < 0) ==> c(x, z) < 0)
  {
    var on := (s: string) => true;
    CodeOrderIsPreorder(on);
    Chains(CodeOrder(), on, Folded(l, x, caseSensitive), Folded(l, y, caseSensitive), Folded(l, z, caseSensitive));
  }

  lemma {:induction false} PartsOrderFlips(l: Locale, a: seq<string>, b: seq<string>, caseSensitive: bool)
    requires a != [] && b != [] && AllNames(a, l.sep) && AllNames(b, l.sep)
    requires TotalPreorder(FileOrder(l), s => IsName(s, l.sep))
    ensures PartsOrder(l, a, b, caseSensitive) > 0 <==> PartsOrder(l, b, a, caseSensitive) < 0
    ensures PartsOrder(l, a, b, caseSensitive) < 0 <==> PartsOrder(l, b, a, caseSensitive) > 0
  {
    if |a| == 1 && |b| == 1 {
      assert FlipsAt(FileOrder(l), a[0], b[0]);
    } else if |a| > 1 && |b| > 1 {
      ComponentChains(l, a[0], b[0], a[0], caseSensitive);
      ComponentChains(l, b[0], a[0], b[0], caseSensitive);
      PartsOrderFlips(l, a[1..], b[1..], caseSensitive);
    }
  }

  lemma {:induction false} PartsOrderChains(l: Locale, a: seq<string>, b: seq<string>, c: seq<string>, caseSensitive: bool)
    requires a != [] && b != [] && c != []
    requires AllNames(a, l.sep) && AllNames(b, l.sep) && AllNames(c, l.sep)
    requires TotalPreorder(FileOrder(l), s => IsName(s, l.sep))
    requires PartsOrder(l, a, b, caseSensitive) <= 0 && PartsOrder(l, b, c, caseSensitive) <= 0
    ensures PartsOrder(l, a, c, caseSensitive) <= 0
  {
    if |a| == 1 && |c| == 1 {
      assert |b| == 1;
      assert TransitiveAt(FileOrder(l), a[0], b[0], c[0]);
    } else if |a| > 1 {
      assert |b| > 1 && |c| > 1;
      ComponentChains(l, a[0], b[0], c[0], caseSensitive);
      if ComparePathComponents(l, a[0], b[0], caseSensitive) == 0 == ComparePathComponents(l, b[0], c[0], caseSensitive) {
        PartsOrderChains(l, a[1..], b[1..], c[1..], caseSensitive);
      }
    }
  }

  function PathComparison(l: Locale, caseSensitive: bool): (string, string) -> int {
    (one, other) => PathOrder(l, one, other, caseSensitive)
  }

  /** Paths are totally preordered exactly when file names are: names without a separator. */
  lemma PathsAreOrderedExactly(l: Locale, caseSensitive: bool)
    ensures TotalPreorder(PathComparison(l, caseSensitive), (s: string) => true)
            <==> TotalPreorder(FileOrder(l), s => IsName(s, l.sep))
  {
    var p, f := PathComparison(l, caseSensitive), FileOrder(l);
    if TotalPreorder(f, s => IsName(s, l.sep)) {
      forall a, b
        ensures FlipsAt(p, a, b)
      {
        PartsAreNames(a, l.sep);
        PartsAreNames(b, l.sep);
        PartsOrderFlips(l, Parts(a, l.sep), Parts(b, l.sep), caseSensitive);
      }
      forall a, b, c
        ensures TransitiveAt(p, a, b, c)
      {
        PartsAreNames(a, l.sep);
        PartsAreNames(b, l.sep);
        PartsAreNames(c, l.sep);
        if p(a, b) <= 0 && p(b, c) <= 0 {
          PartsOrderChains(l, Parts(a, l.sep), Parts(b, l.sep), Parts(c, l.sep), caseSensitive);
        }
      }
    }
    if TotalPreorder(p, (s: string) => true) {
      forall a, b | IsName(a, l.sep) && IsName(b, l.sep)
        ensures p(a, b) == f(a, b) && FlipsAt(f, a, b)
      {
        NameIsOnePart(a, l.sep);
        NameIsOnePart(b, l.sep);
        assert p(a, b) == f(a, b) && p(b, a) == f(b, a);
        assert FlipsAt(p, a, b);
      }
      forall a, b, c | IsName(a, l.sep) && IsName(b, l.sep) && IsName(c, l.sep)
        ensures TransitiveAt(f, a, b, c)
      {
        assert TransitiveAt(p, a, b, c);
      }
    }
  }

  /** With lawful collation, they are. */
  lemma PathsAreOrdered(l: Locale, caseSensitive: bool)
    requires Lawful(l)
    ensures TotalPreorder(PathComparison(l, caseSensitive), (s: string) => true)
  {
    FileOrderIsPreorder(l);
    var f := FileOrder(l);
    forall a, b
      ensures FlipsAt(f, a, b)
    {
    }
    KeyedIsPreorder(f, (s: string) => true, s => s, f, s => IsName(s, l.sep));
    PathsAreOrderedExactly(l, caseSensitive);
  }

  /** The files of a folder come before what is in its subfolders, at any depth below `folder`. */
  lemma {:induction false} OwnFilesComeFirst(
    l: Locale, folder: seq<string>, name: string, below: seq<string>, caseSensitive: bool)
    requires |below| >= 2
    ensures PartsOrder(l, folder + [name], folder + below, caseSensitive) < 0
  {
    if folder == [] {
      assert folder + [name] == [name] && folder + below == below;
    } else {
      OwnFilesComeFirst(l, folder[1..], name, below, caseSensitive);
      assert (folder + [name])[1..] == folder[1..] + [name];
      assert (folder + below)[1..] == folder[1..] + below;
    }
  }

  lemma OwnFilesBeforeSubfolders(l: Locale, folder: string, name: string, sub: string, rest: string, caseSensitive: bool)
    requires IsName(name, l.sep)
    ensures PathOrder(l, folder + [l.sep] + name, folder + [l.sep] + (sub + [l.sep] + rest), caseSensitive) < 0
    ensures PathOrder(l, name, sub + [l.sep] + rest, caseSensitive) < 0
  {
    NameIsOnePart(name, l.sep);
    PartsBelowFolder(sub, rest, l.sep);
    PartsBelowFolder(folder, name, l.sep);
    PartsBelowFolder(folder, sub + [l.sep] + rest, l.sep);
    OwnFilesComeFirst(l, Parts(folder, l.sep), name, Parts(sub + [l.sep] + rest, l.sep), caseSensitive);
    OwnFilesComeFirst(l, [], name, Parts(sub + [l.sep] + rest, l.sep), caseSensitive);
    assert [] + [name] == [name] && [] + Parts(sub + [l.sep] + rest, l.sep) == Parts(sub + [l.sep] + rest, l.sep);
  }

  /** At the first folder where the names differ, folded unless case matters, the order of their
      characters decides. */
  lemma {:induction false} FirstFolderDecides(l: Locale, a: seq<string>, b: seq<string>, caseSensitive: bool, k: nat)
    requires k < |a| - 1 && k < |b| - 1
    requires forall i :: 0 <= i < k ==>
      a[i] == b[i] || (!caseSensitive && a[i] != "" && b[i] != "" && l.lower(a[i]) == l.lower(b[i]))
    requires a[k] != "" && b[k] != ""
    ensures caseSensitive && Less(a[k], b[k]) ==> PartsOrder(l, a, b, caseSensitive) < 0
    ensures caseSensitive && Less(b[k], a[k]) ==> PartsOrder(l, a, b, caseSensitive) > 0
    ensures !caseSensitive && Less(l.lower(a[k]), l.lower(b[k])) ==> PartsOrder(l, a, b, caseSensitive) < 0
    ensures !caseSensitive && Less(l.lower(b[k]), l.lower(a[k])) ==> PartsOrder(l, a, b, caseSensitive) > 0
  {
    if k > 0 {
      assert forall i :: 0 <= i < k - 1 ==> a[1..][i] == a[i + 1] && b[1..][i] == b[i + 1];
      FirstFolderDecides(l, a[1..], b[1..], caseSensitive, k - 1);
    } else {
      LessAsymmetric(a[0], b[0]);
      LessAsymmetric(l.lower(a[0]), l.lower(b[0]));
    }
  }

  lemma LessAsymmetric(a: string, b: string)
    ensures !(Less(a, b) && Less(b, a)) && (a == b ==> !Less(a, b))
  {
    LessIrreflexive(a);
    if Less(a, b) && Less(b, a) {
      LessTransitive(a, b, a);
    }
  }

  /** An empty folder name, as of a leading separator, comes before every other. */
  lemma EmptyFolderFirst(l: Locale, a: seq<string>, b: seq<string>, caseSensitive: bool)
    requires |a| > 1 && |b| > 1 && a[0] == "" && b[0] != ""
    requires caseSensitive || l.lower(b[0]) != ""
    ensures PartsOrder(l, a, b, caseSensitive) < 0 < PartsOrder(l, b, a, caseSensitive)
  {
  }

  /** In one folder the file names decide: the collator, and where it sees no difference between
      different names but orders digits by value, the order of their characters. */
  lemma {:induction false} NamesDecide(l: Locale, folder: seq<string>, a: string, b: string, caseSensitive: bool)
    ensures
      var r := PartsOrder(l, folder + [a], folder + [b], caseSensitive);
      && (l.collate(a, b) != 0 || !l.numeric ==> r == l.collate(a, b))
      && (l.collate(a, b) == 0 && a == b ==> r == 0)
      && (l.collate(a, b) == 0 && l.numeric && Less(a, b) ==> r < 0)
      && (l.collate(a, b) == 0 && l.numeric && Less(b, a) ==> r > 0)
  {
    if folder == [] {
      assert folder + [a] == [a] && folder + [b] == [b];
      LessAsymmetric(a, b);
    } else {
      assert (folder + [a])[1..] == folder[1..] + [a] && (folder + [b])[1..] == folder[1..] + [b];
      NamesDecide(l, folder[1..], a, b, caseSensitive);
    }
  }

  /** Two paths tie when they have the same folders, up to case unless it matters, and tying file names. */
  ghost predicate SamePlace(l: Locale, a: seq<string>, b: seq<string>, caseSensitive: bool)
    requires a != [] && b != []
  {
    && |a| == |b|
    && (forall i :: 0 <= i < |a| - 1 ==> Folded(l, a[i], caseSensitive) == Folded(l, b[i], caseSensitive))
    && FileNames(l, a[|a| - 1], b[|b| - 1]) == 0
  }

  lemma {:induction false} TiesExactly(l: Locale, a: seq<string>, b: seq<string>, caseSensitive: bool)
    requires a != [] && b != []
    ensures PartsOrder(l, a, b, caseSensitive) == 0 <==> SamePlace(l, a, b, caseSensitive)
  {
    if |a| > 1 && |b| > 1 {
      var r, t := a[1..], b[1..];
      TiesExactly(l, r, t, caseSensitive);
      if SamePlace(l, r, t, caseSensitive) && Folded(l, a[0], caseSensitive) == Folded(l, b[0], caseSensitive) {
        forall i | 0 <= i < |a| - 1
          ensures Folded(l, a[i], caseSensitive) == Folded(l, b[i], caseSensitive)
        {
          assert i > 0 ==> a[i] == r[i - 1] && b[i] == t[i - 1];
        }
      }
      if SamePlace(l, a, b, caseSensitive) {
        forall i | 0 <= i < |r| - 1
          ensures Folded(l, r[i], caseSensitive) == Folded(l, t[i], caseSensitive)
        {
          assert r[i] == a[i + 1] && t[i] == b[i + 1];
        }
      }
    }
  }

  /** Where case matters and the collator is numeric, only a path ties with itself. */
  lemma DistinctPathsNeverTie(l: Locale, one: string, other: string)
    requires Lawful(l) && l.numeric
    ensures PathOrder(l, one, other, true) == 0 <==> one == other
  {
    var a, b := Parts(one, l.sep), Parts(other, l.sep);
    FileOrderIsPreorder(l);
    TiesExactly(l, a, b, true);
    if SamePlace(l, a, b, true) {
      forall i | 0 <= i < |a|
        ensures a[i] == b[i]
      {
      }
      assert a == b;
      PartsTellApart(one, other, l.sep);
    }
  }

  lemma EndsWithExactly(s: string, suffix: string)
    ensures EndsWith(s, suffix) <==> exists front :: s == front + suffix
  {
    if EndsWith(s, suffix) {
      assert s == s[..|s| - |suffix|] + suffix;
    }
    if front :| s == front + suffix {
      assert s[|s| - |suffix|..] == suffix;
    }
  }

  function MatchOrder(lookFor: string): (string, string) -> int {
    ByRank((s: string) => if lookFor <= s then 0 else 1)
  }

  function LengthOrder(lookFor: string): (string, string) -> int {
    ByRank((s: string) => if lookFor <= s then |s| else 0)
  }

  function PrefixOrder(lookFor: string): (string, string) -> int {
    Then(MatchOrder(lookFor), LengthOrder(lookFor))
  }

  function SuffixOrder(lookFor: string): (string, string) -> int {
    ByRank((s: string) => if EndsWith(s, lookFor) then 0 else 1)
  }

  function AnythingOrder(l: Locale, lookFor: string): (string, string) -> int {
    (one, other) => CompareAnything(l, one, other, lookFor)
  }

  /** Search results are compared in four stages, and the stages together are a total preorder. */
  lemma AnythingIsOrdered(l: Locale, lookFor: string)
    requires Lawful(l)
    ensures TotalPreorder(AnythingOrder(l, lookFor), (s: string) => true)
  {
    var on := (s: string) => true;
    RankIsPreorder((s: string) => if lookFor <= s then 0 else 1, on);
    RankIsPreorder((s: string) => if lookFor <= s then |s| else 0, on);
    ThenIsPreorder(MatchOrder(lookFor), LengthOrder(lookFor), on);
    RankIsPreorder((s: string) => if EndsWith(s, lookFor) then 0 else 1, on);
    FileOrderIsPreorder(l);
    ThenIsPreorder(FileOrder(l), l.localeCompare, on);
    ThenIsPreorder(SuffixOrder(lookFor), Then(FileOrder(l), l.localeCompare), on);
    var stages := Then(PrefixOrder(lookFor), Then(SuffixOrder(lookFor), Then(FileOrder(l), l.localeCompare)));
    ThenIsPreorder(PrefixOrder(lookFor), Then(SuffixOrder(lookFor), Then(FileOrder(l), l.localeCompare)), on);
    forall one, other
      ensures AnythingOrder(l, lookFor)(one, other) == stages(l.lower(one), l.lower(other))
    {
      var a, b := l.lower(one), l.lower(other);
      assert PrefixOrder(lookFor)(a, b) == ByPrefix(a, b, lookFor);
    }
    KeyedIsPreorder(stages, on, l.lower, AnythingOrder(l, lookFor), on);
  }

  /** What the order of search results means: prefix matches come first, shorter ones before
      longer ones; where no prefix decides, suffix matches come first; and with a numeric
      collator only results alike up to case tie. */
  lemma AnythingMeaning(l: Locale, one: string, other: string, lookFor: string)
    requires Lawful(l)
    ensures var a, b, r := l.lower(one), l.lower(other), CompareAnything(l, one, other, lookFor);
      && (lookFor <= a && !(lookFor <= b) ==> r < 0)
      && (lookFor <= a && lookFor <= b && |a| < |b| ==> r < 0)
      && (ByPrefix(a, b, lookFor) == 0 && EndsWith(a, lookFor) && !EndsWith(b, lookFor) ==> r < 0)
      && (ByPrefix(a, b, lookFor) == 0 <==> (lookFor <= a <==> lookFor <= b) && (lookFor <= a ==> |a| == |b|))
      && (l.numeric ==> (r == 0 <==> a == b))
      && (ByPrefix(a, b, lookFor) == 0 && (EndsWith(a, lookFor) <==> EndsWith(b, lookFor)) ==>
            && (l.collate(a, b) != 0 ==> r == l.collate(a, b))
            && (l.collate(a, b) == 0 && l.numeric && Less(a, b) ==> r < 0)
            && (l.collate(a, b) == 0 && (!l.numeric || a == b) ==> r == l.localeCompare(a, b)))
  {
    FileOrderIsPreorder(l);
    var a, b := l.lower(one), l.lower(other);
    LessAsymmetric(a, b);
    Chains(l.localeCompare, (s: string) => true, a, b, b);
    Chains(FileOrder(l), (s: string) => true, a, b, b);
  }
}
