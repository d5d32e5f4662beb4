/** Strict lexicographic order of strings by character code, as a default array sort uses. */
module StringOrder {

  predicate Less(a: string, b: string) {
    b != "" && (a == "" || a[0] < b[0] || (a[0] == b[0] && Less(a[1..], b[1..])))
  }

  lemma {:induction false} LessTotal(a: string, b: string)
    ensures Less(a, b) || Less(b, a) || a == b
  {
    if a != "" && b != "" && a[0] == b[0] {
      LessTotal(a[1..], b[1..]);
      assert a == [a[0]] + a[1..] && b == [b[0]] + b[1..];
    }
  }

  lemma {:induction false} LessIrreflexive(a: string)
    ensures !Less(a, a)
  {
    if a != "" {
      LessIrreflexive(a[1..]);
    }
  }

  lemma {:induction false} LessTransitive(a: string, b: string, c: string)
    requires Less(a, b) && Less(b, c)
    ensures Less(a, c)
  {
    if a != "" && a[0] == b[0] && b[0] == c[0] {
      LessTransitive(a[1..], b[1..], c[1..]);
    }
  }

  lemma LessBehind(c: char, a: string, b: string)
    ensures Less([c] + a, [c] + b) <==> Less(a, b)
  {
    assert ([c] + a)[1..] == a && ([c] + b)[1..] == b;
  }

  /** Less means: a proper prefix, or the smaller character at the first place where they differ. */
  lemma {:induction false} LessExactly(a: string, b: string, k: nat)
    requires k <= |a| && k <= |b| && a[..k] == b[..k] && (k < |a| && k < |b| ==> a[k] != b[k])
    ensures Less(a, b) <==> k < |b| && (k == |a| || a[k] < b[k])
  {
    if k > 0 {
      assert a == [a[0]] + a[1..] && b == [b[0]] + b[1..];
      assert a[0] == a[..k][0] == b[..k][0] == b[0];
      assert a[1..][..k - 1] == a[..k][1..] == b[..k][1..] == b[1..][..k - 1];
      LessExactly(a[1..], b[1..], k - 1);
      LessBehind(a[0], a[1..], b[1..]);
    }
  }
}

/** The identity key of a task identifier: a printer with escaped commas. */
module TaskIdentifier {
  import opened Options
  import opened StringOrder

  /** A property value: a string, null or undefined, another primitive with the text it prints
      as, or an object. */
  datatype Literal = Str(text: string) | Nullish(printed: string) | Primitive(printed: string) | Nested(fields: seq<Field>)

  /** An object is its own properties in insertion order. */
  datatype Field = Field(name: string, value: Literal)

  datatype Printed = Printed(name: string, text: string)

  predicate DistinctNames(fields: seq<Field>) {
    forall i, j :: 0 <= i < j < |fields| ==> fields[i].name != fields[j].name
  }

  /** `replace(/,/g, ',,')`. */
  function Escape(s: string): string {
    if s == "" then "" else (if s[0] == ',' then ",," else [s[0]]) + Escape(s[1..])
  }

  function PrintValue(v: Literal): string
    decreases v, 0
  {
    match v
    case Str(s) => Escape(s)
    case Nullish(p) => p
    case Primitive(p) => p
    case Nested(fields) => SortedStringify(fields)
  }

  function PrintFields(fields: seq<Field>): (r: seq<Printed>)
    ensures |r| == |fields|
    ensures forall i :: 0 <= i < |fields| ==> r[i] == Printed(fields[i].name, PrintValue(fields[i].value))
    decreases fields, 0
  {
    if fields == [] then []
    else [Printed(fields[0].name, PrintValue(fields[0].value))] + PrintFields(fields[1..])
  }

  function InsertByName(p: Printed, ps: seq<Printed>): seq<Printed> {
    if ps == [] || Less(p.name, ps[0].name) then [p] + ps else [ps[0]] + InsertByName(p, ps[1..])
  }

  /** `Object.keys(literal).sort()`, with what each key prints. */
  function SortByName(ps: seq<Printed>): seq<Printed> {
    if ps == [] then [] else InsertByName(ps[0], SortByName(ps[1..]))
  }

  function Chain(ps: seq<Printed>): string {
    if ps == [] then "" else ps[0].name + "," + ps[0].text + "," + Chain(ps[1..])
  }

  function SortedStringify(fields: seq<Field>): string
    decreases fields, 1
  {
    Chain(SortByName(PrintFields(fields)))
  }

  // ----- unique decoding -----

  predicate CommaFree(s: string) {
    forall i :: 0 <= i < |s| ==> s[i] != ','
  }

  /** Flat identifiers with string values and comma-free property names. */
  predicate Plain(fields: seq<Field>) {
    DistinctNames(fields) && forall i :: 0 <= i < |fields| ==> fields[i].value.Str? && CommaFree(fields[i].name)
  }

  /** The same properties with the same values, in any order. */
  ghost predicate SameObject(a: seq<Field>, b: seq<Field>) {
    forall f :: f in a <==> f in b
  }

  predicate StartsWithComma(s: string) {
    s != "" && s[0] == ','
  }

  lemma {:induction false} NameEndsAtComma(a: string, x: string, b: string, y: string)
    requires CommaFree(a) && CommaFree(b) && a + "," + x == b + "," + y
    ensures a == b && x == y
  {
    var s, t := a + "," + x, b + "," + y;
    if a == "" || b == "" {
      assert s[0] == t[0];
      assert a == b == "";
      assert s[1..] == x && t[1..] == y;
    } else {
      assert s[0] == a[0] && t[0] == b[0];
      assert s[1..] == a[1..] + "," + x && t[1..] == b[1..] + "," + y;
      NameEndsAtComma(a[1..], x, b[1..], y);
      assert a == [a[0]] + a[1..] && b == [b[0]] + b[1..];
    }
  }

  /** An escaped value ends at the first comma that is not doubled. */
  lemma {:induction false} ValueEndsAtLoneComma(v: string, x: string, w: string, y: string)
    requires Escape(v) + "," + x == Escape(w) + "," + y
    requires !StartsWithComma(x) && !StartsWithComma(y)
    ensures v == w && x == y
  {
    var s, t := Escape(v) + "," + x, Escape(w) + "," + y;
    if v == "" || w == "" {
      EmptyValue(v, x, w, y);
    } else {
      EscapeHead(v, x);
      EscapeHead(w, y);
      assert s[0] == v[0] && t[0] == w[0];
      var k := if v[0] == ',' then 2 else 1;
      assert s[k..] == Escape(v[1..]) + "," + x && t[k..] == Escape(w[1..]) + "," + y;
      ValueEndsAtLoneComma(v[1..], x, w[1..], y);
      assert v == [v[0]] + v[1..] && w == [w[0]] + w[1..];
    }
  }

  lemma EscapeHead(v: string, x: string)
    requires v != ""
    ensures
      var k := if v[0] == ',' then 2 else 1;
      var s := Escape(v) + "," + x;
      |s| > k && s[0] == v[0] && s[k..] == Escape(v[1..]) + "," + x && (k == 2 ==> s[1] == ',')
  {
    var head := if v[0] == ',' then ",," else [v[0]];
    var tail := Escape(v[1..]) + "," + x;
    assert Escape(v) + "," + x == head + tail;
    assert (head + tail)[|head|..] == tail;
  }

  lemma EmptyValue(v: string, x: string, w: string, y: string)
    requires Escape(v) + "," + x == Escape(w) + "," + y
    requires !StartsWithComma(x) && !StartsWithComma(y)
    requires v == "" || w == ""
    ensures v == w && x == y
  {
    if v == "" && w == "" {
      assert ("," + x)[1..] == x && ("," + y)[1..] == y;
      assert Escape(v) + "," + x == "," + x && Escape(w) + "," + y == "," + y;
    } else if v == "" {
      EmptyAgainst(x, w, y);
    } else {
      EmptyAgainst(y, v, x);
    }
  }

  lemma EmptyAgainst(x: string, w: string, y: string)
    requires w != "" && !StartsWithComma(x)
    ensures Escape("") + "," + x != Escape(w) + "," + y
  {
    EscapeHead(w, y);
    var s, t := Escape("") + "," + x, Escape(w) + "," + y;
    assert s == "," + x;
    assert |s| > 1 ==> s[1] == x[0];
  }

  /** Sorted by name, without repetitions. */
  predicate Ascending(ps: seq<Printed>) {
    forall i, j :: 0 <= i < j < |ps| ==> Less(ps[i].name, ps[j].name)
  }

  lemma ChainStart(ps: seq<Printed>)
    requires Ascending(ps) && (forall i :: 0 <= i < |ps| ==> CommaFree(ps[i].name))
    ensures |ps| > 1 ==> !StartsWithComma(Chain(ps[1..]))
    ensures |ps| == 1 ==> Chain(ps[1..]) == ""
  {
    if |ps| > 1 {
      assert Less(ps[0].name, ps[1].name);
      assert ps[1..][0] == ps[1];
      assert ps[1].name != "";
      assert Chain(ps[1..])[0] == ps[1].name[0];
    }
  }

  ghost predicate Escaped(ps: seq<Printed>, values: seq<string>) {
    |values| == |ps| && forall i :: 0 <= i < |ps| ==> ps[i].text == Escape(values[i])
  }

  /** Escaped values under ascending names without commas. */
  ghost predicate Decodable(ps: seq<Printed>, values: seq<string>) {
    Ascending(ps) && Escaped(ps, values) && forall i :: 0 <= i < |ps| ==> CommaFree(ps[i].name)
  }

  lemma TailDecodable(ps: seq<Printed>, values: seq<string>)
    requires Decodable(ps, values) && ps != []
    ensures Decodable(ps[1..], values[1..])
  {
  }

  lemma ChainUnfolds(ps: seq<Printed>)
    requires ps != []
    ensures Chain(ps) == ps[0].name + "," + (ps[0].text + "," + Chain(ps[1..]))
  {
  }

  lemma HeadDecodes(ps: seq<Printed>, vs: seq<string>, qs: seq<Printed>, ws: seq<string>)
    requires Decodable(ps, vs) && Decodable(qs, ws) && ps != [] && qs != [] && Chain(ps) == Chain(qs)
    ensures ps[0].name == qs[0].name && vs[0] == ws[0] && Chain(ps[1..]) == Chain(qs[1..])
  {
    var p, q := ps[0], qs[0];
    var x, y := Chain(ps[1..]), Chain(qs[1..]);
    ChainUnfolds(ps);
    ChainUnfolds(qs);
    NameEndsAtComma(p.name, p.text + "," + x, q.name, q.text + "," + y);
    ChainStart(ps);
    ChainStart(qs);
    ValueEndsAtLoneComma(vs[0], x, ws[0], y);
  }

  /** Chains of escaped values under ascending comma-free names decode uniquely. */
  lemma {:induction false} ChainDecodes(ps: seq<Printed>, vs: seq<string>, qs: seq<Printed>, ws: seq<string>)
    requires Decodable(ps, vs) && Decodable(qs, ws) && Chain(ps) == Chain(qs)
    ensures vs == ws
    ensures |ps| == |qs| && forall i :: 0 <= i < |ps| ==> ps[i].name == qs[i].name
  {
    if ps == [] || qs == [] {
      assert Chain(ps) == Chain(qs) == "";
    } else {
      HeadDecodes(ps, vs, qs, ws);
      TailDecodable(ps, vs);
      TailDecodable(qs, ws);
      ChainDecodes(ps[1..], vs[1..], qs[1..], ws[1..]);
      assert vs == [vs[0]] + vs[1..] && ws == [ws[0]] + ws[1..];
      assert ps == [ps[0]] + ps[1..] && qs == [qs[0]] + qs[1..];
    }
  }

  // ----- sorting by name -----

  predicate NamesDiffer(ps: seq<Printed>) {
    forall i, j :: 0 <= i < j < |ps| ==> ps[i].name != ps[j].name
  }

  lemma {:induction false} InsertKeeps(p: Printed, ps: seq<Printed>)
    requires Ascending(ps) && forall i :: 0 <= i < |ps| ==> ps[i].name != p.name
    ensures Ascending(InsertByName(p, ps))
    ensures forall q :: q in InsertByName(p, ps) <==> q == p || q in ps
  {
    if ps == [] {
    } else if Less(p.name, ps[0].name) {
      forall i | 0 <= i < |ps|
        ensures Less(p.name, ps[i].name)
      {
        if i > 0 {
          LessTransitive(p.name, ps[0].name, ps[i].name);
        }
      }
    } else {
      LessTotal(p.name, ps[0].name);
      InsertKeeps(p, ps[1..]);
      var r := InsertByName(p, ps[1..]);
      assert ps == [ps[0]] + ps[1..];
      forall i | 0 <= i < |r|
        ensures Less(ps[0].name, r[i].name)
      {
        assert r[i] in r;
      }
    }
  }

  lemma {:induction false} SortKeeps(ps: seq<Printed>)
    requires NamesDiffer(ps)
    ensures Ascending(SortByName(ps))
    ensures forall q :: q in SortByName(ps) <==> q in ps
  {
    if ps != [] {
      SortKeeps(ps[1..]);
      var r := SortByName(ps[1..]);
      forall i | 0 <= i < |r|
        ensures r[i].name != ps[0].name
      {
        assert r[i] in ps[1..];
      }
      InsertKeeps(ps[0], r);
      assert ps == [ps[0]] + ps[1..];
    }
  }

  lemma LeastFirst(ps: seq<Printed>, qs: seq<Printed>)
    requires Ascending(ps) && Ascending(qs) && ps != [] && qs != []
    requires forall p :: p in ps <==> p in qs
    ensures ps[0] == qs[0]
  {
    assert qs[0] in ps && ps[0] in qs;
    if ps[0] != qs[0] {
      assert Less(ps[0].name, qs[0].name);
      assert Less(qs[0].name, ps[0].name);
      LessTransitive(ps[0].name, qs[0].name, ps[0].name);
      LessIrreflexive(ps[0].name);
    }
  }

  /** An ascending list is determined by its members. */
  lemma {:induction false} AscendingIsUnique(ps: seq<Printed>, qs: seq<Printed>)
    requires Ascending(ps) && Ascending(qs)
    requires forall p :: p in ps <==> p in qs
    ensures ps == qs
  {
    assert |ps| > 0 ==> ps[0] in qs;
    assert |qs| > 0 ==> qs[0] in ps;
    if ps != [] && qs != [] {
      LeastFirst(ps, qs);
      HeadOnce(ps);
      HeadOnce(qs);
      AscendingIsUnique(ps[1..], qs[1..]);
      assert ps == [ps[0]] + ps[1..] && qs == [qs[0]] + qs[1..];
    }
  }

  lemma HeadOnce(ps: seq<Printed>)
    requires Ascending(ps) && ps != []
    ensures forall p :: p in ps[1..] <==> p in ps && p != ps[0]
  {
    LessIrreflexive(ps[0].name);
    assert ps == [ps[0]] + ps[1..];
    assert forall i :: 0 <= i < |ps| - 1 ==> ps[1..][i] == ps[i + 1];
  }

  // ----- the key identifies plain objects -----

  /** `literal[name]`, with None for a missing property. */
  function Lookup(fields: seq<Field>, name: string): (r: Option<Literal>)
    ensures r == None <==> forall i :: 0 <= i < |fields| ==> fields[i].name != name
    ensures r.Some? ==> Field(name, r.value) in fields
  {
    if fields == [] then None
    else if fields[0].name == name then Some(fields[0].value)
    else
      assert fields == [fields[0]] + fields[1..];
      Lookup(fields[1..], name)
  }

  lemma {:induction false} LookupFinds(fields: seq<Field>, f: Field)
    requires DistinctNames(fields) && f in fields
    ensures Lookup(fields, f.name) == Some(f.value)
  {
    if fields[0] != f {
      assert fields == [fields[0]] + fields[1..];
      var i :| 0 < i < |fields| && fields[i] == f;
      LookupFinds(fields[1..], f);
    }
  }

  function Sorted(fields: seq<Field>): seq<Printed> {
    SortByName(PrintFields(fields))
  }

  function TextOf(fields: seq<Field>, name: string): string {
    match Lookup(fields, name)
    case Some(Str(t)) => t
    case _ => ""
  }

  function Texts(fields: seq<Field>): (r: seq<string>)
    ensures |r| == |Sorted(fields)|
    ensures forall i :: 0 <= i < |r| ==> r[i] == TextOf(fields, Sorted(fields)[i].name)
  {
    var ps := Sorted(fields);
    seq(|ps|, i requires 0 <= i < |ps| => TextOf(fields, ps[i].name))
  }

  lemma PlainSorted(fields: seq<Field>)
    requires Plain(fields)
    ensures Ascending(Sorted(fields)) && Escaped(Sorted(fields), Texts(fields))
    ensures forall p :: p in Sorted(fields) <==> p in PrintFields(fields)
    ensures forall i :: 0 <= i < |Sorted(fields)| ==> CommaFree(Sorted(fields)[i].name)
  {
    var printed, ps := PrintFields(fields), Sorted(fields);
    SortKeeps(printed);
    forall i | 0 <= i < |ps|
      ensures CommaFree(ps[i].name) && ps[i].text == Escape(TextOf(fields, ps[i].name))
    {
      assert ps[i] in printed;
      var j :| 0 <= j < |printed| && printed[j] == ps[i];
      LookupFinds(fields, fields[j]);
    }
  }

  lemma PlaceOf(a: seq<Field>, f: Field) returns (i: nat)
    requires Plain(a) && f in a
    ensures i < |Sorted(a)| && Sorted(a)[i].name == f.name && Texts(a)[i] == f.value.text
  {
    PlainSorted(a);
    LookupFinds(a, f);
    var j :| 0 <= j < |a| && a[j] == f;
    assert PrintFields(a)[j] in Sorted(a);
    i :| 0 <= i < |Sorted(a)| && Sorted(a)[i] == PrintFields(a)[j];
  }

  lemma FieldAtPlace(a: seq<Field>, i: nat)
    requires Plain(a) && i < |Sorted(a)|
    ensures Field(Sorted(a)[i].name, Str(Texts(a)[i])) in a
  {
    PlainSorted(a);
    var p := Sorted(a)[i];
    assert p in PrintFields(a);
    var k :| 0 <= k < |a| && PrintFields(a)[k] == p;
    LookupFinds(a, a[k]);
  }

  lemma DecodedField(a: seq<Field>, b: seq<Field>, f: Field)
    requires Plain(a) && Plain(b) && SortedStringify(a) == SortedStringify(b) && f in a
    ensures f in b
  {
    PlainSorted(a);
    PlainSorted(b);
    ChainDecodes(Sorted(a), Texts(a), Sorted(b), Texts(b));
    var i := PlaceOf(a, f);
    FieldAtPlace(b, i);
  }

  lemma SameObjectSamePrint(a: seq<Field>, b: seq<Field>)
    requires DistinctNames(a) && DistinctNames(b) && SameObject(a, b)
    ensures SortedStringify(a) == SortedStringify(b)
  {
    var ps, qs := PrintFields(a), PrintFields(b);
    SortKeeps(ps);
    SortKeeps(qs);
    PrintsIn(a, b);
    PrintsIn(b, a);
    AscendingIsUnique(Sorted(a), Sorted(b));
  }

  lemma PrintsIn(a: seq<Field>, b: seq<Field>)
    requires forall f :: f in a ==> f in b
    ensures forall p :: p in PrintFields(a) ==> p in PrintFields(b)
  {
    forall p | p in PrintFields(a)
      ensures p in PrintFields(b)
    {
      var i :| 0 <= i < |a| && PrintFields(a)[i] == p;
      assert a[i] in b;
      var j :| 0 <= j < |b| && b[j] == a[i];
      assert PrintFields(b)[j] == p;
    }
  }

  /** Main result: plain identifiers print alike exactly when they are the same object; the
      order in which properties were added never matters. */
  lemma KeyIdentifiesPlainObjects(a: seq<Field>, b: seq<Field>)
    requires Plain(a) && Plain(b)
    ensures SortedStringify(a) == SortedStringify(b) <==> SameObject(a, b)
  {
    if SameObject(a, b) {
      SameObjectSamePrint(a, b);
    } else if SortedStringify(a) == SortedStringify(b) {
      forall f
        ensures f in a <==> f in b
      {
        if f in a {
          DecodedField(a, b, f);
        } else if f in b {
          DecodedField(b, a, f);
        }
      }
    }
  }

  // ----- where the key stops identifying -----

  lemma PrintsTwo(first: Field, second: Field)
    requires first.value.Str? && second.value.Str? && Less(first.name, second.name)
    ensures DistinctNames([first, second])
    ensures SortedStringify([first, second])
            == first.name + "," + Escape(first.value.text) + "," + (second.name + "," + Escape(second.value.text) + ",")
  {
    LessIrreflexive(first.name);
    var p, q := Printed(first.name, Escape(first.value.text)), Printed(second.name, Escape(second.value.text));
    ChainOne(q);
    SortOne(q);
    assert [first, second][1..] == [second] && PrintFields([second]) == [q];
    assert PrintFields([first, second]) == [p, q];
    assert [p, q][1..] == [q] && [p] + [q] == [p, q];
    assert SortByName([p, q]) == [p, q];
    assert Chain([p, q]) == p.name + "," + p.text + "," + Chain([q]);
  }

  lemma PrintsOne(name: string, text: string)
    ensures SortedStringify([Field(name, Str(text))]) == name + "," + Escape(text) + ","
  {
    ChainOne(Printed(name, Escape(text)));
    SortOne(Printed(name, Escape(text)));
    assert PrintFields([Field(name, Str(text))]) == [Printed(name, Escape(text))];
  }

  lemma Regrouped(x: string, y: string, w: string, z: string, e: string)
    ensures (x + "," + y) + "," + w + "," + (z + "," + e + ",") == x + "," + y + "," + ((w + "," + z) + "," + e + ",")
  {
  }

  lemma RegroupedOne(x: string, y: string, z: string, e: string)
    ensures (x + "," + y + "," + z) + "," + e + "," == x + "," + y + "," + (z + "," + e + ",")
  {
  }

  lemma PrintsTwoPlain(name: string, text: string, other: string, value: string)
    requires CommaFree(text) && Less(name, other)
    ensures DistinctNames([Field(name, Str(text)), Field(other, Str(value))])
    ensures SortedStringify([Field(name, Str(text)), Field(other, Str(value))])
            == name + "," + text + "," + (other + "," + Escape(value) + ",")
  {
    EscapeCommaFree(text);
    PrintsTwo(Field(name, Str(text)), Field(other, Str(value)));
  }

  lemma OtherFields(f: Field, g: Field, h: Field, k: Field)
    requires h.name != f.name && h.name != g.name
    ensures !SameObject([f, g], [h, k])
  {
    assert h in [h, k] && h !in [f, g];
  }

  /** Two properties, read with the comma in the first name or in the second one. */
  lemma TwoReadings(x: string, y: string, w: string, z: string, text: string)
    requires CommaFree(y) && CommaFree(w) && Less(x + "," + y, z) && Less(x, w + "," + z) && x != z
    ensures
      var one, two := [Field(x + "," + y, Str(w)), Field(z, Str(text))], [Field(x, Str(y)), Field(w + "," + z, Str(text))];
      && DistinctNames(one) && DistinctNames(two)
      && SortedStringify(one) == SortedStringify(two) && !SameObject(one, two)
  {
    PrintsTwoPlain(x + "," + y, w, z, text);
    PrintsTwoPlain(x, y, w + "," + z, text);
    Regrouped(x, y, w, z, Escape(text));
    assert |x + "," + y| > |x|;
    OtherFields(Field(x + "," + y, Str(w)), Field(z, Str(text)), Field(x, Str(y)), Field(w + "," + z, Str(text)));
  }

  /** A name made of three comma-free parts prints like two properties: the first part names the
      second, and the third names the value. */
  lemma CommaNamesCollide(x: string, y: string, z: string, text: string)
    requires CommaFree(x) && CommaFree(y) && CommaFree(z) && Less(x, z)
    ensures
      var one, two := [Field(x + "," + y + "," + z, Str(text))], [Field(x, Str(y)), Field(z, Str(text))];
      DistinctNames(two) && SortedStringify(one) == SortedStringify(two) && !SameObject(one, two)
  {
    var name := x + "," + y + "," + z;
    var one, two := [Field(name, Str(text))], [Field(x, Str(y)), Field(z, Str(text))];
    EscapeCommaFree(y);
    PrintsOne(name, text);
    PrintsTwo(two[0], two[1]);
    RegroupedOne(x, y, z, Escape(text));
    assert |name| > |x| && |name| > |z|;
    assert one[0] in one && one[0] !in two;
  }

  /** Up to the first comma. */
  function FirstPart(name: string): (p: string)
    ensures CommaFree(p)
  {
    if name == "" || name[0] == ',' then "" else [name[0]] + FirstPart(name[1..])
  }

  /** Up to the last comma, and behind it. */
  function BeforeLastComma(name: string): string
    requires !CommaFree(name)
  {
    if name[|name| - 1] == ',' then name[..|name| - 1] else BeforeLastComma(name[..|name| - 1])
  }

  function BehindLastComma(name: string): (p: string)
    requires !CommaFree(name)
    ensures CommaFree(p)
  {
    if name[|name| - 1] == ',' then "" else BehindLastComma(name[..|name| - 1]) + [name[|name| - 1]]
  }

  lemma {:induction false} CutAtLastComma(name: string)
    requires !CommaFree(name)
    ensures name == BeforeLastComma(name) + "," + BehindLastComma(name)
  {
    var last := |name| - 1;
    assert name == name[..last] + [name[last]];
    if name[last] != ',' {
      CutAtLastComma(name[..last]);
    }
  }

  /** Whatever follows the first part, a dash behind that part sorts later than a comma or nothing. */
  lemma {:induction false} DashSortsLater(name: string, more: string)
    ensures Less(name, FirstPart(name) + "-" + more) || (name != "" && CommaFree(name))
    ensures !CommaFree(name) ==> Less(name, FirstPart(name) + "-" + more)
    ensures Less(FirstPart(name), FirstPart(name) + "-" + more)
  {
    var later := FirstPart(name) + "-" + more;
    if name != "" && name[0] != ',' {
      DashSortsLater(name[1..], more);
      assert later[1..] == FirstPart(name[1..]) + "-" + more;
      assert FirstPart(name)[1..] == FirstPart(name[1..]);
      assert name == [name[0]] + name[1..];
    }
  }

  lemma {:induction false} FirstPartStays(name: string)
    requires !CommaFree(name)
    ensures FirstPart(BeforeLastComma(name)) == FirstPart(name)
    ensures BeforeLastComma(name) == FirstPart(name) || !CommaFree(BeforeLastComma(name))
  {
    CutAtLastComma(name);
    FirstPartOfMore(BeforeLastComma(name), BehindLastComma(name));
  }

  lemma {:induction false} FirstPartOfMore(x: string, y: string)
    ensures FirstPart(x + "," + y) == FirstPart(x)
    ensures CommaFree(x) ==> FirstPart(x) == x
  {
    var name := x + "," + y;
    if x != "" && x[0] != ',' {
      FirstPartOfMore(x[1..], y);
      assert name[1..] == x[1..] + "," + y;
      assert x == [x[0]] + x[1..];
    }
  }

  /** A comma in a name can always be mistaken: for every name with a comma, two objects of two
      properties print alike, one with a property of that name and one without. */
  lemma EveryCommaNameCollides(name: string, text: string)
    requires !CommaFree(name)
    ensures
      var x, y, w := BeforeLastComma(name), BehindLastComma(name), FirstPart(name) + "-";
      var one, two := [Field(name, Str(w)), Field(w, Str(text))], [Field(x, Str(y)), Field(w + "," + w, Str(text))];
      && DistinctNames(one) && DistinctNames(two)
      && SortedStringify(one) == SortedStringify(two) && !SameObject(one, two)
  {
    var x, y, w := BeforeLastComma(name), BehindLastComma(name), FirstPart(name) + "-";
    CutAtLastComma(name);
    FirstPartStays(name);
    DashSortsLater(name, "");
    DashSortsLater(x, "");
    DashSortsLater(x, "," + w);
    assert w + "" == w && w + ("," + w) == w + "," + w;
    LessIrreflexive(x);
    TwoReadings(x, y, w, w, text);
  }

  /** A name with one comma, spelled out. */
  lemma OneCommaCollides()
    ensures
      var one, two := [Field("a,b", Str("a")), Field("b", Str("v"))], [Field("a", Str("b")), Field("a,b", Str("v"))];
      SortedStringify(one) == SortedStringify(two) && !SameObject(one, two)
  {
    assert Less("a", "a,b") by {
      assert "a,b"[1..] == ",b" && "a"[1..] == "";
    }
    assert "a" + "," + "b" == "a,b" && Less("a,b", "b");
    TwoReadings("a", "b", "a", "b", "v");
  }

  lemma {:induction false} EscapeCommaFree(s: string)
    requires CommaFree(s)
    ensures Escape(s) == s
  {
    if s != "" {
      EscapeCommaFree(s[1..]);
      assert s == [s[0]] + s[1..];
    }
  }

  lemma ChainOne(p: Printed)
    ensures Chain([p]) == p.name + "," + p.text + ","
  {
    assert [p][1..] == [];
    assert p.name + "," + p.text + "," + "" == p.name + "," + p.text + ",";
  }

  lemma SortOne(p: Printed)
    ensures SortByName([p]) == [p]
  {
    assert [p][1..] == [];
  }

  lemma EscapeOfFirst(c: char, rest: string)
    ensures Escape([c] + rest) == (if c == ',' then ",," else [c]) + Escape(rest)
  {
    assert ([c] + rest)[1..] == rest;
  }

  lemma EscapeBehind(c: char, a: string, b: string)
    requires Escape(a + b) == Escape(a) + Escape(b)
    ensures Escape([c] + a + b) == Escape([c] + a) + Escape(b)
  {
    assert [c] + a + b == [c] + (a + b);
    EscapeOfFirst(c, a);
    EscapeOfFirst(c, a + b);
  }

  lemma {:induction false} EscapeAppends(a: string, b: string)
    ensures Escape(a + b) == Escape(a) + Escape(b)
  {
    if a == "" {
      assert a + b == b;
    } else {
      EscapeAppends(a[1..], b);
      EscapeBehind(a[0], a[1..], b);
      assert [a[0]] + a[1..] == a;
    }
  }

  /** Escaping doubles each comma and keeps everything else. */
  lemma EscapeDoublesCommas(a: string, b: string)
    ensures Escape(a + b) == Escape(a) + Escape(b)
    ensures Escape(",") == ",,"
    ensures CommaFree(a) ==> Escape(a) == a
  {
    EscapeAppends(a, b);
    EscapeOfFirst(',', "");
    if CommaFree(a) {
      EscapeCommaFree(a);
    }
  }

  lemma SortsFirst(p: Printed, ps: seq<Printed>)
    requires NamesDiffer(ps) && forall i :: 0 <= i < |ps| ==> Less(p.name, ps[i].name)
    ensures SortByName([p] + ps) == [p] + SortByName(ps)
  {
    assert ([p] + ps)[1..] == ps;
    SortKeeps(ps);
    if SortByName(ps) != [] {
      assert SortByName(ps)[0] in ps;
    }
  }

  lemma PrintedFirst(first: Field, rest: seq<Field>)
    ensures PrintFields([first] + rest) == [Printed(first.name, PrintValue(first.value))] + PrintFields(rest)
  {
    assert ([first] + rest)[1..] == rest;
  }

  lemma ChainedFirst(p: Printed, ps: seq<Printed>)
    ensures Chain([p] + ps) == p.name + "," + p.text + "," + Chain(ps)
  {
    assert ([p] + ps)[1..] == ps;
  }

  /** Properties print in ascending order of their names, each as its name, its value and two
      commas: a string escaped, a primitive as it is, an object as its own properties. */
  lemma {:induction false} PrintsInOrder(first: Field, rest: seq<Field>)
    requires DistinctNames(rest) && forall i :: 0 <= i < |rest| ==> Less(first.name, rest[i].name)
    ensures SortedStringify([]) == ""
    ensures first.value.Str? ==>
      SortedStringify([first] + rest) == first.name + "," + Escape(first.value.text) + "," + SortedStringify(rest)
    ensures first.value.Primitive? || first.value.Nullish? ==>
      SortedStringify([first] + rest) == first.name + "," + first.value.printed + "," + SortedStringify(rest)
    ensures first.value.Nested? ==>
      SortedStringify([first] + rest) == first.name + "," + SortedStringify(first.value.fields) + "," + SortedStringify(rest)
  {
    var p, ps := Printed(first.name, PrintValue(first.value)), PrintFields(rest);
    PrintedFirst(first, rest);
    SortsFirst(p, ps);
    ChainedFirst(p, SortByName(ps));
  }

  /** So identifiers whose primitive values print differently have different keys. */
  lemma {:induction false} PrimitivesTellApart(name: string, one: string, other: string, rest: seq<Field>)
    requires DistinctNames(rest) && forall i :: 0 <= i < |rest| ==> Less(name, rest[i].name)
    ensures SortedStringify([Field(name, Primitive(one))] + rest) == SortedStringify([Field(name, Primitive(other))] + rest)
            <==> one == other
  {
    PrintsInOrder(Field(name, Primitive(one)), rest);
    PrintsInOrder(Field(name, Primitive(other)), rest);
    SameMiddle(name, one, other, SortedStringify(rest));
  }

  lemma SameMiddle(x: string, a: string, b: string, z: string)
    ensures x + "," + a + "," + z == x + "," + b + "," + z <==> a == b
  {
    var s, t := x + "," + a + "," + z, x + "," + b + "," + z;
    if |a| == |b| {
      assert s[|x| + 1..|x| + 1 + |a|] == a && t[|x| + 1..|x| + 1 + |b|] == b;
    } else {
      assert |s| != |t|;
    }
  }

  /** Values that are not strings can print like strings: any comma-free text a primitive or a
      nested object prints as is also the text of a string property. */
  lemma OtherValuesCollide(name: string, value: Literal)
    requires CommaFree(name) && !value.Str? && CommaFree(PrintValue(value))
    ensures
      var a, b := [Field(name, value)], [Field(name, Str(PrintValue(value)))];
      SortedStringify(a) == SortedStringify(b) && !SameObject(a, b)
  {
    var text := PrintValue(value);
    var a, b := [Field(name, value)], [Field(name, Str(text))];
    EscapeCommaFree(text);
    assert PrintFields(a) == [Printed(name, text)] == PrintFields(b);
    assert a[0] in a && a[0] !in b;
  }

  /** What identifiers may contain: names with commas, and values that are no strings. */
  datatype Policy = Policy(commaNames: bool, otherValues: bool)

  predicate Allowed(policy: Policy, fields: seq<Field>) {
    && DistinctNames(fields)
    && (policy.commaNames || forall i :: 0 <= i < |fields| ==> CommaFree(fields[i].name))
    && (policy.otherValues || forall i :: 0 <= i < |fields| ==> fields[i].value.Str?)
  }

  /** Two identifiers print alike exactly when they are the same object. */
  ghost predicate ToldApart(a: seq<Field>, b: seq<Field>) {
    SortedStringify(a) == SortedStringify(b) <==> SameObject(a, b)
  }

  /** Main result: the key identifies the identifiers of a policy if and only if the policy
      allows neither commas in names nor values that are no strings. */
  lemma KeyIdentifiesExactly(policy: Policy)
    ensures (forall a, b :: Allowed(policy, a) && Allowed(policy, b) ==> ToldApart(a, b))
            <==> !policy.commaNames && !policy.otherValues
  {
    if policy.commaNames {
      assert ","[0] == ',';
      EveryCommaNameCollides(",", "");
      var w := FirstPart(",") + "-";
      var one := [Field(",", Str(w)), Field(w, Str(""))];
      var two := [Field(BeforeLastComma(","), Str(BehindLastComma(","))), Field(w + "," + w, Str(""))];
      assert Allowed(policy, one) && Allowed(policy, two) && !ToldApart(one, two);
    } else if policy.otherValues {
      OtherValuesCollide("", Primitive("0"));
      var one, two := [Field("", Primitive("0"))], [Field("", Str(PrintValue(Primitive("0"))))];
      assert Allowed(policy, one) && Allowed(policy, two) && !ToldApart(one, two);
    } else {
      forall a, b | Allowed(policy, a) && Allowed(policy, b)
        ensures ToldApart(a, b)
      {
        KeyIdentifiesPlainObjects(a, b);
      }
    }
  }

  // ----- making identifiers -----

  datatype SchemaKind = BooleanKind | NumberKind | StringKind | OtherKind

  datatype Schema = Schema(default: Option<Literal>, kind: SchemaKind)

  datatype Property = Property(name: string, schema: Schema)

  datatype Definition = Definition(taskType: string, required: set<string>, properties: seq<Property>)

  /** Assignment to a property: in place if it exists, appended otherwise. */
  function Put(fields: seq<Field>, name: string, value: Literal): (r: seq<Field>)
    ensures DistinctNames(fields) ==> DistinctNames(r)
    ensures forall f :: f in r ==> f == Field(name, value) || f in fields
  {
    if fields == [] then [Field(name, value)]
    else if fields[0].name == name then [Field(name, value)] + fields[1..]
    else
      assert fields == [fields[0]] + fields[1..];
      var rest := Put(fields[1..], name, value);
      assert DistinctNames(fields) ==> forall i :: 0 <= i < |rest| ==> rest[i] in rest;
      [fields[0]] + rest
  }

  lemma {:induction false} LookupPut(fields: seq<Field>, name: string, value: Literal, other: string)
    ensures Lookup(Put(fields, name, value), other) == if other == name then Some(value) else Lookup(fields, other)
  {
    if fields != [] && fields[0].name != name {
      LookupPut(fields[1..], name, value, other);
      assert Put(fields, name, value)[1..] == Put(fields[1..], name, value);
    } else if fields != [] {
      assert Put(fields, name, value)[1..] == fields[1..];
    } else {
      assert [Field(name, value)][1..] == [];
    }
  }

  /** What one declared property contributes: the given value, else a default if it is required,
      else nothing; None when a required value cannot be made up. */
  function Contribution(external: seq<Field>, p: Property, required: bool): Option<Option<Literal>> {
    match Lookup(external, p.name)
    case Some(v) => if v.Nullish? then Fallback(p.schema, required) else Some(Some(v))
    case None => Fallback(p.schema, required)
  }

  function Fallback(schema: Schema, required: bool): Option<Option<Literal>> {
    if !required then Some(None)
    else if schema.default.Some? then Some(schema.default)
    else
      match schema.kind
      case BooleanKind => Some(Some(Primitive("false")))
      case NumberKind => Some(Some(Primitive("0")))
      case StringKind => Some(Some(Str("")))
      case OtherKind => None
  }

  predicate DistinctProperties(ps: seq<Property>) {
    forall i, j :: 0 <= i < j < |ps| ==> ps[i].name != ps[j].name
  }

  /** `literal` as the loop of `createTaskIdentifier` leaves it. */
  ghost predicate Sanitized(literal: seq<Field>, external: seq<Field>, d: Definition, upTo: nat)
    requires upTo <= |d.properties|
  {
    && DistinctNames(literal)
    && (forall i :: 0 <= i < upTo ==> Contribution(external, d.properties[i], d.properties[i].name in d.required).Some?)
    && (forall name :: Lookup(literal, name) == Expected(name, external, d, upTo))
  }

  /** What is expected under a name that no property has. */
  function Otherwise(name: string, d: Definition): Option<Literal> {
    if name == "type" then Some(Str(d.taskType)) else None
  }

  /** The value the sanitized literal has under a name. */
  function Expected(name: string, external: seq<Field>, d: Definition, upTo: nat): Option<Literal>
    requires upTo <= |d.properties|
  {
    if upTo == 0 then Otherwise(name, d)
    else
      var p := d.properties[upTo - 1];
      var c := Contribution(external, p, p.name in d.required);
      if p.name == name && c.Some? && c.value.Some? then c.value else Expected(name, external, d, upTo - 1)
  }

  /** The identifier has a value for the property, and it is neither null nor undefined. */
  predicate Gives(external: seq<Field>, name: string) {
    exists f :: f in external && f.name == name && Lookup(external, name) == Some(f.value) && !f.value.Nullish?
  }

  /** Required, not given, without a default, and of no type that has a made-up value. */
  predicate CannotBeMadeUp(external: seq<Field>, p: Property, required: set<string>) {
    p.name in required && !Gives(external, p.name) && p.schema.default == None && p.schema.kind == OtherKind
  }

  lemma GivesExactly(external: seq<Field>, name: string)
    ensures Gives(external, name) <==> Lookup(external, name).Some? && !Lookup(external, name).value.Nullish?
  {
    if Lookup(external, name).Some? && !Lookup(external, name).value.Nullish? {
      assert Field(name, Lookup(external, name).value) in external;
    }
  }

  lemma ContributionFails(external: seq<Field>, p: Property, required: set<string>)
    ensures Contribution(external, p, p.name in required) == None <==> CannotBeMadeUp(external, p, required)
  {
    GivesExactly(external, p.name);
  }

  /** What the literal has under a declared name: the given value; else, if required, the default
      or the made-up value of its type; else nothing of its own. */
  lemma SanitizedMeaning(literal: seq<Field>, external: seq<Field>, d: Definition, p: Property)
    requires DistinctProperties(d.properties) && Sanitized(literal, external, d, |d.properties|) && p in d.properties
    ensures Gives(external, p.name) ==> Lookup(literal, p.name) == Lookup(external, p.name)
    ensures !Gives(external, p.name) && p.name in d.required ==>
      && (p.schema.default.Some? ==> Lookup(literal, p.name) == p.schema.default)
      && (p.schema.default == None && p.schema.kind == BooleanKind ==> Lookup(literal, p.name) == Some(Primitive("false")))
      && (p.schema.default == None && p.schema.kind == NumberKind ==> Lookup(literal, p.name) == Some(Primitive("0")))
      && (p.schema.default == None && p.schema.kind == StringKind ==> Lookup(literal, p.name) == Some(Str("")))
      && (p.schema.default == None ==> p.schema.kind != OtherKind)
    ensures !Gives(external, p.name) && p.name !in d.required && p.name != "type" ==> Lookup(literal, p.name) == None
  {
    GivesExactly(external, p.name);
    ExpectedDeclared(p, external, d);
    var i :| 0 <= i < |d.properties| && d.properties[i] == p;
    assert Contribution(external, d.properties[i], p.name in d.required).Some?;
    assert Lookup(literal, p.name) == Expected(p.name, external, d, |d.properties|);
  }

  /** The type of the literal is the declared one, unless a property overrides it. */
  lemma SanitizedType(literal: seq<Field>, external: seq<Field>, d: Definition)
    requires Sanitized(literal, external, d, |d.properties|) && !Declares(d, "type")
    ensures Lookup(literal, "type") == Some(Str(d.taskType))
  {
    ExpectedUndeclared("type", external, d);
    assert Lookup(literal, "type") == Expected("type", external, d, |d.properties|);
  }

  /** The registered branch of `createTaskIdentifier`. */
  method Sanitize(external: seq<Field>, d: Definition) returns (literal: Option<seq<Field>>)
    requires DistinctProperties(d.properties)
    ensures literal == None <==>
              exists p :: p in d.properties && Contribution(external, p, p.name in d.required) == None
    ensures literal == None <==> exists p :: p in d.properties && CannotBeMadeUp(external, p, d.required)
    ensures literal.Some? ==> Sanitized(literal.value, external, d, |d.properties|)
  {
    forall p | p in d.properties
      ensures Contribution(external, p, p.name in d.required) == None <==> CannotBeMadeUp(external, p, d.required)
    {
      ContributionFails(external, p, d.required);
    }
    var fields := [Field("type", Str(d.taskType))];
    assert fields[1..] == [];
    for i := 0 to |d.properties|
      invariant Sanitized(fields, external, d, i)
    {
      var property := d.properties[i];
      var value := Lookup(external, property.name);
      ghost var before := fields;
      if value.Some? && !value.value.Nullish? {
        fields := Put(fields, property.name, value.value);
      } else if property.name in d.required {
        var schema := property.schema;
        if schema.default.Some? {
          fields := Put(fields, property.name, schema.default.value);
        } else {
          match schema.kind {
            case BooleanKind => fields := Put(fields, property.name, Primitive("false"));
            case NumberKind => fields := Put(fields, property.name, Primitive("0"));
            case StringKind => fields := Put(fields, property.name, Str(""));
            case OtherKind =>
              assert property in d.properties;
              return None;
          }
        }
      }
      forall name
        ensures Lookup(fields, name) == Expected(name, external, d, i + 1)
      {
        var c := Contribution(external, property, property.name in d.required);
        if c.value.Some? {
          LookupPut(before, property.name, c.value.value, name);
        }
      }
    }
    literal := Some(fields);
  }

  lemma {:induction false} SameExpected(name: string, a: seq<Field>, b: seq<Field>, d: Definition, upTo: nat)
    requires upTo <= |d.properties|
    requires forall p :: p in d.properties ==> Lookup(a, p.name) == Lookup(b, p.name)
    ensures Expected(name, a, d, upTo) == Expected(name, b, d, upTo)
  {
    if upTo > 0 {
      var p := d.properties[upTo - 1];
      assert p in d.properties;
      SameExpected(name, a, b, d, upTo - 1);
      assert Contribution(a, p, p.name in d.required) == Contribution(b, p, p.name in d.required);
    }
  }

  lemma LookupCarriesOver(a: seq<Field>, b: seq<Field>, f: Field)
    requires DistinctNames(a) && f in a && Lookup(a, f.name) == Lookup(b, f.name)
    ensures f in b
  {
    LookupFinds(a, f);
  }

  /** Objects that answer every lookup alike are the same. */
  lemma LookupsDetermine(a: seq<Field>, b: seq<Field>)
    requires DistinctNames(a) && DistinctNames(b)
    requires forall name :: Lookup(a, name) == Lookup(b, name)
    ensures SameObject(a, b)
  {
    forall f
      ensures f in a <==> f in b
    {
      if f in a {
        LookupCarriesOver(a, b, f);
      } else if f in b {
        LookupCarriesOver(b, a, f);
      }
    }
  }

  /** `KeyedTaskIdentifier.create`: the computed key, unless the value brings its own. */
  function KeyOf(value: seq<Field>): Literal {
    match Lookup(value, "_key")
    case Some(own) => own
    case None => Str(SortedStringify(value))
  }

  /** Two external identifiers that agree on the declared properties get the same key, whatever
      else they carry and in whatever order. */
  lemma KeyIgnoresUndeclaredProperties(a: seq<Field>, b: seq<Field>, d: Definition, la: seq<Field>, lb: seq<Field>)
    requires forall p :: p in d.properties ==> Lookup(a, p.name) == Lookup(b, p.name)
    requires Sanitized(la, a, d, |d.properties|) && Sanitized(lb, b, d, |d.properties|)
    ensures SortedStringify(la) == SortedStringify(lb) && KeyOf(la) == KeyOf(lb)
  {
    forall name
      ensures Lookup(la, name) == Lookup(lb, name)
    {
      SameExpected(name, a, b, d, |d.properties|);
    }
    LookupsDetermine(la, lb);
    SameObjectSamePrint(la, lb);
  }

  /** The same value is expected under every name. */
  ghost predicate SameExpectations(a: seq<Field>, b: seq<Field>, d: Definition) {
    forall name :: Expected(name, a, d, |d.properties|) == Expected(name, b, d, |d.properties|)
  }

  /** For plain literals the converse holds too: they print alike if and only if they have the
      same value under every name. */
  lemma PrintsAgreeExactly(a: seq<Field>, b: seq<Field>, d: Definition, la: seq<Field>, lb: seq<Field>)
    requires Sanitized(la, a, d, |d.properties|) && Sanitized(lb, b, d, |d.properties|) && Plain(la) && Plain(lb)
    ensures SortedStringify(la) == SortedStringify(lb) <==> SameExpectations(a, b, d)
  {
    KeyIdentifiesPlainObjects(la, lb);
    if SameExpectations(a, b, d) {
      forall name
        ensures Lookup(la, name) == Lookup(lb, name)
      {
        assert Expected(name, a, d, |d.properties|) == Expected(name, b, d, |d.properties|);
      }
      LookupsDetermine(la, lb);
    } else if SameObject(la, lb) {
      forall name
        ensures Expected(name, a, d, |d.properties|) == Expected(name, b, d, |d.properties|)
      {
        SameLookups(la, lb, name);
        assert Lookup(la, name) == Lookup(lb, name);
      }
    }
  }

  lemma SameLookups(a: seq<Field>, b: seq<Field>, name: string)
    requires DistinctNames(a) && DistinctNames(b) && SameObject(a, b)
    ensures Lookup(a, name) == Lookup(b, name)
  {
    if Lookup(a, name).Some? {
      LookupFinds(b, Field(name, Lookup(a, name).value));
    } else if Lookup(b, name).Some? {
      LookupFinds(a, Field(name, Lookup(b, name).value));
    }
  }

  // ----- when the key of a registered type identifies -----

  /** The keys of plain literals agree exactly when the literals have the same values. */
  ghost predicate KeysIdentify(d: Definition) {
    forall a, b, la, lb ::
      Sanitized(la, a, d, |d.properties|) && Sanitized(lb, b, d, |d.properties|) && Plain(la) && Plain(lb) ==>
        (KeyOf(la) == KeyOf(lb) <==> SameExpectations(a, b, d))
  }

  predicate Declares(d: Definition, name: string) {
    exists p :: p in d.properties && p.name == name
  }

  /** A definition with a property named `_key` that is not always the whole identifier: it may
      be missing, or stands beside another property. Where a property with a comma in its name
      is required there are no plain literals. */
  predicate KeyIsOverridden(d: Definition) {
    && Declares(d, "_key")
    && ("_key" !in d.required || exists p :: p in d.properties && p.name != "_key" && CommaFree(p.name))
    && forall p :: p in d.properties && p.name in d.required ==> CommaFree(p.name)
  }

  lemma {:induction false} ExpectedElsewhere(name: string, external: seq<Field>, d: Definition, upTo: nat)
    requires upTo <= |d.properties|
    requires forall i :: 0 <= i < upTo ==> d.properties[i].name != name
    ensures Expected(name, external, d, upTo) == Otherwise(name, d)
  {
    if upTo > 0 {
      ExpectedElsewhere(name, external, d, upTo - 1);
    }
  }

  lemma {:induction false} ExpectedOfProperty(p: Property, external: seq<Field>, d: Definition, upTo: nat)
    requires DistinctProperties(d.properties) && upTo <= |d.properties| && p in d.properties[..upTo]
    ensures
      var c := Contribution(external, p, p.name in d.required);
      Expected(p.name, external, d, upTo) == if c.Some? && c.value.Some? then c.value else Otherwise(p.name, d)
  {
    var last := d.properties[upTo - 1];
    assert d.properties[..upTo] == d.properties[..upTo - 1] + [last];
    if last == p {
      ExpectedElsewhere(p.name, external, d, upTo - 1);
    } else {
      ExpectedOfProperty(p, external, d, upTo - 1);
    }
  }

  lemma ExpectedDeclared(p: Property, external: seq<Field>, d: Definition)
    requires DistinctProperties(d.properties) && p in d.properties
    ensures
      var c := Contribution(external, p, p.name in d.required);
      Expected(p.name, external, d, |d.properties|)
      == if c.Some? && c.value.Some? then c.value else Otherwise(p.name, d)
  {
    assert d.properties[..|d.properties|] == d.properties;
    ExpectedOfProperty(p, external, d, |d.properties|);
  }

  lemma ExpectedUndeclared(name: string, external: seq<Field>, d: Definition)
    requires !Declares(d, name)
    ensures Expected(name, external, d, |d.properties|) == Otherwise(name, d)
  {
    assert forall i :: 0 <= i < |d.properties| ==> d.properties[i] in d.properties;
    ExpectedElsewhere(name, external, d, |d.properties|);
  }

  /** Under a name with a comma, plain literals have nothing. */
  lemma PlainHasNoCommas(literal: seq<Field>, name: string)
    requires Plain(literal) && !CommaFree(name)
    ensures Lookup(literal, name) == None
  {
    if Lookup(literal, name).Some? {
      LookupFinds(literal, Field(name, Lookup(literal, name).value));
    }
  }

  lemma RequiredIsExpected(p: Property, literal: seq<Field>, external: seq<Field>, d: Definition)
    requires DistinctProperties(d.properties) && Sanitized(literal, external, d, |d.properties|)
    requires p in d.properties && p.name in d.required
    ensures Lookup(literal, p.name).Some?
  {
    ExpectedDeclared(p, external, d);
    var i :| 0 <= i < |d.properties| && d.properties[i] == p;
    assert Contribution(external, d.properties[i], p.name in d.required).Some?;
  }

  /** A definition whose only comma-free property is a required `_key`. */
  lemma OwnKeyIsAll(a: seq<Field>, b: seq<Field>, d: Definition, la: seq<Field>, lb: seq<Field>)
    requires DistinctProperties(d.properties)
    requires Sanitized(la, a, d, |d.properties|) && Sanitized(lb, b, d, |d.properties|) && Plain(la) && Plain(lb)
    requires Declares(d, "_key") && "_key" in d.required
    requires forall p :: p in d.properties && p.name != "_key" ==> !CommaFree(p.name)
    ensures KeyOf(la) == KeyOf(lb) <==> SameExpectations(a, b, d)
  {
    var own :| own in d.properties && own.name == "_key";
    RequiredIsExpected(own, la, a, d);
    RequiredIsExpected(own, lb, b, d);
    forall name | name != "_key"
      ensures Lookup(la, name) == Lookup(lb, name)
    {
      if CommaFree(name) {
        ExpectedUndeclared(name, a, d);
        ExpectedUndeclared(name, b, d);
      } else {
        PlainHasNoCommas(la, name);
        PlainHasNoCommas(lb, name);
      }
    }
    assert Lookup(la, "_key") == Expected("_key", a, d, |d.properties|);
    assert Lookup(lb, "_key") == Expected("_key", b, d, |d.properties|);
    assert forall name :: Lookup(la, name) == Expected(name, a, d, |d.properties|);
    assert forall name :: Lookup(lb, name) == Expected(name, b, d, |d.properties|);
  }

  lemma UndeclaredKeyIsComputed(literal: seq<Field>, external: seq<Field>, d: Definition)
    requires Sanitized(literal, external, d, |d.properties|) && !Declares(d, "_key")
    ensures KeyOf(literal) == Str(SortedStringify(literal))
  {
    ExpectedUndeclared("_key", external, d);
    assert Lookup(literal, "_key") == Expected("_key", external, d, |d.properties|);
  }

  /** The literal that the loop makes. */
  function LiteralOf(external: seq<Field>, d: Definition, upTo: nat): seq<Field>
    requires upTo <= |d.properties|
  {
    if upTo == 0 then [Field("type", Str(d.taskType))]
    else
      var p := d.properties[upTo - 1];
      Contributed(LiteralOf(external, d, upTo - 1), p.name, Contribution(external, p, p.name in d.required))
  }

  function Contributed(fields: seq<Field>, name: string, c: Option<Option<Literal>>): (r: seq<Field>)
    ensures DistinctNames(fields) ==> DistinctNames(r)
  {
    if c.Some? && c.value.Some? then Put(fields, name, c.value.value) else fields
  }

  lemma LookupContributed(fields: seq<Field>, name: string, c: Option<Option<Literal>>, other: string)
    ensures
      Lookup(Contributed(fields, name, c), other)
      == if name == other && c.Some? && c.value.Some? then c.value else Lookup(fields, other)
  {
    if c.Some? && c.value.Some? {
      LookupPut(fields, name, c.value.value, other);
    }
  }

  lemma LiteralStarts(external: seq<Field>, d: Definition, name: string)
    ensures Lookup(LiteralOf(external, d, 0), name) == Otherwise(name, d)
  {
    assert [Field("type", Str(d.taskType))][1..] == [];
  }

  lemma {:induction false} LiteralHasExpected(external: seq<Field>, d: Definition, upTo: nat, name: string)
    requires upTo <= |d.properties|
    ensures Lookup(LiteralOf(external, d, upTo), name) == Expected(name, external, d, upTo)
  {
    if upTo == 0 {
      LiteralStarts(external, d, name);
    } else {
      LiteralHasExpected(external, d, upTo - 1, name);
      var p, before := d.properties[upTo - 1], LiteralOf(external, d, upTo - 1);
      var c := Contribution(external, p, p.name in d.required);
      LookupContributed(before, p.name, c, name);
      assert LiteralOf(external, d, upTo) == Contributed(before, p.name, c);
    }
  }

  lemma {:induction false} LiteralIsDistinct(external: seq<Field>, d: Definition, upTo: nat)
    requires upTo <= |d.properties|
    ensures DistinctNames(LiteralOf(external, d, upTo))
  {
    if upTo > 0 {
      LiteralIsDistinct(external, d, upTo - 1);
    }
  }

  lemma LiteralIsSanitized(external: seq<Field>, d: Definition)
    requires forall p :: p in d.properties ==> Contribution(external, p, p.name in d.required).Some?
    ensures Sanitized(LiteralOf(external, d, |d.properties|), external, d, |d.properties|)
  {
    LiteralIsDistinct(external, d, |d.properties|);
    assert forall i :: 0 <= i < |d.properties| ==> d.properties[i] in d.properties;
    forall name
      ensures Lookup(LiteralOf(external, d, |d.properties|), name) == Expected(name, external, d, |d.properties|)
    {
      LiteralHasExpected(external, d, |d.properties|, name);
    }
  }

  /** An identifier that gives every comma-free declared property a string, but `_key` only if
      `own` is one; `odd` has the value `v` and the others are empty. */
  function Given(ps: seq<Property>, own: Option<string>, odd: string, v: string): seq<Field> {
    if ps == [] then []
    else
      (if GivenValue(ps[0].name, own, odd, v).Some? then
         [Field(ps[0].name, Str(GivenValue(ps[0].name, own, odd, v).value))]
       else []) + Given(ps[1..], own, odd, v)
  }

  function GivenValue(name: string, own: Option<string>, odd: string, v: string): Option<string> {
    if name == "_key" then own
    else if !CommaFree(name) then None
    else Some(if name == odd then v else "")
  }

  lemma {:induction false} GivenIsFound(ps: seq<Property>, own: Option<string>, odd: string, v: string, p: Property)
    requires p in ps
    ensures
      var g := GivenValue(p.name, own, odd, v);
      Lookup(Given(ps, own, odd, v), p.name) == if g.Some? then Some(Str(g.value)) else None
  {
    var rest := Given(ps[1..], own, odd, v);
    if GivenValue(ps[0].name, own, odd, v).Some? {
      assert Given(ps, own, odd, v)[1..] == rest;
    } else {
      assert Given(ps, own, odd, v) == rest;
    }
    if ps[0].name != p.name || (GivenValue(p.name, own, odd, v).None? && p in ps[1..]) {
      GivenIsFound(ps[1..], own, odd, v, p);
    } else if GivenValue(p.name, own, odd, v).None? {
      GivesNothing(ps[1..], own, odd, v, p.name);
    }
  }

  lemma {:induction false} GivesNothing(ps: seq<Property>, own: Option<string>, odd: string, v: string, name: string)
    requires GivenValue(name, own, odd, v).None?
    ensures Lookup(Given(ps, own, odd, v), name) == None
  {
    if ps != [] {
      GivesNothing(ps[1..], own, odd, v, name);
      if GivenValue(ps[0].name, own, odd, v).Some? {
        assert Given(ps, own, odd, v)[1..] == Given(ps[1..], own, odd, v);
      } else {
        assert Given(ps, own, odd, v) == Given(ps[1..], own, odd, v);
      }
    }
  }

  /** What the given identifiers are expected to have. */
  lemma GivenIsExpected(d: Definition, own: Option<string>, odd: string, v: string, p: Property)
    requires DistinctProperties(d.properties) && p in d.properties
    requires p.name in d.required ==> GivenValue(p.name, own, odd, v).Some?
    ensures
      var external, g := Given(d.properties, own, odd, v), GivenValue(p.name, own, odd, v);
      && Contribution(external, p, p.name in d.required).Some?
      && Expected(p.name, external, d, |d.properties|) == if g.Some? then Some(Str(g.value)) else Otherwise(p.name, d)
  {
    GivenIsFound(d.properties, own, odd, v, p);
    ExpectedDeclared(p, Given(d.properties, own, odd, v), d);
  }

  lemma GivenFieldIsPlain(
      d: Definition, own: Option<string>, odd: string, v: string, external: seq<Field>, literal: seq<Field>, f: Field)
    requires DistinctProperties(d.properties)
    requires forall p :: p in d.properties && p.name in d.required ==> CommaFree(p.name)
    requires "_key" in d.required ==> own.Some?
    requires external == Given(d.properties, own, odd, v) && Sanitized(literal, external, d, |d.properties|) && f in literal
    ensures f.value.Str? && CommaFree(f.name)
  {
    LookupFinds(literal, f);
    assert Some(f.value) == Expected(f.name, external, d, |d.properties|);
    if Declares(d, f.name) {
      var p :| p in d.properties && p.name == f.name;
      GivenIsExpected(d, own, odd, v, p);
    } else {
      ExpectedUndeclared(f.name, external, d);
    }
  }

  lemma GivenIsPlain(d: Definition, own: Option<string>, odd: string, v: string)
    requires DistinctProperties(d.properties)
    requires forall p :: p in d.properties && p.name in d.required ==> CommaFree(p.name)
    requires "_key" in d.required ==> own.Some?
    ensures
      var external := Given(d.properties, own, odd, v);
      var literal := LiteralOf(external, d, |d.properties|);
      Sanitized(literal, external, d, |d.properties|) && Plain(literal)
  {
    var external := Given(d.properties, own, odd, v);
    var literal := LiteralOf(external, d, |d.properties|);
    forall p | p in d.properties
      ensures Contribution(external, p, p.name in d.required).Some?
    {
      GivenIsExpected(d, own, odd, v, p);
    }
    LiteralIsSanitized(external, d);
    forall i | 0 <= i < |literal|
      ensures literal[i].value.Str? && CommaFree(literal[i].name)
    {
      GivenFieldIsPlain(d, own, odd, v, external, literal, literal[i]);
    }
  }

  lemma KeyGiven(d: Definition, own: Option<string>, odd: string, v: string)
    requires DistinctProperties(d.properties) && Declares(d, "_key")
    requires forall p :: p in d.properties && p.name in d.required ==> CommaFree(p.name)
    requires "_key" in d.required ==> own.Some?
    ensures
      var external := Given(d.properties, own, odd, v);
      var literal := LiteralOf(external, d, |d.properties|);
      && KeyOf(literal) == (if own.Some? then Str(own.value) else Str(SortedStringify(literal)))
      && Expected("_key", external, d, |d.properties|) == if own.Some? then Some(Str(own.value)) else None
  {
    GivenIsPlain(d, own, odd, v);
    var p :| p in d.properties && p.name == "_key";
    GivenIsExpected(d, own, odd, v, p);
  }

  lemma SameKeyOtherwise(d: Definition, a: seq<Field>, b: seq<Field>, la: seq<Field>, lb: seq<Field>, name: string)
    requires Sanitized(la, a, d, |d.properties|) && Sanitized(lb, b, d, |d.properties|) && Plain(la) && Plain(lb)
    requires KeyOf(la) == KeyOf(lb)
    requires Expected(name, a, d, |d.properties|) != Expected(name, b, d, |d.properties|)
    ensures !KeysIdentify(d)
  {
    assert !SameExpectations(a, b, d);
  }

  /** Two literals with the same `_key` that differ elsewhere. */
  lemma KeyHidesProperty(d: Definition, p: Property)
    requires DistinctProperties(d.properties) && KeyIsOverridden(d)
    requires p in d.properties && p.name != "_key" && CommaFree(p.name)
    ensures !KeysIdentify(d)
  {
    var a, b := Given(d.properties, Some(""), p.name, "a"), Given(d.properties, Some(""), p.name, "b");
    var la, lb := LiteralOf(a, d, |d.properties|), LiteralOf(b, d, |d.properties|);
    GivenMakesLiteral(d, Some(""), p.name, "a", p, a, la);
    GivenMakesLiteral(d, Some(""), p.name, "b", p, b, lb);
    SameKeyOtherwise(d, a, b, la, lb, p.name);
  }

  /** What `Given` makes of a definition, as seen at one of its properties. */
  lemma GivenMakesLiteral(
      d: Definition, own: Option<string>, odd: string, v: string, p: Property, external: seq<Field>, literal: seq<Field>)
    requires DistinctProperties(d.properties) && KeyIsOverridden(d)
    requires "_key" in d.required ==> own.Some?
    requires p in d.properties && external == Given(d.properties, own, odd, v)
    requires literal == LiteralOf(external, d, |d.properties|)
    ensures Sanitized(literal, external, d, |d.properties|) && Plain(literal)
    ensures KeyOf(literal) == if own.Some? then Str(own.value) else Str(SortedStringify(literal))
    ensures
      var g := GivenValue(p.name, own, odd, v);
      Expected(p.name, external, d, |d.properties|) == if g.Some? then Some(Str(g.value)) else Otherwise(p.name, d)
  {
    GivenIsPlain(d, own, odd, v);
    KeyGiven(d, own, odd, v);
    GivenIsExpected(d, own, odd, v, p);
  }

  /** A literal whose `_key` is what another one without `_key` prints. */
  lemma KeyForgesPrint(d: Definition)
    requires DistinctProperties(d.properties) && KeyIsOverridden(d) && "_key" !in d.required
    ensures !KeysIdentify(d)
  {
    var p :| p in d.properties && p.name == "_key";
    var a := Given(d.properties, None, "", "");
    var la := LiteralOf(a, d, |d.properties|);
    var own := SortedStringify(la);
    var b := Given(d.properties, Some(own), "", "");
    var lb := LiteralOf(b, d, |d.properties|);
    GivenMakesLiteral(d, None, "", "", p, a, la);
    GivenMakesLiteral(d, Some(own), "", "", p, b, lb);
    SameKeyOtherwise(d, a, b, la, lb, "_key");
  }

  /** Main result on registered types: the key identifies the plain literals of a definition if
      and only if the definition does not let a declared `_key` override it. */
  lemma KeysAgreeExactly(d: Definition)
    requires DistinctProperties(d.properties)
    ensures KeysIdentify(d) <==> !KeyIsOverridden(d)
  {
    if KeyIsOverridden(d) {
      if "_key" !in d.required {
        KeyForgesPrint(d);
      } else {
        var p :| p in d.properties && p.name != "_key" && CommaFree(p.name);
        KeyHidesProperty(d, p);
      }
    } else {
      forall a, b, la, lb | Sanitized(la, a, d, |d.properties|) && Sanitized(lb, b, d, |d.properties|) && Plain(la) && Plain(lb)
        ensures KeyOf(la) == KeyOf(lb) <==> SameExpectations(a, b, d)
      {
        UnoverriddenKeysAgree(a, b, d, la, lb);
      }
    }
  }

  lemma UnoverriddenKeysAgree(a: seq<Field>, b: seq<Field>, d: Definition, la: seq<Field>, lb: seq<Field>)
    requires DistinctProperties(d.properties) && !KeyIsOverridden(d)
    requires Sanitized(la, a, d, |d.properties|) && Sanitized(lb, b, d, |d.properties|) && Plain(la) && Plain(lb)
    ensures KeyOf(la) == KeyOf(lb) <==> SameExpectations(a, b, d)
  {
    forall p | p in d.properties && p.name in d.required
      ensures CommaFree(p.name)
    {
      RequiredIsExpected(p, la, a, d);
      if !CommaFree(p.name) {
        PlainHasNoCommas(la, p.name);
      }
    }
    if Declares(d, "_key") {
      OwnKeyIsAll(a, b, d, la, lb);
    } else {
      UndeclaredKeyIsComputed(la, a, d);
      UndeclaredKeyIsComputed(lb, b, d);
      PrintsAgreeExactly(a, b, d, la, lb);
    }
  }

  function Remove(fields: seq<Field>, name: string): (r: seq<Field>)
    ensures forall f :: f in r <==> f in fields && f.name != name
    ensures DistinctNames(fields) ==> DistinctNames(r)
  {
    if fields == [] then []
    else
      assert fields == [fields[0]] + fields[1..];
      var rest := Remove(fields[1..], name);
      assert DistinctNames(fields) ==> forall i :: 0 <= i < |rest| ==> rest[i] in rest;
      if fields[0].name == name then rest else [fields[0]] + rest
  }

  /** The unregistered branch: a stale `_key` is dropped first, so for plain identifiers the new
      key depends exactly on the other properties. */
  lemma UnregisteredKeyIdentifies(a: seq<Field>, b: seq<Field>)
    requires Plain(a) && Plain(b)
    ensures KeyOf(Remove(a, "_key")) == KeyOf(Remove(b, "_key"))
            <==> SameObject(Remove(a, "_key"), Remove(b, "_key"))
  {
    var ra, rb := Remove(a, "_key"), Remove(b, "_key");
    RemovePlain(a);
    RemovePlain(b);
    KeyIdentifiesPlainObjects(ra, rb);
  }

  lemma RemovePlain(a: seq<Field>)
    requires Plain(a)
    ensures Plain(Remove(a, "_key"))
    ensures Lookup(Remove(a, "_key"), "_key") == None
  {
    var r := Remove(a, "_key");
    forall i | 0 <= i < |r|
      ensures r[i].value.Str? && CommaFree(r[i].name) && r[i].name != "_key"
    {
      assert r[i] in r;
      var j :| 0 <= j < |a| && a[j] == r[i];
    }
  }
}
