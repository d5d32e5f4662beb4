/** An optional value, as `undefined` or a missing map entry stands for none. */
module Options {
  datatype Option<T> = None | Some(value: T)

  function Lookup<K, V>(m: map<K, V>, key: K): Option<V> {
    if key in m then Some(m[key]) else None
  }
}

/** Lists without duplicates, and taking an element out of a list. */
module Sequences {

  predicate Distinct<T(==)>(s: seq<T>) {
    forall i, j :: 0 <= i < j < |s| ==> s[i] != s[j]
  }

  /** The first occurrence of `x` taken out. */
  function Without<T(==)>(s: seq<T>, x: T): (r: seq<T>)
    ensures forall y :: y in r ==> y in s
  {
    if s == [] then [] else if s[0] == x then s[1..] else [s[0]] + Without(s[1..], x)
  }

  lemma {:induction false} WithoutOne<T>(s: seq<T>, x: T)
    requires Distinct(s)
    ensures Distinct(Without(s, x))
    ensures forall y :: y in Without(s, x) <==> y in s && y != x
  {
    if s != [] {
      WithoutOne(s[1..], x);
      assert s == [s[0]] + s[1..];
      var rest := Without(s[1..], x);
      assert s[0] !in s[1..];
      assert s[0] !in rest;
      assert forall k :: 0 <= k < |rest| ==> rest[k] in rest;
    }
  }

  lemma SameTails<T>(g: T, s: seq<T>, h: T, t: seq<T>)
    ensures [g] + s == [h] + t <==> g == h && s == t
  {
    if [g] + s == [h] + t {
      assert ([g] + s)[0] == ([h] + t)[0];
      assert ([g] + s)[1..] == s && ([h] + t)[1..] == t;
    }
  }

  /** Taking out what is not there changes nothing. */
  lemma {:induction false} WithoutChanges<T>(s: seq<T>, x: T)
    ensures Without(s, x) == s <==> x !in s
  {
    if s != [] && s[0] != x {
      WithoutChanges(s[1..], x);
      SameTails(s[0], Without(s[1..], x), s[0], s[1..]);
      assert s == [s[0]] + s[1..];
    }
  }
}
