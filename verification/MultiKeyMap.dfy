/** A map of maps of fixed depth, against the one flat map it stands for. */
module MultiKeyMap {
  import opened Options
  import opened Sequences

  /** One JavaScript `Map` of the tree: inner maps above the last level, values on it, and the
      keys in insertion order. */
  class Level<K(==, !new), V(!new)> {
    var order: seq<K>
    var children: map<K, Level<K, V>>
    var values: map<K, V>
    /** The key prefix that leads here. */
    ghost const path: seq<K>

    constructor (ghost path: seq<K>)
      ensures order == [] && children == map[] && values == map[] && this.path == path
    {
      order, children, values, this.path := [], map[], map[], path;
    }

    ghost function Data(): LevelData<K, Level<K, V>, V>
      reads this
    {
      LevelData(order, children, values)
    }
  }

  datatype Result<T> = Ok(value: T) | InappropriateLength(given: nat, expected: nat)

  /** The one key a deletion can remove: one element short, the last element stands in for the
      missing one; shorter still, nothing is removed (no full key is returned). */
  function DeleteTarget<K>(keyLength: nat, key: seq<K>): (target: seq<K>) {
    if |key| == keyLength then key
    else if |key| == keyLength - 1 && key != [] then key + [key[|key| - 1]]
    else []
  }

  /** What `has` answers: a full key is looked up in the flat map; a shorter one is found when it
      is not empty and a key under it was ever set. */
  ghost predicate FoundByHas<K(!new), V>(contents: map<seq<K>, V>, everSet: set<seq<K>>, keyLength: nat, key: seq<K>) {
    if |key| == keyLength then key in contents else key != [] && SomeUnder(everSet, key)
  }

  /** One change to a map: the full key it was set at, or the one key its deletion aimed at. */
  datatype Change<K> = WasSet(key: seq<K>) | WasDeleted(key: seq<K>)

  /** The keys with an entry after a history of changes. */
  ghost function KeysAfter<K>(log: seq<Change<K>>): set<seq<K>> {
    if log == [] then {}
    else
      var before := KeysAfter(log[..|log| - 1]);
      match log[|log| - 1]
      case WasSet(key) => before + {key}
      case WasDeleted(key) => before - {key}
  }

  ghost function EverSetIn<K>(log: seq<Change<K>>): set<seq<K>> {
    if log == [] then {}
    else EverSetIn(log[..|log| - 1]) + (if log[|log| - 1].WasSet? then {log[|log| - 1].key} else {})
  }

  /** The key was set, and not deleted after it was last set. */
  ghost predicate Survives<K(!new)>(log: seq<Change<K>>, key: seq<K>) {
    exists i :: 0 <= i < |log| && log[i] == WasSet(key) && forall j :: i < j < |log| ==> log[j] != WasDeleted(key)
  }

  lemma OneChange<K>(log: seq<Change<K>>, change: Change<K>)
    ensures change.WasSet? ==>
      KeysAfter(log + [change]) == KeysAfter(log) + {change.key} && EverSetIn(log + [change]) == EverSetIn(log) + {change.key}
    ensures change.WasDeleted? ==>
      KeysAfter(log + [change]) == KeysAfter(log) - {change.key} && EverSetIn(log + [change]) == EverSetIn(log)
  {
    assert (log + [change])[..|log|] == log;
  }

  lemma SurvivesOneMore<K(!new)>(log: seq<Change<K>>, change: Change<K>, key: seq<K>)
    ensures Survives(log + [change], key) <==> change == WasSet(key) || (change != WasDeleted(key) && Survives(log, key))
  {
    var after := log + [change];
    if change == WasSet(key) {
      assert after[|log|] == WasSet(key);
    } else if change != WasDeleted(key) && Survives(log, key) {
      var i :| 0 <= i < |log| && log[i] == WasSet(key) && forall j :: i < j < |log| ==> log[j] != WasDeleted(key);
      assert after[i] == WasSet(key);
    } else if Survives(after, key) {
      var i :| 0 <= i < |after| && after[i] == WasSet(key) && forall j :: i < j < |after| ==> after[j] != WasDeleted(key);
      SurvivedBefore(log, change, key, i);
    }
  }

  lemma SurvivedBefore<K(!new)>(log: seq<Change<K>>, change: Change<K>, key: seq<K>, i: nat)
    requires i <= |log| && (log + [change])[i] == WasSet(key)
    requires forall j :: i < j <= |log| ==> (log + [change])[j] != WasDeleted(key)
    ensures change == WasSet(key) || (change != WasDeleted(key) && Survives(log, key))
  {
    if i < |log| {
      assert log[i] == WasSet(key);
      assert forall j :: i < j < |log| ==> log[j] == (log + [change])[j];
      assert (log + [change])[|log|] == change;
    }
  }

  /** There is an entry exactly where a key survives. */
  lemma {:induction false} EntriesSurvive<K(!new)>(log: seq<Change<K>>, key: seq<K>)
    ensures key in KeysAfter(log) <==> Survives(log, key)
  {
    if log != [] {
      var before, last := log[..|log| - 1], log[|log| - 1];
      assert log == before + [last];
      EntriesSurvive(before, key);
      SurvivesOneMore(before, last, key);
      OneChange(before, last);
    }
  }

  lemma {:induction false} EverSetMeaning<K(!new)>(log: seq<Change<K>>, key: seq<K>)
    ensures key in EverSetIn(log) <==> WasSet(key) in log
  {
    if log != [] {
      EverSetMeaning(log[..|log| - 1], key);
      assert log == log[..|log| - 1] + [log[|log| - 1]];
    }
  }

  /** `x` is before `y` in the list. */
  ghost predicate ComesBefore<T>(s: seq<T>, x: T, y: T) {
    exists i, j :: 0 <= i < j < |s| && s[i] == x && s[j] == y
  }

  lemma SamePath<T>(q: seq<T>, j: T, p: seq<T>, k: T)
    ensures q + [j] == p + [k] ==> q == p && j == k
  {
    if q + [j] == p + [k] {
      assert |q + [j]| == |p + [k]|;
      assert q == (q + [j])[..|q|] && p == (p + [k])[..|p|];
      assert (q + [j])[|q|] == (p + [k])[|p|];
    }
  }

  /** What a level holds, as a value. */
  datatype LevelData<K(!new), N, V> = LevelData(order: seq<K>, children: map<K, N>, values: map<K, V>)

  /** The key `k` at the path `p`: listed exactly when it leads to a level or, on the last level,
      to an entry, and then to the right one. */
  ghost predicate KeyOk<K(!new), N, V>(p: seq<K>, keyLength: nat, d: LevelData<K, N, V>,
      nodes: map<seq<K>, N>, contents: map<seq<K>, V>, k: K) {
    if |p| < keyLength - 1 then
      && k !in d.values
      && (k in d.order <==> k in d.children)
      && (k in d.children <==> p + [k] in nodes)
      && (k in d.children ==> d.children[k] == nodes[p + [k]])
    else
      && k !in d.children
      && (k in d.order <==> k in d.values)
      && (k in d.values <==> p + [k] in contents)
      && (k in d.values ==> d.values[k] == contents[p + [k]])
  }

  ghost function WrongKeys<K(!new), N, V>(p: seq<K>, keyLength: nat, d: LevelData<K, N, V>,
      nodes: map<seq<K>, N>, contents: map<seq<K>, V>): iset<K> {
    iset k | !KeyOk(p, keyLength, d, nodes, contents, k)
  }

  /** The level at `p` holds what the other levels and the flat map say. */
  ghost predicate DataOk<K(!new), N, V>(p: seq<K>, keyLength: nat, d: LevelData<K, N, V>,
      nodes: map<seq<K>, N>, contents: map<seq<K>, V>) {
    Distinct(d.order) && WrongKeys(p, keyLength, d, nodes, contents) == iset{}
  }

  lemma NoKeyIsWrong<K(!new), N, V>(p: seq<K>, keyLength: nat, d: LevelData<K, N, V>,
      nodes: map<seq<K>, N>, contents: map<seq<K>, V>, k: K)
    requires DataOk(p, keyLength, d, nodes, contents)
    ensures KeyOk(p, keyLength, d, nodes, contents, k)
  {
    assert k !in WrongKeys(p, keyLength, d, nodes, contents);
  }

  /** Keys unlike `p + [k]` are met by no other step from `p`, and by none from another path. */
  lemma StepsDiffer<K(!new)>(q: seq<K>, p: seq<K>, k: K)
    ensures forall j :: q + [j] == p + [k] ==> q == p && j == k
  {
    forall j
      ensures q + [j] == p + [k] ==> q == p && j == k
    {
      SamePath(q, j, p, k);
    }
  }

  lemma LevelAdded<K(!new), N, V>(p: seq<K>, keyLength: nat, d: LevelData<K, N, V>,
      nodes: map<seq<K>, N>, contents: map<seq<K>, V>, k: K, child: N)
    requires DataOk(p, keyLength, d, nodes, contents) && |p| < keyLength - 1 && p + [k] !in nodes
    ensures DataOk(p, keyLength, LevelData(d.order + [k], d.children[k := child], d.values), nodes[p + [k] := child], contents)
  {
    NoKeyIsWrong(p, keyLength, d, nodes, contents, k);
    StepsDiffer(p, p, k);
    var after := LevelData(d.order + [k], d.children[k := child], d.values);
    var nodesAfter := nodes[p + [k] := child];
    forall j
      ensures j !in WrongKeys(p, keyLength, after, nodesAfter, contents)
    {
      NoKeyIsWrong(p, keyLength, d, nodes, contents, j);
    }
  }

  /** A key set again keeps its place, a new one goes last. */
  function Listed<K(==)>(order: seq<K>, k: K): seq<K> {
    if k in order then order else order + [k]
  }

  lemma EntrySet<K(!new), N, V>(p: seq<K>, keyLength: nat, d: LevelData<K, N, V>,
      nodes: map<seq<K>, N>, contents: map<seq<K>, V>, k: K, v: V)
    requires DataOk(p, keyLength, d, nodes, contents) && |p| >= keyLength - 1
    ensures k in d.order <==> k in d.values
    ensures DataOk(p, keyLength, LevelData(Listed(d.order, k), d.children, d.values[k := v]), nodes, contents[p + [k] := v])
  {
    NoKeyIsWrong(p, keyLength, d, nodes, contents, k);
    StepsDiffer(p, p, k);
    var after := LevelData(Listed(d.order, k), d.children, d.values[k := v]);
    var contentsAfter := contents[p + [k] := v];
    forall j
      ensures j !in WrongKeys(p, keyLength, after, nodes, contentsAfter)
    {
      NoKeyIsWrong(p, keyLength, d, nodes, contents, j);
    }
  }

  lemma EntryRemoved<K(!new), N, V>(p: seq<K>, keyLength: nat, d: LevelData<K, N, V>,
      nodes: map<seq<K>, N>, contents: map<seq<K>, V>, k: K)
    requires DataOk(p, keyLength, d, nodes, contents) && |p| >= keyLength - 1
    ensures k in d.values <==> p + [k] in contents
    ensures DataOk(p, keyLength, LevelData(Without(d.order, k), d.children, d.values - {k}), nodes, contents - {p + [k]})
  {
    NoKeyIsWrong(p, keyLength, d, nodes, contents, k);
    StepsDiffer(p, p, k);
    WithoutOne(d.order, k);
    var after := LevelData(Without(d.order, k), d.children, d.values - {k});
    forall j
      ensures j !in WrongKeys(p, keyLength, after, nodes, contents - {p + [k]})
    {
      NoKeyIsWrong(p, keyLength, d, nodes, contents, j);
    }
  }

  /** A change of the levels or entries at a path one step below `p` does not concern other levels. */
  lemma ChangedElsewhere<K(!new), N, V>(q: seq<K>, keyLength: nat, d: LevelData<K, N, V>,
      nodes: map<seq<K>, N>, contents: map<seq<K>, V>, p: seq<K>, k: K,
      nodesAfter: map<seq<K>, N>, contentsAfter: map<seq<K>, V>)
    requires DataOk(q, keyLength, d, nodes, contents) && q != p
    requires forall key :: key != p + [k] ==> (key in nodesAfter <==> key in nodes) && (key in contentsAfter <==> key in contents)
    requires forall key :: key != p + [k] && key in nodes ==> nodesAfter[key] == nodes[key]
    requires forall key :: key != p + [k] && key in contents ==> contentsAfter[key] == contents[key]
    ensures DataOk(q, keyLength, d, nodesAfter, contentsAfter)
  {
    StepsDiffer(q, p, k);
    forall j
      ensures j !in WrongKeys(q, keyLength, d, nodesAfter, contentsAfter)
    {
      NoKeyIsWrong(q, keyLength, d, nodes, contents, j);
    }
  }

  /** A level nothing has been put in yet has nothing below it. */
  lemma NewLevelIsEmpty<K(!new), N, V>(q: seq<K>, keyLength: nat, nodes: map<seq<K>, N>, contents: map<seq<K>, V>, child: N)
    requires forall j :: q + [j] !in nodes && q + [j] !in contents
    ensures DataOk(q, keyLength, LevelData([], map[], map[]), nodes[q := child], contents)
  {
    assert forall j :: |q + [j]| > |q|;
  }

  ghost predicate SomeUnder<K(!new)>(keys: set<seq<K>>, p: seq<K>) {
    exists key :: key in keys && p <= key
  }

  /** Levels exist for exactly the prefixes of keys that were set at some time. */
  ghost predicate LevelsRecord<K(!new)>(levels: set<seq<K>>, everSet: set<seq<K>>, keyLength: nat) {
    && (forall key :: key in everSet ==> |key| == keyLength)
    && (forall p :: p in levels && p != [] ==> SomeUnder(everSet, p))
    && (forall p, key :: key in everSet && p <= key && |p| < keyLength ==> p in levels)
  }

  lemma RecordGrows<K(!new)>(levels: set<seq<K>>, everSet: set<seq<K>>, keyLength: nat, more: set<seq<K>>, key: seq<K>)
    requires LevelsRecord(levels, everSet, keyLength) && |key| == keyLength && levels <= more
    requires forall p :: p in more ==> p in levels || p <= key
    requires forall j :: 0 <= j < keyLength ==> key[..j] in more
    ensures LevelsRecord(more, everSet + {key}, keyLength)
  {
    forall p | p in more && p != []
      ensures SomeUnder(everSet + {key}, p)
    {
      if p in levels {
        var under :| under in everSet && p <= under;
        assert under in everSet + {key};
      } else {
        assert key in everSet + {key};
      }
    }
    forall p | p <= key && |p| < keyLength
      ensures p in more
    {
      assert p == key[..|p|];
    }
  }

  /** `a` is one step below the path `p`. */
  predicate IsStep<K(==)>(p: seq<K>, a: seq<K>) {
    |a| == |p| + 1 && a[..|p|] == p
  }

  /** The steps below `p` on a trail of paths, in its order. */
  ghost function StepsFrom<K>(trail: seq<seq<K>>, p: seq<K>): seq<K> {
    if trail == [] then []
    else (if IsStep(p, trail[0]) then [trail[0][|p|]] else []) + StepsFrom(trail[1..], p)
  }

  lemma {:induction false} StepsAppended<K>(trail: seq<seq<K>>, a: seq<K>, p: seq<K>)
    ensures StepsFrom(trail + [a], p) == StepsFrom(trail, p) + if IsStep(p, a) then [a[|p|]] else []
  {
    if trail == [] {
      assert (trail + [a])[1..] == [];
    } else {
      StepsAppended(trail[1..], a, p);
      assert (trail + [a])[1..] == trail[1..] + [a];
      AppendedBehind(if IsStep(p, trail[0]) then [trail[0][|p|]] else [], StepsFrom(trail[1..], p),
                     if IsStep(p, a) then [a[|p|]] else []);
    }
  }

  lemma AppendedBehind<T>(a: seq<T>, b: seq<T>, c: seq<T>)
    ensures a + (b + c) == (a + b) + c
  {
  }

  lemma StepIsExtension<K>(p: seq<K>, a: seq<K>)
    requires IsStep(p, a)
    ensures a == p + [a[|p|]]
  {
  }

  lemma {:induction false} StepsWithout<K>(trail: seq<seq<K>>, a: seq<K>, p: seq<K>)
    ensures StepsFrom(Without(trail, a), p)
            == if IsStep(p, a) then Without(StepsFrom(trail, p), a[|p|]) else StepsFrom(trail, p)
  {
    if trail != [] {
      var first, rest := trail[0], StepsFrom(trail[1..], p);
      if first == a {
        assert [] + rest == rest;
        assert IsStep(p, a) ==> ([a[|p|]] + rest)[1..] == rest;
      } else {
        StepsWithout(trail[1..], a, p);
        assert ([first] + Without(trail[1..], a))[1..] == Without(trail[1..], a);
        assert [] + rest == rest;
        if IsStep(p, first) {
          StepIsExtension(p, first);
          assert ([first[|p|]] + rest)[1..] == rest;
          if IsStep(p, a) {
            StepIsExtension(p, a);
          }
        }
      }
    }
  }

  lemma {:induction false} StepsAreOnTrail<K>(trail: seq<seq<K>>, p: seq<K>, k: K)
    ensures k in StepsFrom(trail, p) <==> p + [k] in trail
  {
    if trail != [] {
      StepsAreOnTrail(trail[1..], p, k);
      assert trail == [trail[0]] + trail[1..];
      assert IsStep(p, p + [k]) && (p + [k])[|p|] == k;
      if IsStep(p, trail[0]) {
        StepIsExtension(p, trail[0]);
      }
    }
  }

  /** The places of a trail that are no step below a level. */
  ghost function Strays<K>(trail: seq<seq<K>>, levels: set<seq<K>>): set<seq<K>> {
    set a | a in trail && !(a != [] && a[..|a| - 1] in levels)
  }

  lemma {:induction false} NoSteps<K>(trail: seq<seq<K>>, p: seq<K>)
    requires forall a :: a in trail ==> !IsStep(p, a)
    ensures StepsFrom(trail, p) == []
  {
    if trail != [] {
      assert trail[0] in trail && forall a :: a in trail[1..] ==> a in trail;
      NoSteps(trail[1..], p);
    }
  }

  lemma NoStepsYet<K>(trail: seq<seq<K>>, levels: set<seq<K>>, q: seq<K>)
    requires Strays(trail, levels) == {} && q !in levels
    ensures StepsFrom(trail, q) == []
  {
    forall a | a in trail
      ensures !IsStep(q, a)
    {
      assert a !in Strays(trail, levels);
    }
    NoSteps(trail, q);
  }

  /** The paths whose keys are not listed in the order of the trail. */
  ghost function Misordered<K>(orders: map<seq<K>, seq<K>>, trail: seq<seq<K>>): set<seq<K>> {
    set p | p in orders && orders[p] != StepsFrom(trail, p)
  }

  ghost predicate InOrder<K>(orders: map<seq<K>, seq<K>>, trail: seq<seq<K>>) {
    Misordered(orders, trail) == {} && Strays(trail, orders.Keys) == {}
  }

  lemma OrderAt<K>(orders: map<seq<K>, seq<K>>, trail: seq<seq<K>>, p: seq<K>)
    requires InOrder(orders, trail) && p in orders
    ensures orders[p] == StepsFrom(trail, p)
  {
    assert p !in Misordered(orders, trail);
  }

  /** A step is listed last below its path, and added to the trail. */
  lemma StepAdded<K(!new)>(orders: map<seq<K>, seq<K>>, trail: seq<seq<K>>, p: seq<K>, a: seq<K>)
    requires InOrder(orders, trail) && p in orders && IsStep(p, a)
    ensures InOrder(orders[p := orders[p] + [a[|p|]]], trail + [a])
    ensures a !in orders ==> InOrder(orders[p := orders[p] + [a[|p|]]][a := []], trail + [a])
  {
    var more := orders[p := orders[p] + [a[|p|]]];
    forall q
      ensures q !in Misordered(more, trail + [a])
      ensures a !in orders ==> q !in Misordered(more[a := []], trail + [a])
    {
      StepsAppended(trail, a, q);
      assert StepsFrom(trail, q) + [] == StepsFrom(trail, q);
      if q in orders {
        OrderAt(orders, trail, q);
      } else if q == a {
        NoStepsYet(trail, orders.Keys, a);
      }
    }
    forall b
      ensures b !in Strays(trail + [a], more.Keys) && b !in Strays(trail + [a], more[a := []].Keys)
    {
      assert b !in Strays(trail, orders.Keys);
      assert b in trail + [a] ==> b in trail || b == a;
    }
  }

  /** A step is dropped below its path, and taken off the trail. */
  lemma StepDropped<K(!new)>(orders: map<seq<K>, seq<K>>, trail: seq<seq<K>>, p: seq<K>, a: seq<K>)
    requires InOrder(orders, trail) && p in orders && IsStep(p, a)
    ensures InOrder(orders[p := Without(orders[p], a[|p|])], Without(trail, a))
  {
    var less := orders[p := Without(orders[p], a[|p|])];
    forall q
      ensures q !in Misordered(less, Without(trail, a))
    {
      StepsWithout(trail, a, q);
      if q in orders {
        OrderAt(orders, trail, q);
      }
    }
    forall b
      ensures b !in Strays(Without(trail, a), less.Keys)
    {
      assert b !in Strays(trail, orders.Keys);
    }
  }

  /** A trail after a key was set: the prefixes of the key that were not on it, and then the key
      itself, are added in this order. */
  ghost function Trodden<K>(trail: seq<seq<K>>, key: seq<K>, n: nat): seq<seq<K>>
    requires n <= |key|
  {
    if n == 0 then trail
    else
      WithStep(Trodden(trail, key, n - 1), key[..n])
  }

  /** A step that is not yet on the trail goes to its end. */
  ghost function WithStep<K>(trail: seq<seq<K>>, path: seq<K>): seq<seq<K>> {
    if path in trail then trail else trail + [path]
  }

  /** A trail after a full key was set. */
  ghost function AfterSetting<K>(trail: seq<seq<K>>, key: seq<K>, keyLength: nat): seq<seq<K>>
    requires keyLength == |key| > 0
  {
    WithStep(Trodden(trail, key, keyLength - 1), key)
  }

  lemma AfterSettingIsTrodden<K>(trail: seq<seq<K>>, key: seq<K>)
    requires key != []
    ensures AfterSetting(trail, key, |key|) == Trodden(trail, key, |key|)
  {
    assert key[..|key|] == key;
  }

  lemma {:induction false} TreadingKeepsOrder<K>(trail: seq<seq<K>>, key: seq<K>, n: nat, p: seq<K>)
    requires n <= |key|
    ensures StepsFrom(trail, p) <= StepsFrom(Trodden(trail, key, n), p)
  {
    if n > 0 {
      TreadingKeepsOrder(trail, key, n - 1, p);
      StepsAppended(Trodden(trail, key, n - 1), key[..n], p);
    }
  }

  /** Setting a key never changes the order of what was there: it only adds steps at the end. */
  lemma SettingKeepsOrder<K>(trail: seq<seq<K>>, key: seq<K>, p: seq<K>)
    requires key != []
    ensures StepsFrom(trail, p) <= StepsFrom(AfterSetting(trail, key, |key|), p)
  {
    AfterSettingIsTrodden(trail, key);
    TreadingKeepsOrder(trail, key, |key|, p);
  }

  lemma AddedBehind<T>(before: seq<T>, after: seq<T>, x: T, y: T)
    requires before <= after && x in before && y in after && y !in before
    ensures ComesBefore(after, x, y)
  {
    var i :| 0 <= i < |before| && before[i] == x;
    var j :| 0 <= j < |after| && after[j] == y;
    assert after[i] == x && j >= |before|;
  }

  lemma NewStepTrodden<K>(trail: seq<seq<K>>, key: seq<K>, p: seq<K>, x: K)
    requires |p| < |key| && p == key[..|p|]
    requires p + [key[|p|]] !in trail && p + [x] in trail
    ensures ComesBefore(StepsFrom(Trodden(trail, key, |key|), p), x, key[|p|])
  {
    var n, y := |p| + 1, key[|p|];
    var before, after := StepsFrom(trail, p), StepsFrom(Trodden(trail, key, |key|), p);
    TreadingKeepsOrder(trail, key, |key|, p);
    OneLonger(key, |p|);
    TroddenIsThere(trail, key, |key|, n);
    StepsAreOnTrail(trail, p, x);
    StepsAreOnTrail(trail, p, y);
    StepsAreOnTrail(Trodden(trail, key, |key|), p, y);
    AddedBehind(before, after, x, y);
  }

  /** A step that a key takes for the first time comes after every step taken from there before. */
  lemma NewStepComesLast<K>(trail: seq<seq<K>>, key: seq<K>, p: seq<K>, x: K)
    requires |p| < |key| && p == key[..|p|]
    requires p + [key[|p|]] !in trail && p + [x] in trail
    ensures ComesBefore(StepsFrom(AfterSetting(trail, key, |key|), p), x, key[|p|])
  {
    NewStepTrodden(trail, key, p, x);
    AfterSettingIsTrodden(trail, key);
  }

  lemma {:induction false} TroddenIsThere<K>(trail: seq<seq<K>>, key: seq<K>, n: nat, m: nat)
    requires 0 < m <= n <= |key|
    ensures key[..m] in Trodden(trail, key, n)
  {
    if m < n {
      TroddenIsThere(trail, key, n - 1, m);
    }
  }

  /** Deleting an entry never changes the order of the others. */
  lemma DeletingKeepsOrder<K>(trail: seq<seq<K>>, target: seq<K>, p: seq<K>, x: K, y: K)
    requires ComesBefore(StepsFrom(trail, p), x, y) && p + [x] != target && p + [y] != target
    ensures ComesBefore(StepsFrom(Without(trail, target), p), x, y)
  {
    StepsWithout(trail, target, p);
    if IsStep(p, target) {
      StepIsExtension(p, target);
      OrderWithout(StepsFrom(trail, p), target[|p|], x, y);
    }
  }

  lemma {:induction false} OrderWithout<T>(s: seq<T>, z: T, x: T, y: T)
    requires ComesBefore(s, x, y) && z != x && z != y
    ensures ComesBefore(Without(s, z), x, y)
  {
    var i, j :| 0 <= i < j < |s| && s[i] == x && s[j] == y;
    var rest := s[1..];
    if s[0] == z {
      assert rest[i - 1] == x && rest[j - 1] == y;
    } else {
      if i > 0 {
        assert rest[i - 1] == x && rest[j - 1] == y;
        OrderWithout(rest, z, x, y);
        Shifted(s[0], Without(rest, z), x, y);
      } else {
        assert rest[j - 1] == y;
        OthersStay(rest, z, y);
        FirstIsBefore(x, Without(rest, z), y);
      }
    }
  }

  lemma FirstIsBefore<T>(x: T, s: seq<T>, y: T)
    requires y in s
    ensures ComesBefore([x] + s, x, y)
  {
    var j :| 0 <= j < |s| && s[j] == y;
    assert ([x] + s)[0] == x && ([x] + s)[j + 1] == y;
  }

  lemma Shifted<T>(first: T, s: seq<T>, x: T, y: T)
    ensures ComesBefore(s, x, y) ==> ComesBefore([first] + s, x, y)
  {
    if ComesBefore(s, x, y) {
      var i, j :| 0 <= i < j < |s| && s[i] == x && s[j] == y;
      assert ([first] + s)[i + 1] == x && ([first] + s)[j + 1] == y;
    }
  }

  lemma {:induction false} OthersStay<T>(s: seq<T>, z: T, y: T)
    requires y in s && y != z
    ensures y in Without(s, z)
  {
    if s[0] != z && s[0] != y {
      assert s == [s[0]] + s[1..];
      OthersStay(s[1..], z, y);
    } else if s[0] == z {
      assert s == [s[0]] + s[1..];
    }
  }

  lemma PrefixOfPrefix<K>(key: seq<K>, n: nat, depth: nat)
    requires n <= depth <= |key|
    ensures key[..depth][..n] == key[..n]
  {
  }

  lemma OneLonger<K>(key: seq<K>, i: nat)
    requires i < |key|
    ensures key[..i] + [key[i]] == key[..i + 1] && key[..i] + [key[i]] <= key
  {
  }

  lemma LastElement<K>(key: seq<K>)
    requires key != []
    ensures key == key[..|key| - 1] + [key[|key| - 1]]
  {
  }

  class MultiKeyMap<K(==, !new), V(!new)> {
    const keyLength: nat
    const rootMap: Level<K, V>

    /** The level reached by each key prefix. */
    ghost var nodes: map<seq<K>, Level<K, V>>
    /** The flat map. */
    ghost var contents: map<seq<K>, V>
    /** Every full key ever set. */
    ghost var everSet: set<seq<K>>
    /** The paths of the inner maps and the full keys that are present, each since when it is there. */
    ghost var trail: seq<seq<K>>
    /** All changes so far. */
    ghost var log: seq<Change<K>>

    /** What the level at `p` holds fits these levels and entries. */
    ghost predicate DataHolds(p: seq<K>, levels: map<seq<K>, Level<K, V>>, entries: map<seq<K>, V>)
      requires p in nodes
      reads this`nodes, nodes[p]
    {
      DataOk(p, keyLength, nodes[p].Data(), levels, entries)
    }

    ghost predicate LevelOk(p: seq<K>)
      requires p in nodes
      reads this`nodes, this`contents, nodes[p]
    {
      && |p| < keyLength && nodes[p].path == p
      && (p != [] ==> p[..|p| - 1] in nodes)
      && DataHolds(p, nodes, contents)
    }

    ghost predicate IsHeld(key: seq<K>)
      reads this`nodes
    {
      |key| == keyLength && keyLength >= 1 && key[..keyLength - 1] in nodes
    }

    /** The paths whose level disagrees with the rest of the tree. */
    ghost function Faults(): set<seq<K>>
      reads this`nodes, this`contents, nodes.Values
    {
      set p | p in nodes && !LevelOk(p)
    }

    /** The entries of the flat map that no level holds. */
    ghost function Orphans(): set<seq<K>>
      reads this`nodes, this`contents
    {
      set key | key in contents && !IsHeld(key)
    }

    ghost predicate Tree()
      reads this`nodes, this`contents, nodes.Values
    {
      keyLength >= 1 && [] in nodes && nodes[[]] == rootMap && Faults() == {} && Orphans() == {}
    }

    ghost function Orders(): map<seq<K>, seq<K>>
      reads this`nodes, nodes.Values
    {
      map p | p in nodes :: nodes[p].order
    }

    /** Every level lists its keys in the order of the trail. */
    ghost predicate Ordered()
      reads this`nodes, this`trail, nodes.Values
    {
      InOrder(Orders(), trail)
    }

    lemma LevelIsOrdered(p: seq<K>)
      requires Ordered() && p in nodes
      ensures nodes[p].order == StepsFrom(trail, p)
    {
      OrderAt(Orders(), trail, p);
    }

    lemma LevelIsOk(p: seq<K>)
      requires Tree() && p in nodes
      ensures LevelOk(p)
    {
      assert p !in Faults();
    }

    lemma KeyIsOk(p: seq<K>, k: K)
      requires Tree() && p in nodes
      ensures KeyOk(p, keyLength, nodes[p].Data(), nodes, contents, k)
    {
      LevelIsOk(p);
      NoKeyIsWrong(p, keyLength, nodes[p].Data(), nodes, contents, k);
    }

    lemma AllIsWell()
      requires Tree()
      ensures forall p :: p in nodes ==> LevelOk(p)
      ensures forall key :: key in contents ==> IsHeld(key)
    {
      forall p | p in nodes
        ensures LevelOk(p)
      {
        LevelIsOk(p);
      }
      forall key | key in contents
        ensures IsHeld(key)
      {
        EntryIsHeld(key);
      }
    }

    lemma NoFaults()
      requires forall p :: p in nodes ==> LevelOk(p)
      ensures Faults() == {}
    {
    }

    /** No two paths lead to one level. */
    lemma LevelIsUnique(p: seq<K>)
      requires Tree() && p in nodes
      ensures forall q :: q in nodes && q != p ==> nodes[q] != nodes[p]
    {
      LevelIsOk(p);
      forall q | q in nodes && q != p
        ensures nodes[q] != nodes[p]
      {
        LevelIsOk(q);
      }
    }

    lemma PathIsShort(p: seq<K>)
      requires Tree() && p in nodes
      ensures |p| < keyLength
    {
      LevelIsOk(p);
    }

    lemma EntryIsHeld(key: seq<K>)
      requires Tree() && key in contents
      ensures IsHeld(key)
    {
      assert key !in Orphans();
    }

    /** The tree stands for the flat map, and its levels for the keys ever set. */
    ghost predicate Sound()
      reads this`nodes, this`contents, this`everSet, this`trail, nodes.Values
    {
      Tree() && Ordered() && contents.Keys <= everSet && LevelsRecord(nodes.Keys, everSet, keyLength)
    }

    /** Flat map and keys ever set are what the changes so far make of them. */
    ghost predicate Recorded()
      reads this`contents, this`everSet, this`log
    {
      contents.Keys == KeysAfter(log) && everSet == EverSetIn(log)
    }

    ghost predicate Valid()
      reads this, nodes.Values
    {
      Sound() && Recorded()
    }

    constructor (keyLength: nat)
      requires keyLength >= 1
      ensures Valid() && this.keyLength == keyLength && contents == map[] && everSet == {} && trail == [] && log == []
      ensures forall p :: p in nodes ==> fresh(nodes[p])
    {
      this.keyLength := keyLength;
      var root := new Level<K, V>([]);
      rootMap := root;
      nodes, contents, everSet, trail, log := map[[] := root], map[], {}, [], [];
    }

    lemma NothingBelow(q: seq<K>)
      requires Tree() && q !in nodes && |q| < keyLength
      ensures forall j :: q + [j] !in nodes && q + [j] !in contents
    {
      forall j
        ensures q + [j] !in nodes && q + [j] !in contents
      {
        assert (q + [j])[..|q|] == q;
        if q + [j] in nodes {
          LevelIsOk(q + [j]);
        }
        if q + [j] in contents {
          EntryIsHeld(q + [j]);
        }
      }
    }

    lemma OnTrailWhenListed(p: seq<K>, k: K)
      requires Tree() && Ordered() && p in nodes
      ensures p + [k] in trail <==> k in nodes[p].children || k in nodes[p].values
      ensures k in nodes[p].order <==> k in nodes[p].children || k in nodes[p].values
    {
      KeyIsOk(p, k);
      LevelIsOrdered(p);
      StepsAreOnTrail(trail, p, k);
    }

    /** A new inner map under the key `k` of the level at `p`. */
    method AddLevel(level: Level<K, V>, ghost p: seq<K>, k: K) returns (child: Level<K, V>)
      requires Tree() && p in nodes && nodes[p] == level && |p| < keyLength - 1 && p + [k] !in nodes
      modifies this`nodes, level
      ensures fresh(child) && nodes == old(nodes)[p + [k] := child]
      ensures Tree() && level.order == old(level.order) + [k] && child.order == []
    {
      child := new Level<K, V>(p + [k]);
      assert nodes == old(nodes) && Tree();
      LinkLevel(level, p, k, child);
    }

    method LinkLevel(level: Level<K, V>, ghost p: seq<K>, k: K, child: Level<K, V>)
      requires Tree() && p in nodes && nodes[p] == level && |p| < keyLength - 1 && p + [k] !in nodes
      requires child !in nodes.Values && child.path == p + [k] && child.Data() == LevelData([], map[], map[])
      modifies this`nodes, level
      ensures nodes == old(nodes)[p + [k] := child]
      ensures Tree() && level.order == old(level.order) + [k]
    {
      ghost var path := p + [k];
      assert path[..|path| - 1] == p;
      ghost var after := nodes[path := child];
      AllIsWell();
      NothingBelow(path);
      NewLevelIsEmpty(path, keyLength, nodes, contents, child);
      LevelAdded(p, keyLength, level.Data(), nodes, contents, k, child);
      forall q | q in nodes && q != p
        ensures DataHolds(q, after, contents)
      {
        ChangedElsewhere(q, keyLength, nodes[q].Data(), nodes, contents, p, k, after, contents);
      }
      level.children := level.children[k := child];
      level.order := level.order + [k];
      nodes := after;
      assert LevelOk(p) && LevelOk(path);
      forall q | q in nodes && q != p && q != path
        ensures LevelOk(q)
      {
        assert q in old(nodes) && nodes[q] == old(nodes[q]) && nodes[q] != level;
        assert nodes[q].Data() == old(nodes[q].Data());
        assert DataHolds(q, after, contents);
      }
      NoFaults();
      forall key
        ensures key !in Orphans()
      {
        if key in contents {
          assert old(IsHeld(key));
        }
      }
    }

    /** The value `v` under the key `k` of the last level at `p`. */
    method PutValue(level: Level<K, V>, ghost p: seq<K>, k: K, v: V)
      requires Tree() && p in nodes && nodes[p] == level && |p| == keyLength - 1
      modifies this`contents, level
      ensures Tree() && contents == old(contents)[p + [k] := v]
      ensures level.order == Listed(old(level.order), k)
    {
      ghost var after := contents[p + [k] := v];
      assert (p + [k])[..|p|] == p;
      AllIsWell();
      EntrySet(p, keyLength, level.Data(), nodes, contents, k, v);
      forall q | q in nodes && q != p
        ensures DataHolds(q, nodes, after)
      {
        ChangedElsewhere(q, keyLength, nodes[q].Data(), nodes, contents, p, k, nodes, after);
      }
      if k !in level.values {
        level.order := level.order + [k];
      }
      level.values := level.values[k := v];
      contents := after;
      assert LevelOk(p);
      forall q | q in nodes && q != p
        ensures LevelOk(q)
      {
        assert DataHolds(q, nodes, after);
      }
      NoFaults();
    }

    method RemoveValue(level: Level<K, V>, ghost p: seq<K>, k: K) returns (present: bool)
      requires Tree() && p in nodes && nodes[p] == level && |p| == keyLength - 1
      modifies this`contents, level
      ensures Tree() && present == (p + [k] in old(contents)) && contents == old(contents) - {p + [k]}
      ensures level.order == Without(old(level.order), k)
    {
      ghost var after := contents - {p + [k]};
      AllIsWell();
      EntryRemoved(p, keyLength, level.Data(), nodes, contents, k);
      forall q | q in nodes && q != p
        ensures DataHolds(q, nodes, after)
      {
        ChangedElsewhere(q, keyLength, nodes[q].Data(), nodes, contents, p, k, nodes, after);
      }
      present := k in level.values;
      level.order := Without(level.order, k);
      level.values := level.values - {k};
      contents := after;
      assert LevelOk(p);
      forall q | q in nodes && q != p
        ensures LevelOk(q)
      {
        assert DataHolds(q, nodes, after);
      }
      NoFaults();
    }

    /** A new inner map, and its place on the trail. */
    method AddStep(level: Level<K, V>, ghost p: seq<K>, k: K) returns (child: Level<K, V>)
      requires Tree() && Ordered()
      requires p in nodes && nodes[p] == level && |p| < keyLength - 1 && p + [k] !in nodes
      modifies this`nodes, this`trail, level
      ensures fresh(child) && nodes == old(nodes)[p + [k] := child]
      ensures Tree() && Ordered() && trail == old(trail) + [p + [k]]
    {
      LevelIsUnique(p);
      ghost var a := p + [k];
      StepAdded(Orders(), trail, p, a);
      child := AddLevel(level, p, k);
      forall q | q in nodes && q != p && q != a
        ensures q in old(nodes) && nodes[q] == old(nodes[q]) && nodes[q] != level
      {
      }
      assert Orders() == old(Orders())[p := level.order][a := []];
      trail := trail + [a];
    }

    /** A value, and the place of a new key on the trail. */
    method PutStep(level: Level<K, V>, ghost p: seq<K>, k: K, v: V)
      requires Tree() && Ordered() && p in nodes && nodes[p] == level && |p| == keyLength - 1
      modifies this`contents, this`trail, level
      ensures Tree() && Ordered() && contents == old(contents)[p + [k] := v]
      ensures trail == WithStep(old(trail), p + [k])
    {
      LevelIsUnique(p);
      ghost var a := p + [k];
      OnTrailWhenListed(p, k);
      StepAdded(Orders(), trail, p, a);
      PutValue(level, p, k, v);
      if a !in trail {
        trail := trail + [a];
      }
      assert Orders() == old(Orders())[p := level.order];
      assert a in old(trail) ==> Orders() == old(Orders());
    }

    method RemoveStep(level: Level<K, V>, ghost p: seq<K>, k: K) returns (present: bool)
      requires Tree() && Ordered() && p in nodes && nodes[p] == level && |p| == keyLength - 1
      modifies this`contents, this`trail, level
      ensures Tree() && present == (p + [k] in old(contents)) && contents == old(contents) - {p + [k]}
      ensures Ordered() && trail == Without(old(trail), p + [k])
    {
      LevelIsUnique(p);
      StepDropped(Orders(), trail, p, p + [k]);
      present := RemoveValue(level, p, k);
      trail := Without(trail, p + [k]);
      assert Orders() == old(Orders())[p := level.order];
    }

    /** Every prefix of a level's path is a level's path. */
    lemma PrefixesAreLevels(p: seq<K>, n: nat)
      requires Tree() && p in nodes && n <= |p|
      ensures p[..n] in nodes
      decreases |p|
    {
      if n < |p| {
        LevelIsOk(p);
        assert p == p[..|p| - 1] + [p[|p| - 1]];
        PrefixesAreLevels(p[..|p| - 1], n);
        assert p[..|p| - 1][..n] == p[..n];
      } else {
        assert p[..n] == p;
      }
    }

    lemma ListedOnLast(p: seq<K>, i: nat)
      requires Tree() && p in nodes && |p| == keyLength - 1 && i < |nodes[p].order|
      ensures nodes[p].order[i] in nodes[p].values && p + [nodes[p].order[i]] in contents
      ensures nodes[p].values[nodes[p].order[i]] == contents[p + [nodes[p].order[i]]]
    {
      KeyIsOk(p, nodes[p].order[i]);
    }

    lemma ListedOnInner(p: seq<K>, i: nat)
      requires Tree() && p in nodes && |p| < keyLength - 1 && i < |nodes[p].order|
      ensures nodes[p].order[i] in nodes[p].children && p + [nodes[p].order[i]] in nodes
      ensures nodes[p].children[nodes[p].order[i]] == nodes[p + [nodes[p].order[i]]]
    {
      KeyIsOk(p, nodes[p].order[i]);
    }

    lemma NoLevelBelow(key: seq<K>, n: nat, depth: nat)
      requires Tree() && n <= depth && n <= |key| && key[..n] !in nodes
      ensures depth <= |key| ==> key[..depth] !in nodes
    {
      if depth <= |key| && key[..depth] in nodes {
        PrefixesAreLevels(key[..depth], n);
        assert false by {
          PrefixOfPrefix(key, n, depth);
        }
      }
    }

    lemma LastLevelHolds(p: seq<K>, k: K)
      requires Tree() && p in nodes && |p| == keyLength - 1
      ensures k in nodes[p].values <==> p + [k] in contents
      ensures k in nodes[p].values ==> nodes[p].values[k] == contents[p + [k]]
      ensures k !in nodes[p].children
    {
      KeyIsOk(p, k);
    }

    lemma InnerLevelHolds(p: seq<K>, k: K)
      requires Tree() && p in nodes && |p| < keyLength - 1
      ensures k in nodes[p].children <==> p + [k] in nodes
      ensures k in nodes[p].children ==> nodes[p].children[k] == nodes[p + [k]]
      ensures k !in nodes[p].values
    {
      KeyIsOk(p, k);
    }

    lemma EntriesAreInLevels(key: seq<K>)
      requires Tree() && |key| == keyLength && key[..keyLength - 1] !in nodes
      ensures key !in contents
    {
      if key in contents {
        EntryIsHeld(key);
      }
    }

    /** Down `depth` levels along `key`; a missing element of a short key is no key of any level. */
    method Descend(key: seq<K>, depth: nat) returns (level: Option<Level<K, V>>)
      requires Tree() && depth < keyLength
      ensures level.Some? <==> depth <= |key| && key[..depth] in nodes
      ensures level.Some? ==> level.value == nodes[key[..depth]]
    {
      var here := rootMap;
      for i := 0 to depth
        invariant i <= |key| && key[..i] in nodes && here == nodes[key[..i]]
      {
        if i >= |key| {
          return None;
        }
        InnerLevelHolds(key[..i], key[i]);
        OneLonger(key, i);
        if key[i] !in here.children {
          NoLevelBelow(key, i + 1, depth);
          return None;
        }
        here := here.children[key[i]];
      }
      return Some(here);
    }

    /** One level further on the way of a full key. */
    method NextLevel(level: Level<K, V>, key: seq<K>, i: nat) returns (next: Level<K, V>)
      requires Tree() && Ordered() && |key| == keyLength && i < keyLength - 1
      requires key[..i] in nodes && level == nodes[key[..i]]
      modifies this`nodes, this`trail, level
      ensures Tree() && Ordered() && key[..i + 1] in nodes && next == nodes[key[..i + 1]]
      ensures trail == WithStep(old(trail), key[..i + 1])
      ensures nodes == old(nodes) || (nodes == old(nodes)[key[..i + 1] := next] && fresh(next))
    {
      ghost var p := key[..i];
      InnerLevelHolds(p, key[i]);
      OnTrailWhenListed(p, key[i]);
      OneLonger(key, i);
      if key[i] in level.children {
        next := level.children[key[i]];
      } else {
        next := AddStep(level, p, key[i]);
      }
    }

    /** The last level on the way of a full key, with the levels that were missing on it. */
    method LevelFor(key: seq<K>) returns (level: Level<K, V>)
      requires Tree() && Ordered() && |key| == keyLength
      modifies this`nodes, this`trail, nodes.Values
      ensures Tree() && key[..keyLength - 1] in nodes && level == nodes[key[..keyLength - 1]]
      ensures Ordered() && trail == Trodden(old(trail), key, keyLength - 1)
      ensures forall j :: 0 <= j < keyLength ==> key[..j] in nodes
      ensures forall p :: p in nodes ==> p in old(nodes) || p <= key
      ensures old(nodes.Keys) <= nodes.Keys
      ensures forall p :: p in nodes ==> nodes[p] in old(nodes.Values) || fresh(nodes[p])
    {
      level := rootMap;
      for i := 0 to keyLength - 1
        invariant Tree() && Ordered() && trail == Trodden(old(trail), key, i)
        invariant key[..i] in nodes && level == nodes[key[..i]]
        invariant forall p :: p in nodes ==> p in old(nodes) || p <= key
        invariant old(nodes.Keys) <= nodes.Keys
        invariant forall p :: p in nodes ==> nodes[p] in old(nodes.Values) || fresh(nodes[p])
      {
        level := NextLevel(level, key, i);
      }
      forall j | 0 <= j < keyLength
        ensures key[..j] in nodes
      {
        PrefixesAreLevels(key[..keyLength - 1], j);
        PrefixOfPrefix(key, j, keyLength - 1);
      }
    }

    method Set(key: seq<K>, value: V) returns (r: Result<Option<V>>)
      requires Valid()
      modifies this`nodes, this`contents, this`everSet, this`trail, this`log, nodes.Values
      ensures Valid() && forall p :: p in nodes ==> nodes[p] in old(nodes.Values) || fresh(nodes[p])
      ensures |key| != keyLength ==>
        r == InappropriateLength(|key|, keyLength) && contents == old(contents) && everSet == old(everSet)
      ensures |key| != keyLength ==> trail == old(trail) && log == old(log)
      ensures |key| == keyLength ==> trail == AfterSetting(old(trail), key, keyLength) && log == old(log) + [WasSet(key)]
      ensures |key| == keyLength ==>
        && r == Ok(Lookup(old(contents), key))
        && contents == old(contents)[key := value]
        && everSet == old(everSet) + {key}
    {
      if keyLength != |key| {
        return InappropriateLength(|key|, keyLength);
      }
      var oldValue := SetEntry(key, value);
      OneChange(log, WasSet(key));
      log := log + [WasSet(key)];
      return Ok(oldValue);
    }

    method SetEntry(key: seq<K>, value: V) returns (oldValue: Option<V>)
      requires Sound() && |key| == keyLength
      modifies this`nodes, this`contents, this`everSet, this`trail, nodes.Values
      ensures Sound() && forall p :: p in nodes ==> nodes[p] in old(nodes.Values) || fresh(nodes[p])
      ensures trail == AfterSetting(old(trail), key, keyLength)
      ensures oldValue == Lookup(old(contents), key)
      ensures contents == old(contents)[key := value] && everSet == old(everSet) + {key}
    {
      var level := MakeWay(key);
      oldValue := PutEntry(level, key, value);
    }

    /** All that a full key needs before its entry. */
    method MakeWay(key: seq<K>) returns (level: Level<K, V>)
      requires Sound() && |key| == keyLength
      modifies this`nodes, this`everSet, this`trail, nodes.Values
      ensures Sound() && key[..keyLength - 1] in nodes && level == nodes[key[..keyLength - 1]]
      ensures forall p :: p in nodes ==> nodes[p] in old(nodes.Values) || fresh(nodes[p])
      ensures trail == Trodden(old(trail), key, keyLength - 1) && everSet == old(everSet) + {key}
    {
      level := LevelFor(key);
      RecordGrows(old(nodes.Keys), everSet, keyLength, nodes.Keys, key);
      everSet := everSet + {key};
    }

    /** An entry on its last level. */
    method PutEntry(level: Level<K, V>, key: seq<K>, value: V) returns (oldValue: Option<V>)
      requires Tree() && Ordered() && |key| == keyLength
      requires key[..keyLength - 1] in nodes && nodes[key[..keyLength - 1]] == level
      modifies this`contents, this`trail, level
      ensures Tree() && Ordered() && contents == old(contents)[key := value]
      ensures oldValue == Lookup(old(contents), key)
      ensures trail == WithStep(old(trail), key)
    {
      ghost var p := key[..keyLength - 1];
      var last := key[keyLength - 1];
      LastElement(key);
      LastLevelHolds(p, last);
      oldValue := if last in level.values then Some(level.values[last]) else None;
      PutStep(level, p, last, value);
    }

    method Get(key: seq<K>) returns (r: Result<Option<V>>)
      requires Valid()
      ensures r == if |key| == keyLength then Ok(Lookup(contents, key)) else InappropriateLength(|key|, keyLength)
    {
      if keyLength != |key| {
        return InappropriateLength(|key|, keyLength);
      }
      var level := Descend(key, keyLength - 1);
      if level.None? {
        EntriesAreInLevels(key);
        return Ok(None);
      }
      var last := key[keyLength - 1];
      LastElement(key);
      LastLevelHolds(key[..keyLength - 1], last);
      return Ok(if last in level.value.values then Some(level.value.values[last]) else None);
    }

    /** A full key is looked up in the flat map; a shorter one is found when a key under it was
        ever set, whether or not an entry is left there. */
    method Has(key: seq<K>) returns (r: Result<bool>)
      requires Valid()
      ensures |key| > keyLength ==> r == InappropriateLength(|key|, keyLength)
      ensures |key| <= keyLength ==> r == Ok(FoundByHas(contents, everSet, keyLength, key))
    {
      if keyLength < |key| {
        return InappropriateLength(|key|, keyLength);
      }
      if key == [] {
        return Ok(false);
      }
      var level := Descend(key, |key| - 1);
      ghost var p := key[..|key| - 1];
      var last := key[|key| - 1];
      LastElement(key);
      if level.None? {
        return Ok(false);
      }
      if |key| == keyLength {
        LastLevelHolds(p, last);
      } else {
        InnerLevelHolds(p, last);
      }
      return Ok(last in level.value.children || last in level.value.values);
    }

    lemma NothingToDelete(key: seq<K>)
      requires Tree() && Ordered() && |key| <= keyLength
      requires key == [] || |key| < keyLength - 1 || key[..keyLength - 1] !in nodes
      ensures DeleteTarget(keyLength, key) !in contents && DeleteTarget(keyLength, key) !in trail
    {
      var target := DeleteTarget(keyLength, key);
      if target in trail {
        assert target !in Strays(trail, Orders().Keys) && Orders().Keys == nodes.Keys;
        if keyLength - 1 <= |key| && key != [] {
          TargetIsInLevel(key);
        }
      }
      if target in contents {
        EntryIsHeld(target);
        if keyLength - 1 <= |key| && key != [] {
          TargetIsInLevel(key);
        }
      }
    }

    lemma TargetIsInLevel(key: seq<K>)
      requires keyLength >= 1 && keyLength - 1 <= |key| <= keyLength && key != []
      ensures DeleteTarget(keyLength, key) == key[..keyLength - 1] + [key[|key| - 1]]
    {
    }

    method Delete(key: seq<K>) returns (r: Result<bool>)
      requires Valid()
      modifies this`contents, this`trail, this`log, nodes.Values
      ensures Valid() && everSet == old(everSet) && nodes == old(nodes)
      ensures |key| > keyLength ==> r == InappropriateLength(|key|, keyLength) && contents == old(contents)
      ensures log == if |key| > keyLength then old(log) else old(log) + [WasDeleted(DeleteTarget(keyLength, key))]
      ensures trail == if |key| > keyLength then old(trail) else Without(old(trail), DeleteTarget(keyLength, key))
      ensures |key| <= keyLength ==>
        && r == Ok(DeleteTarget(keyLength, key) in old(contents))
        && contents == old(contents) - {DeleteTarget(keyLength, key)}
    {
      if keyLength < |key| {
        return InappropriateLength(|key|, keyLength);
      }
      var present := DeleteEntry(key);
      OneChange(log, WasDeleted(DeleteTarget(keyLength, key)));
      log := log + [WasDeleted(DeleteTarget(keyLength, key))];
      return Ok(present);
    }

    method DeleteEntry(key: seq<K>) returns (present: bool)
      requires Sound() && |key| <= keyLength
      modifies this`contents, this`trail, nodes.Values
      ensures Sound() && trail == Without(old(trail), DeleteTarget(keyLength, key))
      ensures present == (DeleteTarget(keyLength, key) in old(contents))
      ensures contents == old(contents) - {DeleteTarget(keyLength, key)}
    {
      var level := Descend(key, keyLength - 1);
      if level.None? || key == [] {
        NothingToDelete(key);
        WithoutChanges(trail, DeleteTarget(keyLength, key));
        return false;
      }
      ghost var p := key[..keyLength - 1];
      TargetIsInLevel(key);
      assert level.value in nodes.Values;
      present := RemoveStep(level.value, p, key[|key| - 1]);
    }

    /** Two keys part at the path `p`, the first of them in the step that is earlier on the trail. */
    ghost predicate PartsAt(p: seq<K>, x: K, y: K, first: seq<K>, second: seq<K>)
      reads this`trail
    {
      p + [x] <= first && p + [y] <= second && ComesBefore(StepsFrom(trail, p), x, y)
    }

    ghost predicate Precedes(first: seq<K>, second: seq<K>)
      reads this`trail
    {
      exists p, x, y :: PartsAt(p, x, y, first, second)
    }

    lemma PrecedingKeysDiffer(first: seq<K>, second: seq<K>)
      requires Tree() && Ordered() && Precedes(first, second)
      ensures first != second
    {
      var p, x, y :| PartsAt(p, x, y, first, second);
      if p !in nodes {
        NoStepsYet(trail, nodes.Keys, p);
      }
      LevelIsOk(p);
      LevelIsOrdered(p);
      assert (p + [x])[|p|] == x && (p + [y])[|p|] == y;
      assert first[|p|] == x && second[|p|] == y;
    }

    /** What a traversal below `p` visited: entries of the flat map, all of them, in the order of
        the levels. */
    ghost predicate Visited(p: seq<K>, visited: seq<(seq<K>, V)>)
      reads this, nodes.Values
    {
      && (forall i :: 0 <= i < |visited| ==> EntryUnder(p, visited[i]))
      && (forall key :: key in contents && p <= key ==> (key, contents[key]) in visited)
      && (forall i, j :: 0 <= i < j < |visited| ==> Precedes(visited[i].0, visited[j].0))
    }

    ghost predicate EntryUnder(p: seq<K>, entry: (seq<K>, V))
      reads this
    {
      p <= entry.0 && entry.0 in contents && contents[entry.0] == entry.1
    }

    ghost predicate UnderFirst(p: seq<K>, order: seq<K>, n: nat, entry: (seq<K>, V))
      requires n <= |order|
      reads this
    {
      exists j :: 0 <= j < n && EntryUnder(p + [order[j]], entry)
    }

    /** The entries under the first `n` keys of the level at `p`, and no others, were visited. */
    ghost predicate VisitedUpTo(p: seq<K>, order: seq<K>, n: nat, visited: seq<(seq<K>, V)>)
      requires n <= |order|
      reads this, nodes.Values
    {
      && (forall i :: 0 <= i < |visited| ==> UnderFirst(p, order, n, visited[i]))
      && (forall j, key :: 0 <= j < n && key in contents && p + [order[j]] <= key ==> (key, contents[key]) in visited)
      && (forall i, j :: 0 <= i < j < |visited| ==> Precedes(visited[i].0, visited[j].0))
    }

    lemma OneEntryVisited(entry: (seq<K>, V))
      requires Tree() && entry.0 in contents && contents[entry.0] == entry.1
      ensures Visited(entry.0, [entry])
    {
      forall key | key in contents && entry.0 <= key
        ensures key == entry.0
      {
        EntryIsHeld(key);
        EntryIsHeld(entry.0);
        assert key[..|entry.0|] == key;
      }
      assert (entry.0, contents[entry.0]) == [entry][0];
    }

    lemma VisitedOneMore(p: seq<K>, n: nat, visited: seq<(seq<K>, V)>, below: seq<(seq<K>, V)>)
      requires Ordered() && p in nodes && n < |nodes[p].order|
      requires VisitedUpTo(p, nodes[p].order, n, visited) && Visited(p + [nodes[p].order[n]], below)
      ensures VisitedUpTo(p, nodes[p].order, n + 1, visited + below)
    {
      var order := nodes[p].order;
      var all := visited + below;
      LevelIsOrdered(p);
      forall i | 0 <= i < |all|
        ensures UnderFirst(p, order, n + 1, all[i])
      {
        if i < |visited| {
          assert UnderFirst(p, order, n, visited[i]);
        } else {
          assert EntryUnder(p + [order[n]], below[i - |visited|]);
        }
      }
      forall i, j | 0 <= i < j < |all|
        ensures Precedes(all[i].0, all[j].0)
      {
        if i < |visited| <= j {
          assert UnderFirst(p, order, n, visited[i]);
          var m :| 0 <= m < n && EntryUnder(p + [order[m]], visited[i]);
          assert EntryUnder(p + [order[n]], below[j - |visited|]);
          assert PartsAt(p, order[m], order[n], all[i].0, all[j].0);
        } else if i >= |visited| {
          assert Precedes(below[i - |visited|].0, below[j - |visited|].0);
        }
      }
    }

    /** Each entry under `p` is under some key of the level at `p`. */
    lemma AllVisited(p: seq<K>, visited: seq<(seq<K>, V)>)
      requires Tree() && p in nodes && VisitedUpTo(p, nodes[p].order, |nodes[p].order|, visited)
      ensures Visited(p, visited)
    {
      var order := nodes[p].order;
      forall i | 0 <= i < |visited|
        ensures EntryUnder(p, visited[i])
      {
        assert UnderFirst(p, order, |order|, visited[i]);
        var j :| 0 <= j < |order| && EntryUnder(p + [order[j]], visited[i]);
        UnderShorterPath(p, order[j], visited[i]);
      }
      forall key | key in contents && p <= key
        ensures (key, contents[key]) in visited
      {
        NextKeyIsListed(p, key);
        var j :| 0 <= j < |order| && order[j] == key[|p|];
        UnderNextKey(p, key);
      }
    }

    lemma UnderShorterPath(p: seq<K>, k: K, entry: (seq<K>, V))
      requires EntryUnder(p + [k], entry)
      ensures EntryUnder(p, entry)
    {
      assert p <= p + [k];
    }

    lemma UnderNextKey(p: seq<K>, key: seq<K>)
      requires p <= key && |p| < |key|
      ensures p + [key[|p|]] <= key
    {
    }

    lemma NextKeyIsListed(p: seq<K>, key: seq<K>)
      requires Tree() && p in nodes && key in contents && p <= key
      ensures |p| < |key| && key[|p|] in nodes[p].order
    {
      LevelIsOk(p);
      EntryIsHeld(key);
      KeyIsOk(p, key[|p|]);
      assert key[..|p| + 1] == p + [key[|p|]];
      if |p| < keyLength - 1 {
        PrefixesAreLevels(key[..keyLength - 1], |p| + 1);
        assert key[..keyLength - 1][..|p| + 1] == key[..|p| + 1];
      } else {
        assert key[..|p| + 1] == key;
      }
    }

    lemma EveryEntryVisited(visited: seq<(seq<K>, V)>, entry: (seq<K>, V))
      requires Visited([], visited)
      ensures entry in visited <==> entry.0 in contents && contents[entry.0] == entry.1
    {
      if entry in visited {
        var i :| 0 <= i < |visited| && visited[i] == entry;
        assert EntryUnder([], visited[i]);
      }
      assert [] <= entry.0;
    }

    method ForEach() returns (visited: seq<(seq<K>, V)>)
      requires Valid()
      ensures forall entry :: entry in visited <==> entry.0 in contents && contents[entry.0] == entry.1
      ensures forall i, j :: 0 <= i < j < |visited| ==> Precedes(visited[i].0, visited[j].0) && visited[i].0 != visited[j].0
    {
      visited := DoForEach(rootMap, []);
      forall entry
        ensures entry in visited <==> entry.0 in contents && contents[entry.0] == entry.1
      {
        EveryEntryVisited(visited, entry);
      }
      forall i, j | 0 <= i < j < |visited|
        ensures visited[i].0 != visited[j].0
      {
        PrecedingKeysDiffer(visited[i].0, visited[j].0);
      }
    }

    method DoForEach(currentMap: Level<K, V>, keys: seq<K>) returns (visited: seq<(seq<K>, V)>)
      requires Tree() && Ordered() && keys in nodes && nodes[keys] == currentMap
      ensures Visited(keys, visited)
      decreases keyLength - |keys|
    {
      visited := [];
      var order := currentMap.order;
      PathIsShort(keys);
      if |keys| == keyLength - 1 {
        for i := 0 to |order|
          invariant VisitedUpTo(keys, order, i, visited)
        {
          ListedOnLast(keys, i);
          var entry := (keys + [order[i]], currentMap.values[order[i]]);
          OneEntryVisited(entry);
          VisitedOneMore(keys, i, visited, [entry]);
          visited := visited + [entry];
        }
      } else {
        for i := 0 to |order|
          invariant VisitedUpTo(keys, order, i, visited)
        {
          ListedOnInner(keys, i);
          var below := DoForEach(currentMap.children[order[i]], keys + [order[i]]);
          VisitedOneMore(keys, i, visited, below);
          visited := visited + below;
        }
      }
      AllVisited(keys, visited);
    }
  }

  /** What a deletion takes: a full key itself; for a key one element short the key completed with
      its own last element; for any other nothing. */
  lemma DeletionMeaning<K(!new), V>(contents: map<seq<K>, V>, keyLength: nat, key: seq<K>)
    requires keyLength >= 1 && |key| <= keyLength && forall k :: k in contents ==> |k| == keyLength
    ensures |key| == keyLength ==> DeleteTarget(keyLength, key) == key
    ensures |key| == keyLength - 1 && key != [] ==> DeleteTarget(keyLength, key) == key + [key[|key| - 1]]
    ensures |key| < keyLength - 1 || (key == [] && |key| < keyLength) ==>
      DeleteTarget(keyLength, key) !in contents && contents - {DeleteTarget(keyLength, key)} == contents
  {
    if |key| < keyLength - 1 || (key == [] && |key| < keyLength) {
      assert DeleteTarget(keyLength, key) == [];
    }
  }

  /** What the documentation of `delete` promises of a key of any length. */
  ghost predicate RemovesAllUnder<K(!new), V>(before: map<seq<K>, V>, key: seq<K>, after: map<seq<K>, V>, present: bool) {
    && (present <==> exists k :: k in before && key <= k)
    && after.Keys == (set k | k in before && !(key <= k))
    && (forall k :: k in after ==> after[k] == before[k])
  }

  /** A deletion keeps that promise exactly when its one target is all there is under the key. */
  lemma DeleteKeepsItsPromiseExactly<K(!new), V>(contents: map<seq<K>, V>, keyLength: nat, key: seq<K>)
    requires keyLength >= 1 && |key| <= keyLength
    requires forall k :: k in contents ==> |k| == keyLength
    ensures RemovesAllUnder(contents, key, contents - {DeleteTarget(keyLength, key)}, DeleteTarget(keyLength, key) in contents)
            <==> forall k :: k in contents && key <= k ==> k == DeleteTarget(keyLength, key)
    ensures |key| == keyLength ==>
      RemovesAllUnder(contents, key, contents - {key}, key in contents)
  {
    var target := DeleteTarget(keyLength, key);
    assert target in contents ==> key <= target;
    if |key| == keyLength {
      forall k | k in contents && key <= k
        ensures k == key
      {
        assert k[..keyLength] == k;
      }
    }
    var after, present := contents - {target}, target in contents;
    if RemovesAllUnder(contents, key, after, present) {
      forall k | k in contents && key <= k
        ensures k == target
      {
        assert k !in after.Keys;
      }
    }
  }

  /** What the documentation of `has` promises of a key of any length is that it is found exactly
      when there is an entry under it. After a history of changes that is kept exactly when an
      empty key is only asked of an empty map, and, where a key under a shorter one was ever set,
      some such key was not deleted after it was last set. */
  lemma HasKeepsItsPromiseExactly<K(!new), V>(contents: map<seq<K>, V>, log: seq<Change<K>>, keyLength: nat, key: seq<K>)
    requires keyLength >= 1 && |key| <= keyLength && contents.Keys == KeysAfter(log)
    requires forall k :: WasSet(k) in log ==> |k| == keyLength
    ensures (FoundByHas(contents, EverSetIn(log), keyLength, key) <==> SomeUnder(contents.Keys, key))
            <==> && (key == [] ==> contents == map[])
                 && (0 < |key| < keyLength && (exists k :: WasSet(k) in log && key <= k) ==>
                       exists k :: Survives(log, k) && key <= k)
  {
    forall k
      ensures (k in contents.Keys <==> Survives(log, k)) && (k in EverSetIn(log) <==> WasSet(k) in log)
    {
      EntriesSurvive(log, k);
      EverSetMeaning(log, k);
    }
    assert SomeUnder(EverSetIn(log), key) <==> exists k :: WasSet(k) in log && key <= k;
    assert SomeUnder(contents.Keys, key) <==> exists k :: Survives(log, k) && key <= k;
    HasKeepsItsPromise(contents, EverSetIn(log), keyLength, key);
  }

  lemma HasKeepsItsPromise<K(!new), V>(contents: map<seq<K>, V>, everSet: set<seq<K>>, keyLength: nat, key: seq<K>)
    requires keyLength >= 1 && |key| <= keyLength && contents.Keys <= everSet
    requires forall k :: k in everSet ==> |k| == keyLength
    ensures (FoundByHas(contents, everSet, keyLength, key) <==> SomeUnder(contents.Keys, key))
            <==> && (key == [] ==> contents == map[])
                 && (0 < |key| < keyLength && SomeUnder(everSet, key) ==> SomeUnder(contents.Keys, key))
  {
    if k :| k in contents.Keys && key <= k {
      assert k in everSet;
      assert SomeUnder(contents.Keys, key) && SomeUnder(everSet, key);
      assert key == k[..|key|];
      assert |key| == keyLength ==> key == k && key in contents;
    }
    if key in contents {
      assert key in contents.Keys && key <= key;
    }
    if key == [] && contents != map[] {
      var k :| k in contents;
      assert k in contents.Keys && key <= k;
    }
  }

  /** The empty key is not found although there is an entry under it. */
  method EmptyKeyIsNotFound<K(==, !new), V(!new)>(a: K, v: V) returns (found: bool, there: Option<V>)
    ensures !found && there == Some(v)
  {
    var m := new MultiKeyMap<K, V>(1);
    var _ := m.Set([a], v);
    var r := m.Has([]);
    var s := m.Get([a]);
    return r.value, s.value;
  }

  lemma SomethingWasSet<K(!new), V>(contents: map<seq<K>, V>, everSet: set<seq<K>>, a: K, b: K)
    requires [a, b] in everSet
    ensures FoundByHas(contents, everSet, 2, [a])
  {
    assert [a] <= [a, b] && [a] != [];
  }

  method SetAndDeleted<K(==, !new), V(!new)>(a: K, b: K, v: V) returns (m: MultiKeyMap<K, V>)
    ensures m.Valid() && m.keyLength == 2 && [a, b] !in m.contents && [a, b] in m.everSet
  {
    m := new MultiKeyMap<K, V>(2);
    var _ := m.Set([a, b], v);
    var _ := m.Delete([a, b]);
  }

  /** A short key is still found after the only entry under it is gone. */
  method ShortKeyOutlivesItsEntries<K(==, !new), V(!new)>(a: K, b: K, v: V) returns (found: bool, left: Option<V>)
    ensures found && left == None
  {
    var m := SetAndDeleted(a, b, v);
    var s := m.Get([a, b]);
    var r := m.Has([a]);
    SomethingWasSet(m.contents, m.everSet, a, b);
    return r.value, s.value;
  }
}
