/** Selecting the processes below a root, and attributing them to roles. */
module ProcessTree {
  import opened Options

  datatype ProcessRecord = ProcessRecord(pid: int, parentPid: int, rssBytes: nat, commandLine: string)

  // ----- reachability -----

  /** Some listed process has this pid and this parent. */
  ghost predicate Link(ps: seq<ProcessRecord>, parent: int, child: int) {
    exists i :: 0 <= i < |ps| && ps[i].pid == child && ps[i].parentPid == parent
  }

  ghost predicate Listed(ps: seq<ProcessRecord>, pid: int) {
    exists i :: 0 <= i < |ps| && ps[i].pid == pid
  }

  /** `to` can be reached from `from` by exactly `n` parent links. */
  ghost predicate Reaches(ps: seq<ProcessRecord>, from: int, to: int, n: nat)
    decreases n
  {
    if n == 0 then from == to else exists mid :: Reaches(ps, from, mid, n - 1) && Link(ps, mid, to)
  }

  ghost predicate Reachable(ps: seq<ProcessRecord>, root: int, pid: int) {
    exists n: nat :: Reaches(ps, root, pid, n)
  }

  /** `n` is the least number of links from the root. */
  ghost predicate HasDepth(ps: seq<ProcessRecord>, root: int, pid: int, n: nat) {
    Reaches(ps, root, pid, n) && forall m: nat :: Reaches(ps, root, pid, m) ==> n <= m
  }

  // ----- the index by parent -----

  function ChildrenOf(ps: seq<ProcessRecord>, parent: int): (r: seq<ProcessRecord>)
    ensures forall p :: p in r <==> p in ps && p.parentPid == parent
  {
    if ps == [] then []
    else
      var last := ps[|ps| - 1];
      assert ps == ps[..|ps| - 1] + [last];
      ChildrenOf(ps[..|ps| - 1], parent) + (if last.parentPid == parent then [last] else [])
  }

  /** The last listed process with a pid, as a map built in list order keeps it. */
  function LastWithPid(ps: seq<ProcessRecord>, pid: int): (r: Option<ProcessRecord>)
    ensures r == None <==> forall i :: 0 <= i < |ps| ==> ps[i].pid != pid
    ensures r.Some? ==> r.value in ps && r.value.pid == pid
  {
    if ps == [] then None
    else if ps[|ps| - 1].pid == pid then Some(ps[|ps| - 1])
    else LastWithPid(ps[..|ps| - 1], pid)
  }

  /** Of several processes with one pid the last one counts. */
  lemma {:induction false} LastOneCounts(ps: seq<ProcessRecord>, i: nat)
    requires i < |ps| && forall j :: i < j < |ps| ==> ps[j].pid != ps[i].pid
    ensures LastWithPid(ps, ps[i].pid) == Some(ps[i])
  {
    var front := ps[..|ps| - 1];
    if i < |ps| - 1 {
      assert front[i] == ps[i] && forall j :: i < j < |front| ==> front[j] == ps[j];
      LastOneCounts(front, i);
    }
  }

  lemma OneMoreProcess(ps: seq<ProcessRecord>, i: nat, k: int)
    requires i < |ps|
    ensures ChildrenOf(ps[..i + 1], k)
            == if ps[i].parentPid == k then ChildrenOf(ps[..i], k) + [ps[i]] else ChildrenOf(ps[..i], k)
  {
    assert ps[..i + 1][..i] == ps[..i];
    assert ChildrenOf(ps[..i], k) + [] == ChildrenOf(ps[..i], k);
  }

  method IndexByParent(ps: seq<ProcessRecord>) returns (childrenByParent: map<int, seq<ProcessRecord>>)
    ensures forall k :: k in childrenByParent ==> childrenByParent[k] == ChildrenOf(ps, k)
    ensures forall k :: k !in childrenByParent ==> ChildrenOf(ps, k) == []
  {
    childrenByParent := map[];
    for i := 0 to |ps|
      invariant forall k :: k in childrenByParent ==> childrenByParent[k] == ChildrenOf(ps[..i], k)
      invariant forall k :: k !in childrenByParent ==> ChildrenOf(ps[..i], k) == []
    {
      var p := ps[i];
      var children := if p.parentPid in childrenByParent then childrenByParent[p.parentPid] else [];
      forall k
        ensures ChildrenOf(ps[..i + 1], k) == if p.parentPid == k then ChildrenOf(ps[..i], k) + [p] else ChildrenOf(ps[..i], k)
      {
        OneMoreProcess(ps, i, k);
      }
      childrenByParent := childrenByParent[p.parentPid := children + [p]];
    }
    assert ps[..|ps|] == ps;
  }

  // ----- breadth-first selection -----

  function Pids(ps: seq<ProcessRecord>): set<int> {
    set p | p in ps :: p.pid
  }

  predicate DistinctPids(ps: seq<ProcessRecord>) {
    forall i, j :: 0 <= i < j < |ps| ==> ps[i].pid != ps[j].pid
  }

  predicate NonDecreasing(ds: seq<nat>) {
    forall i, j :: 0 <= i < j < |ds| ==> ds[i] <= ds[j]
  }

  /** Each process is listed and can be reached by as many links as noted beside it. */
  ghost predicate OnPath(ps: seq<ProcessRecord>, root: int, qs: seq<ProcessRecord>, ds: seq<nat>) {
    |qs| == |ds| && forall i :: 0 <= i < |qs| ==> qs[i] in ps && Reaches(ps, root, qs[i].pid, ds[i])
  }

  ghost predicate FoundBy(qs: seq<ProcessRecord>, ds: seq<nat>, pid: int, depth: nat) {
    exists j :: 0 <= j < |qs| && j < |ds| && qs[j].pid == pid && ds[j] <= depth
  }

  /** Every child of a selected process is selected or queued, at most one link further. */
  ghost predicate ChildrenCovered(ps: seq<ProcessRecord>, result: seq<ProcessRecord>, dr: seq<nat>,
                                  pending: seq<ProcessRecord>, dp: seq<nat>)
    requires |dr| == |result|
  {
    forall i, c :: 0 <= i < |result| && Link(ps, result[i].pid, c) ==>
      FoundBy(result, dr, c, dr[i] + 1) || FoundBy(pending, dp, c, dr[i] + 1)
  }

  /** The depths noted beside result and queue, in one ascending line that ends at most one
      level below the last selected process. */
  ghost predicate Levelled(dr: seq<nat>, dp: seq<nat>) {
    && NonDecreasing(dr + dp)
    && (dr != [] ==> forall i :: 0 <= i < |dp| ==> dp[i] <= dr[|dr| - 1] + 1)
    && (dr == [] ==> dp == [0])
  }

  /** What the breadth-first loop keeps true. */
  ghost predicate Searching(ps: seq<ProcessRecord>, root: int, result: seq<ProcessRecord>, dr: seq<nat>,
                            pending: seq<ProcessRecord>, dp: seq<nat>) {
    && OnPath(ps, root, result, dr) && OnPath(ps, root, pending, dp)
    && DistinctPids(result)
    && Levelled(dr, dp)
    && ChildrenCovered(ps, result, dr, pending, dp)
    && (if result == [] then pending != [] && pending[0].pid == root else result[0].pid == root && dr[0] == 0)
  }

  lemma FoundByShift(qs: seq<ProcessRecord>, ds: seq<nat>, pid: int, depth: nat)
    requires |qs| == |ds| > 0 && FoundBy(qs, ds, pid, depth)
    ensures (qs[0].pid == pid && ds[0] <= depth) || FoundBy(qs[1..], ds[1..], pid, depth)
  {
    var j :| 0 <= j < |qs| && j < |ds| && qs[j].pid == pid && ds[j] <= depth;
    if j > 0 {
      assert qs[1..][j - 1] == qs[j] && ds[1..][j - 1] == ds[j];
    }
  }

  lemma FoundByMore(qs: seq<ProcessRecord>, ds: seq<nat>, qs': seq<ProcessRecord>, ds': seq<nat>, pid: int, depth: nat)
    requires |qs| == |ds| && |qs'| == |ds'|
    requires FoundBy(qs, ds, pid, depth) || FoundBy(qs', ds', pid, depth)
    ensures FoundBy(qs + qs', ds + ds', pid, depth)
  {
    if FoundBy(qs, ds, pid, depth) {
      var j :| 0 <= j < |qs| && j < |ds| && qs[j].pid == pid && ds[j] <= depth;
      assert (qs + qs')[j] == qs[j] && (ds + ds')[j] == ds[j];
    } else {
      var j :| 0 <= j < |qs'| && j < |ds'| && qs'[j].pid == pid && ds'[j] <= depth;
      assert (qs + qs')[|qs| + j] == qs'[j] && (ds + ds')[|qs| + j] == ds'[j];
    }
  }

  /** Dropping a queued process that has been selected already. */
  lemma SkipKeeps(ps: seq<ProcessRecord>, root: int, result: seq<ProcessRecord>, dr: seq<nat>,
                  pending: seq<ProcessRecord>, dp: seq<nat>)
    requires Searching(ps, root, result, dr, pending, dp) && pending != []
    requires exists j :: 0 <= j < |result| && result[j].pid == pending[0].pid
    ensures Searching(ps, root, result, dr, pending[1..], dp[1..])
  {
    var j :| 0 <= j < |result| && result[j].pid == pending[0].pid;
    assert (dr + dp)[j] == dr[j] && (dr + dp)[|dr|] == dp[0];
    forall i, c | 0 <= i < |result| && Link(ps, result[i].pid, c)
      ensures FoundBy(result, dr, c, dr[i] + 1) || FoundBy(pending[1..], dp[1..], c, dr[i] + 1)
    {
      if !FoundBy(result, dr, c, dr[i] + 1) {
        FoundByShift(pending, dp, c, dr[i] + 1);
      }
    }
    var ds, ds' := dr + dp, dr + dp[1..];
    assert forall i :: 0 <= i < |ds'| ==> ds'[i] == ds[if i < |dr| then i else i + 1];
  }

  function Repeat(d: nat, n: nat): (r: seq<nat>)
    ensures |r| == n && forall i :: 0 <= i < n ==> r[i] == d
  {
    seq(n, i requires 0 <= i < n => d)
  }

  /** Selecting a new process and queueing its children one level below. */
  lemma SelectKeeps(ps: seq<ProcessRecord>, root: int, result: seq<ProcessRecord>, dr: seq<nat>,
                    pending: seq<ProcessRecord>, dp: seq<nat>, children: seq<ProcessRecord>)
    requires Searching(ps, root, result, dr, pending, dp) && pending != []
    requires forall j :: 0 <= j < |result| ==> result[j].pid != pending[0].pid
    requires children == ChildrenOf(ps, pending[0].pid)
    ensures Searching(ps, root, result + [pending[0]], dr + [dp[0]],
                      pending[1..] + children, dp[1..] + Repeat(dp[0] + 1, |children|))
  {
    var current, e := pending[0], dp[0];
    var result', dr' := result + [current], dr + [e];
    var more := Repeat(e + 1, |children|);
    SelectCovers(ps, result, dr, pending, dp, children);
    ChildrenOnPath(ps, root, current.pid, e, children);
    SelectLevels(dr, dp, |children|);
    OnPathJoins(ps, root, result, dr, [current], [e]);
    OnPathJoins(ps, root, pending[1..], dp[1..], children, more);
  }

  lemma OnPathJoins(ps: seq<ProcessRecord>, root: int, qs: seq<ProcessRecord>, ds: seq<nat>,
                    qs': seq<ProcessRecord>, ds': seq<nat>)
    requires OnPath(ps, root, qs, ds) && OnPath(ps, root, qs', ds')
    ensures OnPath(ps, root, qs + qs', ds + ds')
  {
  }

  lemma ChildrenOnPath(ps: seq<ProcessRecord>, root: int, pid: int, e: nat, children: seq<ProcessRecord>)
    requires Reaches(ps, root, pid, e) && children == ChildrenOf(ps, pid)
    ensures OnPath(ps, root, children, Repeat(e + 1, |children|))
  {
    forall i | 0 <= i < |children|
      ensures children[i] in ps && Reaches(ps, root, children[i].pid, e + 1)
    {
      assert children[i] in children;
      ChildIsReached(ps, root, pid, e, children[i]);
    }
  }

  lemma ChildIsReached(ps: seq<ProcessRecord>, root: int, pid: int, e: nat, child: ProcessRecord)
    requires Reaches(ps, root, pid, e) && child in ps && child.parentPid == pid
    ensures Reaches(ps, root, child.pid, e + 1)
  {
    var i :| 0 <= i < |ps| && ps[i] == child;
    assert Link(ps, pid, child.pid);
  }

  lemma SelectLevels(dr: seq<nat>, dp: seq<nat>, n: nat)
    requires Levelled(dr, dp) && dp != []
    ensures Levelled(dr + [dp[0]], dp[1..] + Repeat(dp[0] + 1, n))
  {
    var ds := dr + dp;
    assert forall i :: 0 <= i < |dr| ==> ds[i] == dr[i];
    assert forall i :: 0 <= i < |dp| ==> ds[|dr| + i] == dp[i];
    assert dr + [dp[0]] + (dp[1..] + Repeat(dp[0] + 1, n)) == ds + Repeat(dp[0] + 1, n);
    assert dr != [] ==> ds[|dr| - 1] <= ds[|dr|];
  }

  lemma SelectCovers(ps: seq<ProcessRecord>, result: seq<ProcessRecord>, dr: seq<nat>,
                     pending: seq<ProcessRecord>, dp: seq<nat>, children: seq<ProcessRecord>)
    requires |dr| == |result| && |dp| == |pending| && pending != []
    requires ChildrenCovered(ps, result, dr, pending, dp)
    requires children == ChildrenOf(ps, pending[0].pid)
    ensures ChildrenCovered(ps, result + [pending[0]], dr + [dp[0]],
                            pending[1..] + children, dp[1..] + Repeat(dp[0] + 1, |children|))
  {
    var current, e := pending[0], dp[0];
    var result', dr' := result + [current], dr + [e];
    var more := Repeat(e + 1, |children|);
    forall i, c | 0 <= i < |result'| && Link(ps, result'[i].pid, c)
      ensures FoundBy(result', dr', c, dr'[i] + 1) || FoundBy(pending[1..] + children, dp[1..] + more, c, dr'[i] + 1)
    {
      if i == |result| {
        var k :| 0 <= k < |ps| && ps[k].pid == c && ps[k].parentPid == current.pid;
        assert ps[k] in children;
        var j :| 0 <= j < |children| && children[j] == ps[k];
        assert FoundBy(children, more, c, e + 1);
        FoundByMore(pending[1..], dp[1..], children, more, c, e + 1);
      } else if FoundBy(result, dr, c, dr[i] + 1) {
        FoundByMore(result, dr, [current], [e], c, dr[i] + 1);
      } else {
        FoundByShift(pending, dp, c, dr[i] + 1);
        if current.pid == c && e <= dr[i] + 1 {
          assert [current][0].pid == c && [e][0] <= dr[i] + 1;
          FoundByMore(result, dr, [current], [e], c, dr[i] + 1);
        } else {
          FoundByMore(pending[1..], dp[1..], children, more, c, dr[i] + 1);
        }
      }
    }
  }

  /** With the queue empty, every link sequence ends at a selected process no deeper than it is long. */
  lemma {:induction false} PathsEndSelected(ps: seq<ProcessRecord>, root: int, result: seq<ProcessRecord>, dr: seq<nat>,
                                            pid: int, n: nat)
    requires Searching(ps, root, result, dr, [], []) && result != []
    requires Reaches(ps, root, pid, n)
    ensures FoundBy(result, dr, pid, n)
    decreases n
  {
    if n == 0 {
      assert result[0].pid == pid && dr[0] <= 0;
    } else {
      var mid :| Reaches(ps, root, mid, n - 1) && Link(ps, mid, pid);
      PathsEndSelected(ps, root, result, dr, mid, n - 1);
      var i :| 0 <= i < |result| && i < |dr| && result[i].pid == mid && dr[i] <= n - 1;
      assert FoundBy(result, dr, pid, dr[i] + 1);
      var j :| 0 <= j < |result| && j < |dr| && result[j].pid == pid && dr[j] <= dr[i] + 1;
      assert dr[j] <= n;
    }
  }

  /** The finished search: exactly the reachable pids, each once, at their depths, in order. */
  lemma SearchIsExact(ps: seq<ProcessRecord>, root: int, result: seq<ProcessRecord>, dr: seq<nat>)
    requires Searching(ps, root, result, dr, [], []) && result != []
    ensures forall pid :: pid in Pids(result) <==> Reachable(ps, root, pid)
    ensures forall i :: 0 <= i < |result| ==> HasDepth(ps, root, result[i].pid, dr[i])
    ensures NonDecreasing(dr)
  {
    assert dr + [] == dr;
    forall pid
      ensures pid in Pids(result) <==> Reachable(ps, root, pid)
    {
      if pid in Pids(result) {
        var i :| 0 <= i < |result| && result[i].pid == pid;
        assert Reaches(ps, root, pid, dr[i]);
      }
      if Reachable(ps, root, pid) {
        var n: nat :| Reaches(ps, root, pid, n);
        PathsEndSelected(ps, root, result, dr, pid, n);
      }
    }
    forall i, m: nat | 0 <= i < |result| && Reaches(ps, root, result[i].pid, m)
      ensures dr[i] <= m
    {
      PathsEndSelected(ps, root, result, dr, result[i].pid, m);
    }
  }

  // ----- the order of the selection -----

  /** Two places of the listing, in this order. */
  ghost predicate ListedBefore(ps: seq<ProcessRecord>, p: ProcessRecord, q: ProcessRecord) {
    exists a, b :: 0 <= a < b < |ps| && ps[a] == p && ps[b] == q
  }

  ghost predicate ParentAt(result: seq<ProcessRecord>, p: ProcessRecord, m: int) {
    0 <= m < |result| && result[m].pid == p.parentPid
  }

  /** The parent of `p` was selected before that of `q`, or they have one parent and `p` is listed first. */
  ghost predicate Earlier(ps: seq<ProcessRecord>, result: seq<ProcessRecord>, p: ProcessRecord, q: ProcessRecord) {
    exists m, n :: ParentAt(result, p, m) && ParentAt(result, q, n) && (m < n || (m == n && ListedBefore(ps, p, q)))
  }

  ghost predicate HasParent(result: seq<ProcessRecord>, p: ProcessRecord) {
    exists m :: ParentAt(result, p, m)
  }

  /** All but the root of a selection and its queue are there by their parents, in order. */
  ghost predicate InOrder(ps: seq<ProcessRecord>, result: seq<ProcessRecord>, all: seq<ProcessRecord>) {
    && (forall i :: 0 < i < |all| ==> HasParent(result, all[i]))
    && (forall i, j :: 0 < i < j < |all| ==> Earlier(ps, result, all[i], all[j]))
  }

  lemma {:induction false} ChildrenAscend(ps: seq<ProcessRecord>, parent: int, i: nat, j: nat)
    requires i < j < |ChildrenOf(ps, parent)|
    ensures ListedBefore(ps, ChildrenOf(ps, parent)[i], ChildrenOf(ps, parent)[j])
  {
    var m := |ps| - 1;
    var front := ChildrenOf(ps[..m], parent);
    if j < |front| {
      ChildrenAscend(ps[..m], parent, i, j);
      var a, b :| 0 <= a < b < m && ps[..m][a] == front[i] && ps[..m][b] == front[j];
      assert ps[a] == front[i] && ps[b] == front[j];
    } else {
      assert front[i] in front && front[i] in ps[..m];
      var a :| 0 <= a < m && ps[..m][a] == front[i];
      assert ps[a] == front[i] && ps[m] == ChildrenOf(ps, parent)[j];
    }
  }

  lemma EarlierStays(ps: seq<ProcessRecord>, result: seq<ProcessRecord>, more: ProcessRecord, p: ProcessRecord, q: ProcessRecord)
    requires Earlier(ps, result, p, q)
    ensures Earlier(ps, result + [more], p, q)
  {
    var m, n :| ParentAt(result, p, m) && ParentAt(result, q, n) && (m < n || (m == n && ListedBefore(ps, p, q)));
    assert ParentAt(result + [more], p, m) && ParentAt(result + [more], q, n);
  }

  lemma ParentStays(result: seq<ProcessRecord>, more: ProcessRecord, p: ProcessRecord)
    requires HasParent(result, p)
    ensures HasParent(result + [more], p)
  {
    var m :| ParentAt(result, p, m);
    assert ParentAt(result + [more], p, m);
  }

  /** A child of the process selected now comes after all that is there by earlier ones. */
  lemma ChildComesLater(ps: seq<ProcessRecord>, result: seq<ProcessRecord>, current: ProcessRecord,
                        p: ProcessRecord, child: ProcessRecord)
    requires HasParent(result, p) && child.parentPid == current.pid
    ensures Earlier(ps, result + [current], p, child)
  {
    var m :| ParentAt(result, p, m);
    assert ParentAt(result + [current], p, m) && ParentAt(result + [current], child, |result|);
  }

  lemma SiblingsAscend(ps: seq<ProcessRecord>, result: seq<ProcessRecord>, current: ProcessRecord,
                       children: seq<ProcessRecord>, i: nat, j: nat)
    requires children == ChildrenOf(ps, current.pid) && i < j < |children|
    ensures Earlier(ps, result + [current], children[i], children[j])
  {
    ChildrenAscend(ps, current.pid, i, j);
    assert children[i] in children && children[j] in children;
    assert ParentAt(result + [current], children[i], |result|) && ParentAt(result + [current], children[j], |result|);
  }

  lemma SelectKeepsParents(result: seq<ProcessRecord>, all: seq<ProcessRecord>, current: ProcessRecord,
                           children: seq<ProcessRecord>, i: nat)
    requires forall k :: 0 < k < |all| ==> HasParent(result, all[k])
    requires forall k :: 0 <= k < |children| ==> children[k].parentPid == current.pid
    requires 0 < i < |all + children| && all != []
    ensures HasParent(result + [current], (all + children)[i])
  {
    if i < |all| {
      ParentStays(result, current, all[i]);
    } else {
      assert ParentAt(result + [current], children[i - |all|], |result|);
    }
  }

  lemma SelectKeepsPair(ps: seq<ProcessRecord>, result: seq<ProcessRecord>, all: seq<ProcessRecord>,
                        current: ProcessRecord, children: seq<ProcessRecord>, i: nat, j: nat)
    requires InOrder(ps, result, all) && all != [] && children == ChildrenOf(ps, current.pid)
    requires 0 < i < j < |all + children|
    ensures Earlier(ps, result + [current], (all + children)[i], (all + children)[j])
  {
    if j < |all| {
      EarlierStays(ps, result, current, all[i], all[j]);
    } else if i < |all| {
      assert children[j - |all|] in children;
      ChildComesLater(ps, result, current, all[i], children[j - |all|]);
    } else {
      SiblingsAscend(ps, result, current, children, i - |all|, j - |all|);
    }
  }

  lemma SelectKeepsOrder(ps: seq<ProcessRecord>, result: seq<ProcessRecord>, pending: seq<ProcessRecord>,
                         children: seq<ProcessRecord>)
    requires pending != [] && InOrder(ps, result, result + pending) && children == ChildrenOf(ps, pending[0].pid)
    ensures InOrder(ps, result + [pending[0]], (result + [pending[0]]) + (pending[1..] + children))
  {
    var current, all := pending[0], result + pending;
    assert (result + [current]) + (pending[1..] + children) == all + children;
    assert forall k :: 0 <= k < |children| ==> children[k] in children;
    forall i | 0 < i < |all + children|
      ensures HasParent(result + [current], (all + children)[i])
    {
      SelectKeepsParents(result, all, current, children, i);
    }
    forall i, j | 0 < i < j < |all + children|
      ensures Earlier(ps, result + [current], (all + children)[i], (all + children)[j])
    {
      SelectKeepsPair(ps, result, all, current, children, i, j);
    }
  }

  lemma SkipKeepsOrder(ps: seq<ProcessRecord>, result: seq<ProcessRecord>, pending: seq<ProcessRecord>)
    requires InOrder(ps, result, result + pending) && result != [] && pending != []
    ensures InOrder(ps, result, result + pending[1..])
  {
    var all, less := result + pending, result + pending[1..];
    assert forall i :: 0 <= i < |less| ==> less[i] == all[if i < |result| then i else i + 1];
  }

  /** Siblings in the order of the listing, after the children of every earlier process. */
  lemma OrderOfSelection(ps: seq<ProcessRecord>, result: seq<ProcessRecord>)
    requires InOrder(ps, result, result + [])
    ensures forall i, j :: 0 < i < j < |result| ==> Earlier(ps, result, result[i], result[j])
  {
    assert result + [] == result;
  }

  lemma StartSearching(ps: seq<ProcessRecord>, rootPid: int, root: ProcessRecord)
    requires root in ps && root.pid == rootPid
    ensures Searching(ps, rootPid, [], [], [root], [0])
  {
    assert Reaches(ps, rootPid, rootPid, 0);
  }

  lemma VisitedGrows(result: seq<ProcessRecord>, p: ProcessRecord)
    ensures Pids(result + [p]) == Pids(result) + {p.pid}
    ensures p.pid !in Pids(result) ==> forall j :: 0 <= j < |result| ==> result[j].pid != p.pid
  {
    assert forall j :: 0 <= j < |result| ==> result[j] in result;
    assert p in result + [p];
    forall pid
      ensures pid in Pids(result + [p]) <==> pid in Pids(result) + {p.pid}
    {
      if q :| q in result && q.pid == pid {
        assert q in result + [p];
      }
    }
  }

  /** `selectProcessTree`: breadth-first, so in order of depth; a pid is selected once even when
      parent links form cycles. */
  method SelectProcessTree(processes: seq<ProcessRecord>, rootPid: int)
    returns (result: seq<ProcessRecord>, ghost depths: seq<nat>)
    ensures result == [] <==> !Listed(processes, rootPid)
    ensures result != [] ==>
              && result[0].pid == rootPid && LastWithPid(processes, rootPid) == Some(result[0])
              && (forall pid :: pid in Pids(result) <==> Reachable(processes, rootPid, pid))
    ensures DistinctPids(result) && forall p :: p in result ==> p in processes
    ensures |depths| == |result| && NonDecreasing(depths)
    ensures forall i :: 0 <= i < |result| ==> HasDepth(processes, rootPid, result[i].pid, depths[i])
    ensures forall i, j :: 0 < i < j < |result| ==> Earlier(processes, result, result[i], result[j])
  {
    result, depths := [], [];
    var childrenByParent := IndexByParent(processes);
    var root := LastWithPid(processes, rootPid);
    if root == None {
      return;
    }
    var pending := [root.value];
    var visited: set<int> := {};
    ghost var queued := [0];
    StartSearching(processes, rootPid, root.value);
    while |pending| > 0
      invariant Searching(processes, rootPid, result, depths, pending, queued)
      invariant InOrder(processes, result, result + pending)
      invariant visited == Pids(result)
      invariant if result == [] then pending == [root.value] else result[0] == root.value
      decreases Pids(processes) - visited, |pending|
    {
      var current := pending[0];
      assert current.pid in Pids(processes);
      if current.pid in visited {
        SkipKeeps(processes, rootPid, result, depths, pending, queued);
        SkipKeepsOrder(processes, result, pending);
        pending, queued := pending[1..], queued[1..];
      } else {
        var children := if current.pid in childrenByParent then childrenByParent[current.pid] else [];
        VisitedGrows(result, current);
        SelectKeeps(processes, rootPid, result, depths, pending, queued, children);
        SelectKeepsOrder(processes, result, pending, children);
        visited := visited + {current.pid};
        result, depths := result + [current], depths + [queued[0]];
        pending, queued := pending[1..] + children, queued[1..] + Repeat(queued[0] + 1, |children|);
      }
    }
    SearchIsExact(processes, rootPid, result, depths);
    OrderOfSelection(processes, result);
  }

  /** With unique pids the selection is exactly the reachable processes themselves. */
  lemma SelectionIsReachableProcesses(ps: seq<ProcessRecord>, root: int, result: seq<ProcessRecord>)
    requires DistinctPids(ps) && (forall p :: p in result ==> p in ps)
    requires forall pid :: pid in Pids(result) <==> Reachable(ps, root, pid)
    ensures forall p :: p in result <==> p in ps && Reachable(ps, root, p.pid)
  {
    forall p
      ensures p in result <==> p in ps && Reachable(ps, root, p.pid)
    {
      if p in result {
        assert p.pid in Pids(result);
      }
      if p in ps && Reachable(ps, root, p.pid) {
        var q :| q in result && q.pid == p.pid;
        assert q in ps;
      }
    }
  }
}
