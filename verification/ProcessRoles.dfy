/** Attributing the processes of a tree to roles, and totals per role. */
module ProcessRoles {
  import opened Options
  import opened ProcessTree
  import opened Sequences

  datatype Role =
    | Server | ExtensionHost | ExtensionChild | WatcherHost | WorkspaceAgent | WorkspaceAgentChild
    | WsGateway | PtyHost | TerminalShell | LanguageServer | NodeChild | Other

  datatype Classified = Classified(process: ProcessRecord, role: Role)

  datatype RoleSummary = RoleSummary(count: nat, rssBytes: nat)

  type Classifier = ProcessRecord -> Role

  // ----- ancestors -----

  function ParentOf(ps: seq<ProcessRecord>, p: ProcessRecord): Option<ProcessRecord> {
    LastWithPid(ps, p.parentPid)
  }

  /** The ancestor `k` parent links up; `k == 0` is the process itself. */
  function Ancestor(ps: seq<ProcessRecord>, p: ProcessRecord, k: nat): (r: Option<ProcessRecord>)
    ensures k > 0 && r.Some? ==> r.value in ps
  {
    if k == 0 then Some(p)
    else
      match Ancestor(ps, p, k - 1)
      case None => None
      case Some(a) => ParentOf(ps, a)
  }

  /** The child role that descendants of a process of this role take on. */
  function ChildRole(role: Role): Option<Role> {
    if role in {ExtensionHost, ExtensionChild} then Some(ExtensionChild)
    else if role in {WorkspaceAgent, WorkspaceAgentChild} then Some(WorkspaceAgentChild)
    else None
  }

  predicate Unlabelled(classify: Classifier, p: ProcessRecord) {
    ChildRole(classify(p)) == None
  }

  ghost predicate UnlabelledUpTo(ps: seq<ProcessRecord>, classify: Classifier, p: ProcessRecord, k: nat) {
    forall j :: 1 <= j < k ==> Ancestor(ps, p, j).Some? && Unlabelled(classify, Ancestor(ps, p, j).value)
  }

  /** The nearest extension-host or agent ancestor is `k` links up and makes its descendants `role`. */
  ghost predicate NearestLabel(ps: seq<ProcessRecord>, classify: Classifier, p: ProcessRecord, k: nat, role: Role) {
    && k >= 1 && Ancestor(ps, p, k).Some? && UnlabelledUpTo(ps, classify, p, k)
    && ChildRole(classify(Ancestor(ps, p, k).value)) == Some(role)
  }

  ghost predicate Inherits(ps: seq<ProcessRecord>, classify: Classifier, p: ProcessRecord, role: Role) {
    exists k: nat :: NearestLabel(ps, classify, p, k, role)
  }

  lemma {:induction false} AncestorsRepeat(ps: seq<ProcessRecord>, p: ProcessRecord, j: nat, k: nat, t: nat)
    requires Ancestor(ps, p, j) == Ancestor(ps, p, k)
    ensures Ancestor(ps, p, j + t) == Ancestor(ps, p, k + t)
  {
    if t > 0 {
      AncestorsRepeat(ps, p, j, k, t - 1);
    }
  }

  /** Once the chain has come back to a process already passed, it meets no label any more. */
  lemma {:induction false} CycleHasNoLabel(ps: seq<ProcessRecord>, classify: Classifier, p: ProcessRecord, j: nat, k: nat, m: nat)
    requires Unlabelled(classify, p) && j < k && UnlabelledUpTo(ps, classify, p, k)
    requires Ancestor(ps, p, j) == Ancestor(ps, p, k)
    ensures Ancestor(ps, p, m).Some? ==> Unlabelled(classify, Ancestor(ps, p, m).value)
    decreases m
  {
    if m >= k {
      AncestorsRepeat(ps, p, j, k, m - k);
      CycleHasNoLabel(ps, classify, p, j, k, j + (m - k));
    }
  }

  lemma {:induction false} NoneStaysNone(ps: seq<ProcessRecord>, p: ProcessRecord, k: nat, m: nat)
    requires Ancestor(ps, p, k) == None && k <= m
    ensures Ancestor(ps, p, m) == None
    decreases m
  {
    if k < m {
      NoneStaysNone(ps, p, k, m - 1);
    }
  }

  ghost predicate IsAt(ps: seq<ProcessRecord>, p: ProcessRecord, j: nat, pid: int) {
    Ancestor(ps, p, j).Some? && Ancestor(ps, p, j).value.pid == pid
  }

  /** The pids passed on the way up. */
  ghost predicate Passed(ps: seq<ProcessRecord>, p: ProcessRecord, visited: set<int>, k: nat) {
    && (forall j :: 0 <= j < k ==> Ancestor(ps, p, j).Some? && Ancestor(ps, p, j).value.pid in visited)
    && (forall pid :: pid in visited ==> exists j: nat :: j < k && IsAt(ps, p, j, pid))
  }

  lemma SamePidSameRecord(ps: seq<ProcessRecord>, p: ProcessRecord, q: ProcessRecord)
    requires DistinctPids(ps) && p in ps && q in ps && p.pid == q.pid
    ensures p == q
  {
  }

  /** Where the walk may stop without a label: the chain has ended, or has come back. */
  lemma StopWithoutLabel(ps: seq<ProcessRecord>, classify: Classifier, p: ProcessRecord, visited: set<int>, k: nat)
    requires DistinctPids(ps) && p in ps && Unlabelled(classify, p)
    requires k >= 1 && UnlabelledUpTo(ps, classify, p, k) && Passed(ps, p, visited, k)
    requires Ancestor(ps, p, k) == None || Ancestor(ps, p, k).value.pid in visited
    ensures forall role :: !Inherits(ps, classify, p, role)
  {
    forall role, m: nat | NearestLabel(ps, classify, p, m, role)
      ensures false
    {
      if Ancestor(ps, p, k) == None {
        if k <= m {
          NoneStaysNone(ps, p, k, m);
        }
      } else {
        var j: nat :| j < k && IsAt(ps, p, j, Ancestor(ps, p, k).value.pid);
        SamePidSameRecord(ps, Ancestor(ps, p, j).value, Ancestor(ps, p, k).value);
        CycleHasNoLabel(ps, classify, p, j, k, m);
      }
    }
  }

  lemma NearestIsOnly(ps: seq<ProcessRecord>, classify: Classifier, p: ProcessRecord, k: nat, role: Role)
    requires NearestLabel(ps, classify, p, k, role)
    ensures forall other :: Inherits(ps, classify, p, other) <==> other == role
  {
    forall other, m: nat | NearestLabel(ps, classify, p, m, other)
      ensures other == role
    {
      assert m < k ==> Unlabelled(classify, Ancestor(ps, p, m).value);
      assert k < m ==> Unlabelled(classify, Ancestor(ps, p, k).value);
    }
  }

  lemma StepUp(ps: seq<ProcessRecord>, p: ProcessRecord, visited: set<int>, k: nat)
    requires Passed(ps, p, visited, k) && Ancestor(ps, p, k).Some?
    ensures Passed(ps, p, visited + {Ancestor(ps, p, k).value.pid}, k + 1)
  {
    var up := Ancestor(ps, p, k).value.pid;
    forall pid | pid in visited + {up}
      ensures exists j: nat :: j < k + 1 && IsAt(ps, p, j, pid)
    {
      if pid == up {
        assert IsAt(ps, p, k, pid);
      } else {
        var j: nat :| j < k && IsAt(ps, p, j, pid);
      }
    }
  }

  /** What the upward walk keeps true, having passed `k` processes, the start included. */
  ghost predicate Walking(ps: seq<ProcessRecord>, classify: Classifier, p: ProcessRecord, visited: set<int>, k: nat) {
    k >= 1 && UnlabelledUpTo(ps, classify, p, k) && Passed(ps, p, visited, k)
  }

  lemma StartWalking(ps: seq<ProcessRecord>, classify: Classifier, p: ProcessRecord)
    ensures Walking(ps, classify, p, {p.pid}, 1)
    ensures Ancestor(ps, p, 1) == ParentOf(ps, p)
  {
    assert IsAt(ps, p, 0, p.pid);
  }

  lemma KeepWalking(ps: seq<ProcessRecord>, classify: Classifier, p: ProcessRecord, visited: set<int>, k: nat, up: ProcessRecord)
    requires Walking(ps, classify, p, visited, k) && Ancestor(ps, p, k) == Some(up) && Unlabelled(classify, up)
    ensures Walking(ps, classify, p, visited + {up.pid}, k + 1)
    ensures Ancestor(ps, p, k + 1) == ParentOf(ps, up)
  {
    StepUp(ps, p, visited, k);
  }

  lemma Unattributed(ps: seq<ProcessRecord>, classify: Classifier, p: ProcessRecord, visited: set<int>, k: nat)
    requires DistinctPids(ps) && p in ps && classify(p) in {Other, NodeChild} && Walking(ps, classify, p, visited, k)
    requires Ancestor(ps, p, k) == None || Ancestor(ps, p, k).value.pid in visited
    ensures Attributed(ps, classify, p, classify(p))
  {
    StopWithoutLabel(ps, classify, p, visited, k);
  }

  lemma Labelled(ps: seq<ProcessRecord>, classify: Classifier, p: ProcessRecord, k: nat, role: Role)
    requires classify(p) in {Other, NodeChild} && NearestLabel(ps, classify, p, k, role)
    ensures Attributed(ps, classify, p, role)
  {
    assert Inherits(ps, classify, p, role);
  }

  /** What the role of a process should be after attribution. */
  ghost predicate Attributed(ps: seq<ProcessRecord>, classify: Classifier, p: ProcessRecord, role: Role) {
    if classify(p) !in {Other, NodeChild} then role == classify(p)
    else if exists r :: Inherits(ps, classify, p, r) then Inherits(ps, classify, p, role)
    else role == classify(p)
  }

  /** Attribution leaves no choice: every process has exactly one role. */
  lemma AttributedIsUnique(ps: seq<ProcessRecord>, classify: Classifier, p: ProcessRecord, role: Role, other: Role)
    requires Attributed(ps, classify, p, role)
    ensures Attributed(ps, classify, p, other) <==> other == role
  {
    if r :| Inherits(ps, classify, p, r) {
      var k: nat :| NearestLabel(ps, classify, p, k, r);
      NearestIsOnly(ps, classify, p, k, r);
    }
  }

  // ----- attribution, without the walk -----

  /** From a process to its parent, to the parent of that, and so on. */
  ghost predicate IsLineage(ps: seq<ProcessRecord>, p: ProcessRecord, line: seq<ProcessRecord>) {
    && |line| > 0 && line[0] == p
    && forall i :: 0 < i < |line| ==> line[i] in ps && line[i].pid == line[i - 1].parentPid
  }

  /** A lineage that ends at the nearest extension-host or agent ancestor, one of these roles. */
  ghost predicate EndsAt(ps: seq<ProcessRecord>, classify: Classifier, p: ProcessRecord, line: seq<ProcessRecord>,
                         roles: set<Role>) {
    && IsLineage(ps, p, line) && |line| > 1 && classify(line[|line| - 1]) in roles
    && forall i :: 0 < i < |line| - 1 ==>
         classify(line[i]) !in {ExtensionHost, ExtensionChild, WorkspaceAgent, WorkspaceAgentChild}
  }

  ghost predicate Below(ps: seq<ProcessRecord>, classify: Classifier, p: ProcessRecord, roles: set<Role>) {
    exists line :: EndsAt(ps, classify, p, line, roles)
  }

  lemma ParentIsListed(ps: seq<ProcessRecord>, p: ProcessRecord, q: ProcessRecord)
    requires DistinctPids(ps)
    ensures ParentOf(ps, p) == Some(q) <==> q in ps && q.pid == p.parentPid
  {
    if q in ps && q.pid == p.parentPid {
      SamePidSameRecord(ps, q, LastWithPid(ps, p.parentPid).value);
    }
  }

  lemma {:induction false} LineageIsAncestors(ps: seq<ProcessRecord>, p: ProcessRecord, line: seq<ProcessRecord>, k: nat)
    requires DistinctPids(ps) && IsLineage(ps, p, line) && k < |line|
    ensures Ancestor(ps, p, k) == Some(line[k])
  {
    if k > 0 {
      LineageIsAncestors(ps, p, line, k - 1);
      ParentIsListed(ps, line[k - 1], line[k]);
    }
  }

  function Lineage(ps: seq<ProcessRecord>, p: ProcessRecord, k: nat): (line: seq<ProcessRecord>)
    requires forall j :: 0 <= j <= k ==> Ancestor(ps, p, j).Some?
    ensures |line| == k + 1 && forall j :: 0 <= j <= k ==> Ancestor(ps, p, j) == Some(line[j])
  {
    seq(k + 1, j requires 0 <= j <= k => Ancestor(ps, p, j).value)
  }

  lemma LineageOfLabel(ps: seq<ProcessRecord>, classify: Classifier, p: ProcessRecord, k: nat, role: Role)
    requires DistinctPids(ps) && NearestLabel(ps, classify, p, k, role)
    ensures var roles := if role == ExtensionChild then {ExtensionHost, ExtensionChild} else {WorkspaceAgent, WorkspaceAgentChild};
      role in {ExtensionChild, WorkspaceAgentChild} && Below(ps, classify, p, roles)
  {
    var roles := if role == ExtensionChild then {ExtensionHost, ExtensionChild} else {WorkspaceAgent, WorkspaceAgentChild};
    var line := Lineage(ps, p, k);
    forall i | 0 < i < |line|
      ensures line[i] in ps && line[i].pid == line[i - 1].parentPid
    {
      ParentIsListed(ps, line[i - 1], line[i]);
    }
    assert EndsAt(ps, classify, p, line, roles);
  }

  lemma LabelOfLineage(ps: seq<ProcessRecord>, classify: Classifier, p: ProcessRecord, line: seq<ProcessRecord>,
                       roles: set<Role>, role: Role)
    requires DistinctPids(ps) && EndsAt(ps, classify, p, line, roles)
    requires (roles == {ExtensionHost, ExtensionChild} && role == ExtensionChild)
             || (roles == {WorkspaceAgent, WorkspaceAgentChild} && role == WorkspaceAgentChild)
    ensures NearestLabel(ps, classify, p, |line| - 1, role)
  {
    forall j | 1 <= j < |line| - 1
      ensures Ancestor(ps, p, j).Some? && Unlabelled(classify, Ancestor(ps, p, j).value)
    {
      LineageIsAncestors(ps, p, line, j);
    }
    LineageIsAncestors(ps, p, line, |line| - 1);
  }

  lemma InheritsFromLineage(ps: seq<ProcessRecord>, classify: Classifier, p: ProcessRecord)
    requires DistinctPids(ps)
    ensures Inherits(ps, classify, p, ExtensionChild) <==> Below(ps, classify, p, {ExtensionHost, ExtensionChild})
    ensures Inherits(ps, classify, p, WorkspaceAgentChild)
            <==> Below(ps, classify, p, {WorkspaceAgent, WorkspaceAgentChild})
    ensures forall role :: Inherits(ps, classify, p, role) ==> role in {ExtensionChild, WorkspaceAgentChild}
  {
    forall role, k: nat | NearestLabel(ps, classify, p, k, role)
      ensures role in {ExtensionChild, WorkspaceAgentChild}
      ensures Below(ps, classify, p, if role == ExtensionChild then {ExtensionHost, ExtensionChild}
                                     else {WorkspaceAgent, WorkspaceAgentChild})
    {
      LineageOfLabel(ps, classify, p, k, role);
    }
    if line :| EndsAt(ps, classify, p, line, {ExtensionHost, ExtensionChild}) {
      LabelOfLineage(ps, classify, p, line, {ExtensionHost, ExtensionChild}, ExtensionChild);
    }
    if line :| EndsAt(ps, classify, p, line, {WorkspaceAgent, WorkspaceAgentChild}) {
      LabelOfLineage(ps, classify, p, line, {WorkspaceAgent, WorkspaceAgentChild}, WorkspaceAgentChild);
    }
  }

  /** Main result on roles: a process keeps its role unless it is an other or node process with an
      extension-host or agent ancestor; then the nearest such ancestor decides. */
  lemma AttributedMeaning(ps: seq<ProcessRecord>, classify: Classifier, p: ProcessRecord, role: Role)
    requires DistinctPids(ps) && Attributed(ps, classify, p, role)
    ensures classify(p) !in {Other, NodeChild} ==> role == classify(p)
    ensures classify(p) in {Other, NodeChild} ==>
      && (role == ExtensionChild <==> Below(ps, classify, p, {ExtensionHost, ExtensionChild}))
      && (role == WorkspaceAgentChild <==> Below(ps, classify, p, {WorkspaceAgent, WorkspaceAgentChild}))
      && (role == classify(p) <==> !Below(ps, classify, p, {ExtensionHost, ExtensionChild})
                                   && !Below(ps, classify, p, {WorkspaceAgent, WorkspaceAgentChild}))
  {
    InheritsFromLineage(ps, classify, p);
    if classify(p) in {Other, NodeChild} {
      if r :| Inherits(ps, classify, p, r) {
        var k: nat :| NearestLabel(ps, classify, p, k, r);
        NearestIsOnly(ps, classify, p, k, r);
      }
    }
  }

  /** The upward walk for one process. It ends on every parent graph; with unique pids it finds
      exactly the nearest extension-host or agent ancestor. */
  method Attribute(ps: seq<ProcessRecord>, classify: Classifier, p: ProcessRecord) returns (role: Role)
    requires p in ps
    ensures DistinctPids(ps) ==> Attributed(ps, classify, p, role)
  {
    role := classify(p);
    if role != Other && role != NodeChild {
      return;
    }
    var visited := {p.pid};
    var parent := ParentOf(ps, p);
    ghost var k := 1;
    StartWalking(ps, classify, p);
    while parent.Some? && parent.value.pid !in visited
      invariant parent == Ancestor(ps, p, k)
      invariant Walking(ps, classify, p, visited, k)
      decreases Pids(ps) - visited
    {
      var up := parent.value;
      assert up.pid in Pids(ps);
      var inherited := ChildRole(classify(up));
      if inherited.Some? {
        Labelled(ps, classify, p, k, inherited.value);
        return inherited.value;
      }
      KeepWalking(ps, classify, p, visited, k, up);
      visited := visited + {up.pid};
      parent := ParentOf(ps, up);
      k := k + 1;
    }
    if DistinctPids(ps) {
      Unattributed(ps, classify, p, visited, k);
    }
  }

  // ----- totals -----

  function CountRole(cs: seq<Classified>, role: Role): nat {
    if cs == [] then 0 else CountRole(cs[..|cs| - 1], role) + (if cs[|cs| - 1].role == role then 1 else 0)
  }

  function RssOfRole(cs: seq<Classified>, role: Role): nat {
    if cs == [] then 0
    else RssOfRole(cs[..|cs| - 1], role) + (if cs[|cs| - 1].role == role then cs[|cs| - 1].process.rssBytes else 0)
  }

  function TotalRss(ps: seq<ProcessRecord>): nat {
    if ps == [] then 0 else TotalRss(ps[..|ps| - 1]) + ps[|ps| - 1].rssBytes
  }

  /** A role counts each of its processes once, with its resident memory, and nothing else. */
  lemma FiguresOfOne(c: Classified, role: Role)
    ensures CountRole([c], role) == if c.role == role then 1 else 0
    ensures RssOfRole([c], role) == if c.role == role then c.process.rssBytes else 0
    ensures TotalRss([c.process]) == c.process.rssBytes
  {
    assert [c][..0] == [] && [c.process][..0] == [];
  }

  /** The figures of two listings add up. */
  lemma {:induction false} FiguresAddUp(cs: seq<Classified>, ds: seq<Classified>, role: Role)
    ensures CountRole(cs + ds, role) == CountRole(cs, role) + CountRole(ds, role)
    ensures RssOfRole(cs + ds, role) == RssOfRole(cs, role) + RssOfRole(ds, role)
    decreases |ds|
  {
    if ds == [] {
      assert cs + ds == cs;
    } else {
      var m := |ds| - 1;
      FiguresAddUp(cs, ds[..m], role);
      assert (cs + ds)[..|cs + ds| - 1] == cs + ds[..m];
    }
  }

  lemma {:induction false} TotalsAddUp(ps: seq<ProcessRecord>, qs: seq<ProcessRecord>)
    ensures TotalRss(ps + qs) == TotalRss(ps) + TotalRss(qs)
    decreases |qs|
  {
    if qs == [] {
      assert ps + qs == ps;
    } else {
      var m := |qs| - 1;
      TotalsAddUp(ps, qs[..m]);
      assert (ps + qs)[..|ps + qs| - 1] == ps + qs[..m];
    }
  }

  function Entry(byRole: map<Role, RoleSummary>, role: Role): RoleSummary {
    if role in byRole then byRole[role] else RoleSummary(0, 0)
  }

  const ALL_ROLES: seq<Role> :=
    [Server, ExtensionHost, ExtensionChild, WatcherHost, WorkspaceAgent, WorkspaceAgentChild,
     WsGateway, PtyHost, TerminalShell, LanguageServer, NodeChild, Other]

  function SumCounts(m: map<Role, RoleSummary>, roles: seq<Role>): nat {
    if roles == [] then 0 else Entry(m, roles[0]).count + SumCounts(m, roles[1..])
  }

  function SumRss(m: map<Role, RoleSummary>, roles: seq<Role>): nat {
    if roles == [] then 0 else Entry(m, roles[0]).rssBytes + SumRss(m, roles[1..])
  }

  lemma {:induction false} SumUpdated(m: map<Role, RoleSummary>, role: Role, s: RoleSummary, roles: seq<Role>)
    requires Distinct(roles)
    ensures SumCounts(m[role := s], roles) + (if role in roles then Entry(m, role).count else 0)
            == SumCounts(m, roles) + (if role in roles then s.count else 0)
    ensures SumRss(m[role := s], roles) + (if role in roles then Entry(m, role).rssBytes else 0)
            == SumRss(m, roles) + (if role in roles then s.rssBytes else 0)
  {
    if roles != [] {
      SumUpdated(m, role, s, roles[1..]);
      assert roles == [roles[0]] + roles[1..];
    }
  }

  lemma {:induction false} SumEmpty(roles: seq<Role>)
    ensures SumCounts(map[], roles) == 0 && SumRss(map[], roles) == 0
  {
    if roles != [] {
      SumEmpty(roles[1..]);
    }
  }

  /** A list of all roles without repetition. */
  ghost predicate Enumerates(roles: seq<Role>) {
    Distinct(roles) && forall role :: role in roles
  }

  lemma AllRolesEnumerate()
    ensures Enumerates(ALL_ROLES)
  {
    forall role
      ensures role in ALL_ROLES
    {
      match role {
        case Server => assert ALL_ROLES[0] == role;
        case ExtensionHost => assert ALL_ROLES[1] == role;
        case ExtensionChild => assert ALL_ROLES[2] == role;
        case WatcherHost => assert ALL_ROLES[3] == role;
        case WorkspaceAgent => assert ALL_ROLES[4] == role;
        case WorkspaceAgentChild => assert ALL_ROLES[5] == role;
        case WsGateway => assert ALL_ROLES[6] == role;
        case PtyHost => assert ALL_ROLES[7] == role;
        case TerminalShell => assert ALL_ROLES[8] == role;
        case LanguageServer => assert ALL_ROLES[9] == role;
        case NodeChild => assert ALL_ROLES[10] == role;
        case Other => assert ALL_ROLES[11] == role;
      }
    }
  }

  function Processes(cs: seq<Classified>): (ps: seq<ProcessRecord>)
    ensures |ps| == |cs| && forall i :: 0 <= i < |cs| ==> ps[i] == cs[i].process
  {
    seq(|cs|, i requires 0 <= i < |cs| => cs[i].process)
  }

  /** Per-role entries are exact, and they add up. */
  ghost predicate Tallied(cs: seq<Classified>, m: map<Role, RoleSummary>) {
    && (forall role :: role in m <==> CountRole(cs, role) > 0)
    && (forall role :: Entry(m, role) == RoleSummary(CountRole(cs, role), RssOfRole(cs, role)))
    && (forall roles :: Enumerates(roles) ==> AddUp(m, roles, |cs|, TotalRss(Processes(cs))))
  }

  predicate AddUp(m: map<Role, RoleSummary>, roles: seq<Role>, count: nat, rssBytes: nat) {
    SumCounts(m, roles) == count && SumRss(m, roles) == rssBytes
  }

  function Add(s: RoleSummary, c: Classified): RoleSummary {
    RoleSummary(s.count + 1, s.rssBytes + c.process.rssBytes)
  }

  lemma TallyNone()
    ensures Tallied([], map[])
  {
    forall roles | Enumerates(roles)
      ensures AddUp(map[], roles, 0, 0)
    {
      SumEmpty(roles);
    }
  }

  lemma CountOne(cs: seq<Classified>, c: Classified, role: Role)
    ensures CountRole(cs + [c], role) == CountRole(cs, role) + (if c.role == role then 1 else 0)
    ensures RssOfRole(cs + [c], role) == RssOfRole(cs, role) + (if c.role == role then c.process.rssBytes else 0)
  {
    assert (cs + [c])[..|cs|] == cs;
  }

  lemma TotalOne(cs: seq<Classified>, c: Classified)
    ensures TotalRss(Processes(cs + [c])) == TotalRss(Processes(cs)) + c.process.rssBytes
  {
    assert Processes(cs + [c]) == Processes(cs) + [c.process];
    assert (Processes(cs) + [c.process])[..|cs|] == Processes(cs);
  }

  lemma TallyOne(cs: seq<Classified>, c: Classified, m: map<Role, RoleSummary>)
    requires Tallied(cs, m)
    ensures Tallied(cs + [c], m[c.role := Add(Entry(m, c.role), c)])
  {
    var m' := m[c.role := Add(Entry(m, c.role), c)];
    TotalOne(cs, c);
    forall role
      ensures role in m' <==> CountRole(cs + [c], role) > 0
      ensures Entry(m', role) == RoleSummary(CountRole(cs + [c], role), RssOfRole(cs + [c], role))
    {
      CountOne(cs, c, role);
    }
    forall roles | Enumerates(roles)
      ensures AddUp(m', roles, |cs + [c]|, TotalRss(Processes(cs + [c])))
    {
      assert AddUp(m, roles, |cs|, TotalRss(Processes(cs)));
      SumUpdated(m, c.role, Add(Entry(m, c.role), c), roles);
    }
  }

  /** The loop over the attributed processes. */
  method SumByRole(cs: seq<Classified>) returns (byRole: map<Role, RoleSummary>)
    ensures Tallied(cs, byRole)
  {
    byRole := map[];
    TallyNone();
    for i := 0 to |cs|
      invariant Tallied(cs[..i], byRole)
    {
      var c := cs[i];
      TallyOne(cs[..i], c, byRole);
      assert cs[..i + 1] == cs[..i] + [c];
      byRole := byRole[c.role := Add(Entry(byRole, c.role), c)];
    }
    assert cs[..|cs|] == cs;
  }

  /** `summarizeProcessTree`: every process keeps its place and gets its role; counts and
      resident memory per role are exact and add up to the totals. */
  method SummarizeProcessTree(ps: seq<ProcessRecord>, classify: Classifier)
    returns (withRoles: seq<Classified>, byRole: map<Role, RoleSummary>, processCount: nat, totalRssBytes: nat)
    ensures Processes(withRoles) == ps
    ensures DistinctPids(ps) ==> forall i :: 0 <= i < |ps| ==> Attributed(ps, classify, ps[i], withRoles[i].role)
    ensures Tallied(withRoles, byRole)
    ensures processCount == |ps| && totalRssBytes == TotalRss(ps)
    ensures SumCounts(byRole, ALL_ROLES) == processCount && SumRss(byRole, ALL_ROLES) == totalRssBytes
  {
    withRoles := [];
    for i := 0 to |ps|
      invariant |withRoles| == i && forall j :: 0 <= j < i ==> withRoles[j].process == ps[j]
      invariant DistinctPids(ps) ==> forall j :: 0 <= j < i ==> Attributed(ps, classify, ps[j], withRoles[j].role)
    {
      var role := Attribute(ps, classify, ps[i]);
      withRoles := withRoles + [Classified(ps[i], role)];
    }
    assert Processes(withRoles) == ps;
    byRole := SumByRole(withRoles);
    processCount, totalRssBytes := |withRoles|, TotalRss(ps);
    AllRolesEnumerate();
    assert AddUp(byRole, ALL_ROLES, |withRoles|, TotalRss(ps));
  }

  /** The two stages compose: the tree selected below a root always has unique pids, so its
      roles are always the nearest-ancestor ones. */
  method CollectTree(all: seq<ProcessRecord>, rootPid: int, classify: Classifier)
    returns (tree: seq<ProcessRecord>, withRoles: seq<Classified>, byRole: map<Role, RoleSummary>)
    ensures tree == [] <==> !Listed(all, rootPid)
    ensures forall pid :: tree != [] ==> (pid in Pids(tree) <==> Reachable(all, rootPid, pid))
    ensures |withRoles| == |tree|
    ensures SumCounts(byRole, ALL_ROLES) == |tree| && SumRss(byRole, ALL_ROLES) == TotalRss(tree)
    ensures forall i :: 0 <= i < |tree| ==>
              withRoles[i].process == tree[i] && Attributed(tree, classify, tree[i], withRoles[i].role)
  {
    ghost var depths;
    tree, depths := SelectProcessTree(all, rootPid);
    var processCount, totalRssBytes;
    withRoles, byRole, processCount, totalRssBytes := SummarizeProcessTree(tree, classify);
  }
}
