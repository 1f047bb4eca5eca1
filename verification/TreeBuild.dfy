/** Building the listing: entries and their context, children, roots, rows. */
module TreeBuild {
  import opened Prelude
  import opened StableSort
  import opened Ancestry
  import opened ProcessTree

  /** The Python processes by pid; of two with one pid the later is kept. */
  function Listed(ps: seq<Process>): Entries {
    if ps == [] then map[]
    else
      var p := ps[|ps| - 1];
      Listed(ps[..|ps| - 1])[p.pid := Entry(p.pid, p.ppid, p.name, true)]
  }

  /** The processes a walk up goes through. */
  function High(e: Entries): Entries {
    map p | p in e && p > SYSTEM_PID :: e[p]
  }

  /** Where the walk up from `pid` stops, or none if it takes more than `fuel` steps. */
  function ClimbEnd(python: Entries, pid: int, fuel: nat): Option<int>
    decreases fuel
  {
    if pid <= SYSTEM_PID || pid !in python then Some(pid)
    else if fuel == 0 then None
    else ClimbEnd(python, python[pid].ppid, fuel - 1)
  }

  lemma {:induction false} ClimbIsAnc(python: Entries, pid: int, fuel: nat)
    ensures ClimbEnd(python, pid, fuel).None? <==> Anc(High(python), pid, fuel).Some?
    decreases fuel
  {
    if pid in High(python) && fuel > 0 { ClimbIsAnc(python, python[pid].ppid, fuel - 1); }
  }

  /** The walk up stops from everywhere exactly when no cycle runs through Python processes above the system's. */
  lemma {:induction false} ClimbsStopIff(python: Entries)
    ensures Acyclic(High(python)) <==> forall pid :: ClimbEnd(python, pid, |High(python)|).Some?
  {
    AcyclicIff(High(python));
    if Acyclic(High(python)) {
      forall pid ensures ClimbEnd(python, pid, |High(python)|).Some? { ClimbIsAnc(python, pid, |High(python)|); }
    } else {
      var x :| Anc(High(python), x, |High(python)|).Some?;
      ClimbIsAnc(python, x, |High(python)|);
    }
  }

  /** With a cycle, some walk never stops, however long it is left to run. */
  lemma {:induction false} ClimbForever(python: Entries, pid: int, fuel: nat)
    requires OnCycle(High(python), pid)
    ensures ClimbEnd(python, pid, fuel).None?
  {
    var e := High(python);
    var n: nat :| n > 0 && Anc(e, pid, n) == Some(pid);
    Round(e, pid, n, fuel);
    AncPrefix(e, pid, fuel, n * fuel);
    ClimbIsAnc(python, pid, fuel);
  }

  type Names = map<int, (string, int)>

  /** `q` is the first process above one of `ps` that is not Python's, and the system knows it. */
  ghost predicate ContextOf(python: Entries, ps: seq<Process>, info: Names, q: int) {
    && q > SYSTEM_PID && q in info && q !in python
    && exists p :: p in ps && ClimbEnd(python, p.ppid, |High(python)|) == Some(q)
  }

  function Context(info: Names, q: int): Entry
    requires q in info
  {
    Entry(q, info[q].1, info[q].0, false)
  }

  /** The Python processes and the context of the first `ps` of them. */
  ghost function Completed(python: Entries, ps: seq<Process>, info: Names): Entries {
    map q | q in python.Keys + info.Keys && (q in python || ContextOf(python, ps, info, q)) ::
      if q in python then python[q] else Context(info, q)
  }

  // ---- what the entries are, in terms of the list given ----------------------------------------

  /** The last process given under its pid: it is the one kept. */
  predicate IsLast(ps: seq<Process>, p: Process) {
    exists i :: 0 <= i < |ps| && ps[i] == p && forall j :: i < j < |ps| ==> ps[j].pid != p.pid
  }

  lemma {:induction false} ListedMeans(ps: seq<Process>, pid: int)
    ensures pid in Listed(ps) <==> exists p: Process :: IsLast(ps, p) && p.pid == pid
    ensures forall p: Process :: IsLast(ps, p) && p.pid == pid ==> pid in Listed(ps) && Listed(ps)[pid] == Entry(pid, p.ppid, p.name, true)
    decreases |ps|
  {
    if ps != [] {
      var init, last := ps[..|ps| - 1], ps[|ps| - 1];
      ListedMeans(init, pid);
      assert ps == init + [last];
      if last.pid == pid {
        assert ps[|init|] == last && IsLast(ps, last);
      } else {
        forall p: Process | p.pid == pid ensures IsLast(ps, p) <==> IsLast(init, p) { LastStays(init, last, p); }
      }
    }
  }

  lemma LastStays(ps: seq<Process>, more: Process, p: Process)
    requires more.pid != p.pid
    ensures IsLast(ps + [more], p) <==> IsLast(ps, p)
  {
    var all := ps + [more];
    if IsLast(ps, p) {
      var i :| 0 <= i < |ps| && ps[i] == p && forall j :: i < j < |ps| ==> ps[j].pid != p.pid;
      assert all[i] == p;
      forall j | i < j < |all| ensures all[j].pid != p.pid { if j < |ps| { assert all[j] == ps[j]; } }
    }
    if IsLast(all, p) {
      var i :| 0 <= i < |all| && all[i] == p && forall j :: i < j < |all| ==> all[j].pid != p.pid;
      forall j | i < j < |ps| ensures ps[j].pid != p.pid { assert all[j] == ps[j]; }
    }
  }

  /** A walk up: a process given, then the parent of each before, kept under its pid and not the system's own. */
  ghost predicate Walk(ps: seq<Process>, walk: seq<Process>) {
    && walk != [] && walk[0] in ps
    && forall k :: 0 < k < |walk| ==> IsLast(ps, walk[k]) && walk[k].pid == walk[k - 1].ppid && walk[k].pid > 4
  }

  /** Whether some walk up comes to `q`. */
  ghost predicate WalksTo(ps: seq<Process>, q: int) {
    exists walk: seq<Process> :: Walk(ps, walk) && walk[|walk| - 1].ppid == q
  }

  lemma {:induction false} ClimbGivesWalk(ps: seq<Process>, walk: seq<Process>, q: int, fuel: nat)
    requires Walk(ps, walk) && ClimbEnd(Listed(ps), walk[|walk| - 1].ppid, fuel) == Some(q)
    ensures WalksTo(ps, q)
    decreases fuel
  {
    var x := walk[|walk| - 1].ppid;
    if x > SYSTEM_PID && x in Listed(ps) {
      ListedMeans(ps, x);
      var p: Process :| IsLast(ps, p) && p.pid == x;
      assert forall k :: 0 <= k < |walk| ==> (walk + [p])[k] == walk[k];
      ClimbGivesWalk(ps, walk + [p], q, fuel - 1);
    }
  }

  lemma {:induction false} WalkGivesClimb(ps: seq<Process>, walk: seq<Process>, k: nat)
    requires Walk(ps, walk) && k < |walk|
    requires walk[|walk| - 1].ppid !in Listed(ps)
    ensures ClimbEnd(Listed(ps), walk[k].ppid, |walk| - 1 - k) == Some(walk[|walk| - 1].ppid)
    decreases |walk| - k
  {
    if k < |walk| - 1 {
      ListedMeans(ps, walk[k].ppid);
      assert IsLast(ps, walk[k + 1]);
      WalkGivesClimb(ps, walk, k + 1);
    }
  }

  lemma {:induction false} ClimbsAgree(python: Entries, pid: int, a: nat, b: nat)
    ensures ClimbEnd(python, pid, a).Some? && ClimbEnd(python, pid, b).Some? ==> ClimbEnd(python, pid, a) == ClimbEnd(python, pid, b)
    decreases a
  {
    if a > 0 && b > 0 && pid in python { ClimbsAgree(python, python[pid].ppid, a - 1, b - 1); }
  }

  /**
   Where every walk ends, the entries are the processes given, each as last given, and every process the
   system knows, not its own and not given, that some walk up comes to.
   */
  lemma {:induction false} CompletedMeans(ps: seq<Process>, info: Names)
    requires Acyclic(High(Listed(ps)))
    ensures forall p: Process :: IsLast(ps, p) ==>
      p.pid in Completed(Listed(ps), ps, info) && Completed(Listed(ps), ps, info)[p.pid] == Entry(p.pid, p.ppid, p.name, true)
    ensures forall q :: (forall p :: p in ps ==> p.pid != q) ==>
      && (q in Completed(Listed(ps), ps, info) <==> q > 4 && q in info && WalksTo(ps, q))
      && (q in Completed(Listed(ps), ps, info) ==> Completed(Listed(ps), ps, info)[q] == Entry(q, info[q].1, info[q].0, false))
  {
    var python := Listed(ps);
    forall p: Process | IsLast(ps, p)
      ensures p.pid in Completed(python, ps, info) && Completed(python, ps, info)[p.pid] == Entry(p.pid, p.ppid, p.name, true)
    {
      ListedMeans(ps, p.pid);
    }
    forall q | forall p :: p in ps ==> p.pid != q
      ensures q !in python && (ContextOf(python, ps, info, q) <==> q > 4 && q in info && WalksTo(ps, q))
    {
      ListedMeans(ps, q);
      ContextIff(ps, info, q);
    }
  }

  lemma {:induction false} ContextIff(ps: seq<Process>, info: Names, q: int)
    requires Acyclic(High(Listed(ps))) && q !in Listed(ps)
    ensures ContextOf(Listed(ps), ps, info, q) <==> q > 4 && q in info && WalksTo(ps, q)
  {
    var python := Listed(ps);
    if ContextOf(python, ps, info, q) {
      var p :| p in ps && ClimbEnd(python, p.ppid, |High(python)|) == Some(q);
      ClimbGivesWalk(ps, [p], q, |High(python)|);
    }
    if q > 4 && q in info && WalksTo(ps, q) {
      var walk: seq<Process> :| Walk(ps, walk) && walk[|walk| - 1].ppid == q;
      WalkGivesClimb(ps, walk, 0);
      ClimbsStopIff(python);
      ClimbsAgree(python, walk[0].ppid, |walk| - 1, |High(python)|);
    }
  }

  method WalkUp(entries: Entries, python: set<int>, ppid: int, ghost listed: Entries) returns (top: int)
    requires python == listed.Keys && Acyclic(High(listed))
    requires forall p :: p in listed ==> p in entries && entries[p] == listed[p]
    ensures ClimbEnd(listed, ppid, |High(listed)|) == Some(top)
    ensures top <= SYSTEM_PID || top !in python
  {
    ClimbsStopIff(listed);
    top := ppid;
    ghost var fuel: nat := |High(listed)|;
    while top > SYSTEM_PID && top in python
      invariant ClimbEnd(listed, top, fuel).Some?
      invariant ClimbEnd(listed, top, fuel) == ClimbEnd(listed, ppid, |High(listed)|)
      decreases fuel
    {
      if top !in entries { break; }
      top := entries[top].ppid;
      fuel := fuel - 1;
    }
  }

  method ListProcesses(ps: seq<Process>) returns (entries: Entries)
    ensures entries == Listed(ps)
  {
    entries := map[];
    for i := 0 to |ps|
      invariant entries == Listed(ps[..i])
    {
      assert ps[..i + 1][..i] == ps[..i];
      entries := entries[ps[i].pid := Entry(ps[i].pid, ps[i].ppid, ps[i].name, true)];
    }
    assert ps[..|ps|] == ps;
  }

  method BuildEntries(ps: seq<Process>, info: Names) returns (entries: Entries)
    requires Acyclic(High(Listed(ps)))
    ensures entries == Completed(Listed(ps), ps, info)
  {
    entries := ListProcesses(ps);
    ghost var listed := entries;
    var python := entries.Keys;
    NoContext(listed, info);
    assert ps[..0] == [];
    for i := 0 to |ps|
      invariant entries == Completed(listed, ps[..i], info)
    {
      assert ps[..i + 1] == ps[..i] + [ps[i]];
      entries := AddContext(entries, python, ps[i], info, listed, ps[..i]);
    }
    assert ps[..|ps|] == ps;
  }

  /** Walk up from one process and list the ancestor the walk stops at, if it is a stranger the system knows. */
  method AddContext(entries: Entries, python: set<int>, p: Process, info: Names, ghost listed: Entries, ghost done: seq<Process>)
    returns (more: Entries)
    requires python == listed.Keys && Acyclic(High(listed)) && entries == Completed(listed, done, info)
    ensures more == Completed(listed, done + [p], info)
  {
    var top := WalkUp(entries, python, p.ppid, listed);
    OneMore(listed, done, p, info, top);
    if top > SYSTEM_PID && top !in entries && top in info {
      return entries[top := Context(info, top)];
    }
    return entries;
  }

  lemma NoContext(python: Entries, info: Names)
    ensures Completed(python, [], info) == python
  {}

  lemma {:induction false} OneMore(python: Entries, ps: seq<Process>, p: Process, info: Names, top: int)
    requires ClimbEnd(python, p.ppid, |High(python)|) == Some(top) && (top <= SYSTEM_PID || top !in python)
    ensures var before := Completed(python, ps, info);
      Completed(python, ps + [p], info)
      == if top > SYSTEM_PID && top !in before && top in info then before[top := Context(info, top)] else before
  {
    forall q ensures ContextOf(python, ps + [p], info, q)
      <==> ContextOf(python, ps, info, q) || (q == top && top > SYSTEM_PID && top in info && top !in python) {
      assert p in ps + [p];
      if ContextOf(python, ps, info, q) {
        var o :| o in ps && ClimbEnd(python, o.ppid, |High(python)|) == Some(q);
        assert o in ps + [p];
      }
    }
  }

  /** A hash map's own order: any. */
  method WalkOrder(entries: Entries) returns (order: seq<int>)
    ensures Forest(entries, order).Valid()
  {
    order := [];
    var todo := entries.Keys;
    while todo != {}
      invariant todo <= entries.Keys && Distinct(order)
      invariant forall p :: p in order <==> p in entries && p !in todo
      decreases todo
    {
      var pid := Pick(todo);
      order := order + [pid];
      todo := todo - {pid};
    }
  }

  lemma {:induction false} FilterSnoc(p: int -> bool, s: seq<int>, x: int)
    ensures Filter(p, s + [x]) == if p(x) then Filter(p, s) + [x] else Filter(p, s)
  {
    FilterConcat(p, s, [x]);
  }

  method FindRoots(f: Forest) returns (roots: seq<int>)
    requires f.Valid()
    ensures roots == Roots(f)
  {
    roots := [];
    for i := 0 to |f.order|
      invariant roots == Filter(IsRoot(f.entries), f.order[..i])
    {
      var pid := f.order[i];
      assert pid in f.order;
      FilterSnoc(IsRoot(f.entries), f.order[..i], pid);
      assert f.order[..i + 1] == f.order[..i] + [pid];
      if f.entries[pid].ppid <= SYSTEM_PID || f.entries[pid].ppid !in f.entries {
        roots := roots + [pid];
      }
    }
    assert f.order[..|f.order|] == f.order;
    roots := Sort(Leq, roots);
  }

  function ListOf(children: map<int, seq<int>>, q: int): seq<int> {
    if q in children then children[q] else []
  }

  /** The children of the processes walked so far, each list in the order they were met. */
  ghost predicate Grouped(f: Forest, order: seq<int>, children: map<int, seq<int>>) {
    forall q :: ListOf(children, q) == Filter(IsChildOf(f.entries, q), order)
  }

  lemma GroupOne(f: Forest, order: seq<int>, children: map<int, seq<int>>, pid: int)
    requires Grouped(f, order, children) && pid in f.entries
    ensures var q := f.entries[pid].ppid; Grouped(f, order + [pid], children[q := ListOf(children, q) + [pid]])
  {
    var ppid := f.entries[pid].ppid;
    var more := children[ppid := ListOf(children, ppid) + [pid]];
    forall q ensures ListOf(more, q) == Filter(IsChildOf(f.entries, q), order + [pid]) {
      FilterSnoc(IsChildOf(f.entries, q), order, pid);
      assert ListOf(children, q) == Filter(IsChildOf(f.entries, q), order);
    }
  }

  ghost predicate IsChildMap(f: Forest, children: map<int, seq<int>>) {
    forall q :: ListOf(children, q) == Kids(f, q)
  }

  method BuildChildren(f: Forest) returns (children: map<int, seq<int>>)
    requires f.Valid()
    ensures IsChildMap(f, children)
  {
    children := map[];
    for i := 0 to |f.order|
      invariant Grouped(f, f.order[..i], children)
    {
      var pid := f.order[i];
      assert pid in f.order;
      GroupOne(f, f.order[..i], children, pid);
      assert f.order[..i + 1] == f.order[..i] + [pid];
      var ppid := f.entries[pid].ppid;
      children := children[ppid := ListOf(children, ppid) + [pid]];
    }
    assert f.order[..|f.order|] == f.order;
    children := SortLists(children);
  }

  /** Each list sorted in its place. */
  method SortLists(lists: map<int, seq<int>>) returns (sorted: map<int, seq<int>>)
    ensures sorted.Keys == lists.Keys && forall q :: ListOf(sorted, q) == Sort(Leq, ListOf(lists, q))
  {
    sorted := lists;
    var todo := lists.Keys;
    while todo != {}
      invariant todo <= lists.Keys && sorted.Keys == lists.Keys
      invariant forall q :: ListOf(sorted, q) == if q in todo then ListOf(lists, q) else Sort(Leq, ListOf(lists, q))
      decreases todo
    {
      var q := Pick(todo);
      todo := todo - {q};
      sorted := sorted[q := Sort(Leq, sorted[q])];
    }
  }

  /** Append the rows of `pid` and of everything under it. */
  method FlattenNode(f: Forest, children: map<int, seq<int>>, pid: int, ancestors: seq<bool>, last: bool,
                     rows: seq<Row>, ghost fuel: nat)
    returns (more: seq<Row>)
    requires IsChildMap(f, children) && Flat(f, pid, ancestors, last, fuel).Some?
    ensures more == rows + Flat(f, pid, ancestors, last, fuel).value
    decreases fuel, 0
  {
    var prefix := BuildPrefix(ancestors);
    var kids := ListOf(children, pid);
    FlatSplits(f, pid, ancestors, last, rows, fuel, kids);
    more := rows + [Row(pid, prefix)];
    more := FlattenList(f, children, kids, ancestors + [last], more, fuel - 1);
  }

  method BuildPrefix(ancestors: seq<bool>) returns (prefix: string)
    ensures prefix == Prefix(ancestors)
  {
    prefix := "";
    for i := 0 to |ancestors|
      invariant prefix == Bars(ancestors[..i])
    {
      assert ancestors[..i + 1][..i] == ancestors[..i];
      prefix := prefix + Bar(ancestors[i]);
    }
    assert ancestors[..|ancestors|] == ancestors;
    prefix := prefix + "+-- ";
  }

  lemma FlatSplits(f: Forest, pid: int, ancestors: seq<bool>, last: bool, rows: seq<Row>, fuel: nat, kids: seq<int>)
    requires Flat(f, pid, ancestors, last, fuel).Some? && kids == Kids(f, pid)
    ensures fuel > 0 && FlatAll(f, kids, ancestors + [last], fuel - 1).Some?
    ensures rows + Flat(f, pid, ancestors, last, fuel).value
         == rows + [Row(pid, Prefix(ancestors))] + FlatAll(f, kids, ancestors + [last], fuel - 1).value
  {
    var below := FlatAll(f, kids, ancestors + [last], fuel - 1).value;
    assert rows + ([Row(pid, Prefix(ancestors))] + below) == rows + [Row(pid, Prefix(ancestors))] + below;
  }

  /** The same for a list of siblings, the last of them marked. */
  method FlattenList(f: Forest, children: map<int, seq<int>>, pids: seq<int>, ancestors: seq<bool>,
                     rows: seq<Row>, ghost fuel: nat)
    returns (more: seq<Row>)
    requires IsChildMap(f, children) && FlatAll(f, pids, ancestors, fuel).Some?
    ensures more == rows + FlatAll(f, pids, ancestors, fuel).value
    decreases fuel, 1, |pids|
  {
    more := rows;
    ghost var whole := rows + FlatAll(f, pids, ancestors, fuel).value;
    assert pids[0..] == pids;
    var i := 0;
    while i < |pids|
      invariant 0 <= i <= |pids| && FlatAll(f, pids[i..], ancestors, fuel).Some?
      invariant whole == more + FlatAll(f, pids[i..], ancestors, fuel).value
    {
      NextSibling(f, pids, i, ancestors, fuel, more);
      more := FlattenNode(f, children, pids[i], ancestors, i == |pids| - 1, more, fuel);
      i := i + 1;
    }
    assert pids[i..] == [];
    assert more + [] == more;
  }

  lemma {:induction false} NextSibling(f: Forest, pids: seq<int>, i: nat, ancestors: seq<bool>, fuel: nat, done: seq<Row>)
    requires i < |pids| && FlatAll(f, pids[i..], ancestors, fuel).Some?
    ensures Flat(f, pids[i], ancestors, i == |pids| - 1, fuel).Some? && FlatAll(f, pids[i + 1..], ancestors, fuel).Some?
    ensures done + FlatAll(f, pids[i..], ancestors, fuel).value
         == done + Flat(f, pids[i], ancestors, i == |pids| - 1, fuel).value + FlatAll(f, pids[i + 1..], ancestors, fuel).value
  {
    assert pids[i..][0] == pids[i] && pids[i..][1..] == pids[i + 1..];
    var a, b := Flat(f, pids[i], ancestors, i == |pids| - 1, fuel).value, FlatAll(f, pids[i + 1..], ancestors, fuel).value;
    assert done + (a + b) == done + a + b;
  }

  /**
   The whole listing, whenever there is one: the rows are the listing of the completed entries, in
   whatever order the hash maps walk.
   */
  method BuildFlatRows(ps: seq<Process>, info: Names) returns (rows: seq<Row>)
    requires Acyclic(High(Listed(ps))) && RootsClear(Completed(Listed(ps), ps, info))
    ensures forall f: Forest :: f.Valid() && f.entries == Completed(Listed(ps), ps, info) ==> Listing(f) == Some(rows)
  {
    var entries := BuildEntries(ps, info);
    var order := WalkOrder(entries);
    var forest := Forest(entries, order);
    var children := BuildChildren(forest);
    var roots := FindRoots(forest);
    ListingIff(forest);
    rows := FlattenList(forest, children, roots, [], [], |entries|);
    assert [] + Listing(forest).value == Listing(forest).value;
    forall f: Forest | f.Valid() && f.entries == entries ensures Listing(f) == Some(rows) {
      ListingIgnoresOrder(f, forest);
    }
  }

  // ---- when the builder returns ---------------------------------------------------------------

  /** The walk up from `pid` ends, however long it takes. */
  ghost predicate Stops(python: Entries, pid: int) {
    exists fuel :: ClimbEnd(python, pid, fuel).Some?
  }

  /** Every walk up the builder starts ends, and so does flattening from every root it finds. */
  ghost predicate Returns(ps: seq<Process>, info: Names) {
    && (forall p :: p in ps ==> Stops(Listed(ps), p.ppid))
    && (forall f: Forest, root :: f.Valid() && f.entries == Completed(Listed(ps), ps, info) && IsRoot(f.entries)(root)
          ==> Terminates(f, root))
  }

  lemma {:induction false} ListedFrom(ps: seq<Process>, pid: int) returns (p: Process)
    requires pid in Listed(ps)
    ensures p in ps && Listed(ps)[pid].ppid == p.ppid
  {
    p := ps[|ps| - 1];
    if p.pid != pid { p := ListedFrom(ps[..|ps| - 1], pid); }
  }

  /** A cycle among the Python processes has the builder walk up from one of its members, for ever. */
  lemma CycleIsWalked(ps: seq<Process>, x: int) returns (p: Process)
    requires OnCycle(High(Listed(ps)), x)
    ensures p in ps && !Stops(Listed(ps), p.ppid)
  {
    var python := Listed(ps);
    p := ListedFrom(ps, x);
    CycleHoldsParent(High(python), x, p.ppid);
    forall fuel ensures ClimbEnd(python, p.ppid, fuel).None? { ClimbForever(python, p.ppid, fuel); }
  }

  lemma {:induction false} SomeOrder(pids: set<int>) returns (order: seq<int>)
    ensures Distinct(order) && forall p :: p in order <==> p in pids
    decreases |pids|
  {
    order := [];
    if pids != {} {
      var p := Witness(pids);
      var rest := SomeOrder(pids - {p});
      order := [p] + rest;
    }
  }

  lemma RootsReturnIff(e: Entries)
    ensures RootsClear(e) <==> forall f: Forest, root :: f.Valid() && f.entries == e && IsRoot(e)(root) ==> Terminates(f, root)
  {
    if RootsClear(e) {
      forall f: Forest, root | f.Valid() && f.entries == e && IsRoot(e)(root) ensures Terminates(f, root) { TerminatesIff(f, root); }
    } else {
      var order := SomeOrder(e.Keys);
      var f, root := Forest(e, order), ClearNot(e);
      assert f.Valid();
      TerminatesIff(f, root);
    }
  }

  ghost function ClearNot(e: Entries): (root: int)
    requires !RootsClear(e)
    ensures IsRoot(e)(root) && OnCycle(e, root)
  {
    var root :| IsRoot(e)(root) && OnCycle(e, root);
    root
  }

  /** The builder returns on exactly the inputs `BuildFlatRows` is stated for. */
  lemma {:induction false} ReturnsIff(ps: seq<Process>, info: Names)
    ensures Returns(ps, info) <==> Acyclic(High(Listed(ps))) && RootsClear(Completed(Listed(ps), ps, info))
  {
    RootsReturnIff(Completed(Listed(ps), ps, info));
    if Acyclic(High(Listed(ps))) {
      ClimbsStopIff(Listed(ps));
      forall p | p in ps ensures Stops(Listed(ps), p.ppid) {
        assert ClimbEnd(Listed(ps), p.ppid, |High(Listed(ps))|).Some?;
      }
    } else {
      var x :| OnCycle(High(Listed(ps)), x);
      var p := CycleIsWalked(ps, x);
    }
  }

  /** Whatever order the hash maps walk in, there is a listing, with every entry in it exactly once. */
  ghost predicate ListsEachOnce(e: Entries) {
    forall f: Forest :: f.Valid() && f.entries == e ==> Listing(f).Some? && EachOnce(e, Listing(f).value)
  }

  /**
   The builder does what it is for, returning a table with every entry in it exactly once, if and
   only if no completed entry is its own ancestor and none has a listed parent among the system's own.
   */
  lemma {:induction false} ReturnsEachOnceIff(ps: seq<Process>, info: Names)
    ensures Returns(ps, info) && ListsEachOnce(Completed(Listed(ps), ps, info))
       <==> Acyclic(Completed(Listed(ps), ps, info)) && NoLowParent(Completed(Listed(ps), ps, info))
  {
    var e := Completed(Listed(ps), ps, info);
    ReturnsIff(ps, info);
    if Acyclic(e) {
      HighAcyclic(Listed(ps), e);
    }
    EachOnceIff(e);
  }

  lemma EachOnceIff(e: Entries)
    ensures ListsEachOnce(e) <==> Acyclic(e) && NoLowParent(e)
  {
    forall f: Forest | f.Valid() && f.entries == e
      ensures Listing(f).Some? && EachOnce(e, Listing(f).value) <==> Acyclic(e) && NoLowParent(e)
    {
      OnceIff(f);
    }
    var order := SomeOrder(e.Keys);
    var f := Forest(e, order);
    assert f.Valid();
    if ListsEachOnce(e) {
      assert Listing(f).Some? && EachOnce(e, Listing(f).value);
    }
  }

  /**
   A Python process whose parent is a stranger that names it as its own parent: the builder returns
   an empty table, and the process is in no row of it.
   */
  lemma LoopIsDropped(x: int, y: int, name: string, stranger: string)
    requires x > SYSTEM_PID && y > SYSTEM_PID && x != y
    ensures var ps, info := [Process(x, y, name)], map[y := (stranger, x)];
      && Returns(ps, info)
      && x in Completed(Listed(ps), ps, info)
      && forall f: Forest :: f.Valid() && f.entries == Completed(Listed(ps), ps, info) ==> Listing(f) == Some([])
  {
    var ps, info := [Process(x, y, name)], map[y := (stranger, x)];
    var python := map[x := Entry(x, y, name, true)];
    assert ps[..0] == [];
    assert Listed(ps) == python;
    assert High(python) == python;
    forall p ensures !OnCycle(python, p) {
      forall n: nat | n > 0 ensures Anc(python, p, n) == None {}
    }
    var e := Completed(python, ps, info);
    assert x in e && e[x].ppid == y;
    assert ps[0] in ps && ClimbEnd(python, y, 1) == Some(y);
    assert ContextOf(python, ps, info, y);
    assert y in e && e[y].ppid == x;
    forall r ensures !IsRoot(e)(r) {}
    ReturnsIff(ps, info);
    forall f: Forest | f.Valid() && f.entries == e ensures Listing(f) == Some([]) {
      FilterNone(IsRoot(e), f.order);
    }
  }

  lemma HighAcyclic(python: Entries, entries: Entries)
    requires Acyclic(entries) && forall p :: p in python ==> p in entries && entries[p] == python[p]
    ensures Acyclic(High(python))
  {
    forall p ensures !OnCycle(High(python), p) {
      if OnCycle(High(python), p) { CycleLifts(python, entries, p); }
    }
  }

  lemma CycleLifts(python: Entries, entries: Entries, p: int)
    requires (forall q :: q in python ==> q in entries && entries[q] == python[q]) && OnCycle(High(python), p)
    ensures OnCycle(entries, p)
  {
    var n: nat :| n > 0 && Anc(High(python), p, n) == Some(p);
    HighAnc(python, entries, p, n);
    assert Anc(entries, p, n) == Some(p);
  }

  lemma {:induction false} HighAnc(python: Entries, entries: Entries, p: int, n: nat)
    requires (forall q :: q in python ==> q in entries && entries[q] == python[q]) && Anc(High(python), p, n).Some?
    ensures Anc(entries, p, n) == Anc(High(python), p, n)
    decreases n
  {
    if n > 0 { HighAnc(python, entries, python[p].ppid, n - 1); }
  }
}
