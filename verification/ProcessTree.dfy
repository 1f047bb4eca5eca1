/** The process listing as an indented tree. */
module ProcessTree {
  import opened Prelude
  import opened StableSort
  import opened Ancestry

  /** The last pid an operating system keeps for itself: a parent at or below it is never shown as one. */
  const SYSTEM_PID := 4

  datatype Process = Process(pid: int, ppid: int, name: string)

  datatype Row = Row(pid: int, prefix: string)

  /** The entries, and the order a hash map happens to walk them in. */
  datatype Forest = Forest(entries: Entries, order: seq<int>)
  {
    ghost predicate Valid() {
      Distinct(order) && forall p :: p in order <==> p in entries
    }
  }

  predicate Leq(a: int, b: int) { a <= b }

  function IsChildOf(e: Entries, q: int): int -> bool {
    (p: int) => p in e && e[p].ppid == q
  }

  function IsRoot(e: Entries): int -> bool {
    (p: int) => p in e && (e[p].ppid <= SYSTEM_PID || e[p].ppid !in e)
  }

  function Kids(f: Forest, q: int): seq<int> {
    Sort(Leq, Filter(IsChildOf(f.entries, q), f.order))
  }

  function Roots(f: Forest): seq<int> {
    Sort(Leq, Filter(IsRoot(f.entries), f.order))
  }

  // ---- sorted lists of distinct pids -----------------------------------------------------

  lemma {:induction false} SortedPick(p: int -> bool, order: seq<int>)
    requires Distinct(order)
    ensures var s := Sort(Leq, Filter(p, order));
      Distinct(s) && Sorted(Leq, s) && forall x :: x in s <==> x in order && p(x)
  {
    var picked := Filter(p, order);
    SortSorts(Leq, picked);
    DistinctCount(order);
    forall x ensures multiset(picked)[x] <= 1 { FilterMultiset(p, order, x); }
    CountDistinct(Sort(Leq, picked));
  }

  lemma KidsMeaning(f: Forest, q: int) 
    requires f.Valid()
    ensures Distinct(Kids(f, q)) && forall c :: c in Kids(f, q) <==> c in f.entries && f.entries[c].ppid == q
  {
    SortedPick(IsChildOf(f.entries, q), f.order);
  }

  lemma RootsMeaning(f: Forest)
    requires f.Valid()
    ensures Distinct(Roots(f)) && forall r :: r in Roots(f) <==> IsRoot(f.entries)(r)
  {
    SortedPick(IsRoot(f.entries), f.order);
  }

  /** Which pids a sorted list holds settles it: the walk order of the hash map does not show. */
  lemma {:induction false} PickIgnoresOrder(p: int -> bool, a: seq<int>, b: seq<int>)
    requires Distinct(a) && Distinct(b) && forall x :: x in a <==> x in b
    ensures Sort(Leq, Filter(p, a)) == Sort(Leq, Filter(p, b))
  {
    SortedPick(p, a);
    SortedPick(p, b);
    var s, t := Sort(Leq, Filter(p, a)), Sort(Leq, Filter(p, b));
    SameMultiset(s, t);
    SortedUnique(Leq, s, t);
  }

  lemma SameMultiset(s: seq<int>, t: seq<int>)
    requires Distinct(s) && Distinct(t) && forall x :: x in s <==> x in t
    ensures multiset(s) == multiset(t)
  {
    DistinctCount(s);
    DistinctCount(t);
  }

  // ---- flattening ---------------------------------------------------------------------------

  function Bar(last: bool): string { if last then "    " else "|   " }

  function Bars(ancestors: seq<bool>): string {
    if ancestors == [] then "" else Bars(ancestors[..|ancestors| - 1]) + Bar(ancestors[|ancestors| - 1])
  }

  function Prefix(ancestors: seq<bool>): string { Bars(ancestors) + "+-- " }

  function PrefixDepth(prefix: string): nat { Max(|prefix| - 4, 0) / 4 }

  lemma {:induction false} PrefixLength(ancestors: seq<bool>)
    ensures |Bars(ancestors)| == 4 * |ancestors|
    ensures PrefixDepth(Prefix(ancestors)) == |ancestors|
  {
    if ancestors != [] { PrefixLength(ancestors[..|ancestors| - 1]); }
  }

  /** The rows of `pid` and everything under it, or none if the recursion goes deeper than `fuel`. */
  function Flat(f: Forest, pid: int, ancestors: seq<bool>, last: bool, fuel: nat): Option<seq<Row>>
    decreases fuel, 0
  {
    if fuel == 0 then None
    else Under(Row(pid, Prefix(ancestors)), FlatAll(f, Kids(f, pid), ancestors + [last], fuel - 1))
  }

  function Under(row: Row, below: Option<seq<Row>>): Option<seq<Row>> {
    if below.None? then None else Some([row] + below.value)
  }

  function FlatAll(f: Forest, pids: seq<int>, ancestors: seq<bool>, fuel: nat): Option<seq<Row>>
    decreases fuel, 1, |pids|
  {
    if pids == [] then Some([])
    else
      var first := Flat(f, pids[0], ancestors, |pids| == 1, fuel);
      var others := FlatAll(f, pids[1..], ancestors, fuel);
      if first.None? || others.None? then None else Some(first.value + others.value)
  }

  /** The recursion comes back. */
  ghost predicate Terminates(f: Forest, pid: int) {
    exists fuel :: Flat(f, pid, [], true, fuel).Some?
  }

  /** Nothing under `root` lies `limit` generations down. */
  ghost predicate Shallow(e: Entries, root: int, limit: nat) {
    forall x, k: nat :: Anc(e, x, k) == Some(root) ==> k < limit
  }

  lemma OffCycleIsShallow(e: Entries, root: int)
    requires !OnCycle(e, root)
    ensures Shallow(e, root, |e|)
  {
    forall x, k: nat | Anc(e, x, k) == Some(root) ensures k < |e| {
      if k >= |e| { DeepIsCyclic(e, x, k, root); }
    }
  }

  lemma {:induction false} DeepEnough(
    f: Forest, pid: int, depth: nat, root: int, limit: nat, ancestors: seq<bool>, last: bool, fuel: nat)
    requires f.Valid() && Anc(f.entries, pid, depth) == Some(root) && Shallow(f.entries, root, limit)
    requires fuel + depth >= limit
    ensures Flat(f, pid, ancestors, last, fuel).Some?
    decreases fuel, 0, 0
  {
    assert depth < limit;
    DeepEnoughKids(f, pid, depth, root, limit, ancestors + [last], fuel - 1);
  }

  lemma {:induction false} DeepEnoughKids(
    f: Forest, pid: int, depth: nat, root: int, limit: nat, ancestors: seq<bool>, fuel: nat)
    requires f.Valid() && Anc(f.entries, pid, depth) == Some(root) && Shallow(f.entries, root, limit)
    requires fuel + depth + 1 >= limit
    ensures FlatAll(f, Kids(f, pid), ancestors, fuel).Some?
    decreases fuel, 2, 0
  {
    KidsMeaning(f, pid);
    DeepEnoughAll(f, Kids(f, pid), pid, depth, root, limit, ancestors, fuel);
  }

  lemma {:induction false} DeepEnoughAll(
    f: Forest, pids: seq<int>, pid: int, depth: nat, root: int, limit: nat, ancestors: seq<bool>, fuel: nat)
    requires f.Valid() && Anc(f.entries, pid, depth) == Some(root) && Shallow(f.entries, root, limit)
    requires fuel + depth + 1 >= limit
    requires forall c :: c in pids ==> c in f.entries && f.entries[c].ppid == pid
    ensures FlatAll(f, pids, ancestors, fuel).Some?
    decreases fuel, 1, |pids|
  {
    if pids != [] {
      var c := pids[0];
      assert c in pids;
      DeepEnough(f, c, depth + 1, root, limit, ancestors, |pids| == 1, fuel);
      DeepEnoughAll(f, pids[1..], pid, depth, root, limit, ancestors, fuel);
    }
  }

  lemma {:induction false} CycleNeverReturns(f: Forest, pid: int, ancestors: seq<bool>, last: bool, fuel: nat)
    requires f.Valid() && OnCycle(f.entries, pid)
    ensures Flat(f, pid, ancestors, last, fuel).None?
    decreases fuel, 0, 0
  {
    if fuel > 0 { CycleAmongKids(f, pid, ancestors + [last], fuel - 1); }
  }

  lemma {:induction false} CycleAmongKids(f: Forest, pid: int, ancestors: seq<bool>, fuel: nat)
    requires f.Valid() && OnCycle(f.entries, pid)
    ensures FlatAll(f, Kids(f, pid), ancestors, fuel).None?
    decreases fuel, 2, 0
  {
    var c := CycleHoldsChild(f.entries, pid);
    KidsMeaning(f, pid);
    CycleAmong(f, Kids(f, pid), c, ancestors, fuel);
  }

  lemma {:induction false} CycleAmong(f: Forest, pids: seq<int>, c: int, ancestors: seq<bool>, fuel: nat)
    requires f.Valid() && OnCycle(f.entries, c) && c in pids
    ensures FlatAll(f, pids, ancestors, fuel).None?
    decreases fuel, 1, |pids|
  {
    if pids[0] == c {
      CycleNeverReturns(f, c, ancestors, |pids| == 1, fuel);
    } else {
      CycleAmong(f, pids[1..], c, ancestors, fuel);
    }
  }

  /** Flattening from a process comes back exactly when that process is not its own ancestor. */
  lemma TerminatesIff(f: Forest, pid: int)
    requires f.Valid() && pid in f.entries
    ensures Terminates(f, pid) <==> !OnCycle(f.entries, pid)
  {
    if OnCycle(f.entries, pid) {
      forall fuel ensures Flat(f, pid, [], true, fuel).None? { CycleNeverReturns(f, pid, [], true, fuel); }
    } else {
      OffCycleIsShallow(f.entries, pid);
      DeepEnough(f, pid, 0, pid, |f.entries|, [], true, |f.entries|);
    }
  }

  /** No listed process has a listed parent the operating system keeps for itself. */
  ghost predicate NoLowParent(e: Entries) {
    forall p :: p in e && e[p].ppid in e ==> e[p].ppid > SYSTEM_PID
  }

  /** Then flattening comes back from every root, cycles or no cycles among the parents. */
  lemma RootsTerminate(f: Forest, root: int)
    requires f.Valid() && NoLowParent(f.entries) && IsRoot(f.entries)(root)
    ensures Terminates(f, root)
  {
    var e := f.entries;
    RootsOffCycle(e, root);
    TerminatesIff(f, root);
  }

  lemma RootsOffCycle(e: Entries, root: int)
    requires root in e && e[root].ppid !in e
    ensures !OnCycle(e, root)
  {
    forall n: nat | n > 0 ensures Anc(e, root, n) == None {}
  }

  // ---- how often each process is listed --------------------------------------------------

  function RowOf(x: int): Row -> bool { (r: Row) => r.pid == x }

  function Times(rows: seq<Row>, x: int): nat { |Filter(RowOf(x), rows)| }

  lemma TimesConcat(a: seq<Row>, b: seq<Row>, x: int)
    ensures Times(a + b, x) == Times(a, x) + Times(b, x)
  {
    FilterConcat(RowOf(x), a, b);
  }

  ghost function IsAbove(e: Entries, x: int): int -> bool {
    (p: int) => Below(e, x, p)
  }

  lemma {:induction false} FilterOne(p: int -> bool, s: seq<int>)
    requires Distinct(s) && forall a, b :: a in s && b in s && p(a) && p(b) ==> a == b
    ensures |Filter(p, s)| == if exists a :: a in s && p(a) then 1 else 0
    decreases |s|
  {
    if s != [] {
      FilterOne(p, s[1..]);
      if p(s[0]) {
        forall a | a in s[1..] ensures !p(a) { assert a in s && a != s[0]; }
        FilterNone(p, s[1..]);
      }
    }
  }

  /** A process not on a cycle lists itself and everything below it, each once, and nothing else. */
  lemma {:induction false} FlatCounts(f: Forest, pid: int, ancestors: seq<bool>, last: bool, fuel: nat, x: int)
    requires f.Valid() && pid in f.entries && !OnCycle(f.entries, pid)
    requires Flat(f, pid, ancestors, last, fuel).Some?
    ensures Times(Flat(f, pid, ancestors, last, fuel).value, x) == if Below(f.entries, x, pid) then 1 else 0
    decreases fuel, 0
  {
    FlatKidsCount(f, pid, ancestors + [last], fuel - 1, x);
    var rows := FlatAll(f, Kids(f, pid), ancestors + [last], fuel - 1).value;
    assert Anc(f.entries, pid, 0) == Some(pid);
    TimesConcat([Row(pid, Prefix(ancestors))], rows, x);
  }

  lemma {:induction false} FlatKidsCount(f: Forest, pid: int, ancestors: seq<bool>, fuel: nat, x: int)
    requires f.Valid() && pid in f.entries && !OnCycle(f.entries, pid)
    requires FlatAll(f, Kids(f, pid), ancestors, fuel).Some?
    ensures Times(FlatAll(f, Kids(f, pid), ancestors, fuel).value, x)
         == if x != pid && Below(f.entries, x, pid) then 1 else 0
    decreases fuel, 2, 0
  {
    var kids := Kids(f, pid);
    KidsMeaning(f, pid);
    forall c | c in kids ensures !OnCycle(f.entries, c) {
      if OnCycle(f.entries, c) { CycleHoldsParent(f.entries, c, pid); }
    }
    FlatAllCounts(f, kids, ancestors, fuel, x);
    OneKidAbove(f, kids, pid, x);
  }

  lemma {:induction false} OneKidAbove(f: Forest, kids: seq<int>, pid: int, x: int)
    requires pid in f.entries && !OnCycle(f.entries, pid) && Distinct(kids)
    requires forall c :: c in kids <==> c in f.entries && f.entries[c].ppid == pid
    ensures |Filter(IsAbove(f.entries, x), kids)| == if x != pid && Below(f.entries, x, pid) then 1 else 0
    ensures Below(f.entries, pid, pid)
  {
    var e := f.entries;
    assert Anc(e, pid, 0) == Some(pid);
    forall c, d | c in kids && d in kids && Below(e, x, c) && Below(e, x, d) ensures c == d {
      OneBranch(e, x, c, d, pid);
    }
    FilterOne(IsAbove(e, x), kids);
    if x == pid {
      forall c | c in kids ensures !Below(e, x, c) {
        if Below(e, pid, c) { BelowOwnChild(e, c, pid); }
      }
    } else if Below(e, x, pid) {
      var c := BelowChild(e, x, pid);
      assert c in kids;
    } else {
      forall c | c in kids ensures !Below(e, x, c) {
        if Below(e, x, c) { BelowParent(e, x, c, pid); }
      }
    }
  }

  lemma {:induction false} FlatAllCounts(f: Forest, pids: seq<int>, ancestors: seq<bool>, fuel: nat, x: int)
    requires f.Valid() && (forall c :: c in pids ==> c in f.entries && !OnCycle(f.entries, c))
    requires FlatAll(f, pids, ancestors, fuel).Some?
    ensures Times(FlatAll(f, pids, ancestors, fuel).value, x) == |Filter(IsAbove(f.entries, x), pids)|
    decreases fuel, 1, |pids|
  {
    if pids != [] {
      var c := pids[0];
      assert c in pids;
      FlatCounts(f, c, ancestors, |pids| == 1, fuel, x);
      FlatAllCounts(f, pids[1..], ancestors, fuel, x);
      TimesConcat(Flat(f, c, ancestors, |pids| == 1, fuel).value, FlatAll(f, pids[1..], ancestors, fuel).value, x);
    }
  }

  /** The whole listing. */
  function Listing(f: Forest): Option<seq<Row>> {
    FlatAll(f, Roots(f), [], |f.entries|)
  }

  /** No root is its own ancestor: only one whose listed parent is the system's own could be. */
  ghost predicate RootsClear(e: Entries) {
    forall r :: IsRoot(e)(r) ==> !OnCycle(e, r)
  }

  /** The listing is made exactly when no root is on a cycle. */
  lemma ListingIff(f: Forest)
    requires f.Valid()
    ensures Listing(f).Some? <==> RootsClear(f.entries)
  {
    RootsMeaning(f);
    if RootsClear(f.entries) {
      RootsListed(f, Roots(f));
    } else {
      var r :| IsRoot(f.entries)(r) && OnCycle(f.entries, r);
      CycleAmong(f, Roots(f), r, [], |f.entries|);
    }
  }

  /** It lists each process once for every root at or above it. */
  lemma ListedPerRoot(f: Forest, x: int)
    requires f.Valid() && RootsClear(f.entries)
    ensures Listing(f).Some?
    ensures Times(Listing(f).value, x) == |Filter(IsAbove(f.entries, x), Roots(f))|
  {
    RootsMeaning(f);
    RootsListed(f, Roots(f));
    FlatAllCounts(f, Roots(f), [], |f.entries|, x);
  }

  /** A process that is its own ancestor is then not listed at all. */
  lemma CycleUnlisted(f: Forest, x: int)
    requires f.Valid() && Listing(f).Some? && OnCycle(f.entries, x)
    ensures Times(Listing(f).value, x) == 0
  {
    ListingIff(f);
    ListedPerRoot(f, x);
    RootsMeaning(f);
    forall r | r in Roots(f) ensures !IsAbove(f.entries, x)(r) {
      if Below(f.entries, x, r) { AboveCycle(f.entries, x, r); }
    }
    FilterNone(IsAbove(f.entries, x), Roots(f));
  }

  lemma {:induction false} RootsListed(f: Forest, pids: seq<int>)
    requires f.Valid() && forall p :: p in pids ==> p in f.entries && !OnCycle(f.entries, p)
    ensures FlatAll(f, pids, [], |f.entries|).Some?
    decreases |pids|
  {
    if pids != [] {
      var p := pids[0];
      assert p in pids;
      OffCycleIsShallow(f.entries, p);
      DeepEnough(f, p, 0, p, |f.entries|, [], |pids| == 1, |f.entries|);
      RootsListed(f, pids[1..]);
    }
  }

  /** Exactly the topmost ancestor of a process is a root with no listed parent. */
  lemma OneTop(e: Entries, x: int, a: int, b: int)
    requires Below(e, x, a) && Below(e, x, b) && a in e && b in e && e[a].ppid !in e && e[b].ppid !in e
    ensures a == b
  {
    var m: nat :| Anc(e, x, m) == Some(a);
    var n: nat :| Anc(e, x, n) == Some(b);
    if m < n {
      AncAdd(e, x, m, n - m);
    } else if n < m {
      AncAdd(e, x, n, m - n);
    }
  }

  /** Every process appears exactly once. */
  ghost predicate EachOnce(e: Entries, rows: seq<Row>) {
    forall x :: x in e ==> Times(rows, x) == 1
  }

  /**
   A list has a listing, with every process in it exactly once, if and only if no process is its own
   ancestor and none has a listed parent among the system's own: such a process is a root and a
   child both, and one on a cycle is under no root that ends.
   */
  lemma OnceIff(f: Forest)
    requires f.Valid()
    ensures Listing(f).Some? && EachOnce(f.entries, Listing(f).value) <==> Acyclic(f.entries) && NoLowParent(f.entries)
  {
    var e := f.entries;
    if !Acyclic(e) {
      var x :| OnCycle(e, x);
      CycleListed(f, x);
    } else if NoLowParent(e) {
      ListedPerRoot(f, 0);
      forall x | x in e ensures Times(Listing(f).value, x) == 1 { ListedOnce(f, x); }
    } else {
      var p :| p in e && e[p].ppid in e && e[p].ppid <= SYSTEM_PID;
      ListedAgain(f, p);
    }
  }

  lemma CycleListed(f: Forest, x: int)
    requires f.Valid() && OnCycle(f.entries, x)
    ensures Listing(f).Some? ==> !EachOnce(f.entries, Listing(f).value)
  {
    if Listing(f).Some? {
      CycleUnlisted(f, x);
      assert x in f.entries;
    }
  }

  lemma ListedOnce(f: Forest, x: int)
    requires f.Valid() && Acyclic(f.entries) && NoLowParent(f.entries) && x in f.entries
    ensures Listing(f).Some? && Times(Listing(f).value, x) == 1
  {
    var e := f.entries;
    ListedPerRoot(f, x);
    RootsMeaning(f);
    AcyclicIff(e);
    var n, top := Topmost(e, x, |e|);
    forall a, b | a in Roots(f) && b in Roots(f) && Below(e, x, a) && Below(e, x, b) ensures a == b {
      OneTop(e, x, a, b);
    }
    FilterOne(IsAbove(e, x), Roots(f));
    assert top in Roots(f);
  }

  lemma ListedAgain(f: Forest, x: int)
    requires f.Valid() && Acyclic(f.entries) && x in f.entries
    requires f.entries[x].ppid in f.entries && f.entries[x].ppid <= SYSTEM_PID
    ensures Listing(f).Some? && Times(Listing(f).value, x) >= 2
  {
    var e := f.entries;
    ListedPerRoot(f, x);
    RootsMeaning(f);
    AcyclicIff(e);
    var n, top := Topmost(e, x, |e|);
    assert Anc(e, x, 0) == Some(x);
    assert top in Roots(f) && x in Roots(f) && top != x;
    TwoMembers(Filter(IsAbove(e, x), Roots(f)), top, x);
  }

  lemma TwoMembers(s: seq<int>, a: int, b: int)
    requires a in s && b in s && a != b
    ensures |s| >= 2
  {
    var i :| 0 <= i < |s| && s[i] == a;
    var j :| 0 <= j < |s| && s[j] == b;
  }

  lemma {:induction false} FlatIgnoresOrder(f: Forest, g: Forest, pid: int, ancestors: seq<bool>, last: bool, fuel: nat)
    requires f.Valid() && g.Valid() && f.entries == g.entries
    ensures Flat(f, pid, ancestors, last, fuel) == Flat(g, pid, ancestors, last, fuel)
    decreases fuel, 0, 0
  {
    if fuel > 0 {
      PickIgnoresOrder(IsChildOf(f.entries, pid), f.order, g.order);
      FlatAllIgnoresOrder(f, g, Kids(f, pid), ancestors + [last], fuel - 1);
    }
  }

  lemma {:induction false} FlatAllIgnoresOrder(f: Forest, g: Forest, pids: seq<int>, ancestors: seq<bool>, fuel: nat)
    requires f.Valid() && g.Valid() && f.entries == g.entries
    ensures FlatAll(f, pids, ancestors, fuel) == FlatAll(g, pids, ancestors, fuel)
    decreases fuel, 1, |pids|
  {
    if pids != [] {
      FlatIgnoresOrder(f, g, pids[0], ancestors, |pids| == 1, fuel);
      FlatAllIgnoresOrder(f, g, pids[1..], ancestors, fuel);
    }
  }

  /** One listing of one set of entries, whatever order the hash maps walk them in. */
  lemma ListingIgnoresOrder(f: Forest, g: Forest)
    requires f.Valid() && g.Valid() && f.entries == g.entries
    ensures Listing(f) == Listing(g)
  {
    PickIgnoresOrder(IsRoot(f.entries), f.order, g.order);
    FlatAllIgnoresOrder(f, g, Roots(f), [], |f.entries|);
  }

  // ---- the order and the indent ---------------------------------------------------------

  /** Every row but the first comes after the row of its parent, which stands one step further left. */
  predicate ParentBefore(e: Entries, rows: seq<Row>, i: nat)
    requires i < |rows|
  {
    && rows[i].pid in e
    && exists j :: 0 <= j < i && rows[j].pid == e[rows[i].pid].ppid && |rows[j].prefix| + 4 == |rows[i].prefix|
  }

  lemma ParentRow(e: Entries, rows: seq<Row>, i: nat) returns (j: nat)
    requires i < |rows| && ParentBefore(e, rows, i)
    ensures j < i && rows[i].pid in e && rows[j].pid == e[rows[i].pid].ppid && |rows[j].prefix| + 4 == |rows[i].prefix|
  {
    j :| 0 <= j < i && rows[j].pid == e[rows[i].pid].ppid && |rows[j].prefix| + 4 == |rows[i].prefix|;
  }

  predicate InOrder(e: Entries, rows: seq<Row>) {
    forall i {:trigger ParentBefore(e, rows, i)} :: 0 < i < |rows| ==> ParentBefore(e, rows, i)
  }

  /** `rows` are subtrees of children of `pid`, each in order. */
  predicate UnderParent(e: Entries, rows: seq<Row>, pid: int, width: nat) {
    forall i {:trigger ParentBefore(e, rows, i)} :: 0 <= i < |rows| ==>
      ((rows[i].pid in e && e[rows[i].pid].ppid == pid && |rows[i].prefix| == width) || ParentBefore(e, rows, i))
  }

  lemma {:induction false} FlatOrdered(f: Forest, pid: int, ancestors: seq<bool>, last: bool, fuel: nat)
    requires f.Valid() && pid in f.entries && Flat(f, pid, ancestors, last, fuel).Some?
    ensures var rows := Flat(f, pid, ancestors, last, fuel).value;
      && rows != [] && rows[0].pid == pid && |rows[0].prefix| == 4 * (|ancestors| + 1)
      && InOrder(f.entries, rows)
    decreases fuel, 0
  {
    PrefixLength(ancestors);
    FlatKidsOrdered(f, pid, ancestors + [last], fuel - 1);
    HeadFirst(f.entries, Row(pid, Prefix(ancestors)), FlatAll(f, Kids(f, pid), ancestors + [last], fuel - 1).value);
  }

  lemma {:induction false} FlatKidsOrdered(f: Forest, pid: int, ancestors: seq<bool>, fuel: nat)
    requires f.Valid() && FlatAll(f, Kids(f, pid), ancestors, fuel).Some?
    ensures UnderParent(f.entries, FlatAll(f, Kids(f, pid), ancestors, fuel).value, pid, 4 * (|ancestors| + 1))
    decreases fuel, 2, 0
  {
    KidsMeaning(f, pid);
    FlatAllOrdered(f, Kids(f, pid), pid, ancestors, fuel);
  }

  lemma HeadFirst(e: Entries, row: Row, below: seq<Row>)
    requires UnderParent(e, below, row.pid, |row.prefix| + 4)
    ensures InOrder(e, [row] + below)
  {
    forall i | 0 < i < |[row] + below| ensures ParentBefore(e, [row] + below, i) { AfterHead(e, row, below, i - 1); }
  }

  lemma AfterHead(e: Entries, row: Row, below: seq<Row>, i: nat)
    requires UnderParent(e, below, row.pid, |row.prefix| + 4) && i < |below|
    ensures ParentBefore(e, [row] + below, i + 1)
  {
    var rows := [row] + below;
    assert rows[0] == row && rows[i + 1] == below[i];
    if ParentBefore(e, below, i) {
      var j := ParentRow(e, below, i);
      assert rows[j + 1] == below[j];
    }
  }

  lemma {:induction false} FlatAllOrdered(f: Forest, pids: seq<int>, parent: int, ancestors: seq<bool>, fuel: nat)
    requires f.Valid() && FlatAll(f, pids, ancestors, fuel).Some?
    requires forall c :: c in pids ==> c in f.entries && f.entries[c].ppid == parent
    ensures UnderParent(f.entries, FlatAll(f, pids, ancestors, fuel).value, parent, 4 * (|ancestors| + 1))
    decreases fuel, 1, |pids|
  {
    if pids != [] {
      var c := pids[0];
      assert c in pids;
      FlatOrdered(f, c, ancestors, |pids| == 1, fuel);
      FlatAllOrdered(f, pids[1..], parent, ancestors, fuel);
      JoinOrdered(f.entries, Flat(f, c, ancestors, |pids| == 1, fuel).value, FlatAll(f, pids[1..], ancestors, fuel).value,
                  parent, 4 * (|ancestors| + 1));
    }
  }

  /** What stands after its parent still does with rows put before or after. */
  lemma ParentStays(e: Entries, a: seq<Row>, b: seq<Row>, c: seq<Row>, i: nat)
    requires i < |b| && ParentBefore(e, b, i)
    ensures ParentBefore(e, a + b + c, |a| + i)
  {
    var rows := a + b + c;
    var j := ParentRow(e, b, i);
    assert rows[|a| + i] == b[i] && rows[|a| + j] == b[j];
  }

  lemma JoinOrdered(e: Entries, a: seq<Row>, b: seq<Row>, parent: int, width: nat)
    requires a != [] && a[0].pid in e && e[a[0].pid].ppid == parent && |a[0].prefix| == width && InOrder(e, a)
    requires UnderParent(e, b, parent, width)
    ensures UnderParent(e, a + b, parent, width)
  {
    var rows := a + b;
    forall i | 0 <= i < |rows|
      ensures (rows[i].pid in e && e[rows[i].pid].ppid == parent && |rows[i].prefix| == width) || ParentBefore(e, rows, i)
    {
      JoinAt(e, a, b, i);
      assert i >= |a| ==> rows[i] == b[i - |a|];
    }
  }

  /** Behind its first row, a joined list keeps every row after its parent that was. */
  lemma JoinAt(e: Entries, a: seq<Row>, b: seq<Row>, i: nat)
    requires InOrder(e, a) && i < |a| + |b|
    ensures 0 < i < |a| ==> ParentBefore(e, a + b, i)
    ensures i >= |a| && ParentBefore(e, b, i - |a|) ==> ParentBefore(e, a + b, i)
  {
    if 0 < i < |a| {
      assert ParentBefore(e, a, i);
      ParentStays(e, [], a, b, i);
      assert [] + a + b == a + b;
    } else if i >= |a| && ParentBefore(e, b, i - |a|) {
      ParentStays(e, a, b, [], i - |a|);
      assert a + b + [] == a + b;
    }
  }

  /** In the whole listing a row stands at the left margin and is a root, or comes after its parent, one step in. */
  lemma ListingOrdered(f: Forest)
    requires f.Valid() && Listing(f).Some?
    ensures RootedOrder(f.entries, Listing(f).value)
  {
    RootsMeaning(f);
    RootsOrdered(f, Roots(f));
  }

  predicate RootedOrder(e: Entries, rows: seq<Row>) {
    forall i {:trigger ParentBefore(e, rows, i)} :: 0 <= i < |rows| ==> ((IsRoot(e)(rows[i].pid) && |rows[i].prefix| == 4) || ParentBefore(e, rows, i))
  }

  lemma {:induction false} RootsOrdered(f: Forest, pids: seq<int>)
    requires f.Valid() && (forall p :: p in pids ==> IsRoot(f.entries)(p)) && FlatAll(f, pids, [], |f.entries|).Some?
    ensures RootedOrder(f.entries, FlatAll(f, pids, [], |f.entries|).value)
    decreases |pids|
  {
    if pids != [] {
      var p := pids[0];
      assert p in pids;
      FlatOrdered(f, p, [], |pids| == 1, |f.entries|);
      RootsOrdered(f, pids[1..]);
      JoinRooted(f.entries, Flat(f, p, [], |pids| == 1, |f.entries|).value, FlatAll(f, pids[1..], [], |f.entries|).value);
    }
  }

  lemma JoinRooted(e: Entries, a: seq<Row>, b: seq<Row>)
    requires a != [] && IsRoot(e)(a[0].pid) && |a[0].prefix| == 4 && InOrder(e, a) && RootedOrder(e, b)
    ensures RootedOrder(e, a + b)
  {
    var rows := a + b;
    forall i | 0 <= i < |rows|
      ensures (IsRoot(e)(rows[i].pid) && |rows[i].prefix| == 4) || ParentBefore(e, rows, i)
    {
      JoinAt(e, a, b, i);
      assert i >= |a| ==> rows[i] == b[i - |a|];
    }
  }

  lemma OneDeeper(e: Entries, pid: int, parent: int, d: nat, root: int)
    requires pid in e && e[pid].ppid == parent && Anc(e, parent, d) == Some(root)
    ensures Anc(e, pid, d + 1) == Some(root)
  {}

  /** So a row's indent is how many generations it lies under the root it is listed below. */
  lemma {:induction false} IndentIsDepth(e: Entries, rows: seq<Row>, i: nat) returns (d: nat, root: int)
    requires RootedOrder(e, rows) && i < |rows|
    ensures IsRoot(e)(root) && Anc(e, rows[i].pid, d) == Some(root) && |rows[i].prefix| == 4 * (d + 1)
    decreases i
  {
    if ParentBefore(e, rows, i) {
      var j := ParentRow(e, rows, i);
      d, root := IndentIsDepth(e, rows, j);
      OneDeeper(e, rows[i].pid, rows[j].pid, d, root);
      d := d + 1;
    } else {
      assert IsRoot(e)(rows[i].pid);
      d, root := 0, rows[i].pid;
    }
  }

  // ---- the whole table, row by row ---------------------------------------------------------

  /** A process with no listed parent, or with one the system keeps for itself. */
  predicate AtMargin(e: Entries, p: int) { p in e && (e[p].ppid <= 4 || e[p].ppid !in e) }

  /** The way down to a row: a process at the margin, then a child of each before. */
  predicate Way(e: Entries, path: seq<int>) {
    && path != [] && AtMargin(e, path[0])
    && forall k :: 0 < k < |path| ==> path[k] in e && e[path[k]].ppid == path[k - 1]
  }

  /** Whether the way's `k`th process has a sibling of higher pid; those at the margin are each other's siblings. */
  ghost predicate HasLater(e: Entries, path: seq<int>, k: nat)
    requires k < |path|
  {
    if k == 0 then exists q :: AtMargin(e, q) && q > path[0]
    else exists q :: q in e && e[q].ppid == path[k - 1] && q > path[k]
  }

  /** A row as drawn: a bar past each process of its way that has a sibling still to come, a blank past the others. */
  ghost predicate DrawnAt(e: Entries, row: Row, path: seq<int>) {
    && Way(e, path) && row.pid == path[|path| - 1] && |row.prefix| == 4 * |path|
    && row.prefix[4 * (|path| - 1)..] == "+-- "
    && forall k :: 0 <= k < |path| - 1 ==> row.prefix[4 * k..4 * k + 4] == if HasLater(e, path, k) then "|   " else "    "
  }

  /** `a` comes before `b` from the top down: it leads to `b`, or turns off at a lower pid. */
  predicate Above(a: seq<int>, b: seq<int>) {
    exists k :: 0 <= k <= |a| && k < |b| && a[..k] == b[..k] && (k == |a| || a[k] < b[k])
  }

  ghost predicate Drawn(e: Entries, rows: seq<Row>, paths: seq<seq<int>>) {
    && |paths| == |rows|
    && (forall i :: 0 <= i < |rows| ==> DrawnAt(e, rows[i], paths[i]))
    && forall i, j :: 0 <= i < j < |paths| ==> Above(paths[i], paths[j])
  }

  /** The flags `ancestors` say which processes of a way are the last of their siblings. */
  ghost predicate Flags(e: Entries, ancestors: seq<bool>, path: seq<int>) {
    |ancestors| <= |path| && forall k :: 0 <= k < |ancestors| ==> (ancestors[k] <==> !HasLater(e, path, k))
  }

  lemma {:induction false} BarsAt(ancestors: seq<bool>, k: nat)
    requires k < |ancestors|
    ensures |Bars(ancestors)| == 4 * |ancestors|
    ensures Bars(ancestors)[4 * k..4 * k + 4] == if ancestors[k] then "    " else "|   "
    decreases |ancestors|
  {
    PrefixLength(ancestors);
    var init := ancestors[..|ancestors| - 1];
    PrefixLength(init);
    if k < |init| {
      BarsAt(init, k);
      assert Bars(ancestors)[4 * k..4 * k + 4] == Bars(init)[4 * k..4 * k + 4];
    }
  }

  lemma RowDrawn(e: Entries, path: seq<int>, ancestors: seq<bool>)
    requires Way(e, path) && |ancestors| == |path| - 1 && Flags(e, ancestors, path)
    ensures DrawnAt(e, Row(path[|path| - 1], Prefix(ancestors)), path)
  {
    PrefixLength(ancestors);
    var prefix := Prefix(ancestors);
    forall k | 0 <= k < |path| - 1
      ensures prefix[4 * k..4 * k + 4] == if HasLater(e, path, k) then "|   " else "    "
    {
      BarsAt(ancestors, k);
      assert prefix[4 * k..4 * k + 4] == Bars(ancestors)[4 * k..4 * k + 4];
    }
  }

  /** `pids` are, in rising order, some of the processes that can follow `stem`, and all from the first on. */
  ghost predicate Siblings(e: Entries, stem: seq<int>, pids: seq<int>) {
    && (forall c :: c in pids ==> Way(e, stem + [c]))
    && (forall i, j :: 0 <= i < j < |pids| ==> pids[i] < pids[j])
    && forall c, q :: c in pids && Way(e, stem + [q]) && q > c ==> q in pids
  }

  lemma SiblingsRest(e: Entries, stem: seq<int>, pids: seq<int>)
    requires Siblings(e, stem, pids) && pids != []
    ensures Siblings(e, stem, pids[1..])
    ensures forall c :: c in pids[1..] ==> pids[0] < c
    ensures |pids| == 1 <==> !HasLater(e, stem + [pids[0]], |stem|)
  {
    var c, rest := pids[0], pids[1..];
    assert c in pids;
    forall d, q | d in rest && Way(e, stem + [q]) && q > d ensures q in rest { assert d in pids && q != c; }
    LaterIsWay(e, stem, c);
    if |pids| > 1 { assert pids[1] in pids; }
  }

  /** A later sibling is one more way on from the same stem. */
  lemma LaterIsWay(e: Entries, stem: seq<int>, c: int)
    requires Way(e, stem + [c])
    ensures HasLater(e, stem + [c], |stem|) <==> exists q :: Way(e, stem + [q]) && q > c
  {
    if stem == [] {
      forall q ensures Way(e, stem + [q]) <==> AtMargin(e, q) { assert stem + [q] == [q]; }
    } else {
      assert forall k :: 0 <= k < |stem| ==> (stem + [c])[k] == stem[k];
      forall q { WayOn(e, stem, q); }
    }
  }

  lemma WayOn(e: Entries, path: seq<int>, q: int)
    requires Way(e, path)
    ensures Way(e, path + [q]) <==> q in e && e[q].ppid == path[|path| - 1]
  {
    var way := path + [q];
    assert way[|path|] == q && way[|path| - 1] == path[|path| - 1];
    assert forall k :: 0 <= k < |path| ==> way[k] == path[k];
  }

  lemma SortedRises(s: seq<int>)
    requires Distinct(s) && Sorted(Leq, s)
    ensures forall i, j :: 0 <= i < j < |s| ==> s[i] < s[j]
  {}

  lemma KidsAreSiblings(f: Forest, path: seq<int>)
    requires f.Valid() && Way(f.entries, path)
    ensures Siblings(f.entries, path, Kids(f, path[|path| - 1]))
  {
    var q := path[|path| - 1];
    KidsMeaning(f, q);
    SortedPick(IsChildOf(f.entries, q), f.order);
    SortedRises(Kids(f, q));
    forall c { WayOn(f.entries, path, c); }
  }

  lemma RootsAreSiblings(f: Forest)
    requires f.Valid()
    ensures Siblings(f.entries, [], Roots(f))
  {
    RootsMeaning(f);
    SortedPick(IsRoot(f.entries), f.order);
    SortedRises(Roots(f));
    forall c ensures Way(f.entries, [] + [c]) <==> IsRoot(f.entries)(c) { assert [] + [c] == [c]; }
  }

  predicate AllFrom(stem: seq<int>, paths: seq<seq<int>>) {
    forall i :: 0 <= i < |paths| ==> stem <= paths[i]
  }

  /** Rows of one process and all under it. */
  lemma {:induction false} FlatDrawn(f: Forest, path: seq<int>, ancestors: seq<bool>, last: bool, fuel: nat) returns (paths: seq<seq<int>>)
    requires f.Valid() && Way(f.entries, path) && |ancestors| == |path| - 1 && Flags(f.entries, ancestors + [last], path)
    requires Flat(f, path[|path| - 1], ancestors, last, fuel).Some?
    ensures Drawn(f.entries, Flat(f, path[|path| - 1], ancestors, last, fuel).value, paths) && AllFrom(path, paths)
    ensures forall w :: Way(f.entries, w) && path <= w ==> w in paths
    decreases fuel, 1, 0
  {
    var pid := path[|path| - 1];
    KidsAreSiblings(f, path);
    var below := FlatAllDrawn(f, path, Kids(f, pid), ancestors + [last], fuel - 1);
    FlagsPart(f.entries, ancestors, last, path);
    RowDrawn(f.entries, path, ancestors);
    paths := [path] + below;
    HeadDrawn(f.entries, Row(pid, Prefix(ancestors)), path, FlatAll(f, Kids(f, pid), ancestors + [last], fuel - 1).value, below);
    AllWaysBelow(f, path, below);
  }

  lemma AllWaysBelow(f: Forest, path: seq<int>, below: seq<seq<int>>)
    requires f.Valid() && Way(f.entries, path)
    requires forall w :: Way(f.entries, w) && Passes(w, path, Kids(f, path[|path| - 1])) ==> w in below
    ensures forall w :: Way(f.entries, w) && path <= w ==> w in [path] + below
  {
    KidsMeaning(f, path[|path| - 1]);
    forall w | Way(f.entries, w) && path <= w ensures w in [path] + below {
      if |w| == |path| {
        assert w == path;
      } else {
        var c := w[|path|];
        assert w[|path| - 1] == path[|path| - 1];
        assert c in f.entries && f.entries[c].ppid == path[|path| - 1];
        assert Passes(w, path, Kids(f, path[|path| - 1]));
      }
    }
  }

  lemma FlagsPart(e: Entries, ancestors: seq<bool>, last: bool, path: seq<int>)
    requires Flags(e, ancestors + [last], path)
    ensures Flags(e, ancestors, path)
  {
    assert forall k :: 0 <= k < |ancestors| ==> (ancestors + [last])[k] == ancestors[k];
  }

  lemma FlagsOn(e: Entries, ancestors: seq<bool>, stem: seq<int>, c: int)
    requires |ancestors| == |stem| && Flags(e, ancestors, stem)
    ensures Flags(e, ancestors + [!HasLater(e, stem + [c], |stem|)], stem + [c])
  {
    var way, flags := stem + [c], ancestors + [!HasLater(e, stem + [c], |stem|)];
    forall k | 0 <= k < |flags| ensures flags[k] <==> !HasLater(e, way, k) {
      if k < |stem| { assert way[k] == stem[k] && (k > 0 ==> way[k - 1] == stem[k - 1]) && flags[k] == ancestors[k]; }
    }
  }

  /** Rows of siblings in turn, each with all under it: every way goes on from `stem`. */
  lemma {:induction false} FlatAllDrawn(
    f: Forest, stem: seq<int>, pids: seq<int>, ancestors: seq<bool>, fuel: nat) returns (paths: seq<seq<int>>)
    requires f.Valid() && Siblings(f.entries, stem, pids) && |ancestors| == |stem| && Flags(f.entries, ancestors, stem)
    requires FlatAll(f, pids, ancestors, fuel).Some?
    ensures Drawn(f.entries, FlatAll(f, pids, ancestors, fuel).value, paths) && AllOn(stem, pids, paths)
    ensures forall w :: Way(f.entries, w) && Passes(w, stem, pids) ==> w in paths
    decreases fuel, 2, |pids|
  {
    if pids == [] {
      paths := [];
    } else {
      var c := pids[0];
      assert c in pids && (stem + [c])[|stem|] == c;
      SiblingsRest(f.entries, stem, pids);
      FlagsOn(f.entries, ancestors, stem, c);
      var first := FlatDrawn(f, stem + [c], ancestors, |pids| == 1, fuel);
      var others := FlatAllDrawn(f, stem, pids[1..], ancestors, fuel);
      paths := first + others;
      JoinDrawn(f.entries, stem, pids, Flat(f, c, ancestors, |pids| == 1, fuel).value, FlatAll(f, pids[1..], ancestors, fuel).value,
                first, others);
      forall w | Way(f.entries, w) && Passes(w, stem, pids) ensures w in paths {
        if w[|stem|] == c {
          assert stem + [c] <= w && w in first;
        } else {
          assert Passes(w, stem, pids[1..]) && w in others;
        }
      }
    }
  }

  /** The way goes on from `stem` to one of `pids`. */
  predicate Passes(path: seq<int>, stem: seq<int>, pids: seq<int>) {
    |path| > |stem| && path[..|stem|] == stem && path[|stem|] in pids
  }

  /** Each way goes on from `stem` to one of `pids`. */
  predicate AllOn(stem: seq<int>, pids: seq<int>, paths: seq<seq<int>>) {
    forall i :: 0 <= i < |paths| ==> Passes(paths[i], stem, pids)
  }

  lemma HeadDrawn(e: Entries, row: Row, path: seq<int>, rows: seq<Row>, below: seq<seq<int>>)
    requires DrawnAt(e, row, path) && Drawn(e, rows, below)
    requires forall i :: 0 <= i < |below| ==> |below[i]| > |path| && below[i][..|path|] == path
    ensures Drawn(e, [row] + rows, [path] + below) && AllFrom(path, [path] + below)
  {
    var all, paths := [row] + rows, [path] + below;
    forall i | 0 <= i < |all| ensures DrawnAt(e, all[i], paths[i]) {
      if i > 0 { assert all[i] == rows[i - 1] && paths[i] == below[i - 1]; }
    }
    forall i, j | 0 <= i < j < |paths| ensures Above(paths[i], paths[j]) {
      if i == 0 {
        assert path[..|path|] == paths[j][..|path|];
      } else {
        assert Above(below[i - 1], below[j - 1]);
      }
    }
  }

  lemma JoinDrawn(e: Entries, stem: seq<int>, pids: seq<int>, a: seq<Row>, b: seq<Row>, first: seq<seq<int>>, others: seq<seq<int>>)
    requires pids != [] && Drawn(e, a, first) && Drawn(e, b, others)
    requires AllFrom(stem + [pids[0]], first) && AllOn(stem, pids[1..], others) && forall c :: c in pids[1..] ==> pids[0] < c
    ensures Drawn(e, a + b, first + others) && AllOn(stem, pids, first + others)
  {
    var rows, paths := a + b, first + others;
    forall i | 0 <= i < |rows| ensures DrawnAt(e, rows[i], paths[i]) {
      if i < |a| { assert DrawnAt(e, a[i], first[i]); } else { assert DrawnAt(e, b[i - |a|], others[i - |a|]); }
    }
    forall i | 0 <= i < |first|
      ensures |first[i]| > |stem| && first[i][..|stem|] == stem && first[i][|stem|] == pids[0]
    {
      StemOf(stem, pids[0], first[i]);
    }
    forall i, j | 0 <= i < j < |paths| ensures Above(paths[i], paths[j]) {
      if j < |first| {
        assert Above(first[i], first[j]);
      } else if i >= |first| {
        assert Above(others[i - |first|], others[j - |first|]);
      } else {
        assert first[i][..|stem|] == others[j - |first|][..|stem|];
      }
    }
  }

  lemma StemOf(stem: seq<int>, c: int, path: seq<int>)
    requires stem + [c] <= path
    ensures |path| > |stem| && path[..|stem|] == stem && path[|stem|] == c
  {
    assert (stem + [c])[|stem|] == c && path[..|stem|] == (stem + [c])[..|stem|];
  }

  /**
   Any listing, in terms of the parents alone: each row is the end of one way down from the margin, the
   ways follow one another from the top down with lower pids first, every way there is once, and each
   row's prefix draws a bar exactly past those on its way with a sibling still to come.
   */
  lemma ListingDrawn(f: Forest) returns (paths: seq<seq<int>>)
    requires f.Valid() && Listing(f).Some?
    ensures Drawn(f.entries, Listing(f).value, paths) && forall w :: w in paths <==> Way(f.entries, w)
  {
    RootsAreSiblings(f);
    RootsMeaning(f);
    paths := FlatAllDrawn(f, [], Roots(f), [], |f.entries|);
    forall w ensures w in paths <==> Way(f.entries, w) {
      if Way(f.entries, w) { assert Passes(w, [], Roots(f)); }
    }
  }
}
