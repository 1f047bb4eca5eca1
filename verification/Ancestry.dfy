/** The parent relation of a process list: climbing it, and when climbing ends. */
module Ancestry {
  import opened Prelude

  datatype Entry = Entry(pid: int, ppid: int, name: string, isPython: bool)

  type Entries = map<int, Entry>

  /** The `n`-th listed ancestor: `pid` itself at 0, none once the climb leaves the list. */
  function Anc(e: Entries, pid: int, n: nat): (r: Option<int>)
    ensures r.Some? ==> pid in e && r.value in e
    decreases n
  {
    if pid !in e then None
    else if n == 0 then Some(pid)
    else Anc(e, e[pid].ppid, n - 1)
  }

  lemma {:induction false} AncAdd(e: Entries, pid: int, m: nat, n: nat)
    requires Anc(e, pid, m).Some?
    ensures Anc(e, pid, m + n) == Anc(e, Anc(e, pid, m).value, n)
    decreases m
  {
    if m > 0 { AncAdd(e, e[pid].ppid, m - 1, n); }
  }

  lemma {:induction false} AncPrefix(e: Entries, pid: int, m: nat, n: nat)
    requires m <= n && Anc(e, pid, n).Some?
    ensures Anc(e, pid, m).Some?
    decreases m
  {
    if m > 0 { AncPrefix(e, e[pid].ppid, m - 1, n - 1); }
  }

  /** `pid` is its own ancestor. */
  ghost predicate OnCycle(e: Entries, pid: int) {
    exists n: nat :: n > 0 && Anc(e, pid, n) == Some(pid)
  }

  ghost predicate Acyclic(e: Entries) {
    forall p :: !OnCycle(e, p)
  }

  /** Whether `x` is `pid` or anywhere below it. */
  ghost predicate Below(e: Entries, x: int, pid: int) {
    exists n: nat :: Anc(e, x, n) == Some(pid)
  }

  /** A climb longer than the list stops twice at one process. */
  lemma Pigeonhole(e: Entries, pid: int, k: nat) returns (i: nat, j: nat)
    requires Anc(e, pid, k).Some? && k >= |e|
    ensures i < j <= k && Anc(e, pid, i) == Anc(e, pid, j) && Anc(e, pid, i).Some?
  {
    forall m: nat | m <= k ensures Anc(e, pid, m).Some? { AncPrefix(e, pid, m, k); }
    var s := seq(k + 1, m requires 0 <= m <= k => Anc(e, pid, m).value);
    if Distinct(s) {
      assert |e| == |e.Keys|;
      DistinctFits(s, e.Keys);
      assert false;
    }
    i, j :| 0 <= i < j < |s| && s[i] == s[j];
  }

  /** What a climb as long as the list reaches is on a cycle. */
  lemma {:induction false} DeepIsCyclic(e: Entries, x: int, k: nat, pid: int)
    requires Anc(e, x, k) == Some(pid) && k >= |e|
    ensures OnCycle(e, pid)
  {
    var i, j := Pigeonhole(e, x, k);
    var a := Anc(e, x, i).value;
    AncAdd(e, x, i, j - i);
    AncAdd(e, x, i, k - i);
    AncAdd(e, a, j - i, k - i);
    AncAdd(e, a, k - i, j - i);
    assert Anc(e, pid, j - i) == Some(pid);
  }

  /** Every climb ends exactly when nobody is its own ancestor. */
  lemma {:induction false} AcyclicIff(e: Entries)
    ensures Acyclic(e) <==> forall x :: Anc(e, x, |e|) == None
  {
    if Acyclic(e) {
      forall x ensures Anc(e, x, |e|) == None {
        if Anc(e, x, |e|).Some? { DeepIsCyclic(e, x, |e|, Anc(e, x, |e|).value); }
      }
    } else {
      var p :| OnCycle(e, p);
      var n: nat :| n > 0 && Anc(e, p, n) == Some(p);
      Round(e, p, n, |e|);
      AncPrefix(e, p, |e|, n * |e|);
    }
  }

  lemma {:induction false} Round(e: Entries, p: int, n: nat, times: nat)
    requires n > 0 && Anc(e, p, n) == Some(p)
    ensures n * times >= times && Anc(e, p, n * times) == Some(p)
    decreases times
  {
    if times > 0 {
      Round(e, p, n, times - 1);
      AncAdd(e, p, n, n * (times - 1));
      assert n + n * (times - 1) == n * times;
    }
  }

  /** Where an acyclic climb leaves the list: the topmost listed ancestor. */
  lemma {:induction false} Topmost(e: Entries, x: int, fuel: nat) returns (n: nat, top: int)
    requires x in e && Anc(e, x, fuel) == None
    ensures Anc(e, x, n) == Some(top) && e[top].ppid !in e
    decreases fuel
  {
    if e[x].ppid in e {
      n, top := Topmost(e, e[x].ppid, fuel - 1);
      n := n + 1;
    } else {
      n, top := 0, x;
    }
  }

  /** Two children of one process are never both above the same process, unless it is on a cycle. */
  lemma OneBranch(e: Entries, x: int, c: int, d: int, pid: int)
    requires c in e && d in e && e[c].ppid == pid && e[d].ppid == pid && pid in e && !OnCycle(e, pid)
    requires Below(e, x, c) && Below(e, x, d)
    ensures c == d
  {
    var m: nat :| Anc(e, x, m) == Some(c);
    var n: nat :| Anc(e, x, n) == Some(d);
    if m < n {
      Loops(e, x, c, m, d, n, pid);
    } else if n < m {
      Loops(e, x, d, n, c, m, pid);
    }
  }

  lemma {:induction false} Loops(e: Entries, x: int, c: int, m: nat, d: int, n: nat, pid: int)
    requires c in e && d in e && e[c].ppid == pid && e[d].ppid == pid && pid in e
    requires m < n && Anc(e, x, m) == Some(c) && Anc(e, x, n) == Some(d)
    ensures OnCycle(e, pid)
  {
    AncAdd(e, x, m, n - m);
    assert Anc(e, pid, n - m - 1) == Some(d);
    AncAdd(e, pid, n - m - 1, 1);
    assert Anc(e, d, 1) == Some(pid);
    assert Anc(e, pid, n - m) == Some(pid);
  }

  lemma CycleHoldsParent(e: Entries, c: int, pid: int)
    requires c in e && pid in e && e[c].ppid == pid && OnCycle(e, c)
    ensures OnCycle(e, pid)
  {
    var n: nat :| n > 0 && Anc(e, c, n) == Some(c);
    assert Anc(e, pid, n - 1) == Some(c);
    AncAdd(e, pid, n - 1, 1);
    assert Anc(e, c, 1) == Some(pid);
    assert Anc(e, pid, n) == Some(pid);
  }

  lemma BelowOwnChild(e: Entries, c: int, pid: int)
    requires c in e && pid in e && e[c].ppid == pid && Below(e, pid, c)
    ensures OnCycle(e, pid)
  {
    var n: nat :| Anc(e, pid, n) == Some(c);
    AncAdd(e, pid, n, 1);
    assert Anc(e, c, 1) == Some(pid);
    assert Anc(e, pid, n + 1) == Some(pid);
  }

  /** A process on a cycle has a child on it. */
  lemma CycleHoldsChild(e: Entries, pid: int) returns (c: int)
    requires OnCycle(e, pid)
    ensures c in e && e[c].ppid == pid && OnCycle(e, c)
  {
    var n: nat :| n > 0 && Anc(e, pid, n) == Some(pid);
    AncPrefix(e, pid, n - 1, n);
    c := Anc(e, pid, n - 1).value;
    AncAdd(e, pid, n - 1, 1);
    assert Anc(e, c, 1) == Some(pid);
    AncAdd(e, c, 1, n - 1);
    assert Anc(e, c, n) == Some(c);
  }

  /** What is strictly below a process is below one of its children. */
  lemma BelowChild(e: Entries, x: int, pid: int) returns (c: int)
    requires Below(e, x, pid) && x != pid
    ensures c in e && e[c].ppid == pid && Below(e, x, c)
  {
    var n: nat :| Anc(e, x, n) == Some(pid);
    AncPrefix(e, x, n - 1, n);
    c := Anc(e, x, n - 1).value;
    AncAdd(e, x, n - 1, 1);
    assert Anc(e, c, 1) == Some(pid);
  }

  lemma BelowParent(e: Entries, x: int, c: int, pid: int)
    requires c in e && pid in e && e[c].ppid == pid && Below(e, x, c)
    ensures Below(e, x, pid)
  {
    var n: nat :| Anc(e, x, n) == Some(c);
    AncAdd(e, x, n, 1);
    assert Anc(e, c, 1) == Some(pid);
    assert Anc(e, x, n + 1) == Some(pid);
  }

  /** Whatever is above a process on a cycle is on one too. */
  lemma AboveCycle(e: Entries, x: int, r: int)
    requires OnCycle(e, x) && Below(e, x, r)
    ensures OnCycle(e, r)
  {
    var n: nat :| n > 0 && Anc(e, x, n) == Some(x);
    var m: nat :| Anc(e, x, m) == Some(r);
    if m > 0 {
      Round(e, x, n, m);
      AncAdd(e, x, m, n * m - m);
      AncAdd(e, r, n * m - m, m);
      assert Anc(e, r, n * m) == Some(r);
    }
  }
}
