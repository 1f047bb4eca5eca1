/**
 Claiming a slot in the probe. Interpreters with separate GILs run the same lookup at once: a scan
 of plain reads, then a compare-and-swap per slot, then a plain write of the winner's id. Each
 shared access is one step of a machine that interleaves them in any order.
 */
module ProbeSlots {
  import opened Prelude

  const MAX_INTERP: nat := 8

  datatype Slot = Slot(claimed: bool, interpId: int)

  /** Where an interpreter stands in the lookup. `Idle` is between two calls. */
  datatype Pc =
    | Idle
    | CheckClaimed(i: nat)
    | CheckId(i: nat)
    | Claim(i: nat)
    | WriteId(i: nat)

  /**
   `owner` records who won each slot's swap, which no interpreter can read; `used` the slots each
   interpreter was ever handed, and `refused` who was handed none.
   */
  datatype State = State(
    slots: seq<Slot>, pcs: map<int, Pc>,
    owner: seq<Option<int>>, used: map<int, set<int>>, refused: set<int>)

  function Hand(s: State, p: int, i: int): State
    requires p in s.used
  {
    s.(pcs := s.pcs[p := Idle], used := s.used[p := s.used[p] + {i}])
  }

  ghost predicate Shaped(s: State) {
    && |s.slots| == MAX_INTERP && |s.owner| == MAX_INTERP
    && s.used.Keys == s.pcs.Keys
    && forall p :: p in s.pcs ==> PcOk(s.pcs[p])
  }

  predicate PcOk(pc: Pc) {
    match pc
    case Idle => true
    case CheckClaimed(i) => i <= MAX_INTERP
    case CheckId(i) => i < MAX_INTERP
    case Claim(i) => i <= MAX_INTERP
    case WriteId(i) => i < MAX_INTERP
  }

  /** The next shared access of interpreter `p`. */
  function Step(s: State, p: int): State
    requires Shaped(s) && p in s.pcs
  {
    match s.pcs[p]
    case Idle => s.(pcs := s.pcs[p := CheckClaimed(0)])
    case CheckClaimed(i) =>
      if i == MAX_INTERP then s.(pcs := s.pcs[p := Claim(0)])
      else if s.slots[i].claimed then s.(pcs := s.pcs[p := CheckId(i)])
      else s.(pcs := s.pcs[p := CheckClaimed(i + 1)])
    case CheckId(i) =>
      if s.slots[i].interpId == p then Hand(s, p, i)
      else s.(pcs := s.pcs[p := CheckClaimed(i + 1)])
    case Claim(i) =>
      if i == MAX_INTERP then s.(pcs := s.pcs[p := Idle], refused := s.refused + {p})
      else if s.slots[i].claimed then s.(pcs := s.pcs[p := Claim(i + 1)])
      else s.(slots := s.slots[i := s.slots[i].(claimed := true)],
              owner := s.owner[i := Some(p)], pcs := s.pcs[p := WriteId(i)])
    case WriteId(i) =>
      Hand(s.(slots := s.slots[i := s.slots[i].(interpId := p)]), p, i)
  }

  lemma StepShaped(s: State, p: int)
    requires Shaped(s) && p in s.pcs
    ensures Shaped(Step(s, p)) && Step(s, p).pcs.Keys == s.pcs.Keys
  {
    var t := Step(s, p);
    assert t.pcs.Keys == s.pcs.Keys && t.used.Keys == s.used.Keys;
    forall q | q in t.pcs ensures PcOk(t.pcs[q]) {
      assert PcOk(s.pcs[q]);
    }
  }

  /** The state a schedule leads to. A name that is no interpreter of this process takes no step. */
  ghost function Run(s: State, schedule: seq<int>): (t: State)
    requires Shaped(s)
    ensures Shaped(t) && t.pcs.Keys == s.pcs.Keys
    decreases |schedule|
  {
    if schedule == [] then s
    else if schedule[0] in s.pcs then
      StepShaped(s, schedule[0]);
      Run(Step(s, schedule[0]), schedule[1..])
    else Run(s, schedule[1..])
  }

  lemma {:induction false} RunConcat(s: State, a: seq<int>, b: seq<int>)
    requires Shaped(s)
    ensures Run(s, a + b) == Run(Run(s, a), b)
    decreases |a|
  {
    if a == [] {
      assert a + b == b;
    } else {
      assert (a + b)[0] == a[0] && (a + b)[1..] == a[1..] + b;
      if a[0] in s.pcs {
        StepShaped(s, a[0]);
        RunConcat(Step(s, a[0]), a[1..], b);
      } else {
        RunConcat(s, a[1..], b);
      }
    }
  }

  // ---- what must hold ---------------------------------------------------------------

  /** No slot serves two interpreters, no interpreter uses two slots, and none is refused while one is free. */
  ghost predicate Exclusive(s: State) {
    && (forall p, q, i :: p in s.used && q in s.used && i in s.used[p] && i in s.used[q] ==> p == q)
    && (forall p, i, j :: p in s.used && i in s.used[p] && j in s.used[p] ==> i == j)
    && (s.refused != {} ==> forall i :: 0 <= i < |s.slots| ==> s.slots[i].claimed)
  }

  predicate Owns(owner: seq<Option<int>>, p: int, i: int) {
    0 <= i < |owner| && owner[i] == Some(p)
  }

  ghost predicate OwnsNone(owner: seq<Option<int>>, p: int) {
    forall i :: !Owns(owner, p, i)
  }

  /** A claimed slot whose owner's id has landed. */
  predicate Written(slots: seq<Slot>, owner: seq<Option<int>>, i: int) {
    0 <= i < |owner| && i < |slots| && owner[i].Some? && slots[i].interpId == owner[i].value
  }

  /**
   No lookup is under way: the slots taken so far come first, each with its owner's id in it, no
   two of one interpreter, and nobody has been handed a slot not his.
   */
  ghost predicate Settled(s: State) {
    && Shaped(s)
    && (forall p :: p in s.pcs ==> s.pcs[p] == Idle && p >= 0)
    && (forall i :: 0 <= i < MAX_INTERP ==> (s.slots[i].claimed <==> s.owner[i].Some?))
    && (forall i :: 0 <= i < MAX_INTERP && s.slots[i].claimed ==> Written(s.slots, s.owner, i) && s.owner[i].value in s.pcs)
    && (forall i :: 0 <= i < MAX_INTERP && !s.slots[i].claimed ==> s.slots[i].interpId == 0)
    && (forall i, j :: 0 <= i < j < MAX_INTERP && s.slots[j].claimed ==> s.slots[i].claimed)
    && (forall p, i, j :: Owns(s.owner, p, i) && Owns(s.owner, p, j) ==> i == j)
    && (forall p, i :: p in s.used && i in s.used[p] ==> Owns(s.owner, p, i))
    && s.refused == {}
  }

  /** Interpreter 0 is out of danger: absent, served already, the only one left to serve, or too late for anyone. */
  ghost predicate ZeroSafe(s: State) {
    || 0 !in s.pcs
    || !OwnsNone(s.owner, 0)
    || (forall p :: p in s.pcs && p != 0 ==> !OwnsNone(s.owner, p))
    || (forall i :: 0 <= i < |s.slots| ==> s.slots[i].claimed)
  }

  // ---- the invariant ------------------------------------------------------------------

  ghost predicate SlotsOk(s: State)
    requires Shaped(s)
  {
    && (forall i :: 0 <= i < MAX_INTERP ==> (s.slots[i].claimed <==> s.owner[i].Some?))
    && (forall i, j :: 0 <= i < j < MAX_INTERP && s.slots[j].claimed ==> s.slots[i].claimed)
    && (forall i :: 0 <= i < MAX_INTERP && s.slots[i].claimed && !Written(s.slots, s.owner, i) ==>
          s.slots[i].interpId == 0 && s.owner[i].value in s.pcs && s.pcs[s.owner[i].value] == WriteId(i))
    && (forall i :: 0 <= i < MAX_INTERP && !s.slots[i].claimed ==> s.slots[i].interpId == 0)
    && (forall p, i, j :: Owns(s.owner, p, i) && Owns(s.owner, p, j) ==> i == j)
  }

  /** What an interpreter's position in the lookup says of the slots behind it. */
  ghost predicate PcTrue(slots: seq<Slot>, owner: seq<Option<int>>, p: int, pc: Pc)
    requires |slots| == MAX_INTERP && PcOk(pc)
  {
    match pc
    case Idle => true
    case CheckClaimed(i) => forall j :: 0 <= j < i ==> !Owns(owner, p, j)
    case CheckId(i) => slots[i].claimed && forall j :: 0 <= j < i ==> !Owns(owner, p, j)
    case Claim(i) => OwnsNone(owner, p) && forall j :: 0 <= j < i ==> slots[j].claimed
    case WriteId(i) => Owns(owner, p, i)
  }

  ghost predicate Served(slots: seq<Slot>, owner: seq<Option<int>>, p: int) {
    exists k :: Owns(owner, p, k) && Written(slots, owner, k)
  }

  ghost predicate FirstServed(slots: seq<Slot>, owner: seq<Option<int>>) {
    exists k :: Owns(owner, 0, k) && forall j :: 0 <= j < k ==> Written(slots, owner, j)
  }

  /** What keeps interpreter 0 from taking an unwritten id for its own. */
  ghost predicate ZeroGuarded(slots: seq<Slot>, owner: seq<Option<int>>, names: set<int>) {
    || 0 !in names
    || FirstServed(slots, owner)
    || (forall p :: p in names && p != 0 ==> Served(slots, owner, p))
    || (forall i :: 0 <= i < MAX_INTERP ==> Written(slots, owner, i))
  }

  ghost predicate Inv(s: State) {
    && Shaped(s)
    && SlotsOk(s)
    && (forall p :: p in s.pcs ==> p >= 0 && PcOk(s.pcs[p]) && PcTrue(s.slots, s.owner, p, s.pcs[p]))
    && (forall p, i :: p in s.used && i in s.used[p] ==> Owns(s.owner, p, i))
    && ZeroGuarded(s.slots, s.owner, s.pcs.Keys)
    && (s.refused != {} ==> forall i :: 0 <= i < MAX_INTERP ==> s.slots[i].claimed)
  }

  lemma InvExclusive(s: State)
    requires Inv(s)
    ensures Exclusive(s)
  {}

  lemma SettledInv(s: State)
    requires Settled(s) && ZeroSafe(s)
    ensures Inv(s)
  {
    if 0 in s.pcs && !OwnsNone(s.owner, 0) {
      var k :| Owns(s.owner, 0, k);
      assert forall j :: 0 <= j < k ==> Written(s.slots, s.owner, j);
    }
  }

  /** An id that reads as the reader's own was written by the reader. */
  lemma IdIsOwn(s: State, p: int, i: nat)
    requires Inv(s) && p in s.pcs && s.pcs[p] == CheckId(i) && s.slots[i].interpId == p
    ensures Owns(s.owner, p, i)
  {
    assert PcTrue(s.slots, s.owner, p, s.pcs[p]);
    var o := s.owner[i].value;
    if o != p {
      assert !Written(s.slots, s.owner, i) && p == 0 && s.pcs[o] == WriteId(i);
      UnwrittenUnguarded(s, i, o);
      assert false;
    }
  }

  /** While a slot ahead of interpreter 0's scan is claimed and unwritten, nothing guards it. */
  lemma UnwrittenUnguarded(s: State, i: nat, o: int)
    requires Shaped(s) && SlotsOk(s) && i < MAX_INTERP && o != 0 && o in s.pcs && 0 in s.pcs
    requires Owns(s.owner, o, i) && !Written(s.slots, s.owner, i)
    requires forall j :: 0 <= j < i ==> !Owns(s.owner, 0, j)
    ensures !ZeroGuarded(s.slots, s.owner, s.pcs.Keys)
  {
    forall k | Owns(s.owner, 0, k) ensures exists j :: 0 <= j < k && !Written(s.slots, s.owner, j) {
      assert i < k;
    }
  }

  /** Steps that only read: nobody's slots move. */
  lemma ReadStep(s: State, p: int, pc: Pc)
    requires Inv(s) && p in s.pcs && !s.pcs[p].WriteId? && !pc.WriteId?
    requires PcOk(pc) && PcTrue(s.slots, s.owner, p, pc)
    ensures Inv(s.(pcs := s.pcs[p := pc]))
  {
    var t := s.(pcs := s.pcs[p := pc]);
    assert t.pcs.Keys == s.pcs.Keys;
    forall q | q in t.pcs ensures q >= 0 && PcOk(t.pcs[q]) && PcTrue(t.slots, t.owner, q, t.pcs[q]) {
      assert PcTrue(s.slots, s.owner, q, s.pcs[q]);
    }
    ZeroKept(s, t);
  }

  /** Guarding interpreter 0 needs nothing but what was owned and written to stay so. */
  lemma ZeroKept(s: State, t: State)
    requires Shaped(s) && Shaped(t) && ZeroGuarded(s.slots, s.owner, s.pcs.Keys) && t.pcs.Keys == s.pcs.Keys
    requires forall p, i :: Owns(s.owner, p, i) ==> Owns(t.owner, p, i)
    requires forall i :: Written(s.slots, s.owner, i) ==> Written(t.slots, t.owner, i)
    ensures ZeroGuarded(t.slots, t.owner, t.pcs.Keys)
  {
    if FirstServed(s.slots, s.owner) {
      var k :| Owns(s.owner, 0, k) && forall j :: 0 <= j < k ==> Written(s.slots, s.owner, j);
      assert Owns(t.owner, 0, k);
    }
    forall p | Served(s.slots, s.owner, p) ensures Served(t.slots, t.owner, p) {
      var k :| Owns(s.owner, p, k) && Written(s.slots, s.owner, k);
      assert Owns(t.owner, p, k);
    }
  }

  lemma HandStep(s: State, p: int, i: nat)
    requires Inv(s) && p in s.pcs && !s.pcs[p].WriteId? && Owns(s.owner, p, i)
    ensures Inv(Hand(s, p, i))
  {
    var t := s.(pcs := s.pcs[p := Idle]);
    ReadStep(s, p, Idle);
    var u := Hand(s, p, i);
    assert u.used.Keys == s.used.Keys;
    forall q | q in u.pcs ensures q >= 0 && PcOk(u.pcs[q]) && PcTrue(u.slots, u.owner, q, u.pcs[q]) {
      assert PcTrue(t.slots, t.owner, q, t.pcs[q]);
    }
    ZeroKept(t, u);
  }

  lemma WinStep(s: State, p: int, i: nat)
    requires Inv(s) && p in s.pcs && s.pcs[p] == Claim(i) && i < MAX_INTERP && !s.slots[i].claimed
    ensures Inv(Step(s, p))
  {
    var t := Step(s, p);
    assert PcTrue(s.slots, s.owner, p, s.pcs[p]);
    assert t.pcs.Keys == s.pcs.Keys;
    assert forall q, j :: Owns(t.owner, q, j) <==> Owns(s.owner, q, j) || (q == p && j == i);
    forall q | q in t.pcs ensures q >= 0 && PcOk(t.pcs[q]) && PcTrue(t.slots, t.owner, q, t.pcs[q]) {
      assert PcTrue(s.slots, s.owner, q, s.pcs[q]);
    }
    assert SlotsOk(t);
    ZeroKept(s, t);
  }

  lemma LandStep(s: State, p: int, i: nat)
    requires Inv(s) && p in s.pcs && s.pcs[p] == WriteId(i)
    ensures Inv(Step(s, p))
  {
    var t := Step(s, p);
    assert PcTrue(s.slots, s.owner, p, s.pcs[p]);
    assert t.pcs.Keys == s.pcs.Keys && t.used.Keys == s.used.Keys;
    assert forall q, j :: Owns(t.owner, q, j) <==> Owns(s.owner, q, j);
    assert forall j :: Written(s.slots, s.owner, j) ==> Written(t.slots, t.owner, j);
    forall q | q in t.pcs ensures q >= 0 && PcOk(t.pcs[q]) && PcTrue(t.slots, t.owner, q, t.pcs[q]) {
      assert PcTrue(s.slots, s.owner, q, s.pcs[q]);
    }
    ZeroKept(s, t);
  }

  /** Every step of every interpreter, in any interleaving, keeps the invariant. */
  lemma StepKeepsInv(s: State, p: int)
    requires Inv(s) && p in s.pcs
    ensures Inv(Step(s, p))
  {
    assert PcOk(s.pcs[p]) && PcTrue(s.slots, s.owner, p, s.pcs[p]);
    match s.pcs[p]
    case Idle => ReadStep(s, p, CheckClaimed(0));
    case CheckClaimed(i) =>
      if i == MAX_INTERP {
        ReadStep(s, p, Claim(0));
      } else if s.slots[i].claimed {
        ReadStep(s, p, CheckId(i));
      } else {
        ReadStep(s, p, CheckClaimed(i + 1));
      }
    case CheckId(i) => CheckIdStep(s, p, i);
    case Claim(i) => ClaimStep(s, p, i);
    case WriteId(i) => LandStep(s, p, i);
  }

  lemma CheckIdStep(s: State, p: int, i: nat)
    requires Inv(s) && p in s.pcs && s.pcs[p] == CheckId(i)
    ensures Inv(Step(s, p))
  {
    if s.slots[i].interpId == p {
      IdIsOwn(s, p, i);
      HandStep(s, p, i);
    } else {
      NotOwn(s, p, i);
      assert PcTrue(s.slots, s.owner, p, s.pcs[p]);
      ReadStep(s, p, CheckClaimed(i + 1));
    }
  }

  lemma ClaimStep(s: State, p: int, i: nat)
    requires Inv(s) && p in s.pcs && s.pcs[p] == Claim(i)
    ensures Inv(Step(s, p))
  {
    assert PcTrue(s.slots, s.owner, p, s.pcs[p]);
    if i == MAX_INTERP {
      ReadStep(s, p, Idle);
      RefuseStep(s.(pcs := s.pcs[p := Idle]), p);
    } else if s.slots[i].claimed {
      ReadStep(s, p, Claim(i + 1));
    } else {
      WinStep(s, p, i);
    }
  }

  lemma NotOwn(s: State, p: int, i: nat)
    requires Inv(s) && p in s.pcs && s.pcs[p] == CheckId(i) && s.slots[i].interpId != p
    ensures !Owns(s.owner, p, i)
  {
    assert PcTrue(s.slots, s.owner, p, s.pcs[p]);
  }

  lemma RefuseStep(s: State, p: int)
    requires Inv(s) && forall i :: 0 <= i < MAX_INTERP ==> s.slots[i].claimed
    ensures Inv(s.(refused := s.refused + {p}))
  {
    var t := s.(refused := s.refused + {p});
    forall q | q in t.pcs ensures q >= 0 && PcOk(t.pcs[q]) && PcTrue(t.slots, t.owner, q, t.pcs[q]) {
      assert PcTrue(s.slots, s.owner, q, s.pcs[q]);
    }
    ZeroKept(s, t);
  }

  lemma {:induction false} RunKeepsInv(s: State, schedule: seq<int>)
    requires Inv(s)
    ensures Inv(Run(s, schedule))
    decreases |schedule|
  {
    if schedule != [] {
      if schedule[0] in s.pcs {
        StepKeepsInv(s, schedule[0]);
        RunKeepsInv(Step(s, schedule[0]), schedule[1..]);
      } else {
        RunKeepsInv(s, schedule[1..]);
      }
    }
  }

  // ---- when the guard is missing ------------------------------------------------------------

  /** `p` alone, scanning the slots from `i` to `f`, past ids that are not its own. */
  lemma {:induction false} ScanAlone(s: State, p: int, i: nat, f: nat) returns (schedule: seq<int>)
    requires Shaped(s) && p in s.pcs && s.pcs[p] == CheckClaimed(i) && i <= f <= MAX_INTERP
    requires forall j :: i <= j < f && s.slots[j].claimed ==> s.slots[j].interpId != p
    ensures Run(s, schedule) == s.(pcs := s.pcs[p := CheckClaimed(f)])
    decreases f - i
  {
    if i == f {
      schedule := [];
      assert s.pcs[p := CheckClaimed(f)] == s.pcs;
    } else {
      var once := if s.slots[i].claimed then [p, p] else [p];
      PassOne(s, p, i);
      var t := s.(pcs := s.pcs[p := CheckClaimed(i + 1)]);
      StepShaped(s, p);
      var rest := ScanAlone(Run(s, once), p, i + 1, f);
      schedule := once + rest;
      RunConcat(s, once, rest);
      assert t.pcs[p := CheckClaimed(f)] == s.pcs[p := CheckClaimed(f)];
    }
  }

  lemma {:induction false} RunOne(s: State, p: int)
    requires Shaped(s) && p in s.pcs
    ensures Shaped(Step(s, p)) && Run(s, [p]) == Step(s, p)
  {
    StepShaped(s, p);
    assert [p][1..] == [];
  }

  lemma {:induction false} RunTwo(s: State, p: int)
    requires Shaped(s) && p in s.pcs
    ensures Shaped(Step(s, p)) && p in Step(s, p).pcs
    ensures Run(s, [p, p]) == Step(Step(s, p), p)
  {
    StepShaped(s, p);
    RunOne(Step(s, p), p);
    assert [p, p][1..] == [p];
  }

  lemma {:induction false} PassOne(s: State, p: int, i: nat)
    requires Shaped(s) && p in s.pcs && s.pcs[p] == CheckClaimed(i) && i < MAX_INTERP
    requires s.slots[i].claimed ==> s.slots[i].interpId != p
    ensures Run(s, if s.slots[i].claimed then [p, p] else [p]) == s.(pcs := s.pcs[p := CheckClaimed(i + 1)])
  {
    if s.slots[i].claimed {
      RunTwo(s, p);
      assert Step(Step(s, p), p).pcs == s.pcs[p := CheckClaimed(i + 1)];
    } else {
      RunOne(s, p);
    }
  }

  /** `p` alone, failing the swap on every slot from `i` to the first free one. */
  lemma {:induction false} ClaimAlone(s: State, p: int, i: nat, f: nat) returns (schedule: seq<int>)
    requires Shaped(s) && p in s.pcs && s.pcs[p] == Claim(i) && i <= f <= MAX_INTERP
    requires forall j :: i <= j < f ==> s.slots[j].claimed
    ensures Run(s, schedule) == s.(pcs := s.pcs[p := Claim(f)])
    decreases f - i
  {
    if i == f {
      schedule := [];
      assert s.pcs[p := Claim(f)] == s.pcs;
    } else {
      StepShaped(s, p);
      var t := Step(s, p);
      var rest := ClaimAlone(t, p, i + 1, f);
      schedule := [p] + rest;
      assert schedule[1..] == rest;
      assert t.pcs[p := Claim(f)] == s.pcs[p := Claim(f)];
    }
  }

  /** From a settled state, `q` alone scans every slot, none of them its own, and turns to claiming one. */
  lemma {:induction false} ScanThrough(s: State, q: int) returns (schedule: seq<int>)
    requires Settled(s) && q in s.pcs && OwnsNone(s.owner, q)
    ensures Run(s, schedule) == s.(pcs := s.pcs[q := Claim(0)])
  {
    var t0 := s.(pcs := s.pcs[q := CheckClaimed(0)]);
    RunOne(s, q);
    forall j | 0 <= j < MAX_INTERP && s.slots[j].claimed ensures s.slots[j].interpId != q {
      assert Written(s.slots, s.owner, j) && !Owns(s.owner, q, j);
    }
    var scan := ScanAlone(t0, q, 0, MAX_INTERP);
    var t1 := s.(pcs := s.pcs[q := CheckClaimed(MAX_INTERP)]);
    assert t0.pcs[q := CheckClaimed(MAX_INTERP)] == t1.pcs;
    RunOne(t1, q);
    assert Step(t1, q).pcs == s.pcs[q := Claim(0)];
    schedule := ([q] + scan) + [q];
    RunConcat(s, [q], scan);
    RunConcat(s, [q] + scan, [q]);
  }

  /** And from there up to the slot `f`, when all before it are taken. */
  lemma {:induction false} ScanAndClaim(s: State, q: int, f: nat) returns (schedule: seq<int>)
    requires Settled(s) && q in s.pcs && OwnsNone(s.owner, q)
    requires f <= MAX_INTERP && forall j :: 0 <= j < f ==> s.slots[j].claimed
    ensures Run(s, schedule) == s.(pcs := s.pcs[q := Claim(f)])
  {
    var scan := ScanThrough(s, q);
    var t := s.(pcs := s.pcs[q := Claim(0)]);
    var claim := ClaimAlone(t, q, 0, f);
    assert t.pcs[q := Claim(f)] == s.pcs[q := Claim(f)];
    schedule := scan + claim;
    RunConcat(s, scan, claim);
  }

  /** From a settled state, `q` alone runs its lookup up to the swap it wins, its id not yet written. */
  lemma {:induction false} WinAlone(s: State, q: int, f: nat) returns (schedule: seq<int>)
    requires Settled(s) && q in s.pcs && OwnsNone(s.owner, q)
    requires f < MAX_INTERP && !s.slots[f].claimed && forall j :: 0 <= j < f ==> s.slots[j].claimed
    ensures Run(s, schedule) == s.(
      slots := s.slots[f := Slot(true, 0)], owner := s.owner[f := Some(q)], pcs := s.pcs[q := WriteId(f)])
  {
    var claim := ScanAndClaim(s, q, f);
    var t := s.(pcs := s.pcs[q := Claim(f)]);
    RunOne(t, q);
    assert Step(t, q).pcs == s.pcs[q := WriteId(f)];
    schedule := claim + [q];
    RunConcat(s, claim, [q]);
  }

  /** Interpreter 0 alone takes the first slot whose id reads 0, whoever won it. */
  lemma TakeZero(s: State, f: nat) returns (schedule: seq<int>)
    requires Shaped(s) && 0 in s.pcs && s.pcs[0] == Idle && f < MAX_INTERP
    requires s.slots[f] == Slot(true, 0) && forall j :: 0 <= j < f && s.slots[j].claimed ==> s.slots[j].interpId != 0
    ensures Run(s, schedule) == Hand(s, 0, f)
  {
    var t0 := s.(pcs := s.pcs[0 := CheckClaimed(0)]);
    RunOne(s, 0);
    var scan := ScanAlone(t0, 0, 0, f);
    var t1 := s.(pcs := s.pcs[0 := CheckClaimed(f)]);
    assert t0.pcs[0 := CheckClaimed(f)] == t1.pcs;
    RunTwo(t1, 0);
    assert Step(Step(t1, 0), 0).pcs == s.pcs[0 := Idle];
    schedule := ([0] + scan) + [0, 0];
    RunConcat(s, [0], scan);
    RunConcat(s, [0] + scan, [0, 0]);
  }

  lemma {:induction false} FirstFree(slots: seq<Slot>, i: nat) returns (f: nat)
    requires i <= |slots| && (exists k :: i <= k < |slots| && !slots[k].claimed)
    ensures i <= f < |slots| && !slots[f].claimed && forall j :: i <= j < f ==> slots[j].claimed
    decreases |slots| - i
  {
    if !slots[i].claimed { f := i; } else { f := FirstFree(slots, i + 1); }
  }

  /** A swap won and an id not yet written: interpreter 0 walks off with another's slot. */
  lemma ZeroIntrudes(s: State) returns (schedule: seq<int>)
    requires Settled(s) && !ZeroSafe(s)
    ensures !Exclusive(Run(s, schedule))
  {
    var q :| q in s.pcs && q != 0 && OwnsNone(s.owner, q);
    var f := FirstFree(s.slots, 0);
    var win := WinAlone(s, q, f);
    var t := Run(s, win);
    forall j | 0 <= j < f ensures t.slots[j].interpId != 0 {
      assert Written(s.slots, s.owner, j) && !Owns(s.owner, 0, j);
    }
    var take := TakeZero(t, f);
    var u := Hand(t, 0, f);
    assert Shaped(u) && u.pcs[q] == WriteId(f);
    RunOne(u, q);
    var v := Step(u, q);
    schedule := (win + take) + [q];
    RunConcat(s, win, take);
    RunConcat(s, win + take, [q]);
    assert f in v.used[0] && f in v.used[q];
  }

  /** Slots are exclusive in every interleaving exactly when interpreter 0 is out of danger at the start. */
  lemma {:induction false} SafetyIff(s: State)
    requires Settled(s)
    ensures ZeroSafe(s) <==> forall schedule :: Exclusive(Run(s, schedule))
  {
    if ZeroSafe(s) {
      SettledInv(s);
      forall schedule ensures Exclusive(Run(s, schedule)) {
        RunKeepsInv(s, schedule);
        InvExclusive(Run(s, schedule));
      }
    } else {
      var schedule := ZeroIntrudes(s);
    }
  }

  /** The documented start: interpreter 0 holds slot 0, every other slot is free. */
  lemma {:induction false} FirstInterpreterFirst(s: State, schedule: seq<int>)
    requires Settled(s) && 0 in s.pcs && s.slots[0] == Slot(true, 0)
    ensures Exclusive(Run(s, schedule))
  {
    assert Written(s.slots, s.owner, 0) && Owns(s.owner, 0, 0);
    SafetyIff(s);
  }

  // ---- who can be refused ---------------------------------------------------------------------

  /** Whoever won a slot is an interpreter of the process, and so is whoever was refused, who won none. */
  ghost predicate Accounted(s: State) {
    && (forall i :: 0 <= i < |s.owner| && s.owner[i].Some? ==> s.owner[i].value in s.pcs)
    && forall q :: q in s.refused ==> q in s.pcs && OwnsNone(s.owner, q)
  }

  lemma StepAccounts(s: State, p: int)
    requires Inv(s) && Accounted(s) && p in s.pcs
    ensures Accounted(Step(s, p))
  {
    assert PcTrue(s.slots, s.owner, p, s.pcs[p]);
    assert Step(s, p).owner != s.owner ==> s.refused == {};
  }

  lemma {:induction false} RunAccounts(s: State, schedule: seq<int>)
    requires Inv(s) && Accounted(s)
    ensures Accounted(Run(s, schedule))
    decreases |schedule|
  {
    if schedule != [] {
      if schedule[0] in s.pcs {
        StepAccounts(s, schedule[0]);
        StepKeepsInv(s, schedule[0]);
        RunAccounts(Step(s, schedule[0]), schedule[1..]);
      } else {
        RunAccounts(s, schedule[1..]);
      }
    }
  }

  /** Eight slots won by eight others, and one more. */
  lemma RefusedIsNinth(s: State, q: int)
    requires Inv(s) && Accounted(s) && q in s.refused
    ensures |s.pcs.Keys| > 8
  {
    var names := seq(9, i requires 0 <= i < 9 => if i < 8 && s.owner[i].Some? then s.owner[i].value else q);
    forall i, j | 0 <= i < j < 9 ensures names[i] != names[j] {
      assert s.slots[i].claimed && Owns(s.owner, names[i], i);
      if j < 8 {
        assert s.slots[j].claimed && Owns(s.owner, names[j], j);
      } else {
        assert !Owns(s.owner, q, i);
      }
    }
    DistinctFits(names, s.pcs.Keys);
  }

  /** From a settled state, `q` alone goes through with a lookup that claims the first free slot. */
  lemma ServeAlone(s: State, q: int) returns (schedule: seq<int>, f: nat)
    requires Settled(s) && q in s.pcs && OwnsNone(s.owner, q) && exists k :: 0 <= k < |s.slots| && !s.slots[k].claimed
    ensures Settled(Run(s, schedule)) && f < MAX_INTERP && !s.slots[f].claimed
    ensures Run(s, schedule).slots == s.slots[f := Slot(true, q)] && forall j :: 0 <= j < f ==> s.slots[j].claimed
  {
    f := FirstFree(s.slots, 0);
    var win := WinAlone(s, q, f);
    var t := Run(s, win);
    RunOne(t, q);
    var u := Step(t, q);
    schedule := win + [q];
    RunConcat(s, win, [q]);
    assert u.owner == s.owner[f := Some(q)] && u.slots == s.slots[f := Slot(true, q)];
    assert forall p, i :: Owns(u.owner, p, i) <==> Owns(s.owner, p, i) || (p == q && i == f);
    forall i | 0 <= i < MAX_INTERP && u.slots[i].claimed ensures Written(u.slots, u.owner, i) && u.owner[i].value in u.pcs {
      if i != f { assert Written(s.slots, s.owner, i); }
    }
  }

  lemma SomeoneUnserved(s: State) returns (q: int)
    requires Shaped(s) && |s.pcs.Keys| > 8
    ensures q in s.pcs && OwnsNone(s.owner, q)
  {
    var names := seq(8, i requires 0 <= i < 8 => if s.owner[i].Some? then s.owner[i].value else 0);
    if forall p :: p in s.pcs ==> !OwnsNone(s.owner, p) {
      forall p | p in s.pcs.Keys ensures p in names {
        var i :| Owns(s.owner, p, i);
        assert names[i] == p;
      }
      ElementsFit(names, s.pcs.Keys);
      assert false;
    }
    q :| q in s.pcs && OwnsNone(s.owner, q);
  }

  /** One interpreter after another claims what is left. */
  lemma {:induction false} FillUp(s: State, f: nat) returns (schedule: seq<int>)
    requires Settled(s) && |s.pcs.Keys| > 8 && f <= MAX_INTERP && forall j :: 0 <= j < f ==> s.slots[j].claimed
    ensures Settled(Run(s, schedule)) && forall j :: 0 <= j < MAX_INTERP ==> Run(s, schedule).slots[j].claimed
    decreases MAX_INTERP - f
  {
    if f == MAX_INTERP {
      schedule := [];
    } else if s.slots[f].claimed {
      schedule := FillUp(s, f + 1);
    } else {
      var q := SomeoneUnserved(s);
      var once, g := ServeAlone(s, q);
      assert g == f;
      var rest := FillUp(Run(s, once), f + 1);
      schedule := once + rest;
      RunConcat(s, once, rest);
    }
  }

  /** With every slot taken, `q` alone goes through with a lookup that finds none. */
  lemma {:induction false} RefuseAlone(s: State, q: int) returns (schedule: seq<int>)
    requires Settled(s) && q in s.pcs && OwnsNone(s.owner, q) && forall j :: 0 <= j < MAX_INTERP ==> s.slots[j].claimed
    ensures q in Run(s, schedule).refused
  {
    var claim := ScanAndClaim(s, q, MAX_INTERP);
    RunOne(s.(pcs := s.pcs[q := Claim(MAX_INTERP)]), q);
    schedule := claim + [q];
    RunConcat(s, claim, [q]);
  }

  /** Some schedule refuses somebody exactly when the process has more than eight interpreters. */
  lemma {:induction false} RefusesIff(s: State)
    requires Settled(s) && ZeroSafe(s)
    ensures |s.pcs.Keys| > 8 <==> exists schedule :: Run(s, schedule).refused != {}
  {
    if |s.pcs.Keys| > 8 {
      var fill := FillUp(s, 0);
      var t := Run(s, fill);
      var q := SomeoneUnserved(t);
      var refuse := RefuseAlone(t, q);
      RunConcat(s, fill, refuse);
      assert Run(s, fill + refuse).refused != {};
    } else {
      SettledInv(s);
      forall schedule ensures Run(s, schedule).refused == {} {
        RunKeepsInv(s, schedule);
        RunAccounts(s, schedule);
        var t := Run(s, schedule);
        if t.refused != {} {
          var q := Witness(t.refused);
          RefusedIsNinth(t, q);
        }
      }
    }
  }

  // ---- one lookup with nobody else running ------------------------------------------------

  predicate Mine(slot: Slot, id: int) { slot.claimed && slot.interpId == id }

  /** The slot array with `id` as the only interpreter inside the lookup. */
  class SlotTable {
    const slots: array<Slot>

    constructor ()
      ensures fresh(slots) && slots.Length == MAX_INTERP
      ensures forall i :: 0 <= i < MAX_INTERP ==> slots[i] == Slot(false, 0)
    {
      slots := new Slot[MAX_INTERP](_ => Slot(false, 0));
    }

    /**
     The slot claimed under `id` if there is one; else the first free slot, claimed under `id`; else
     none. Nothing but that one slot ever changes.
     */
    method SlotForInterp(id: int) returns (r: Option<nat>)
      requires slots.Length == MAX_INTERP
      modifies slots
      ensures r.Some? ==> r.value < MAX_INTERP && Mine(slots[r.value], id)
      ensures r.Some? ==> forall j :: 0 <= j < r.value ==> !Mine(slots[j], id)
      ensures r.None? <==> forall j :: 0 <= j < MAX_INTERP ==> old(slots[j].claimed) && !Mine(old(slots[j]), id)
      ensures (r.None? || exists j :: 0 <= j < MAX_INTERP && Mine(old(slots[j]), id)) ==> slots[..] == old(slots[..])
      ensures r.Some? && slots[..] != old(slots[..]) ==>
                && !old(slots[r.value].claimed) && slots[..] == old(slots[..])[r.value := Slot(true, id)]
                && forall j :: 0 <= j < r.value ==> old(slots[j].claimed)
    {
      for i := 0 to MAX_INTERP
        invariant forall j :: 0 <= j < i ==> !Mine(slots[j], id)
        invariant slots[..] == old(slots[..])
      {
        if slots[i].claimed && slots[i].interpId == id {
          return Some(i);
        }
      }
      for i := 0 to MAX_INTERP
        invariant forall j :: 0 <= j < i ==> slots[j].claimed
        invariant slots[..] == old(slots[..])
      {
        if !slots[i].claimed {
          slots[i] := slots[i].(claimed := true);
          slots[i] := slots[i].(interpId := id);
          return Some(i);
        }
      }
      return None;
    }
  }
}
