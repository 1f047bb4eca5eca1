/** The monitoring loop: discover, sweep, poll, and decide per process whether to go on. */
module RunLoop {
  import opened Prelude
  import opened Lifecycle

  /** A process's wait policy. `Other` is any implementation at all: it does as it likes each time. */
  datatype Policy = NoWait | StartupTimeout(seenAlive: bool) | Other
  {
    /** Whether to keep polling, and what the policy remembers. `patient` is a clock still inside the window. */
    function Wait(ok: bool, patient: bool): (bool, Policy) {
      match this
      case NoWait => (ok, this)
      case StartupTimeout(seen) =>
        if ok then (true, StartupTimeout(true)) else (!seen && patient, this)
      case Other => (patient, this)
    }
  }

  /** What a policy is after some polls of its process: each one's status, and whether the window was still open. */
  function PolicyAfter(p: Policy, polls: seq<(bool, bool)>): Policy {
    if polls == [] then p
    else
      var last := polls[|polls| - 1];
      PolicyAfter(p, polls[..|polls| - 1]).Wait(last.0, last.1).1
  }

  /**
   Whatever came before, `NoWait` gives up on the first failed poll and on nothing else; `StartupTimeout`
   gives up on a failed poll once one has ever succeeded, or once the window is over.
   */
  lemma {:induction false} PolicyGoesOnIff(polls: seq<(bool, bool)>, ok: bool, patient: bool)
    ensures PolicyAfter(NoWait, polls).Wait(ok, patient).0 <==> ok
    ensures PolicyAfter(StartupTimeout(false), polls).Wait(ok, patient).0
       <==> ok || (patient && forall k :: 0 <= k < |polls| ==> !polls[k].0)
  {
    PolicyRemembers(polls);
  }

  lemma {:induction false} PolicyRemembers(polls: seq<(bool, bool)>)
    ensures PolicyAfter(NoWait, polls) == NoWait
    ensures PolicyAfter(StartupTimeout(false), polls) == StartupTimeout(exists k :: 0 <= k < |polls| && polls[k].0)
    decreases |polls|
  {
    if polls != [] {
      var init := polls[..|polls| - 1];
      PolicyRemembers(init);
      assert (exists k :: 0 <= k < |polls| && polls[k].0) <==> (exists k :: 0 <= k < |init| && init[k].0) || polls[|init|].0;
    }
  }

  /** What one turn of the loop meets: everyone's children, every poll, every clock, and whether to go on after. */
  datatype Tick = Tick(children: int -> set<int>, polls: int -> PollWorld, patience: int -> bool, running: bool)

  /** The loop's own state beside the context. */
  datatype Turn = Turn(ctx: Context, alive: seq<int>, policies: map<int, Policy>, seen: set<int>, any: bool)

  function Members(s: seq<int>): set<int> { set p | p in s }

  function Not(pid: int): int -> bool { (p: int) => p != pid }

  lemma {:induction false} Removed(alive: seq<int>, pid: int)
    ensures Members(Filter(Not(pid), alive)) == Members(alive) - {pid}
  {}

  function PolicyOf(policies: map<int, Policy>, pid: int, made: Policy): Policy {
    if pid in policies then policies[pid] else made
  }

  /** One process of the turn: polled, then kept or let go as its policy says. */
  ghost function PollOne(t: Turn, pid: int, tick: Tick, made: Policy): Turn {
    var polled := Poll(t.ctx, pid, tick.polls(pid));
    var decided := PolicyOf(t.policies, pid, made).Wait(polled.1, tick.patience(pid));
    if decided.0 then t.(ctx := polled.0, policies := t.policies[pid := decided.1], any := true)
    else t.(ctx := LetGo(polled.0, pid), alive := Filter(Not(pid), t.alive),
            policies := t.policies - {pid}, seen := t.seen - {pid})
  }

  ghost function PollEach(t: Turn, pids: seq<int>, tick: Tick, made: Policy): Turn
    decreases |pids|
  {
    if pids == [] then t else PollEach(PollOne(t, pids[0], tick, made), pids[1..], tick, made)
  }

  /** Everything kept, and everything remembered as seen, is of a process still followed. */
  ghost predicate InHand(t: Turn) {
    && Coherent(t.ctx) && Tracked(t.ctx, Members(t.alive))
    && t.seen <= Members(t.alive) && t.policies.Keys <= Members(t.alive)
  }

  lemma PollOneInHand(t: Turn, pid: int, tick: Tick, made: Policy)
    requires InHand(t) && pid in t.alive
    ensures InHand(PollOne(t, pid, tick, made))
  {
    PollCoherent(t.ctx, pid, tick.polls(pid));
    PollTracked(t.ctx, Members(t.alive), pid, tick.polls(pid));
    var c := Poll(t.ctx, pid, tick.polls(pid)).0;
    LetGoCoherent(c, pid);
    LetGoTracked(c, Members(t.alive), pid);
    Removed(t.alive, pid);
  }

  /** `pids` are distinct processes still followed. */
  predicate Pending(pids: seq<int>, alive: seq<int>) {
    && (forall p :: p in pids ==> p in alive)
    && Distinct(pids)
  }

  lemma {:induction false} PollEachInHand(t: Turn, pids: seq<int>, tick: Tick, made: Policy)
    requires InHand(t) && Pending(pids, t.alive)
    ensures InHand(PollEach(t, pids, tick, made))
    decreases |pids|
  {
    if pids != [] {
      PollOneInHand(t, pids[0], tick, made);
      NextPending(t, pids, tick, made);
      PollEachInHand(PollOne(t, pids[0], tick, made), pids[1..], tick, made);
    }
  }

  lemma NextPending(t: Turn, pids: seq<int>, tick: Tick, made: Policy)
    requires pids != [] && Pending(pids, t.alive)
    ensures Pending(pids[1..], PollOne(t, pids[0], tick, made).alive)
  {
    forall p | p in pids[1..] ensures p in PollOne(t, pids[0], tick, made).alive {
      assert p in pids && p != pids[0];
    }
  }

  /** A turn in which no policy would go on leaves nobody to follow. */
  lemma {:induction false} NobodyLeft(t: Turn, pids: seq<int>, tick: Tick, made: Policy)
    requires !t.any && forall p :: p in t.alive ==> p in pids
    ensures !PollEach(t, pids, tick, made).any ==> PollEach(t, pids, tick, made).alive == []
    decreases |pids|
  {
    if pids == [] {
      SomeOfSome(t.alive, pids);
    } else {
      var u := PollOne(t, pids[0], tick, made);
      if u.any {
        AnyStays(u, pids[1..], tick, made);
      } else {
        NobodyLeft(u, pids[1..], tick, made);
      }
    }
  }

  lemma SomeOfSome(s: seq<int>, t: seq<int>)
    requires forall p :: p in s ==> p in t
    ensures s != [] ==> t != []
  {
    if s != [] {
      var p := s[0];
      assert p in s;
    }
  }

  lemma {:induction false} AnyStays(t: Turn, pids: seq<int>, tick: Tick, made: Policy)
    requires t.any
    ensures PollEach(t, pids, tick, made).any
    decreases |pids|
  {
    if pids != [] { AnyStays(PollOne(t, pids[0], tick, made), pids[1..], tick, made); }
  }

  // ---- what a turn does to each process ------------------------------------------------------

  /** Whether a process polled this turn is read, and whether its policy then goes on, and remembering what. */
  predicate IsRead(t: Turn, p: int, tick: Tick) { ComesByRecords(t.ctx, p, tick.polls(p)) }

  function Decides(t: Turn, p: int, tick: Tick, made: Policy): (bool, Policy) {
    (if p in t.policies then t.policies[p] else made).Wait(IsRead(t, p, tick), tick.patience(p))
  }

  /** A process polled: followed, remembered and seen exactly if its policy goes on; up exactly if it was read too. */
  ghost predicate Settled(t: Turn, u: Turn, p: int, tick: Tick, made: Policy) {
    var on := Decides(t, p, tick, made);
    && (p in u.alive <==> p in t.alive && on.0)
    && (p in u.seen <==> p in t.seen && on.0)
    && (p in u.policies <==> on.0) && (on.0 ==> u.policies[p] == on.1)
    && (p in u.ctx.alive <==> on.0 && IsRead(t, p, tick))
    && (!on.0 ==> p !in u.ctx.sessions)
  }

  /** A process left alone. */
  ghost predicate Untouched(t: Turn, u: Turn, p: int) {
    && (p in u.alive <==> p in t.alive) && (p in u.seen <==> p in t.seen)
    && (p in u.policies <==> p in t.policies) && (p in t.policies ==> u.policies[p] == t.policies[p])
    && (p in u.ctx.alive <==> p in t.ctx.alive) && (p in u.ctx.sessions <==> p in t.ctx.sessions)
  }

  lemma {:induction false} PollOneSettles(t: Turn, pid: int, tick: Tick, made: Policy)
    requires UpIsAttached(t.ctx)
    ensures UpIsAttached(PollOne(t, pid, tick, made).ctx)
    ensures Settled(t, PollOne(t, pid, tick, made), pid, tick, made)
    ensures forall p :: p != pid ==> Untouched(t, PollOne(t, pid, tick, made), p)
    ensures PollOne(t, pid, tick, made).any <==> t.any || Decides(t, pid, tick, made).0
  {
    var polled := Poll(t.ctx, pid, tick.polls(pid)).0;
    PollShows(t.ctx, pid, tick.polls(pid));
    if Decides(t, pid, tick, made).0 {
      GoesOn(t, pid, tick, made, polled);
    } else {
      LetGoShows(polled, pid);
      GivesUp(t, pid, tick, made, polled, LetGo(polled, pid));
    }
  }

  lemma GoesOn(t: Turn, pid: int, tick: Tick, made: Policy, polled: Context)
    requires Decides(t, pid, tick, made).0
    requires (pid in polled.alive <==> IsRead(t, pid, tick)) && OthersStand(t.ctx, polled, pid)
    ensures var u := t.(ctx := polled, policies := t.policies[pid := Decides(t, pid, tick, made).1], any := true);
      Settled(t, u, pid, tick, made) && forall p :: p != pid ==> Untouched(t, u, p)
  {}

  lemma GivesUp(t: Turn, pid: int, tick: Tick, made: Policy, polled: Context, left: Context)
    requires !Decides(t, pid, tick, made).0
    requires pid !in left.alive && pid !in left.sessions && OthersStand(t.ctx, polled, pid) && OthersStand(polled, left, pid)
    ensures var u := t.(ctx := left, alive := Filter(Not(pid), t.alive), policies := t.policies - {pid}, seen := t.seen - {pid});
      Settled(t, u, pid, tick, made) && forall p :: p != pid ==> Untouched(t, u, p)
  {}

  /** Nobody but `pid` is attached, dropped, told up or told down. */
  ghost predicate OthersStand(c: Context, d: Context, pid: int) {
    forall p :: p != pid ==> (p in d.alive <==> p in c.alive) && (p in d.sessions <==> p in c.sessions)
  }

  /** Whoever is up is attached to. */
  predicate UpIsAttached(c: Context) { c.alive <= c.sessions }

  lemma PollShows(c: Context, pid: int, w: PollWorld)
    requires UpIsAttached(c)
    ensures UpIsAttached(Poll(c, pid, w).0)
    ensures Poll(c, pid, w).1 <==> ComesByRecords(c, pid, w)
    ensures pid in Poll(c, pid, w).0.alive <==> ComesByRecords(c, pid, w)
    ensures OthersStand(c, Poll(c, pid, w).0, pid)
  {
    PollSucceedsIff(c, pid, w);
    if !ComesByRecords(c, pid, w) { PollFails(c, pid, w); }
  }

  lemma {:induction false} LetGoShows(c: Context, pid: int)
    requires UpIsAttached(c)
    ensures UpIsAttached(LetGo(c, pid))
    ensures pid !in LetGo(c, pid).alive && pid !in LetGo(c, pid).sessions
    ensures OthersStand(c, LetGo(c, pid), pid)
  {
    LetGoDrops(c, pid);
  }

  /**
   A turn decides each process polled on its own: what the others meet, and where it stands in the
   order, never shows. Nobody else is touched, and the loop has someone left if some policy goes on.
   */
  lemma {:induction false} TurnSettles(t: Turn, pids: seq<int>, tick: Tick, made: Policy)
    requires UpIsAttached(t.ctx) && Distinct(pids)
    ensures UpIsAttached(PollEach(t, pids, tick, made).ctx)
    ensures forall p :: p in pids ==> Settled(t, PollEach(t, pids, tick, made), p, tick, made)
    ensures forall p :: p !in pids ==> Untouched(t, PollEach(t, pids, tick, made), p)
    ensures PollEach(t, pids, tick, made).any <==> t.any || exists p :: p in pids && Decides(t, p, tick, made).0
    decreases |pids|
  {
    if pids != [] {
      var pid, rest := pids[0], pids[1..];
      var u, v := PollOne(t, pid, tick, made), PollEach(t, pids, tick, made);
      PollOneSettles(t, pid, tick, made);
      TurnSettles(u, rest, tick, made);
      assert pid !in rest && pid in pids;
      forall p | p in rest ensures Settled(t, v, p, tick, made) && Decides(u, p, tick, made) == Decides(t, p, tick, made) {
        Through(t, u, v, p, tick, made);
      }
      forall p | p in pids ensures Settled(t, v, p, tick, made) {
        if p == pid { Through(t, u, v, p, tick, made); } else { assert p in rest; }
      }
      forall p | p !in pids ensures Untouched(t, v, p) {
        assert p !in rest;
        Through(t, u, v, p, tick, made);
      }
    }
  }

  /** Of two turns' parts at most one touches a process. */
  lemma Through(t: Turn, u: Turn, v: Turn, p: int, tick: Tick, made: Policy)
    ensures Untouched(t, u, p) ==> Decides(u, p, tick, made) == Decides(t, p, tick, made)
    ensures Untouched(t, u, p) && Settled(u, v, p, tick, made) ==> Settled(t, v, p, tick, made)
    ensures Settled(t, u, p, tick, made) && Untouched(u, v, p) ==> Settled(t, v, p, tick, made)
    ensures Untouched(t, u, p) && Untouched(u, v, p) ==> Untouched(t, v, p)
  {}

  // ---- whole runs -----------------------------------------------------------------------------

  /** Who a turn polls: everyone followed first, then those of their children not among them, each once. */
  ghost predicate ListsAll(alive: seq<int>, tick: Tick, pids: seq<int>) {
    && alive <= pids && Distinct(pids)
    && forall q :: q in pids <==> q in alive || ChildOf(alive, tick.children, q)
  }

  /** The loop after a turn that polled `pids`. */
  ghost function NextTurn(t: Turn, pids: seq<int>, tick: Tick, made: Policy): Turn {
    PollEach(Turn(t.ctx, pids, t.policies, Members(pids), false), pids, tick, made)
  }

  /** The loop after one turn for each list. */
  ghost function After(t: Turn, lists: seq<seq<int>>, ticks: seq<Tick>, made: Policy): Turn
    requires |lists| <= |ticks|
  {
    if lists == [] then t
    else
      var n := |lists| - 1;
      NextTurn(After(t, lists[..n], ticks, made), lists[n], ticks[n], made)
  }

  /** Turn by turn, each list is made from what the turn before left. */
  ghost predicate Lists(t: Turn, lists: seq<seq<int>>, ticks: seq<Tick>, made: Policy)
    requires |lists| <= |ticks|
  {
    forall k :: 0 <= k < |lists| ==> ListsAll(After(t, lists[..k], ticks, made).alive, ticks[k], lists[k])
  }

  /** A run that took these turns and stands at `now`: no turn was taken after one that should be the last. */
  ghost predicate Ran(t: Turn, lists: seq<seq<int>>, ticks: seq<Tick>, made: Policy, now: Turn) {
    && |lists| <= |ticks| && Lists(t, lists, ticks, made) && now == After(t, lists, ticks, made)
    && forall k :: 0 < k < |lists| ==> After(t, lists[..k], ticks, made).any && ticks[k - 1].running
  }

  lemma {:induction false} RanOn(t: Turn, lists: seq<seq<int>>, ticks: seq<Tick>, made: Policy, now: Turn, pids: seq<int>, next: Turn)
    requires Ran(t, lists, ticks, made, now) && |lists| < |ticks|
    requires lists == [] || (now.any && ticks[|lists| - 1].running)
    requires ListsAll(now.alive, ticks[|lists|], pids) && next == NextTurn(now.(any := false), pids, ticks[|lists|], made)
    ensures Ran(t, lists + [pids], ticks, made, next)
  {
    AfterMore(t, lists, pids, ticks, made);
    NextIgnores(now, pids, ticks[|lists|], made);
    forall k | 0 <= k <= |lists|
      ensures ListsAll(After(t, (lists + [pids])[..k], ticks, made).alive, ticks[k], (lists + [pids])[k])
      ensures k > 0 ==> After(t, (lists + [pids])[..k], ticks, made).any && ticks[k - 1].running
    {
      TurnBefore(t, lists, pids, ticks, made, k);
      assert lists[..|lists|] == lists;
    }
  }

  lemma AfterMore(t: Turn, lists: seq<seq<int>>, pids: seq<int>, ticks: seq<Tick>, made: Policy)
    requires |lists| < |ticks|
    ensures After(t, lists + [pids], ticks, made) == NextTurn(After(t, lists, ticks, made), pids, ticks[|lists|], made)
  {
    assert (lists + [pids])[..|lists|] == lists;
  }

  /** A turn more leaves the turns before it as they were. */
  lemma TurnBefore(t: Turn, lists: seq<seq<int>>, pids: seq<int>, ticks: seq<Tick>, made: Policy, k: nat)
    requires |lists| < |ticks| && k <= |lists|
    ensures After(t, (lists + [pids])[..k], ticks, made) == After(t, lists[..k], ticks, made)
    ensures k < |lists| ==> (lists + [pids])[k] == lists[k]
  {
    assert (lists + [pids])[..k] == lists[..k];
  }

  lemma NextIgnores(t: Turn, pids: seq<int>, tick: Tick, made: Policy)
    ensures NextTurn(t.(any := false), pids, tick, made) == NextTurn(t, pids, tick, made)
  {}

  /** What the policies remember is who is up. */
  ghost predicate RemembersUp(t: Turn, made: Policy) {
    match made
    case NoWait =>
      && (forall p :: p in t.policies ==> t.policies[p] == NoWait && p in t.ctx.alive)
      && (forall p :: p in t.ctx.alive ==> p in t.policies)
    case StartupTimeout(_) =>
      && (forall p :: p in t.policies ==> t.policies[p] == StartupTimeout(p in t.ctx.alive))
      && (forall p :: p in t.ctx.alive ==> p in t.policies)
    case Other => true
  }

  /**
   Between the turns of any run, the processes `NoWait` follows are the ones up; under
   `StartupTimeout` a process is up exactly when its policy remembers a successful poll, so those
   followed without being up have never been read since they were found.
   */
  lemma {:induction false} FollowedIsUp(t: Turn, lists: seq<seq<int>>, ticks: seq<Tick>, made: Policy)
    requires made == NoWait || made == StartupTimeout(false)
    requires |lists| <= |ticks| && Lists(t, lists, ticks, made)
    requires t.policies == map[] && t.ctx.alive == {}
    ensures RemembersUp(After(t, lists, ticks, made), made) && UpIsAttached(After(t, lists, ticks, made).ctx)
    decreases |lists|
  {
    if lists != [] {
      var n := |lists| - 1;
      var pids, u := lists[n], After(t, lists[..n], ticks, made);
      ListsBefore(t, lists, ticks, made, n);
      FollowedIsUp(t, lists[..n], ticks, made);
      TurnRemembers(u, pids, ticks[n], made);
    }
  }

  lemma ListsBefore(t: Turn, lists: seq<seq<int>>, ticks: seq<Tick>, made: Policy, n: nat)
    requires |lists| <= |ticks| && Lists(t, lists, ticks, made) && n < |lists|
    ensures Lists(t, lists[..n], ticks, made) && Distinct(lists[n])
  {
    forall k | 0 <= k < n ensures ListsAll(After(t, lists[..n][..k], ticks, made).alive, ticks[k], lists[..n][k]) {
      assert lists[..n][..k] == lists[..k];
    }
    assert ListsAll(After(t, lists[..n], ticks, made).alive, ticks[n], lists[n]);
  }

  lemma {:induction false} TurnRemembers(u: Turn, pids: seq<int>, tick: Tick, made: Policy)
    requires made == NoWait || made == StartupTimeout(false)
    requires UpIsAttached(u.ctx) && Distinct(pids) && RemembersUp(u, made)
    ensures RemembersUp(NextTurn(u, pids, tick, made), made) && UpIsAttached(NextTurn(u, pids, tick, made).ctx)
  {
    var b := Turn(u.ctx, pids, u.policies, Members(pids), false);
    var v := NextTurn(u, pids, tick, made);
    TurnSettles(b, pids, tick, made);
    forall p
      ensures p in v.ctx.alive ==> p in v.policies
      ensures p in v.policies ==> if made.NoWait? then v.policies[p] == NoWait && p in v.ctx.alive else v.policies[p] == StartupTimeout(p in v.ctx.alive)
    {
      if p in pids { assert Settled(b, v, p, tick, made); } else { assert Untouched(b, v, p); }
    }
  }

  // ---- the loop's steps --------------------------------------------------------------------

  /** A child of one of `pids`. */
  ghost predicate ChildOf(pids: seq<int>, children: int -> set<int>, q: int) {
    exists p :: p in pids && q in children(p)
  }

  lemma ChildOfOneMore(pids: seq<int>, p: int, children: int -> set<int>)
    ensures forall q :: ChildOf(pids + [p], children, q) <==> ChildOf(pids, children, q) || q in children(p)
  {
    assert p in pids + [p];
  }

  /** Everyone followed and all their children. */
  method Discover(alive: seq<int>, children: int -> set<int>) returns (current: set<int>)
    ensures forall q :: q in current <==> q in alive || ChildOf(alive, children, q)
  {
    current := {};
    for i := 0 to |alive|
      invariant forall q :: q in current <==> q in alive[..i] || ChildOf(alive[..i], children, q)
    {
      current := current + {alive[i]} + children(alive[i]);
      ChildOfOneMore(alive[..i], alive[i], children);
      assert alive[..i + 1] == alive[..i] + [alive[i]];
    }
    assert alive[..|alive|] == alive;
  }

  method AddNew(alive: seq<int>, current: set<int>) returns (more: seq<int>)
    requires Distinct(alive)
    ensures alive <= more && Members(more) == Members(alive) + current
    ensures Distinct(more)
  {
    more := alive;
    var todo := current;
    while todo != {}
      invariant todo <= current && alive <= more
      invariant Members(more) + todo == Members(alive) + current
      invariant Distinct(more)
      decreases todo
    {
      var pid := Pick(todo);
      ghost var before := Members(more);
      if pid !in more {
        more := more + [pid];
        assert Members(more) == before + {pid};
      }
      todo := todo - {pid};
    }
  }

  /** Let go of every process seen last turn that this turn's discovery does not list. */
  method Sweep(ctx: MonitorContext, seen: set<int>, current: set<int>, alive: seq<int>, policies: map<int, Policy>)
    returns (left: seq<int>, kept: map<int, Policy>, ghost swept: set<int>)
    requires Coherent(ctx.State()) && Tracked(ctx.State(), Members(alive)) && policies.Keys <= Members(alive)
    modifies ctx, ctx.cursor
    ensures swept == seen - current && Members(left) == Members(alive) - swept
    ensures Coherent(ctx.State()) && Tracked(ctx.State(), Members(left)) && kept.Keys <= Members(left)
    ensures swept == {} ==> ctx.State() == old(ctx.State()) && left == alive && kept == policies
  {
    left, kept, swept := alive, policies, {};
    var todo := seen;
    while todo != {}
      invariant todo <= seen && swept == (seen - todo) - current && Members(left) == Members(alive) - swept
      invariant Coherent(ctx.State()) && Tracked(ctx.State(), Members(left)) && kept.Keys <= Members(left)
      invariant swept == {} ==> ctx.State() == old(ctx.State()) && left == alive && kept == policies
      decreases todo
    {
      var pid := Pick(todo);
      todo := todo - {pid};
      if pid !in current {
        LetGoStep(ctx.State(), left, pid);
        ctx.MarkDied(pid);
        kept := kept - {pid};
        left := Filter(Not(pid), left);
        swept := swept + {pid};
      }
    }
  }

  lemma {:induction false} LetGoStep(c: Context, alive: seq<int>, pid: int)
    requires Coherent(c) && Tracked(c, Members(alive))
    ensures Members(Filter(Not(pid), alive)) == Members(alive) - {pid}
    ensures Coherent(LetGo(c, pid)) && Tracked(LetGo(c, pid), Members(Filter(Not(pid), alive)))
  {
    LetGoCoherent(c, pid);
    LetGoTracked(c, Members(alive), pid);
    Removed(alive, pid);
  }

  /** Poll everyone followed at the start of the turn. */
  method PollAll(ctx: MonitorContext, alive: seq<int>, policies: map<int, Policy>, seen: set<int>, tick: Tick, made: Policy)
    returns (left: seq<int>, kept: map<int, Policy>, still: set<int>, any: bool)
    modifies ctx, ctx.cursor
    ensures Turn(ctx.State(), left, kept, still, any)
         == PollEach(Turn(old(ctx.State()), alive, policies, seen, false), alive, tick, made)
  {
    left, kept, still, any := alive, policies, seen, false;
    ghost var whole := PollEach(Turn(ctx.State(), alive, policies, seen, false), alive, tick, made);
    assert alive[0..] == alive;
    var i := 0;
    while i < |alive|
      invariant 0 <= i <= |alive|
      invariant whole == PollEach(Turn(ctx.State(), left, kept, still, any), alive[i..], tick, made)
    {
      ghost var now := Turn(ctx.State(), left, kept, still, any);
      assert alive[i..][0] == alive[i] && alive[i..][1..] == alive[i + 1..];
      var pid := alive[i];
      var ok := ctx.PollPid(pid, tick.polls(pid));
      var decided := PolicyOf(kept, pid, made).Wait(ok, tick.patience(pid));
      if decided.0 {
        kept := kept[pid := decided.1];
        any := true;
      } else {
        ctx.MarkDied(pid);
        left := Filter(Not(pid), left);
        kept := kept - {pid};
        still := still - {pid};
      }
      assert Turn(ctx.State(), left, kept, still, any) == PollOne(now, pid, tick, made);
      i := i + 1;
    }
  }

  ghost function LetGoAll(c: Context, pids: seq<int>): Context
    decreases |pids|
  {
    if pids == [] then c else LetGoAll(LetGo(c, pids[0]), pids[1..])
  }

  method LetAllGo(ctx: MonitorContext, alive: seq<int>)
    requires Coherent(ctx.State()) && Tracked(ctx.State(), Members(alive))
    modifies ctx, ctx.cursor
    ensures Coherent(ctx.State()) && Tracked(ctx.State(), {})
    ensures ctx.State() == LetGoAll(old(ctx.State()), alive)
  {
    assert alive[0..] == alive;
    ghost var end := LetGoAll(ctx.State(), alive);
    var i := 0;
    while i < |alive|
      invariant 0 <= i <= |alive|
      invariant LetGoAll(ctx.State(), alive[i..]) == end
      invariant Coherent(ctx.State()) && Tracked(ctx.State(), Members(alive[i..]))
    {
      LetGoCoherent(ctx.State(), alive[i]);
      LetGoTracked(ctx.State(), Members(alive[i..]), alive[i]);
      assert Members(alive[i..]) - {alive[i]} <= Members(alive[i + 1..]);
      assert alive[i..][0] == alive[i] && alive[i..][1..] == alive[i + 1..];
      ctx.MarkDied(alive[i]);
      i := i + 1;
    }
  }

  /** One turn: discover, sweep, take in the new, poll everyone. Nobody is left to poll if nobody is followed. */
  method TakeTurn(ctx: MonitorContext, alive: seq<int>, policies: map<int, Policy>, seen: set<int>, tick: Tick, made: Policy)
    returns (left: seq<int>, kept: map<int, Policy>, still: set<int>, any: bool, ghost pids: seq<int>, ghost swept: set<int>)
    requires InHand(Turn(ctx.State(), alive, policies, seen, false)) && Distinct(alive)
    modifies ctx, ctx.cursor
    ensures InHand(Turn(ctx.State(), left, kept, still, false)) && Distinct(left)
    ensures swept == {} && ListsAll(alive, tick, pids)
    ensures Turn(ctx.State(), left, kept, still, any)
         == NextTurn(Turn(old(ctx.State()), alive, policies, seen, false), pids, tick, made)
  {
    var current := Discover(alive, tick.children);
    assert forall p :: p in alive ==> p in current;
    left, kept, swept := Sweep(ctx, seen, current, alive, policies);
    still := current;
    left := AddNew(left, current);
    Widen(ctx.State(), left, current);
    AllListed(alive, tick, current, left);
    pids := left;
    if left == [] { return left, kept, still, false, pids, swept; }
    ghost var met := Turn(ctx.State(), left, kept, still, false);
    PollEachInHand(met, left, tick, made);
    StaysDistinct(met, left, tick, made);
    left, kept, still, any := PollAll(ctx, left, kept, still, tick, made);
  }

  /**
   The whole run, for any number of turns and whatever each of them meets. `lists` is who each turn
   polled: made from what the turn before left, and no further than the first turn after which no
   policy goes on or the flag is down. Whoever is then still followed is counted and let go of.
   `swept` gathers every process the sweep found gone: it stays empty, so a process leaves through its
   policy or at the end.
   */
  method Run(ctx: MonitorContext, mainPid: int, ticks: seq<Tick>, made: Policy)
    returns (stillAlive: nat, ghost swept: set<int>, ghost lists: seq<seq<int>>, ghost end: Turn)
    requires Coherent(ctx.State()) && Tracked(ctx.State(), {})
    modifies ctx, ctx.cursor
    ensures Coherent(ctx.State()) && Tracked(ctx.State(), {})
    ensures ctx.sessions == {} && ctx.alive == {} && ctx.cursor.rings == map[]
    ensures Replay(ctx.log) == Some({})
    ensures swept == {}
    ensures Ran(Turn(old(ctx.State()), [mainPid], map[], {}, false), lists, ticks, made, end)
    ensures |lists| < |ticks| ==> lists != [] && !(end.any && ticks[|lists| - 1].running)
    ensures stillAlive == |end.alive| && ctx.State() == LetGoAll(end.ctx, end.alive)
  {
    var alive := [mainPid];
    var policies: map<int, Policy> := map[];
    var seen: set<int> := {};
    var any := false;
    ghost var start := Turn(ctx.State(), alive, policies, seen, any);
    swept, lists, end := {}, [], start;
    var n := 0;
    while n < |ticks|
      invariant 0 <= n <= |ticks| && |lists| == n
      invariant InHand(Turn(ctx.State(), alive, policies, seen, false)) && Distinct(alive)
      invariant swept == {}
      invariant end == Turn(ctx.State(), alive, policies, seen, any) && Ran(start, lists, ticks, made, end)
      invariant n > 0 ==> any && ticks[n - 1].running
    {
      var tick := ticks[n];
      n := n + 1;
      ghost var pids, gone;
      alive, policies, seen, any, pids, gone := TakeTurn(ctx, alive, policies, seen, tick, made);
      ghost var next := Turn(ctx.State(), alive, policies, seen, any);
      RanOn(start, lists, ticks, made, end, pids, next);
      lists, swept, end := lists + [pids], swept + gone, next;
      if !any || !tick.running { break; }
    }
    stillAlive := |alive|;
    LetAllGo(ctx, alive);
    AtRest(ctx.State());
  }

  lemma AllListed(followed: seq<int>, tick: Tick, current: set<int>, alive: seq<int>)
    requires forall q :: q in current <==> q in followed || ChildOf(followed, tick.children, q)
    requires followed <= alive && Members(alive) == Members(followed) + current && Distinct(alive)
    ensures ListsAll(followed, tick, alive) && Members(alive) == current
  {
    forall q ensures q in alive <==> q in Members(alive) {}
  }

  lemma Widen(c: Context, alive: seq<int>, current: set<int>)
    ensures forall a: set<int> :: Tracked(c, a) && a <= Members(alive) ==> Tracked(c, Members(alive))
  {}

  lemma {:induction false} StaysDistinct(t: Turn, pids: seq<int>, tick: Tick, made: Policy)
    requires Distinct(t.alive)
    ensures Distinct(PollEach(t, pids, tick, made).alive)
    decreases |pids|
  {
    if pids != [] {
      OneStaysDistinct(t, pids[0], tick, made);
      StaysDistinct(PollOne(t, pids[0], tick, made), pids[1..], tick, made);
    }
  }

  lemma OneStaysDistinct(t: Turn, pid: int, tick: Tick, made: Policy)
    requires Distinct(t.alive)
    ensures Distinct(PollOne(t, pid, tick, made).alive)
  {
    FilterDistinct(pid, t.alive);
  }

  lemma {:induction false} FilterDistinct(pid: int, s: seq<int>)
    requires Distinct(s)
    ensures Distinct(Filter(Not(pid), s))
    decreases |s|
  {
    if s != [] {
      FilterDistinct(pid, s[1..]);
      var rest := Filter(Not(pid), s[1..]);
      assert s[0] !in rest;
    }
  }
}
