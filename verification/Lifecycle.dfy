/**
 The processes a run follows: attached, read, reported started and died, and let go of. What the
 operating system answers, and how long a policy waits, are arbitrary.
 */
module Lifecycle {
  import opened Prelude
  import opened Records
  import opened Cursors
  import Runs = CursorRuns
  import Accounting = CursorAccounting
  import Laws = CursorLaws

  /** What an exporter is told, in order. */
  datatype Item =
    | Started(pid: int)
    | Ended(pid: int)
    | Reported(pid: int, records: seq<Record>)

  datatype Revalidated = Fresh | Changed | Dead

  /** What one poll of one process meets. */
  datatype PollWorld = PollWorld(
    attaches: bool, read: Option<seq<Record>>, revalidated: Revalidated, reread: Option<seq<Record>>)

  /** `history` is what the cursor has been through; nothing computes with it. */
  datatype Context = Context(
    sessions: set<int>, cursor: CursorState, alive: set<int>, overflowed: set<int>,
    log: seq<Item>, history: seq<Runs.Event>)

  const IDLE := Context({}, NEW, {}, {}, [], [])

  // ---- what one call does to the whole context -----------------------------------------

  function Invalid(c: Context, pid: int): Context {
    if pid in c.alive then c.(alive := c.alive - {pid}, log := c.log + [Ended(pid)]) else c
  }

  /** Everything kept for `pid` goes at once; what its rings did stays, retired. */
  ghost function LetGo(c: Context, pid: int): Context {
    Invalid(c.(sessions := c.sessions - {pid}, cursor := Forget(c.cursor, pid),
               overflowed := c.overflowed - {pid}, history := c.history + [Runs.Died(pid)]), pid)
  }

  function Greeted(c: Context, pid: int): Context {
    if pid in c.alive then c else c.(alive := c.alive + {pid}, log := c.log + [Started(pid)])
  }

  ghost function Report(c: Context, pid: int, records: seq<Record>): Context {
    var a := Admit(c.cursor, pid, records);
    c.(cursor := a.0, log := c.log + [Reported(pid, a.1)],
       overflowed := if DroppedOf(a.0, pid) == 0 then c.overflowed else c.overflowed + {pid},
       history := c.history + [Runs.Polled(pid, records)])
  }

  /** The context after a poll, and whether the process was read. */
  ghost function Poll(c: Context, pid: int, w: PollWorld): (Context, bool) {
    if pid !in c.sessions && !w.attaches then (c, false)
    else
      var open := c.(sessions := c.sessions + {pid});
      if w.read.Some? then (Report(Greeted(open, pid), pid, w.read.value), true) else Retry(open, pid, w)
  }

  /** After a read that failed: the same program is read again once, another one or none is let go of or given up on. */
  ghost function Retry(c: Context, pid: int, w: PollWorld): (Context, bool) {
    match w.revalidated
    case Dead => (Invalid(c, pid), false)
    case Changed => (LetGo(c, pid), false)
    case Fresh =>
      if w.reread.Some? then (Report(Greeted(c, pid), pid, w.reread.value), true)
      else (Invalid(c, pid), false)
  }

  // ---- what each outcome keeps -------------------------------------------------------------

  /** Whether a poll can ask the process anything: a session held, or an attach that works. */
  predicate Reaches(c: Context, pid: int, w: PollWorld) { pid in c.sessions || w.attaches }

  /** Whether it comes by Records: at the first read, or at the second of a process still the same. */
  predicate ComesByRecords(c: Context, pid: int, w: PollWorld) {
    Reaches(c, pid, w) && (w.read.Some? || (w.revalidated.Fresh? && w.reread.Some?))
  }

  /** `pid` is down after, and its end was told once if it was up. */
  ghost predicate EndsOnce(c: Context, t: Context, pid: int) {
    t.alive == c.alive - {pid} && t.log == c.log + if pid in c.alive then [Ended(pid)] else []
  }

  /** A poll answers that the process is valid exactly when it comes by Records; they are handed out, its start told first if it was down. */
  lemma PollSucceedsIff(c: Context, pid: int, w: PollWorld)
    ensures Poll(c, pid, w).1 <==> ComesByRecords(c, pid, w)
    ensures ComesByRecords(c, pid, w) ==>
      var t, fresh' := Poll(c, pid, w).0, Admit(c.cursor, pid, if w.read.Some? then w.read.value else w.reread.value);
      && t.sessions == c.sessions + {pid} && t.alive == c.alive + {pid} && t.cursor == fresh'.0
      && t.log == c.log + (if pid in c.alive then [] else [Started(pid)]) + [Reported(pid, fresh'.1)]
      && t.overflowed == (if pid in fresh'.0.dropped && fresh'.0.dropped[pid] != 0 then c.overflowed + {pid} else c.overflowed)
  {
    assert c.log + [] == c.log;
    if pid in c.alive { assert c.alive + {pid} == c.alive; }
  }

  /**
   And when it comes by none: a process it cannot reach changes nothing; another program under the
   PID loses session, cursor slice and mark; a dead one, or one that fails again, keeps all three. Each
   of the last three is told to have ended, once, if it was up.
   */
  lemma PollFails(c: Context, pid: int, w: PollWorld)
    requires !ComesByRecords(c, pid, w)
    ensures var t := Poll(c, pid, w).0;
      if !Reaches(c, pid, w) then t == c
      else
        && EndsOnce(c, t, pid)
        && if w.revalidated.Changed? then
             t.sessions == c.sessions - {pid} && t.cursor == Forget(c.cursor, pid) && t.overflowed == c.overflowed - {pid}
           else
             t.sessions == c.sessions + {pid} && t.cursor == c.cursor && t.overflowed == c.overflowed
  {
    assert c.log + [] == c.log;
    if pid !in c.alive { assert c.alive - {pid} == c.alive; }
    assert c.sessions + {pid} - {pid} == c.sessions - {pid};
  }

  /** Letting a process go drops session, cursor slice and mark, and tells its end once if it was up. */
  lemma LetGoDrops(c: Context, pid: int)
    ensures var t := LetGo(c, pid);
      && EndsOnce(c, t, pid)
      && t.sessions == c.sessions - {pid} && t.cursor == Forget(c.cursor, pid) && t.overflowed == c.overflowed - {pid}
  {
    assert c.log + [] == c.log;
    if pid !in c.alive { assert c.alive - {pid} == c.alive; }
  }

  // ---- what the exporter hears ------------------------------------------------------------

  /** The processes up after a log, or none if it starts the started, ends the ended, or reports the dead. */
  function Replay(log: seq<Item>): Option<set<int>> {
    if log == [] then Some({})
    else
      var before := Replay(log[..|log| - 1]);
      if before.None? then None
      else
        var up := before.value;
        match log[|log| - 1]
        case Started(p) => if p in up then None else Some(up + {p})
        case Ended(p) => if p in up then Some(up - {p}) else None
        case Reported(p, _) => if p in up then Some(up) else None
  }

  function ReportedCount(log: seq<Item>): nat {
    if log == [] then 0
    else ReportedCount(log[..|log| - 1]) + match log[|log| - 1] case Reported(_, rs) => |rs| case _ => 0
  }

  /** The starts and ends of one process, a start as `true`. */
  function Life(log: seq<Item>, pid: int): seq<bool> {
    if log == [] then []
    else Life(log[..|log| - 1], pid) + match log[|log| - 1]
                                       case Started(p) => if p == pid then [true] else []
                                       case Ended(p) => if p == pid then [false] else []
                                       case Reported(_, _) => []
  }

  /** A log that replays tells of each process start, end, start, end, and ends with a start exactly if it is up. */
  lemma {:induction false} LifeAlternates(log: seq<Item>, pid: int)
    requires Replay(log).Some?
    ensures forall k :: 0 <= k < |Life(log, pid)| ==> (Life(log, pid)[k] <==> k % 2 == 0)
    ensures pid in Replay(log).value <==> |Life(log, pid)| % 2 == 1
    decreases |log|
  {
    if log != [] {
      LifeAlternates(log[..|log| - 1], pid);
    }
  }

  /** A prefix of a log that replays does so too, and Records are reported only of a process then up. */
  lemma {:induction false} ReportedWhileUp(log: seq<Item>, i: nat)
    requires Replay(log).Some? && i < |log|
    ensures Replay(log[..i]).Some?
    ensures log[i].Reported? ==> log[i].pid in Replay(log[..i]).value
    decreases |log|
  {
    var init := log[..|log| - 1];
    if i < |log| - 1 {
      ReportedWhileUp(init, i);
      assert init[..i] == log[..i];
    }
  }

  lemma Appended(log: seq<Item>, x: Item)
    ensures (log + [x])[..|log| + 1 - 1] == log && (log + [x])[|log|] == x
  {}

  // ---- what every call keeps ----------------------------------------------------------------

  /** The log tells the truth, and the cursor is what its history made it. */
  ghost predicate Coherent(c: Context) {
    && Replay(c.log) == Some(c.alive)
    && c.cursor == Runs.Run(NEW, c.history)
    && ReportedCount(c.log) == Accounting.Returned(NEW, c.history)
  }

  /** Only processes in `pids` have anything kept for them. */
  ghost predicate Tracked(c: Context, pids: set<int>) {
    && c.sessions <= pids && c.alive <= pids && c.overflowed <= pids
    && forall p :: p !in pids ==> Runs.SameSlice(c.cursor, NEW, p)
  }

  lemma {:induction false} RunAppend(s: CursorState, es: seq<Runs.Event>, e: Runs.Event)
    ensures Runs.Run(s, es + [e]) == Runs.Apply(Runs.Run(s, es), e)
    ensures Accounting.Returned(s, es + [e]) == Accounting.Returned(s, es) + Accounting.ReturnedBy(Runs.Run(s, es), e)
    decreases |es|
  {
    if es == [] {
      assert [] + [e] == [e] && [e][1..] == [];
    } else {
      assert (es + [e])[0] == es[0] && (es + [e])[1..] == es[1..] + [e];
      RunAppend(Runs.Apply(s, es[0]), es[1..], e);
    }
  }

  lemma InvalidCoherent(c: Context, pid: int)
    requires Coherent(c)
    ensures Coherent(Invalid(c, pid))
  {
    Appended(c.log, Ended(pid));
  }

  lemma LetGoCoherent(c: Context, pid: int)
    requires Coherent(c)
    ensures Coherent(LetGo(c, pid))
  {
    RunAppend(NEW, c.history, Runs.Died(pid));
    InvalidCoherent(c.(sessions := c.sessions - {pid}, cursor := Forget(c.cursor, pid),
                       overflowed := c.overflowed - {pid}, history := c.history + [Runs.Died(pid)]), pid);
  }

  lemma ReportCoherent(c: Context, pid: int, records: seq<Record>)
    requires Coherent(c)
    ensures Coherent(Report(Greeted(c, pid), pid, records)) && pid in Report(Greeted(c, pid), pid, records).alive
  {
    var g := Greeted(c, pid);
    Appended(c.log, Started(pid));
    RunAppend(NEW, c.history, Runs.Polled(pid, records));
    Appended(g.log, Reported(pid, Admit(c.cursor, pid, records).1));
  }

  lemma PollCoherent(c: Context, pid: int, w: PollWorld)
    requires Coherent(c)
    ensures Coherent(Poll(c, pid, w).0)
    ensures Poll(c, pid, w).1 ==> pid in Poll(c, pid, w).0.alive
  {
    if pid in c.sessions || w.attaches {
      var open := c.(sessions := c.sessions + {pid});
      assert Coherent(open);
      if w.read.Some? {
        ReportCoherent(open, pid, w.read.value);
      } else {
        RetryCoherent(open, pid, w);
      }
    }
  }

  lemma RetryCoherent(c: Context, pid: int, w: PollWorld)
    requires Coherent(c)
    ensures Coherent(Retry(c, pid, w).0)
    ensures Retry(c, pid, w).1 ==> pid in Retry(c, pid, w).0.alive
  {
    match w.revalidated
    case Dead => InvalidCoherent(c, pid);
    case Changed => LetGoCoherent(c, pid);
    case Fresh =>
      if w.reread.Some? {
        ReportCoherent(c, pid, w.reread.value);
      } else {
        InvalidCoherent(c, pid);
      }
  }

  lemma LetGoTracked(c: Context, pids: set<int>, pid: int)
    requires Tracked(c, pids)
    ensures Tracked(LetGo(c, pid), pids - {pid})
  {
    forall p | p !in pids - {pid} ensures Runs.SameSlice(Forget(c.cursor, pid), NEW, p) {
      if p == pid {
        Runs.ForgetIsNew(c.cursor, pid, 0);
      } else {
        Runs.ApplyFrame(c.cursor, Runs.Died(pid), p);
        SliceBack(c.cursor, Forget(c.cursor, pid), p);
      }
    }
  }

  lemma SliceBack(s: CursorState, t: CursorState, p: int)
    requires Runs.SameSlice(s, t, p) && Runs.SameSlice(s, NEW, p)
    ensures Runs.SameSlice(t, NEW, p)
  {
    forall i ensures Laws.BoundOf(t, p, i) == Laws.BoundOf(NEW, p, i) {
      assert Laws.BoundOf(s, p, i) == Laws.BoundOf(t, p, i);
    }
  }

  lemma ReportTracked(c: Context, pids: set<int>, pid: int, records: seq<Record>)
    requires Tracked(c, pids) && pid in pids
    ensures Tracked(Report(Greeted(c, pid), pid, records), pids)
  {
    forall p | p !in pids ensures Runs.SameSlice(Admit(c.cursor, pid, records).0, NEW, p) {
      Runs.ApplyFrame(c.cursor, Runs.Polled(pid, records), p);
      SliceBack(c.cursor, Admit(c.cursor, pid, records).0, p);
    }
  }

  lemma PollTracked(c: Context, pids: set<int>, pid: int, w: PollWorld)
    requires Tracked(c, pids) && pid in pids
    ensures Tracked(Poll(c, pid, w).0, pids)
  {
    if pid in c.sessions || w.attaches {
      var open := c.(sessions := c.sessions + {pid});
      assert Tracked(open, pids);
      if w.read.Some? {
        ReportTracked(open, pids, pid, w.read.value);
      } else {
        RetryTracked(open, pids, pid, w);
      }
    }
  }

  lemma RetryTracked(c: Context, pids: set<int>, pid: int, w: PollWorld)
    requires Tracked(c, pids) && pid in pids
    ensures Tracked(Retry(c, pid, w).0, pids)
  {
    match w.revalidated
    case Dead =>
    case Changed =>
      LetGoTracked(c, pids, pid);
    case Fresh =>
      if w.reread.Some? { ReportTracked(c, pids, pid, w.reread.value); }
  }

  lemma LiveRingShows(s: CursorState, k: RingKey)
    requires Runs.RingOk(s, k) && k in s.rings
    ensures !Runs.SameSlice(s, NEW, k.pid)
  {
    assert ObservationOf(s, k) != ObservationOf(NEW, k);
  }

  /**
   With nothing kept for anyone: no session, nobody up, no live ring; every start has its end, and
   every Record reported is counted by a retired accumulator or by one evicted for room.
   */
  lemma {:induction false} AtRest(c: Context)
    requires Coherent(c) && Tracked(c, {})
    ensures c.sessions == {} && c.alive == {} && c.overflowed == {}
    ensures c.cursor.rings == map[]
    ensures Replay(c.log) == Some({})
    ensures SumBy(Accounting.SampledOf, c.cursor.retired) + Accounting.Destroyed(NEW, c.history) == ReportedCount(c.log)
  {
    Runs.RunBounded(NEW, c.history);
    forall k ensures k !in c.cursor.rings {
      assert Runs.RingOk(c.cursor, k);
      if k in c.cursor.rings { LiveRingShows(c.cursor, k); }
    }
    assert c.cursor.rings.Keys == {};
    Accounting.Conservation(c.history);
    Accounting.ObservationsSum(c.cursor);
  }

  /** A poll that reads one finished Record, and one that reads nothing of a process still there. */
  function ReadsOne(r: Record): PollWorld { PollWorld(true, Some([r]), Fresh, None) }

  const READS_NONE := PollWorld(true, None, Fresh, None)

  lemma {:induction false} ReadsOneReports(c: Context, pid: int, r: Record)
    requires pid !in c.alive && KeyOf(pid, r) !in c.cursor.rings && r.IsComplete() && r.collections > 0
    ensures var t := Poll(c, pid, ReadsOne(r)).0;
      t.log == c.log + [Started(pid), Reported(pid, [r])] && pid in t.alive
  {
    Laws.AdmitAlone(c.cursor, pid, r);
    assert c.log + [Started(pid)] + [Reported(pid, [r])] == c.log + [Started(pid), Reported(pid, [r])];
  }

  lemma ReadsNoneEnds(c: Context, pid: int)
    requires pid in c.alive
    ensures var t := Poll(c, pid, READS_NONE); !t.1 && t.0.log == c.log + [Ended(pid)] && pid !in t.0.alive
  {}

  lemma LetGoUnreads(c: Context, pid: int, key: RingKey)
    requires pid !in c.alive && key.pid == pid
    ensures var t := LetGo(c, pid); t.log == c.log && pid !in t.alive && key !in t.cursor.rings
  {}

  /**
   A process can be let go of while it lives: one failed read is enough for its policy, and it is
   taken up again when its parent still lists it. What it still holds is then reported once more.
   */
  lemma LetGoReportsAgain(c: Context, pid: int, r: Record)
    requires pid !in c.alive && KeyOf(pid, r) !in c.cursor.rings && r.IsComplete() && r.collections > 0
    ensures var failed := Poll(Poll(c, pid, ReadsOne(r)).0, pid, READS_NONE);
      && !failed.1
      && Poll(LetGo(failed.0, pid), pid, ReadsOne(r)).0.log
         == c.log + [Started(pid), Reported(pid, [r])] + [Ended(pid)] + [Started(pid), Reported(pid, [r])]
  {
    var read := Poll(c, pid, ReadsOne(r)).0;
    ReadsOneReports(c, pid, r);
    ReadsNoneEnds(read, pid);
    var failed := Poll(read, pid, READS_NONE).0;
    LetGoUnreads(failed, pid, KeyOf(pid, r));
    ReadsOneReports(LetGo(failed, pid), pid, r);
  }

  // ---- the context in memory ------------------------------------------------------------------

  class MonitorContext {
    var sessions: set<int>
    const cursor: Cursor
    var alive: set<int>
    var overflowed: set<int>
    var log: seq<Item>
    ghost var history: seq<Runs.Event>

    ghost function State(): Context
      reads this, cursor
    {
      Context(sessions, cursor.State(), alive, overflowed, log, history)
    }

    constructor ()
      ensures State() == IDLE && Coherent(State()) && Tracked(State(), {})
      ensures fresh(cursor)
    {
      sessions, alive, overflowed, log, history := {}, {}, {}, [], [];
      cursor := new Cursor();
      new;
    }

    method PollPid(pid: int, w: PollWorld) returns (ok: bool)
      modifies this, cursor
      ensures (State(), ok) == Poll(old(State()), pid, w)
    {
      if pid !in sessions {
        if !w.attaches { return false; }
        sessions := sessions + {pid};
      }
      assert sessions == old(sessions) + {pid};
      var stats := w.read;
      if stats.None? {
        match w.revalidated {
          case Fresh =>
            stats := w.reread;
            if stats.None? {
              OnInvalid(pid);
              return false;
            }
          case Changed =>
            sessions := sessions - {pid};
            cursor.ForgetPid(pid);
            overflowed := overflowed - {pid};
            history := history + [Runs.Died(pid)];
            OnInvalid(pid);
            return false;
          case Dead =>
            OnInvalid(pid);
            return false;
        }
      }
      if pid !in alive {
        alive := alive + {pid};
        log := log + [Started(pid)];
      }
      EventsFor(pid, stats.value);
      return true;
    }

    /** Fold the Records in, hand on the new ones, and note once that interpreters were dropped. */
    method EventsFor(pid: int, records: seq<Record>)
      modifies this, cursor
      ensures State() == Report(old(State()), pid, records)
    {
      var unseen := cursor.AdmitRecords(pid, records);
      history := history + [Runs.Polled(pid, records)];
      var lost := if pid in cursor.dropped then cursor.dropped[pid] else 0;
      if lost != 0 {
        overflowed := overflowed + {pid};
      }
      log := log + [Reported(pid, unseen)];
    }

    method OnInvalid(pid: int)
      modifies this`alive, this`log
      ensures State() == Invalid(old(State()), pid)
    {
      if pid in alive {
        alive := alive - {pid};
        log := log + [Ended(pid)];
      }
    }

    /** The single eviction point. */
    method MarkDied(pid: int)
      modifies this, cursor
      ensures State() == LetGo(old(State()), pid)
    {
      sessions := sessions - {pid};
      cursor.ForgetPid(pid);
      overflowed := overflowed - {pid};
      history := history + [Runs.Died(pid)];
      if pid in alive {
        alive := alive - {pid};
        log := log + [Ended(pid)];
      }
    }
  }
}
