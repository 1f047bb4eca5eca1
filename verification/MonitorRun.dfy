/**
 One observed process and its observer, over every interleaving: the process's rings move one
 store at a time, the observer reads one Entry at a time, a read may fail and be thrown away, the
 process may be let go of while it lives and taken up again, and any other process may be polled or
 die in between. A poll of a snapshot is the case where no store falls between its reads.
 */
module MonitorRun {
  import opened Records
  import opened StableSort
  import opened Cursors
  import opened CursorLaws
  import opened CursorRuns
  import RW = RingWriter

  /** The rings of the process, the cursor, the Entries read by the poll under way, all Records returned. */
  datatype World = World(
    rings: map<RingKey, RW.RingState>, cursor: CursorState, pending: seq<Record>, output: seq<Record>)

  datatype Step =
    | BeginPublish(key: RingKey, c: RW.Collection)
    | Store(key: RingKey)
    | Read(key: RingKey, entry: nat)
    | EndPoll
    | FailRead
    | LetGo
    | Elsewhere(event: Event)

  ghost predicate RingsValid(pid: int, w: World) {
    forall k :: k in w.rings ==> k.pid == pid && RW.Valid(w.rings[k])
  }

  ghost predicate Enabled(pid: int, w: World, s: Step) {
    match s
    case BeginPublish(key, c) => key in w.rings && RW.CanBegin(w.rings[key], c)
    case Store(key) => key in w.rings && w.rings[key].stage > 0
    case Read(key, entry) => key in w.rings && entry < |w.rings[key].items|
    case EndPoll => true
    case FailRead => true
    case LetGo => true
    case Elsewhere(event) => event.pid != pid
  }

  ghost function ReadEntry(w: World, key: RingKey, entry: nat): Record
    requires key in w.rings && RW.Valid(w.rings[key]) && entry < |w.rings[key].items|
  {
    RW.CounterRange(w.rings[key], entry);
    RW.Decode(w.rings[key].items[entry], key.interpreter, key.generation, entry)
  }

  ghost function Take(pid: int, w: World, s: Step): World
    requires RingsValid(pid, w) && Enabled(pid, w, s)
  {
    match s
    case BeginPublish(key, c) => w.(rings := w.rings[key := RW.Begin(w.rings[key], c)])
    case Store(key) => w.(rings := w.rings[key := RW.Step(w.rings[key])])
    case Read(key, entry) => w.(pending := w.pending + [ReadEntry(w, key, entry)])
    case EndPoll =>
      var t := Admit(w.cursor, pid, w.pending);
      w.(cursor := t.0, pending := [], output := w.output + t.1)
    case FailRead => w.(pending := [])
    case LetGo => w.(cursor := Forget(w.cursor, pid), pending := [])
    case Elsewhere(event) => w.(cursor := Apply(w.cursor, event))
  }

  // ---- nothing false is ever read or returned -----------------------------------

  /** A Record no reader is misled by: it reads as in flight, or a finished Collection published it. */
  ghost predicate HonestRecord(h: seq<RW.Collection>, r: Record) {
    r.tsStart < r.tsStop ==>
      && 1 <= r.collections <= |h|
      && r == RW.Decode(RW.Cum(h, r.collections), r.interpreter, r.generation, r.index)
  }

  ghost predicate Known(pid: int, w: World, r: Record) {
    && r.timed && r.pricesPause
    && KeyOf(pid, r) in w.rings
    && HonestRecord(w.rings[KeyOf(pid, r)].history, r)
  }

  /** Every Record read is honest, and every Record returned is what a finished Collection published. */
  ghost predicate Inv(pid: int, w: World) {
    && RingsValid(pid, w)
    && Bounded(w.cursor)
    && (forall r :: r in w.pending ==> Known(pid, w, r))
    && (forall r :: r in w.output ==> Known(pid, w, r) && r.IsComplete())
  }

  lemma HonestGrows(h: seq<RW.Collection>, g: seq<RW.Collection>, r: Record)
    requires HonestRecord(h, r) && h <= g
    ensures HonestRecord(g, r)
  {
    if r.tsStart < r.tsStop { RW.CumPrefix(h, g, r.collections); }
  }

  lemma ReadHonest(w: World, key: RingKey, entry: nat)
    requires key in w.rings && RW.Valid(w.rings[key]) && entry < |w.rings[key].items|
    ensures HonestRecord(w.rings[key].history, ReadEntry(w, key, entry))
  {
    RW.EntryKinds(w.rings[key], entry);
  }

  /** A store changes one ring, and only ever adds to its history. */
  lemma {:induction false} WriterStep(pid: int, w: World, s: Step)
    requires Inv(pid, w) && Enabled(pid, w, s) && (s.BeginPublish? || s.Store?)
    ensures Inv(pid, Take(pid, w, s))
  {
    var v := Take(pid, w, s);
    if s.BeginPublish? { RW.BeginValid(w.rings[s.key], s.c); } else { RW.StepValid(w.rings[s.key]); }
    forall r | Known(pid, w, r) ensures Known(pid, v, r) {
      HonestGrows(w.rings[KeyOf(pid, r)].history, v.rings[KeyOf(pid, r)].history, r);
    }
  }

  lemma {:induction false} EndPollStep(pid: int, w: World)
    requires Inv(pid, w)
    ensures Inv(pid, Take(pid, w, EndPoll))
  {
    var v := Take(pid, w, EndPoll);
    ApplyBounded(w.cursor, Polled(pid, w.pending));
    AdmitTakes(w.cursor, pid, w.pending);
    forall r | Known(pid, w, r) ensures Known(pid, v, r) {}
  }

  /** The invariant holds after every step, of every kind, in any order. */
  lemma StepKeepsInv(pid: int, w: World, s: Step)
    requires Inv(pid, w) && Enabled(pid, w, s)
    ensures Inv(pid, Take(pid, w, s))
  {
    var v := Take(pid, w, s);
    match s
    case BeginPublish(key, c) => WriterStep(pid, w, s);
    case Store(key) => WriterStep(pid, w, s);
    case Read(key, entry) =>
      ReadHonest(w, key, entry);
      assert KeyOf(pid, ReadEntry(w, key, entry)) == key;
      forall r | Known(pid, w, r) ensures Known(pid, v, r) {}
    case EndPoll => EndPollStep(pid, w);
    case FailRead =>
      forall r | Known(pid, w, r) ensures Known(pid, v, r) {}
    case LetGo =>
      ApplyBounded(w.cursor, Died(pid));
      forall r | Known(pid, w, r) ensures Known(pid, v, r) {}
    case Elsewhere(event) =>
      ApplyBounded(w.cursor, event);
      forall r | Known(pid, w, r) ensures Known(pid, v, r) {}
  }
}
