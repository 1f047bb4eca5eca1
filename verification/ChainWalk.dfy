/**
 The walk over a process's interpreter chain. CPython mutates the chain while it is read, so what
 an address answers may differ from one read to the next.
 */
module ChainWalk {
  import opened Prelude
  import opened Records

  const ADDRESS_SPACE: nat := 0x1_0000_0000_0000_0000

  type u64 = x: int | 0 <= x < ADDRESS_SPACE

  /** What reading one interpreter's Records gave: an error, nothing worth keeping, or the Records. */
  datatype Stats = Unreadable | Absent | Read(records: seq<Record>)

  datatype Link = BadLink | Next(addr: u64)

  /** One interpreter as it answers: its id, its stats region, and the Entries of that region. */
  datatype Answer = Answer(id: Option<int>, region: Option<Option<u64>>, entries: Option<seq<Record>>, link: Link)

  /** The n-th stop of a walk, at an address, and what memory answers there and then. */
  type Memory = (nat, u64) -> Answer

  datatype Outcome = Failed | Walked(records: seq<Record>)

  predicate IsInterpreterId(id: int) { id >= 0 }

  function Labelled(id: int, entries: seq<Record>): seq<Record> {
    seq(|entries|, k requires 0 <= k < |entries| => entries[k].(interpreter := id))
  }

  /** A nonsense id or a region not there skips the interpreter; a failed read is an error. */
  function StatsOf(a: Answer): Stats {
    if a.id.None? then Unreadable
    else if !IsInterpreterId(a.id.value) then Absent
    else if a.region.None? then Unreadable
    else if a.region.value.None? then Absent
    else if a.entries.None? then Unreadable
    else Read(Labelled(a.id.value, a.entries.value))
  }

  function Kept(a: Answer): seq<Record> {
    if StatsOf(a).Read? then StatsOf(a).records else []
  }

  /** The interpreter answers in full: an id of zero or more, a region that is there, and its Entries. */
  predicate AnswersInFull(a: Answer) {
    && a.id.Some? && a.id.value >= 0
    && a.region.Some? && a.region.value.Some?
    && a.entries.Some?
  }

  /** Something that should have read did not. Below zero an id says the link was torn, and nothing more is read. */
  predicate FailsToRead(a: Answer) {
    || a.id.None?
    || (a.id.value >= 0 && (a.region.None? || (a.region.value.Some? && a.entries.None?)))
  }

  /** What an answer contributes: every Entry of a full one, as it stands but for the id it was read under; else none. */
  ghost predicate Contributes(a: Answer, part: seq<Record>) {
    if AnswersInFull(a) then
      && |part| == |a.entries.value|
      && forall k :: 0 <= k < |part| ==> part[k] == a.entries.value[k].(interpreter := a.id.value)
    else part == []
  }

  /** What is kept of an answer, and when reading it is an error. */
  lemma AnswerMeans(a: Answer)
    ensures Contributes(a, Kept(a)) && (StatsOf(a).Unreadable? <==> FailsToRead(a))
  {}

  // ---- the addresses a walk stops at ------------------------------------------------------

  ghost function Below(n: nat): set<int> {
    if n == 0 then {} else Below(n - 1) + {n - 1}
  }

  lemma {:induction false} BelowHas(n: nat, a: int)
    ensures a in Below(n) <==> 0 <= a < n
  {
    if n > 0 { BelowHas(n - 1, a); }
  }

  /** The walk has room left: some address it has not yet stopped at. */
  lemma Shrinks(addr: u64, seen: set<int>)
    requires addr !in seen
    ensures Below(ADDRESS_SPACE) - (seen + {addr}) < Below(ADDRESS_SPACE) - seen
  {
    BelowHas(ADDRESS_SPACE, addr);
    var now, then' := Below(ADDRESS_SPACE) - seen, Below(ADDRESS_SPACE) - (seen + {addr});
    assert addr in now && addr !in then';
  }

  /** `n` addresses, each of them one a machine can form. */
  ghost predicate Addresses(seen: set<int>, n: nat) {
    |seen| == n && forall a :: a in seen ==> 0 <= a < ADDRESS_SPACE
  }

  lemma AnotherAddress(seen: set<int>, n: nat, a: u64)
    requires Addresses(seen, n) && a !in seen
    ensures Addresses(seen + {a}, n + 1) && n + 1 <= ADDRESS_SPACE
  {
    Room(seen + {a});
  }

  lemma Room(seen: set<int>)
    requires forall a :: a in seen ==> 0 <= a < ADDRESS_SPACE
    ensures |seen| <= ADDRESS_SPACE
  {
    forall a | a in seen ensures a in Below(ADDRESS_SPACE) { BelowHas(ADDRESS_SPACE, a); }
    BelowSize(ADDRESS_SPACE);
    SubsetSize(seen, Below(ADDRESS_SPACE));
  }

  lemma {:induction false} BelowSize(n: nat)
    ensures |Below(n)| == n
  {
    if n > 0 {
      BelowSize(n - 1);
      BelowHas(n - 1, n - 1);
    }
  }

  /** The addresses stopped at from the `n`-th stop on, `seen` being those already behind. */
  ghost function Route(m: Memory, n: nat, addr: u64, seen: set<int>): seq<u64>
    decreases Below(ADDRESS_SPACE) - seen
  {
    if addr == 0 || addr in seen then []
    else
      Shrinks(addr, seen);
      [addr] + match m(n, addr).link
               case BadLink => []
               case Next(to) => Route(m, n + 1, to, seen + {addr})
  }

  function Gather(m: Memory, n: nat, route: seq<u64>): seq<Record>
    decreases |route|
  {
    if route == [] then [] else Kept(m(n, route[0])) + Gather(m, n + 1, route[1..])
  }

  /**
   A route with no word of how it is walked: no stop twice, each linked to the next, and at the
   end a link that will not read, that is null, or that leads back.
   */
  ghost predicate IsRoute(m: Memory, n: nat, head: u64, seen: set<int>, route: seq<u64>) {
    && (route == [] <==> head == 0 || head in seen)
    && (route != [] ==> route[0] == head)
    && Distinct(route)
    && (forall i :: 0 <= i < |route| ==> route[i] != 0 && route[i] !in seen)
    && (forall i :: 0 < i < |route| ==> m(n + i - 1, route[i - 1]).link == Next(route[i]))
    && (route != [] ==> Ends(m(n + |route| - 1, route[|route| - 1]).link, seen, route))
  }

  ghost predicate Ends(link: Link, seen: set<int>, route: seq<u64>) {
    link.BadLink? || link.addr == 0 || link.addr in seen || link.addr in route
  }

  lemma {:induction false} RouteIsRoute(m: Memory, n: nat, head: u64, seen: set<int>)
    ensures IsRoute(m, n, head, seen, Route(m, n, head, seen))
    decreases Below(ADDRESS_SPACE) - seen
  {
    if head != 0 && head !in seen {
      match m(n, head).link
      case BadLink =>
      case Next(to) =>
        Shrinks(head, seen);
        RouteIsRoute(m, n + 1, to, seen + {head});
        Prepend(m, n, head, seen, to, Route(m, n + 1, to, seen + {head}));
    }
  }

  lemma Prepend(m: Memory, n: nat, head: u64, seen: set<int>, to: u64, rest: seq<u64>)
    requires head != 0 && head !in seen && m(n, head).link == Next(to)
    requires IsRoute(m, n + 1, to, seen + {head}, rest)
    ensures IsRoute(m, n, head, seen, [head] + rest)
  {
    var route := [head] + rest;
    assert forall i :: 0 < i < |route| ==> route[i] == rest[i - 1];
    forall i | 0 < i < |route| ensures m(n + i - 1, route[i - 1]).link == Next(route[i]) {
      if i > 1 { assert m(n + 1 + (i - 1) - 1, rest[i - 2]).link == Next(rest[i - 1]); }
    }
    assert head in route && forall a :: a in rest ==> a in route;
  }

  lemma {:induction false} RouteUnique(m: Memory, n: nat, head: u64, seen: set<int>, route: seq<u64>)
    requires IsRoute(m, n, head, seen, route)
    ensures route == Route(m, n, head, seen)
    decreases |route|
  {
    if route != [] {
      var rest := route[1..];
      var link := m(n, head).link;
      Shrinks(head, seen);
      if rest == [] {
        if link.Next? {
          assert route == [head];
        }
      } else {
        assert link == Next(rest[0]);
        Tail(m, n, head, seen, route);
        RouteUnique(m, n + 1, rest[0], seen + {head}, rest);
      }
      assert route == [head] + rest;
    }
  }

  lemma Tail(m: Memory, n: nat, head: u64, seen: set<int>, route: seq<u64>)
    requires IsRoute(m, n, head, seen, route) && |route| > 1
    ensures IsRoute(m, n + 1, route[1], seen + {head}, route[1..])
  {
    var rest := route[1..];
    forall i | 0 < i < |rest| ensures m(n + 1 + i - 1, rest[i - 1]).link == Next(rest[i]) {
      assert m(n + (i + 1) - 1, route[i + 1 - 1]).link == Next(route[i + 1]);
    }
    assert forall a :: a in route ==> a == head || a in rest;
  }

  /** The walk's stops are the one sequence that is a route, whatever memory answers. */
  lemma {:induction false} RouteIff(m: Memory, head: u64, route: seq<u64>)
    ensures IsRoute(m, 0, head, {}, route) <==> route == Route(m, 0, head, {})
  {
    RouteIsRoute(m, 0, head, {});
    if IsRoute(m, 0, head, {}, route) { RouteUnique(m, 0, head, {}, route); }
  }

  // ---- the walk ---------------------------------------------------------------------------

  /** The walk fails exactly on the head: its Records unreadable, or its link when all are wanted. */
  predicate HeadFails(m: Memory, head: u64, all: bool) {
    head != 0 && (StatsOf(m(0, head)).Unreadable? || (all && m(0, head).link.BadLink?))
  }

  /** The stops whose Records count: the whole route, or the head alone. */
  ghost function Stops(m: Memory, head: u64, all: bool): seq<u64> {
    if head == 0 then [] else if all then Route(m, 0, head, {}) else [head]
  }

  lemma {:induction false} GatherOne(m: Memory, n: nat, a: u64, rest: seq<u64>)
    ensures Gather(m, n, [a] + rest) == Kept(m(n, a)) + Gather(m, n + 1, rest)
  {
    assert ([a] + rest)[1..] == rest;
  }

  /** Mid-walk: what is done and what is still ahead make up the whole route. */
  ghost predicate Underway(
    m: Memory, head: u64, n: nat, current: u64, visited: set<int>, stats: seq<Record>, asked: seq<u64>)
  {
    && Route(m, 0, head, {}) == asked + Route(m, n, current, visited)
    && Gather(m, 0, Route(m, 0, head, {})) == stats + Gather(m, n, Route(m, n, current, visited))
  }

  lemma {:induction false} Onward(m: Memory, head: u64, n: nat, current: u64, visited: set<int>, stats: seq<Record>, asked: seq<u64>)
    requires Underway(m, head, n, current, visited, stats, asked) && current != 0 && current !in visited
    ensures var kept := stats + Kept(m(n, current));
      match m(n, current).link
      case Next(to) => Underway(m, head, n + 1, to, visited + {current}, kept, asked + [current])
      case BadLink => asked + [current] == Route(m, 0, head, {}) && kept == Gather(m, 0, Route(m, 0, head, {}))
  {
    Shrinks(current, visited);
    var ahead := Route(m, n, current, visited);
    var rest := ahead[1..];
    assert ahead == [current] + rest;
    GatherOne(m, n, current, rest);
    assert asked + ahead == (asked + [current]) + rest;
    var kept := Kept(m(n, current));
    assert stats + (kept + Gather(m, n + 1, rest)) == (stats + kept) + Gather(m, n + 1, rest);
  }

  lemma {:induction false} Arrived(m: Memory, head: u64, n: nat, current: u64, visited: set<int>, stats: seq<Record>, asked: seq<u64>)
    requires Underway(m, head, n, current, visited, stats, asked) && (current == 0 || current in visited)
    ensures asked == Route(m, 0, head, {}) && stats == Gather(m, 0, Route(m, 0, head, {}))
  {}

  lemma Departs(m: Memory, head: u64)
    ensures Underway(m, head, 0, head, {}, [], [])
  {
    assert [] + Route(m, 0, head, {}) == Route(m, 0, head, {});
    assert [] + Gather(m, 0, Route(m, 0, head, {})) == Gather(m, 0, Route(m, 0, head, {}));
  }

  lemma HeadOnly(m: Memory, head: u64)
    ensures [] + Kept(m(0, head)) == Gather(m, 0, [head]) && [] + [head] == [head]
  {
    GatherOne(m, 0, head, []);
    assert [head] + [] == [head];
  }

  method Absorb(stats: seq<Record>, a: Answer) returns (more: seq<Record>, failed: bool)
    ensures more == stats + Kept(a) && (failed <==> StatsOf(a).Unreadable?)
  {
    match StatsOf(a)
    case Read(records) => return stats + records, false;
    case Absent => return stats, false;
    case Unreadable => return stats, true;
  }

  /** One contribution for each stop of a route. */
  ghost predicate AllContribute(m: Memory, n: nat, route: seq<u64>, parts: seq<seq<Record>>) {
    |parts| == |route| && forall i :: 0 <= i < |route| ==> Contributes(m(n + i, route[i]), parts[i])
  }

  lemma {:induction false} GatherParts(m: Memory, n: nat, route: seq<u64>) returns (parts: seq<seq<Record>>)
    ensures AllContribute(m, n, route, parts) && Gather(m, n, route) == Flatten(parts)
    decreases |route|
  {
    if route == [] {
      parts := [];
    } else {
      var rest := GatherParts(m, n + 1, route[1..]);
      AnswerMeans(m(n, route[0]));
      parts := [Kept(m(n, route[0]))] + rest;
      assert parts[1..] == rest;
      forall i | 0 <= i < |route| ensures Contributes(m(n + i, route[i]), parts[i]) {
        if i > 0 { assert Contributes(m(n + 1 + (i - 1), route[1..][i - 1]), rest[i - 1]); }
      }
    }
  }

  /** The walk fails exactly when the head does: its Records, or its link when all interpreters are wanted. */
  predicate HeadIsLost(m: Memory, head: u64, all: bool) {
    head != 0 && (FailsToRead(m(0, head)) || (all && m(0, head).link.BadLink?))
  }

  /** Between two addresses: everything asked, kept and passed so far, and the head behind it. */
  ghost predicate OnTheWay(
    m: Memory, head: u64, all: bool, n: nat, current: u64, visited: set<int>, stats: seq<Record>, asked: seq<u64>)
  {
    && (n == 0 ==> current == head && visited == {} && stats == [] && asked == [])
    && (n > 0 ==> all && head != 0 && !HeadFails(m, head, all))
    && Underway(m, head, n, current, visited, stats, asked)
  }

  /** The walk is done and this is what it gives. */
  ghost predicate Settles(m: Memory, head: u64, all: bool, r: Outcome, asked: seq<u64>) {
    && r == (if HeadFails(m, head, all) then Failed else Walked(Gather(m, 0, Stops(m, head, all))))
    && asked == (if HeadFails(m, head, all) then [head] else Stops(m, head, all))
  }

  /** What one address decides: the walk fails or ends there, or goes on from the next. */
  lemma OneAddress(m: Memory, head: u64, all: bool, n: nat, current: u64, visited: set<int>, stats: seq<Record>, asked: seq<u64>)
    requires OnTheWay(m, head, all, n, current, visited, stats, asked) && current != 0 && current !in visited
    ensures var a, kept, more := m(n, current), stats + Kept(m(n, current)), asked + [current];
      if n == 0 && StatsOf(a).Unreadable? then Settles(m, head, all, Failed, more)
      else if n == 0 && !all then Settles(m, head, all, Walked(kept), more)
      else match a.link
        case Next(to) => OnTheWay(m, head, all, n + 1, to, visited + {current}, kept, more)
        case BadLink => Settles(m, head, all, if n == 0 then Failed else Walked(kept), more)
  {
    Onward(m, head, n, current, visited, stats, asked);
    if n == 0 { HeadOnly(m, current); }
  }

  /** `asked` lists the addresses whose Records were asked for, in the order they were. */
  method WalkInterpreterChain(m: Memory, head: u64, all: bool)
    returns (r: Outcome, ghost asked: seq<u64>, ghost parts: seq<seq<Record>>)
    ensures r.Failed? <==> HeadIsLost(m, head, all)
    ensures r.Walked? ==> AllContribute(m, 0, Stops(m, head, all), parts) && r.records == Flatten(parts)
    ensures asked == if r.Failed? then [head] else Stops(m, head, all)
    ensures r.Walked? ==> if head == 0 then asked == [] else if all then IsRoute(m, 0, head, {}, asked) else asked == [head]
  {
    r, asked := Walk(m, head, all);
    RouteIff(m, head, Route(m, 0, head, {}));
    parts := GatherParts(m, 0, Stops(m, head, all));
    if head != 0 { AnswerMeans(m(0, head)); }
  }

  /** The loop, over what `StatsOf` makes of each answer. */
  method Walk(m: Memory, head: u64, all: bool) returns (r: Outcome, ghost asked: seq<u64>)
    ensures r == if HeadFails(m, head, all) then Failed else Walked(Gather(m, 0, Stops(m, head, all)))
    ensures asked == if HeadFails(m, head, all) then [head] else Stops(m, head, all)
  {
    var stats: seq<Record> := [];
    var visited: set<int> := {};
    var current: u64 := head;
    var n: nat := 0;
    asked := [];
    Departs(m, head);
    while current != 0
      invariant OnTheWay(m, head, all, n, current, visited, stats, asked)
      invariant Addresses(visited, n)
      decreases ADDRESS_SPACE - n
    {
      if current in visited {
        break;
      }
      AnotherAddress(visited, n, current);
      OneAddress(m, head, all, n, current, visited, stats, asked);
      visited := visited + {current};
      asked := asked + [current];
      var a := m(n, current);
      var failed;
      stats, failed := Absorb(stats, a);
      if failed && n == 0 { return Failed, asked; }
      if n == 0 && !all { return Walked(stats), asked; }
      match a.link {
        case Next(to) => current := to;
        case BadLink =>
          if n == 0 { return Failed, asked; }
          return Walked(stats), asked;
      }
      n := n + 1;
    }
    Arrived(m, head, n, current, visited, stats, asked);
    return Walked(stats), asked;
  }

  /** A chain that reads and ends: plain list traversal, each interpreter's Records once, in chain order. */
  lemma ListTraversal(m: Memory, nodes: seq<u64>) returns (parts: seq<seq<Record>>)
    requires Distinct(nodes) && nodes != [] && (forall i :: 0 <= i < |nodes| ==> nodes[i] != 0)
    requires forall i :: 0 < i < |nodes| ==> m(i - 1, nodes[i - 1]).link == Next(nodes[i])
    requires m(|nodes| - 1, nodes[|nodes| - 1]).link == Next(0)
    ensures Stops(m, nodes[0], true) == nodes
    ensures HeadIsLost(m, nodes[0], true) <==> FailsToRead(m(0, nodes[0]))
    ensures AllContribute(m, 0, nodes, parts) && Gather(m, 0, nodes) == Flatten(parts)
  {
    RouteIff(m, nodes[0], nodes);
    parts := GatherParts(m, 0, nodes);
    assert |nodes| > 1 ==> m(0, nodes[0]).link == Next(nodes[1]);
  }

  /** No address is asked twice, however memory changes under the walk. */
  lemma NoStopTwice(m: Memory, head: u64, all: bool)
    ensures Distinct(Stops(m, head, all)) && 0 !in Stops(m, head, all)
  {
    RouteIff(m, head, Route(m, 0, head, {}));
  }
}
