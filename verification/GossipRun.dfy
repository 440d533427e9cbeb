/**
 * The push gossip baseline as a network of nodes and messages in flight.  Delivery order is
 * arbitrary, and so is the choice of receivers.
 */
module GossipRun {
  /** The node in slot 0 is offered first; the others are drawn from the slots behind it. */
  const TABLE_SIZE := 13
  const NUM_RECEIVERS := 3
  const TTL := 10000

  datatype Gossip = Gossip(to: nat, ttl: int)

  /** `tables[x]` is the neighbour table of node `x`. */
  type Tables = seq<seq<nat>>

  ghost predicate TablesOk(tables: Tables) {
    forall x :: 0 <= x < |tables| ==> |tables[x]| >= TABLE_SIZE && forall y :: y in tables[x] ==> y < |tables|
  }

  /** Slots in the order in which they are sent to: two that are not 0, and possibly 0. */
  ghost predicate Choice(slots: seq<nat>) {
    && (forall i, j :: 0 <= i < j < |slots| ==> slots[i] != slots[j])
    && (forall i :: 0 <= i < |slots| ==> slots[i] < TABLE_SIZE)
    && |slots| == NUM_RECEIVERS - 1 + if 0 in slots then 1 else 0
  }

  function Sends(table: seq<nat>, ttl: int, slots: seq<nat>): (out: seq<Gossip>)
    requires forall i :: 0 <= i < |slots| ==> slots[i] < |table|
    ensures |out| == |slots| && forall i :: 0 <= i < |out| ==> out[i] == Gossip(table[slots[i]], ttl)
  {
    seq(|slots|, i requires 0 <= i < |slots| => Gossip(table[slots[i]], ttl))
  }

  /** The nodes that relayed, in order; who sent to whom; how many messages were sent at all. */
  datatype State = State(flight: seq<Gossip>, relays: seq<nat>, edges: set<(nat, nat)>, total: nat)

  function EdgesFrom(x: nat, out: seq<Gossip>): set<(nat, nat)> {
    set m | m in out :: (x, m.to)
  }

  ghost predicate Init(tables: Tables, origin: nat, slots: seq<nat>, s: State)
    requires TablesOk(tables)
  {
    && origin < |tables| && Choice(slots)
    && var out := Sends(tables[origin], TTL, slots);
       s == State(out, [], EdgesFrom(origin, out), |out|)
  }

  function Without(flight: seq<Gossip>, i: nat): seq<Gossip>
    requires i < |flight|
  {
    flight[..i] + flight[i + 1..]
  }

  /** Message `i` arrives; `slots` is the choice of its receiver, if that relays it. */
  ghost predicate Delivers(tables: Tables, s: State, i: nat, slots: seq<nat>, s': State)
    requires TablesOk(tables)
  {
    && i < |s.flight| && s.flight[i].to < |tables|
    && var m := s.flight[i];
       if m.ttl == 0 || m.to in s.relays then s' == s.(flight := Without(s.flight, i))
       else
         && Choice(slots)
         && var out := Sends(tables[m.to], m.ttl - 1, slots);
            s' == State(Without(s.flight, i) + out, s.relays + [m.to], s.edges + EdgesFrom(m.to, out), s.total + |out|)
  }

  ghost predicate Step(tables: Tables, s: State, s': State)
    requires TablesOk(tables)
  {
    exists i: nat, slots: seq<nat> :: Delivers(tables, s, i, slots, s')
  }

  ghost predicate IsRun(tables: Tables, origin: nat, run: seq<State>)
    requires TablesOk(tables)
  {
    && run != []
    && (exists slots :: Init(tables, origin, slots, run[0]))
    && forall k :: 0 <= k < |run| - 1 ==> Step(tables, run[k], run[k + 1])
  }

  // ---------- What every state satisfies ----------

  /** There is a chain of sends from the origin to `y`. */
  ghost predicate Reached(edges: set<(nat, nat)>, origin: nat, y: nat) {
    exists path: seq<nat> :: Chain(edges, origin, y, path)
  }

  ghost predicate Chain(edges: set<(nat, nat)>, origin: nat, y: nat, path: seq<nat>) {
    && |path| > 1 && path[0] == origin && path[|path| - 1] == y
    && forall k :: 0 <= k < |path| - 1 ==> (path[k], path[k + 1]) in edges
  }

  ghost predicate Pending(s: State, y: nat) {
    exists m :: m in s.flight && m.to == y
  }

  ghost predicate NodesOk(n: nat, s: State) {
    && (forall i :: 0 <= i < |s.relays| ==> s.relays[i] < n)
    && (forall i, j :: 0 <= i < j < |s.relays| ==> s.relays[i] != s.relays[j])
    && (forall m :: m in s.flight ==> m.to < n)
  }

  /**
   * `path` is the way a message took: from the origin over different nodes that relayed to its
   * receiver.  Its time to live and the number of times it was relayed add up to the initial one.
   */
  ghost predicate Route(s: State, origin: nat, m: Gossip, path: seq<nat>) {
    && Chain(s.edges, origin, m.to, path)
    && (forall k :: 0 < k < |path| - 1 ==> path[k] in s.relays)
    && (forall j, k :: 0 < j < k < |path| - 1 ==> path[j] != path[k])
    && m.ttl + (|path| - 2) == TTL && m.ttl >= 0
  }

  ghost predicate Routed(s: State, origin: nat, m: Gossip) {
    exists path: seq<nat> :: Route(s, origin, m, path)
  }

  /** Only those who sent have edges, and everyone who relayed was reached. */
  ghost predicate SendersOk(origin: nat, s: State) {
    && (forall x, y :: (x, y) in s.edges ==> x == origin || x in s.relays)
    && (forall y :: y in s.relays ==> Reached(s.edges, origin, y))
  }

  ghost predicate Invariant(n: nat, origin: nat, s: State) {
    && NodesOk(n, s) && SendersOk(origin, s)
    && (forall m :: m in s.flight ==> Routed(s, origin, m))
    && s.total <= NUM_RECEIVERS * (|s.relays| + 1)
  }

  /** Whoever was sent to has relayed or is about to hear of it. */
  ghost predicate Covered(s: State) {
    forall x, y :: (x, y) in s.edges ==> y in s.relays || Pending(s, y)
  }

  lemma {:induction false} DistinctBelow(ids: seq<nat>, n: nat)
    requires forall i :: 0 <= i < |ids| ==> ids[i] < n
    requires forall i, j :: 0 <= i < j < |ids| ==> ids[i] != ids[j]
    ensures |ids| <= n
    decreases n
  {
    assert |ids| > 0 ==> ids[0] < n;
    if n > 0 {
      if k :| 0 <= k < |ids| && ids[k] == n - 1 {
        DistinctBelow(ids[..k] + ids[k + 1..], n - 1);
      } else {
        DistinctBelow(ids, n - 1);
      }
    }
  }

  lemma WithoutMembers(flight: seq<Gossip>, i: nat, m: Gossip)
    requires i < |flight|
    ensures m in Without(flight, i) ==> m in flight
    ensures m in flight && m != flight[i] ==> m in Without(flight, i)
  {
    if m in flight {
      var k :| 0 <= k < |flight| && flight[k] == m;
      assert k < i ==> Without(flight, i)[k] == m;
      assert k > i ==> Without(flight, i)[k - 1] == m;
    }
  }

  /** More sends leave reached what was reached; a send from a reached node reaches its receiver. */
  lemma MoreEdges(edges: set<(nat, nat)>, more: set<(nat, nat)>, origin: nat, y: nat)
    requires edges <= more && Reached(edges, origin, y)
    ensures Reached(more, origin, y)
  {
    var path :| Chain(edges, origin, y, path);
    assert Chain(more, origin, y, path);
  }

  lemma OneMoreEdge(edges: set<(nat, nat)>, origin: nat, x: nat, y: nat)
    requires (x == origin || Reached(edges, origin, x)) && (x, y) in edges
    ensures Reached(edges, origin, y)
  {
    if x == origin {
      assert Chain(edges, origin, y, [x, y]);
    } else {
      var path :| Chain(edges, origin, x, path);
      assert Chain(edges, origin, y, path + [y]);
    }
  }

  lemma SendsTo(tables: Tables, x: nat, ttl: int, slots: seq<nat>, m: Gossip)
    requires TablesOk(tables) && x < |tables| && Choice(slots) && m in Sends(tables[x], ttl, slots)
    ensures m.to < |tables| && m.ttl == ttl && (x, m.to) in EdgesFrom(x, Sends(tables[x], ttl, slots))
  {
    var i :| 0 <= i < |slots| && m == Gossip(tables[x][slots[i]], ttl);
    assert tables[x][slots[i]] in tables[x];
  }

  lemma InitInvariant(tables: Tables, origin: nat, slots: seq<nat>, s: State)
    requires TablesOk(tables) && Init(tables, origin, slots, s)
    ensures Invariant(|tables|, origin, s) && Covered(s)
  {
    forall m | m in s.flight ensures m.to < |tables| && Routed(s, origin, m) {
      SendsTo(tables, origin, TTL, slots, m);
      assert Route(s, origin, m, [origin, m.to]);
    }
    forall x, y | (x, y) in s.edges ensures Pending(s, y) {
      var m :| m in s.flight && (x, y) == (origin, m.to);
    }
  }

  /** Ways stay ways when more is sent and relayed. */
  lemma RouteStays(s: State, s': State, origin: nat, m: Gossip)
    requires Routed(s, origin, m) && s.edges <= s'.edges && forall y :: y in s.relays ==> y in s'.relays
    ensures Routed(s', origin, m)
  {
    var path :| Route(s, origin, m, path);
    assert Chain(s'.edges, origin, m.to, path);
    assert Route(s', origin, m, path);
  }

  /** A message that is relayed: its way is one node longer, and its time to live is one less. */
  lemma RouteGoesOn(s: State, s': State, origin: nat, m: Gossip, o: Gossip)
    requires Routed(s, origin, m) && m.to !in s.relays && m.ttl != 0
    requires s.edges <= s'.edges && s'.relays == s.relays + [m.to]
    requires (m.to, o.to) in s'.edges && o.ttl == m.ttl - 1
    ensures Routed(s', origin, o)
  {
    var path :| Route(s, origin, m, path);
    var longer := path + [o.to];
    assert Chain(s'.edges, origin, o.to, longer);
    forall j, k | 0 < j < k < |longer| - 1 ensures longer[j] != longer[k] {
      if k == |path| - 1 {
        assert longer[k] == m.to && longer[j] in s.relays;
      }
    }
    assert Route(s', origin, o, longer);
  }

  /** A reached receiver: the way of a message is a chain of sends. */
  lemma RoutedIsReached(s: State, origin: nat, m: Gossip)
    requires Routed(s, origin, m)
    ensures Reached(s.edges, origin, m.to)
  {
    var path :| Route(s, origin, m, path);
  }

  lemma FlightAfter(flight: seq<Gossip>, i: nat)
    requires i < |flight|
    ensures forall m :: m in Without(flight, i) ==> m in flight
    ensures forall m :: m in flight && m != flight[i] ==> m in Without(flight, i)
  {
    forall m ensures m in Without(flight, i) ==> m in flight
             ensures m in flight && m != flight[i] ==> m in Without(flight, i) {
      WithoutMembers(flight, i, m);
    }
  }

  lemma DropKeeps(n: nat, origin: nat, s: State, i: nat)
    requires Invariant(n, origin, s) && i < |s.flight|
    ensures Invariant(n, origin, s.(flight := Without(s.flight, i)))
  {
    var s' := s.(flight := Without(s.flight, i));
    FlightAfter(s.flight, i);
    forall m | m in s'.flight ensures Routed(s', origin, m) {
      RouteStays(s, s', origin, m);
    }
  }

  lemma RelayKeeps(tables: Tables, origin: nat, s: State, i: nat, slots: seq<nat>, s': State)
    requires TablesOk(tables) && Invariant(|tables|, origin, s) && Delivers(tables, s, i, slots, s')
    requires s.flight[i].ttl != 0 && s.flight[i].to !in s.relays
    ensures Invariant(|tables|, origin, s')
  {
    var m := s.flight[i];
    assert m in s.flight;
    FlightAfter(s.flight, i);
    forall k | k in s'.flight ensures k.to < |tables| && Routed(s', origin, k) {
      if k in Sends(tables[m.to], m.ttl - 1, slots) {
        SendsTo(tables, m.to, m.ttl - 1, slots, k);
        RouteGoesOn(s, s', origin, m, k);
      } else {
        RouteStays(s, s', origin, k);
      }
    }
    RoutedIsReached(s, origin, m);
    forall y | y in s'.relays ensures Reached(s'.edges, origin, y) {
      MoreEdges(s.edges, s'.edges, origin, y);
    }
  }

  lemma StepKeeps(tables: Tables, origin: nat, s: State, s': State)
    requires TablesOk(tables) && Invariant(|tables|, origin, s) && Step(tables, s, s')
    ensures Invariant(|tables|, origin, s')
    ensures |s'.flight| + (s.total + 1) == |s.flight| + s'.total
  {
    var i: nat, slots: seq<nat> :| Delivers(tables, s, i, slots, s');
    if s.flight[i].ttl == 0 || s.flight[i].to in s.relays {
      DropKeeps(|tables|, origin, s, i);
    } else {
      RelayKeeps(tables, origin, s, i, slots, s');
    }
  }

  /**
   * Every state of a run, in a network of any size: no node relays twice, each message in flight has
   * been relayed as often as its time to live says, and as many are in flight as were sent and not
   * delivered.
   */
  lemma {:induction false} RunKeeps(tables: Tables, origin: nat, run: seq<State>, k: nat)
    requires TablesOk(tables) && IsRun(tables, origin, run) && k < |run|
    ensures Invariant(|tables|, origin, run[k]) && run[k].total == k + |run[k].flight|
    decreases k
  {
    if k == 0 {
      var slots :| Init(tables, origin, slots, run[0]);
      InitInvariant(tables, origin, slots, run[0]);
    } else {
      RunKeeps(tables, origin, run, k - 1);
      assert Step(tables, run[k - 1], run[k]);
      StepKeeps(tables, origin, run[k - 1], run[k]);
    }
  }

  // ---------- In a network that the time to live can cross ----------

  /** A message whose time is up has gone through as many nodes as the time to live. */
  lemma TimeIsUp(n: nat, origin: nat, s: State, m: Gossip)
    requires Invariant(n, origin, s) && n <= TTL && m in s.flight && m.ttl == 0
    ensures m.to in s.relays
  {
    assert Routed(s, origin, m);
    var path :| Route(s, origin, m, path);
    if m.to !in s.relays {
      var ids := path[1..];
      forall j, k | 0 <= j < k < |ids| ensures ids[j] != ids[k] {
        assert ids[j] == path[j + 1] && ids[k] == path[k + 1];
      }
      forall j | 0 <= j < |ids| ensures ids[j] < n {
        assert ids[j] == path[j + 1];
      }
      DistinctBelow(ids, n);
    }
  }

  lemma DropCovers(n: nat, origin: nat, s: State, i: nat)
    requires Invariant(n, origin, s) && Covered(s) && n <= TTL && i < |s.flight|
    requires s.flight[i].ttl == 0 || s.flight[i].to in s.relays
    ensures Covered(s.(flight := Without(s.flight, i)))
  {
    var s' := s.(flight := Without(s.flight, i));
    assert s.flight[i] in s.flight;
    if s.flight[i].ttl == 0 {
      TimeIsUp(n, origin, s, s.flight[i]);
    }
    FlightAfter(s.flight, i);
    forall x, y | (x, y) in s.edges && y !in s.relays ensures Pending(s', y) {
      var m :| m in s.flight && m.to == y;
      assert m in s'.flight;
    }
  }

  lemma RelayCovers(tables: Tables, s: State, i: nat, slots: seq<nat>, s': State)
    requires TablesOk(tables) && Covered(s) && Delivers(tables, s, i, slots, s')
    requires s.flight[i].ttl != 0 && s.flight[i].to !in s.relays
    ensures Covered(s')
  {
    var m := s.flight[i];
    var out := Sends(tables[m.to], m.ttl - 1, slots);
    FlightAfter(s.flight, i);
    forall x, y | (x, y) in s'.edges && y !in s'.relays ensures Pending(s', y) {
      if (x, y) in s.edges {
        var k :| k in s.flight && k.to == y;
        assert k in s'.flight;
      } else {
        var o :| o in out && (x, y) == (m.to, o.to);
        assert o in s'.flight;
      }
    }
  }

  lemma {:induction false} RunCovers(tables: Tables, origin: nat, run: seq<State>, k: nat)
    requires TablesOk(tables) && |tables| <= TTL && IsRun(tables, origin, run) && k < |run|
    ensures Covered(run[k])
    decreases k
  {
    if k == 0 {
      var slots :| Init(tables, origin, slots, run[0]);
      InitInvariant(tables, origin, slots, run[0]);
    } else {
      RunKeeps(tables, origin, run, k - 1);
      RunCovers(tables, origin, run, k - 1);
      var s := run[k - 1];
      assert Step(tables, s, run[k]);
      var i: nat, slots: seq<nat> :| Delivers(tables, s, i, slots, run[k]);
      if s.flight[i].ttl == 0 || s.flight[i].to in s.relays {
        DropCovers(|tables|, origin, s, i);
      } else {
        RelayCovers(tables, s, i, slots, run[k]);
      }
    }
  }

  // ---------- Main results ----------

  /**
   * Every node relays at most once, so no run sends more than three messages per node and three
   * for the origin, and no run takes more steps than that.
   */
  lemma RunsTerminate(tables: Tables, origin: nat, run: seq<State>)
    requires TablesOk(tables) && IsRun(tables, origin, run)
    ensures var s := run[|run| - 1];
            && (forall i, j :: 0 <= i < j < |s.relays| ==> s.relays[i] != s.relays[j])
            && |run| - 1 <= s.total <= 3 * (|tables| + 1)
  {
    RunKeeps(tables, origin, run, |run| - 1);
    DistinctBelow(run[|run| - 1].relays, |tables|);
  }

  /** What a message has left to live and the times it was relayed add up to the initial time to live. */
  lemma TimeToLiveCountsHops(tables: Tables, origin: nat, run: seq<State>, k: nat, m: Gossip) returns (path: seq<nat>)
    requires TablesOk(tables) && IsRun(tables, origin, run) && k < |run| && m in run[k].flight
    ensures Route(run[k], origin, m, path) && m.ttl == 10000 - (|path| - 2)
  {
    RunKeeps(tables, origin, run, k);
    assert Routed(run[k], origin, m);
    path :| Route(run[k], origin, m, path);
  }

  /** A sender chooses two slots of 13 that are not 0, and possibly slot 0; it sends to their nodes, in that order. */
  lemma ReceiversAre(table: seq<nat>, ttl: int, slots: seq<nat>)
    requires Choice(slots) && |table| >= 13
    ensures |slots| == (if 0 in slots then 3 else 2) && forall i :: 0 <= i < |slots| ==> slots[i] < 13
    ensures var out := Sends(table, ttl, slots);
            |out| == |slots| && forall i :: 0 <= i < |out| ==> out[i].to == table[slots[i]] && out[i].ttl == ttl
  {
  }

  /** A message in flight can be delivered: only a state without messages in flight is final. */
  lemma NotStuck(tables: Tables, s: State) returns (s': State)
    requires TablesOk(tables) && NodesOk(|tables|, s) && s.flight != []
    ensures Step(tables, s, s')
  {
    var m, slots := s.flight[0], [1, 2];
    assert m in s.flight;
    assert Choice(slots);
    var out := Sends(tables[m.to], m.ttl - 1, slots);
    s' := if m.ttl == 0 || m.to in s.relays then s.(flight := Without(s.flight, 0))
              else State(Without(s.flight, 0) + out, s.relays + [m.to], s.edges + EdgesFrom(m.to, out), s.total + |out|);
    assert Delivers(tables, s, 0, slots, s');
  }

  lemma {:induction false} ChainRelayed(origin: nat, s: State, path: seq<nat>, y: nat)
    requires Covered(s) && s.flight == [] && Chain(s.edges, origin, y, path)
    ensures y in s.relays
  {
    var k := |path| - 2;
    assert (path[k], path[k + 1]) in s.edges;
  }

  /**
   * When nothing is in flight any more, the nodes that relayed are exactly those that a chain of
   * sends from the origin reaches.  In a network of no more nodes than the time to live, that never
   * cuts a chain short.
   */
  lemma RelayedIffReached(tables: Tables, origin: nat, run: seq<State>, y: nat)
    requires TablesOk(tables) && |tables| <= 10000 && IsRun(tables, origin, run) && run[|run| - 1].flight == []
    ensures y in run[|run| - 1].relays <==> Reached(run[|run| - 1].edges, origin, y)
  {
    var s := run[|run| - 1];
    RunKeeps(tables, origin, run, |run| - 1);
    RunCovers(tables, origin, run, |run| - 1);
    if Reached(s.edges, origin, y) {
      var path :| Chain(s.edges, origin, y, path);
      ChainRelayed(origin, s, path, y);
    }
  }

  /** Slot 0 of every table is the node that comes next in the numbering. */
  ghost predicate NextFirst(tables: Tables) {
    forall x :: 0 <= x < |tables| ==> tables[x] != [] && tables[x][0] == Next(|tables|, x)
  }

  function Next(n: nat, x: nat): nat {
    if x + 1 == n then 0 else x + 1
  }

  /** Every sender of the run includes its slot 0. */
  ghost predicate OffersFirst(tables: Tables, origin: nat, run: seq<State>)
    requires TablesOk(tables)
  {
    && run != []
    && (exists slots :: Init(tables, origin, slots, run[0]) && 0 in slots)
    && forall k :: 0 <= k < |run| - 1 ==> StepOffersFirst(tables, run[k], run[k + 1])
  }

  ghost predicate StepOffersFirst(tables: Tables, s: State, s': State)
    requires TablesOk(tables)
  {
    exists i: nat, slots: seq<nat> :: Delivers(tables, s, i, slots, s') && 0 in slots
  }

  lemma OffersFirstIsRun(tables: Tables, origin: nat, run: seq<State>)
    requires TablesOk(tables) && OffersFirst(tables, origin, run)
    ensures IsRun(tables, origin, run)
  {
    forall k | 0 <= k < |run| - 1 ensures Step(tables, run[k], run[k + 1]) {
      assert StepOffersFirst(tables, run[k], run[k + 1]);
    }
  }

  lemma SlotZeroSent(tables: Tables, x: nat, ttl: int, slots: seq<nat>)
    requires TablesOk(tables) && x < |tables| && Choice(slots) && 0 in slots
    ensures (x, tables[x][0]) in EdgesFrom(x, Sends(tables[x], ttl, slots))
  {
    var j :| 0 <= j < |slots| && slots[j] == 0;
    var out := Sends(tables[x], ttl, slots);
    assert out[j] == Gossip(tables[x][0], ttl) && out[j] in out;
  }

  lemma {:induction false} FirstOffered(tables: Tables, origin: nat, run: seq<State>, k: nat, x: nat)
    requires TablesOk(tables) && OffersFirst(tables, origin, run) && k < |run| && x < |tables|
    requires x == origin || x in run[k].relays
    ensures (x, tables[x][0]) in run[k].edges
    decreases k
  {
    if k == 0 {
      var slots :| Init(tables, origin, slots, run[0]) && 0 in slots;
      SlotZeroSent(tables, origin, TTL, slots);
    } else {
      assert StepOffersFirst(tables, run[k - 1], run[k]);
      var i: nat, slots: seq<nat> :| Delivers(tables, run[k - 1], i, slots, run[k]) && 0 in slots;
      if x == origin || x in run[k - 1].relays {
        FirstOffered(tables, origin, run, k - 1, x);
      } else {
        SlotZeroSent(tables, x, run[k - 1].flight[i].ttl - 1, slots);
      }
    }
  }

  /** The node `d` places further on, around the numbering. */
  function Along(n: nat, x: nat, d: nat): nat {
    if d == 0 then x else Next(n, Along(n, x, d - 1))
  }

  lemma {:induction false} AlongIs(n: nat, x: nat, d: nat)
    requires x < n && d <= n
    ensures Along(n, x, d) == if x + d < n then x + d else x + d - n
    decreases d
  {
    if d > 0 {
      AlongIs(n, x, d - 1);
    }
  }

  lemma {:induction false} AlongReached(tables: Tables, origin: nat, run: seq<State>, d: nat)
    requires TablesOk(tables) && |tables| <= TTL && NextFirst(tables) && OffersFirst(tables, origin, run)
    requires run[|run| - 1].flight == [] && 0 < d <= |tables| && origin < |tables|
    ensures Along(|tables|, origin, d) in run[|run| - 1].relays
    decreases d
  {
    OffersFirstIsRun(tables, origin, run);
    RunCovers(tables, origin, run, |run| - 1);
    var x := Along(|tables|, origin, d - 1);
    AlongIs(|tables|, origin, d - 1);
    if d > 1 {
      AlongReached(tables, origin, run, d - 1);
    }
    FirstOffered(tables, origin, run, |run| - 1, x);
  }

  /**
   * If every sender includes its slot 0, the broadcast has reached all nodes when it ends: slot 0
   * leads from each node to the next, around the whole network and back to the origin.
   */
  lemma EveryNodeReached(tables: Tables, origin: nat, run: seq<State>, y: nat)
    requires TablesOk(tables) && |tables| <= 10000 && NextFirst(tables) && OffersFirst(tables, origin, run)
    requires run[|run| - 1].flight == [] && origin < |tables| && y < |tables|
    ensures y in run[|run| - 1].relays
  {
    var d := if y > origin then y - origin else y + |tables| - origin;
    AlongIs(|tables|, origin, d);
    AlongReached(tables, origin, run, d);
  }
}
