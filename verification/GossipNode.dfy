/** One node of the gossip baseline: how its neighbour table is built, and how it handles messages. */
module GossipNode {
  import opened NodeIds
  import opened GossipRun

  // ---------- The neighbour table ----------

  ghost predicate Distinct<T>(s: seq<T>) {
    forall i, j :: 0 <= i < j < |s| ==> s[i] != s[j]
  }

  /** One neighbour more than is drawn from: 14 different nodes other than `self`, the next node first. */
  ghost predicate Formed(n: nat, self: nat, table: seq<nat>) {
    && |table| == TABLE_SIZE + 1 && Distinct(table) && self !in table
    && table[0] == Next(n, self) && forall y :: y in table ==> y < n
  }

  /** The neighbours that were drawn, besides the next node. */
  ghost predicate Drawn(n: nat, self: nat, neighbours: set<nat>) {
    && self < n && Next(n, self) in neighbours && self !in neighbours
    && |neighbours| == TABLE_SIZE + 1 && forall y :: y in neighbours ==> y < n
  }

  /** The nodes to list: those whose number was drawn, but not the node itself. */
  ghost predicate ToList(z: Sizes, continents: nat, self: Fields, neighbours: set<nat>, f: Fields)
    requires Divides(z)
  {
    IsNode(z, continents, f) && ToNumber(f, z) in neighbours && f != self
  }

  ghost predicate HasNext(z: Sizes, self: Fields, table: seq<Fields>)
    requires Divides(z)
  {
    exists f :: f in table && ToNumber(f, z) == ToNumber(self, z) + 1
  }

  ghost predicate Ascending(z: Sizes, table: seq<Fields>)
    requires Divides(z)
  {
    forall i, j :: 0 <= i < j < |table| ==> Value(table[i], TextRadix(z)) < Value(table[j], TextRadix(z))
  }

  /**
   * `table` lists what is to be listed of the first `done` nodes, each once.  The node with the next
   * number is in front; when there is none, the nodes are in order.
   */
  ghost predicate Listed(z: Sizes, continents: nat, self: Fields, neighbours: set<nat>, done: nat, table: seq<Fields>)
    requires Divides(z)
  {
    && Distinct(table)
    && (forall f :: f in table <==> ToList(z, continents, self, neighbours, f) && Value(f, TextRadix(z)) < done)
    && if HasNext(z, self, table) then table != [] && ToNumber(table[0], z) == ToNumber(self, z) + 1
       else Ascending(z, table)
  }

  /** The table after one node was looked at. */
  function WithNode(z: Sizes, self: Fields, neighbours: set<nat>, f: Fields, table: seq<Fields>): seq<Fields>
    requires Divides(z)
  {
    if ToNumber(f, z) in neighbours && f != self then
      if ToNumber(f, z) == ToNumber(self, z) + 1 then [f] + table else table + [f]
    else table
  }

  lemma NextListed(z: Sizes, continents: nat, self: Fields, neighbours: set<nat>, f: Fields, table: seq<Fields>, g: Fields)
    requires Divides(z) && IsNode(z, continents, f)
    requires Listed(z, continents, self, neighbours, Value(f, TextRadix(z)), table)
    ensures g in WithNode(z, self, neighbours, f, table)
       <==> ToList(z, continents, self, neighbours, g) && Value(g, TextRadix(z)) < Value(f, TextRadix(z)) + 1
  {
    if IsNode(z, continents, g) {
      ValueOrder(g, f, TextRadix(z));
    }
    assert g in WithNode(z, self, neighbours, f, table) <==> g in table || (g == f && ToList(z, continents, self, neighbours, f));
  }

  lemma ListNext(z: Sizes, continents: nat, self: Fields, neighbours: set<nat>, f: Fields, table: seq<Fields>)
    requires Divides(z) && IsNode(z, continents, f)
    requires Listed(z, continents, self, neighbours, Value(f, TextRadix(z)), table)
    ensures Listed(z, continents, self, neighbours, Value(f, TextRadix(z)) + 1, WithNode(z, self, neighbours, f, table))
  {
    var longer := WithNode(z, self, neighbours, f, table);
    assert f !in table;
    forall g ensures g in longer <==> ToList(z, continents, self, neighbours, g) && Value(g, TextRadix(z)) < Value(f, TextRadix(z)) + 1 {
      NextListed(z, continents, self, neighbours, f, table, g);
    }
    if longer == [f] + table {
      assert f in longer;
    } else {
      assert table != [] ==> longer[0] == table[0];
      assert HasNext(z, self, longer) ==> HasNext(z, self, table);
    }
  }

  lemma NothingListed(z: Sizes, continents: nat, self: Fields, neighbours: set<nat>)
    requires Divides(z)
    ensures Listed(z, continents, self, neighbours, Total(z, 0), [])
  {
    var t, none := TextRadix(z), Fields(0, 0, 0, 0, 0, 0);
    assert AboveState(none, t) == 0;
    assert AboveCity(none, t) == 0;
    assert AboveDistrict(none, t) == 0;
    assert AboveSingle(none, t) == 0;
    assert Total(z, 0) == 0;
  }

  lemma Carry(r: nat, x: nat)
    ensures Put(r, r, x) == Put(0, r, x + 1)
  {
  }

  /** The two inner loops: the nodes of the city `at`. */
  method ListCity(z: Sizes, continents: nat, self: Fields, neighbours: set<nat>, at: Fields, before: seq<Fields>) returns (table: seq<Fields>)
    requires Divides(z) && IsNode(z, continents, at) && at.single == 0 && at.district == 0
    requires Listed(z, continents, self, neighbours, Value(at, TextRadix(z)), before)
    ensures Listed(z, continents, self, neighbours, Value(at.(district := TextRadix(z).district), TextRadix(z)), table)
  {
    var t := TextRadix(z);
    table := before;
    var district := 0;
    while district < t.district
      invariant district <= t.district
      invariant Listed(z, continents, self, neighbours, Value(at.(district := district), t), table)
    {
      var single := 0;
      while single < t.single
        invariant single <= t.single
        invariant Listed(z, continents, self, neighbours, Value(at.(single := single, district := district), t), table)
      {
        var node := at.(single := single, district := district);
        var order := ToNumber(node, z);
        ListNext(z, continents, self, neighbours, node, table);
        if order in neighbours && node != self {
          if order == ToNumber(self, z) + 1 {
            table := [node] + table;
          } else {
            table := table + [node];
          }
        }
        single := single + 1;
      }
      Carry(t.single, AboveSingle(at.(district := district), t));
      district := district + 1;
    }
  }

  /** The two loops around it: the nodes of the country `at`. */
  method ListCountry(z: Sizes, continents: nat, self: Fields, neighbours: set<nat>, at: Fields, before: seq<Fields>) returns (table: seq<Fields>)
    requires Divides(z) && IsNode(z, continents, at) && at == Fields(0, 0, 0, 0, at.country, at.continent)
    requires Listed(z, continents, self, neighbours, Value(at, TextRadix(z)), before)
    ensures Listed(z, continents, self, neighbours, Value(at.(state := TextRadix(z).state), TextRadix(z)), table)
  {
    var t := TextRadix(z);
    table := before;
    var state := 0;
    while state < t.state
      invariant state <= t.state
      invariant Listed(z, continents, self, neighbours, Value(at.(state := state), t), table)
    {
      var city := 0;
      while city < t.city
        invariant city <= t.city
        invariant Listed(z, continents, self, neighbours, Value(at.(city := city, state := state), t), table)
      {
        table := ListCity(z, continents, self, neighbours, at.(city := city, state := state), table);
        Carry(t.district, AboveDistrict(at.(city := city, state := state), t));
        city := city + 1;
      }
      Carry(t.city, AboveCity(at.(state := state), t));
      state := state + 1;
    }
  }

  /**
   * Go over all nodes, field by field, and list the neighbours drawn.  The node whose number is the
   * next one goes to the front.
   */
  method FormTable(z: Sizes, continents: nat, self: Fields, neighbours: set<nat>) returns (table: seq<Fields>)
    requires Divides(z)
    ensures Listed(z, continents, self, neighbours, Total(z, continents), table)
  {
    var t := TextRadix(z);
    table := [];
    NothingListed(z, continents, self, neighbours);
    var continent := 0;
    while continent < continents
      invariant continent <= continents
      invariant Listed(z, continents, self, neighbours, Total(z, continent), table)
    {
      var country := 0;
      while country < t.country
        invariant country <= t.country
        invariant Listed(z, continents, self, neighbours, Value(Fields(0, 0, 0, 0, country, continent), t), table)
      {
        var at := Fields(0, 0, 0, 0, country, continent);
        table := ListCountry(z, continents, self, neighbours, at, table);
        Carry(t.state, AboveState(at, t));
        country := country + 1;
      }
      Carry(t.country, continent);
      continent := continent + 1;
    }
  }

  function Numbers(z: Sizes, table: seq<Fields>): (s: seq<nat>)
    requires Divides(z)
    ensures |s| == |table| && forall i :: 0 <= i < |s| ==> s[i] == ToNumber(table[i], z)
  {
    seq(|table|, i requires 0 <= i < |table| => ToNumber(table[i], z))
  }

  lemma DrawnIsListed(z: Sizes, continents: nat, self: Fields, neighbours: set<nat>, table: seq<Fields>, y: nat)
    requires Divides(z) && CountsNodes(z, continents) && ToNumber(self, z) !in neighbours
    requires Listed(z, continents, self, neighbours, Total(z, continents), table)
    requires y in neighbours && y < Total(z, continents)
    ensures y in Numbers(z, table)
  {
    var f := ToFields(y, z);
    NodeOfNumber(z, continents, y);
    NumbersCount(z, continents, f);
    assert ToList(z, continents, self, neighbours, f);
    var i :| 0 <= i < |table| && table[i] == f;
    assert Numbers(z, table)[i] == y;
  }

  /** Exactly the drawn numbers are in the table. */
  lemma ListedNumbers(z: Sizes, continents: nat, self: Fields, neighbours: set<nat>, table: seq<Fields>, y: nat)
    requires Divides(z) && CountsNodes(z, continents)
    requires Drawn(Total(z, continents), ToNumber(self, z), neighbours)
    requires Listed(z, continents, self, neighbours, Total(z, continents), table)
    ensures y in Numbers(z, table) <==> y in neighbours
  {
    if y in neighbours {
      DrawnIsListed(z, continents, self, neighbours, table, y);
    }
    if y in Numbers(z, table) {
      var i :| 0 <= i < |table| && Numbers(z, table)[i] == y;
      assert table[i] in table;
    }
  }

  lemma NumbersDistinct(z: Sizes, continents: nat, self: Fields, neighbours: set<nat>, table: seq<Fields>)
    requires Divides(z) && CountsNodes(z, continents)
    requires Listed(z, continents, self, neighbours, Total(z, continents), table)
    ensures Distinct(Numbers(z, table))
  {
    forall i, j | 0 <= i < j < |table| ensures ToNumber(table[i], z) != ToNumber(table[j], z) {
      assert table[i] in table && table[j] in table;
      NumbersCount(z, continents, table[i]);
      NumbersCount(z, continents, table[j]);
      ValueOrder(table[i], table[j], TextRadix(z));
    }
  }

  /** The next node is in front, also for the last node, whose next node comes first. */
  lemma NextLeads(z: Sizes, continents: nat, self: Fields, neighbours: set<nat>, table: seq<Fields>)
    requires Divides(z) && CountsNodes(z, continents) && IsNode(z, continents, self)
    requires Drawn(Total(z, continents), ToNumber(self, z), neighbours)
    requires Listed(z, continents, self, neighbours, Total(z, continents), table)
    ensures table != [] && ToNumber(table[0], z) == Next(Total(z, continents), ToNumber(self, z))
  {
    var next := Next(Total(z, continents), ToNumber(self, z));
    ListedNumbers(z, continents, self, neighbours, table, next);
    var i :| 0 <= i < |table| && Numbers(z, table)[i] == next;
    assert table[i] in table && table[0] in table;
    if next == 0 {
      forall f | f in table ensures ToNumber(f, z) < Total(z, continents) && ToNumber(f, z) == Value(f, TextRadix(z)) {
        NumbersCount(z, continents, f);
      }
      assert Ascending(z, table);
    }
  }

  /**
   * When the numbers count the nodes (see `CountsNodesIff`): the table lists 14 different nodes other than
   * the node itself, namely those drawn, and slot 0 is the next node.
   */
  lemma ListedIsFormed(z: Sizes, continents: nat, self: Fields, neighbours: set<nat>, table: seq<Fields>)
    requires Divides(z) && CountsNodes(z, continents) && IsNode(z, continents, self)
    requires Drawn(Total(z, continents), ToNumber(self, z), neighbours)
    requires Listed(z, continents, self, neighbours, Total(z, continents), table)
    ensures Formed(Total(z, continents), ToNumber(self, z), Numbers(z, table)) && |table| == 14
    ensures forall y :: y in Numbers(z, table) <==> y in neighbours
  {
    forall y ensures y in Numbers(z, table) <==> y in neighbours {
      ListedNumbers(z, continents, self, neighbours, table, y);
    }
    NumbersDistinct(z, continents, self, neighbours, table);
    DistinctCount(Numbers(z, table), neighbours);
    NextLeads(z, continents, self, neighbours, table);
  }

  lemma {:induction false} DistinctCount(s: seq<nat>, t: set<nat>)
    requires Distinct(s) && forall y :: y in s <==> y in t
    ensures |s| == |t|
    decreases |s|
  {
    if s == [] {
      assert t == {};
    } else {
      var rest := t - {s[0]};
      forall y ensures y in s[1..] <==> y in rest {
        if y in s[1..] {
          var k :| 0 <= k < |s[1..]| && s[1..][k] == y;
          assert s[0] != s[k + 1];
        }
      }
      DistinctCount(s[1..], rest);
      assert s[0] in s;
      assert t == rest + {s[0]};
    }
  }

  // ---------- The tour along slot 0 ----------

  /** The node reached from `x` by going to slot 0 of the table `d` times. */
  function Follow(tables: Tables, x: nat, d: nat): nat {
    if d == 0 then x
    else
      var y := Follow(tables, x, d - 1);
      if y < |tables| && tables[y] != [] then tables[y][0] else y
  }

  lemma {:induction false} FollowIsAlong(tables: Tables, x: nat, d: nat)
    requires forall y :: 0 <= y < |tables| ==> Formed(|tables|, y, tables[y])
    requires x < |tables| && d <= |tables|
    ensures Follow(tables, x, d) == if x + d < |tables| then x + d else x + d - |tables|
    decreases d
  {
    if d > 0 {
      FollowIsAlong(tables, x, d - 1);
      var y := Follow(tables, x, d - 1);
      assert Formed(|tables|, y, tables[y]);
    }
  }

  /**
   * In a network with such tables, following slot 0 from any node leads through all nodes, to each
   * exactly once, and after as many steps as there are nodes back to the start.
   */
  lemma SlotZeroIsTour(tables: Tables, x: nat, y: nat) returns (d: nat)
    requires forall x :: 0 <= x < |tables| ==> Formed(|tables|, x, tables[x])
    requires x < |tables| && y < |tables|
    ensures d < |tables| && Follow(tables, x, d) == y
    ensures forall e: nat :: e < |tables| && Follow(tables, x, e) == y ==> e == d
    ensures Follow(tables, x, |tables|) == x
  {
    d := if y >= x then y - x else y + |tables| - x;
    FollowIsAlong(tables, x, d);
    FollowIsAlong(tables, x, |tables|);
    forall e: nat | e < |tables| && Follow(tables, x, e) == y ensures e == d {
      FollowIsAlong(tables, x, e);
    }
  }

  // ---------- The network of all nodes ----------

  /** The tables of all nodes, by their numbers. */
  function NetworkOf(z: Sizes, lists: seq<seq<Fields>>): (tables: Tables)
    requires Divides(z)
    ensures |tables| == |lists| && forall x :: 0 <= x < |lists| ==> tables[x] == Numbers(z, lists[x])
  {
    seq(|lists|, x requires 0 <= x < |lists| => Numbers(z, lists[x]))
  }

  /** Node number `x` has drawn `drawn[x]`, and lists them in `lists[x]`. */
  ghost predicate NodeListed(z: Sizes, continents: nat, x: nat, drawn: set<nat>, list: seq<Fields>)
    requires Divides(z)
  {
    && Drawn(Total(z, continents), x, drawn)
    && Listed(z, continents, ToFields(x, z), drawn, Total(z, continents), list)
  }

  ghost predicate AllListed(z: Sizes, continents: nat, drawn: seq<set<nat>>, lists: seq<seq<Fields>>)
    requires Divides(z)
  {
    && |drawn| == |lists| == Total(z, continents)
    && forall x :: 0 <= x < |lists| ==> NodeListed(z, continents, x, drawn[x], lists[x])
  }

  /** The tables the nodes work out make up a network in which slot 0 leads from each node to the next. */
  lemma ListedNetwork(z: Sizes, continents: nat, drawn: seq<set<nat>>, lists: seq<seq<Fields>>)
    requires Divides(z) && CountsNodes(z, continents) && AllListed(z, continents, drawn, lists)
    ensures TablesOk(NetworkOf(z, lists)) && NextFirst(NetworkOf(z, lists))
    ensures forall x :: 0 <= x < |lists| ==> Formed(|lists|, x, NetworkOf(z, lists)[x])
  {
    forall x | 0 <= x < |lists| ensures Formed(|lists|, x, NetworkOf(z, lists)[x]) {
      assert NodeListed(z, continents, x, drawn[x], lists[x]);
      NodeOfNumber(z, continents, x);
      ListedIsFormed(z, continents, ToFields(x, z), drawn[x], lists[x]);
    }
  }

  /** On these tables a broadcast whose senders all include slot 0 reaches every node. */
  lemma ListedNetworkReached(z: Sizes, continents: nat, drawn: seq<set<nat>>, lists: seq<seq<Fields>>,
                             origin: nat, run: seq<State>, y: nat)
    requires Divides(z) && CountsNodes(z, continents) && AllListed(z, continents, drawn, lists)
    requires |lists| <= 10000 && origin < |lists| && y < |lists|
    requires TablesOk(NetworkOf(z, lists)) && OffersFirst(NetworkOf(z, lists), origin, run) && run[|run| - 1].flight == []
    ensures y in run[|run| - 1].relays
  {
    ListedNetwork(z, continents, drawn, lists);
    EveryNodeReached(NetworkOf(z, lists), origin, run, y);
  }

  // ---------- Handling messages ----------

  /** A message of one broadcast among others. */
  datatype Sent = Sent(broadcast: nat, msg: Gossip)

  function Tagged(broadcast: nat, out: seq<Gossip>): seq<Sent> {
    seq(|out|, i requires 0 <= i < |out| => Sent(broadcast, out[i]))
  }

  class PeerManagerEth {
    const table: seq<nat>
    var relayed: seq<nat>
    var sent: seq<Sent>

    constructor (table: seq<nat>)
      ensures this.table == table && relayed == [] && sent == []
    {
      this.table := table;
      relayed, sent := [], [];
    }

    /** Send to the chosen slots of the table. */
    method Broadcast(broadcast: nat, ttl: int, slots: seq<nat>)
      requires Choice(slots) && |table| >= TABLE_SIZE
      modifies this`sent
      ensures sent == old(sent) + Tagged(broadcast, Sends(table, ttl, slots))
    {
      ghost var out := Tagged(broadcast, Sends(table, ttl, slots));
      var i := 0;
      while i < |slots|
        invariant 0 <= i <= |slots| && sent == old(sent) + out[..i]
      {
        assert out[..i + 1] == out[..i] + [out[i]];
        sent := sent + [Sent(broadcast, Gossip(table[slots[i]], ttl))];
        i := i + 1;
      }
      assert out[..i] == out;
    }

    /** A message whose time is up is ignored; any other is relayed the first time its broadcast is seen. */
    method Receive(broadcast: nat, ttl: int, slots: seq<nat>)
      requires Choice(slots) && |table| >= TABLE_SIZE
      modifies this`sent, this`relayed
      ensures if ttl == 0 || broadcast in old(relayed) then relayed == old(relayed) && sent == old(sent)
              else relayed == old(relayed) + [broadcast] && sent == old(sent) + Tagged(broadcast, Sends(table, ttl - 1, slots))
    {
      if ttl == 0 {
        return;
      }
      if broadcast in relayed {
        return;
      }
      relayed := relayed + [broadcast];
      Broadcast(broadcast, ttl - 1, slots);
    }
  }

  /** The ids each node has relayed agree with the network state of one broadcast. */
  ghost predicate Agrees(relayed: seq<seq<nat>>, broadcast: nat, s: State) {
    forall x :: 0 <= x < |relayed| ==> (broadcast in relayed[x] <==> x in s.relays)
  }

  /** What the receiver of a message does, together with taking the message off the wire, is a step. */
  lemma ReceiveIsStep(tables: Tables, s: State, i: nat, slots: seq<nat>, broadcast: nat,
                      before: seq<seq<nat>>, after: seq<seq<nat>>, out: seq<Gossip>) returns (s': State)
    requires TablesOk(tables) && |before| == |tables| && Choice(slots) && Agrees(before, broadcast, s)
    requires i < |s.flight| && s.flight[i].to < |tables|
    requires var x, ttl := s.flight[i].to, s.flight[i].ttl;
             if ttl == 0 || broadcast in before[x] then after == before && out == []
             else after == before[x := before[x] + [broadcast]] && out == Sends(tables[x], ttl - 1, slots)
    ensures Step(tables, s, s') && Agrees(after, broadcast, s') && s'.flight == Without(s.flight, i) + out
  {
    var m := s.flight[i];
    if m.ttl == 0 || broadcast in before[m.to] {
      s' := s.(flight := Without(s.flight, i));
      assert Without(s.flight, i) + [] == Without(s.flight, i);
    } else {
      s' := State(Without(s.flight, i) + out, s.relays + [m.to], s.edges + EdgesFrom(m.to, out), s.total + |out|);
    }
    assert Delivers(tables, s, i, slots, s');
  }
}
