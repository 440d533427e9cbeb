/**
 * The node tables that nodes work out for themselves from their ids: the ring of the district and,
 * for its contacts, the ring of the city.
 */
module Structure {
  import opened Overlay
  import opened RingBalance
  import opened Topology
  import opened BroadcastRun
  import opened BroadcastCoverage
  import opened NodeTables

  function Min(a: nat, b: nat): nat {
    if a < b then a else b
  }

  /** The first `n` nodes of a district. */
  function DistrictPeers(region: string, n: nat): (r: seq<NodeId>)
    ensures |r| == n && forall i :: 0 <= i < n ==> r[i] == NodeId(region, i)
  {
    seq(n, i requires 0 <= i < n => NodeId(region, i))
  }

  /** The first `c` nodes of each district, district by district. */
  function CityPeers(regions: seq<string>, c: nat): seq<NodeId>
    decreases |regions|
  {
    if regions == [] then []
    else CityPeers(regions[..|regions| - 1], c) + DistrictPeers(regions[|regions| - 1], c)
  }

  function FirstOf(peers: seq<NodeId>, c: nat): set<NodeId> {
    set x | x in peers[..Min(c, |peers|)]
  }

  /** The tables of node `self`; `regions` are the districts of its city, none if there is no city level. */
  function TablesOf(self: NodeId, n: nat, c: nat, regions: seq<string>, cc: nat): seq<Ring> {
    var district := DistrictPeers(self.region, n);
    [Ring(FirstOf(district, c), district)] +
    (if regions != [] && self in FirstOf(district, c) then
       var city := CityPeers(regions, Min(c, n));
       [Ring(FirstOf(city, cc), city)]
     else [])
  }

  lemma FirstOfGrows(peers: seq<NodeId>, x: NodeId, c: nat)
    ensures FirstOf(peers + [x], c) == if |peers| < c then FirstOf(peers, c) + {x} else FirstOf(peers, c)
  {
    var longer := peers + [x];
    if |peers| < c {
      assert longer[..Min(c, |longer|)] == peers[..Min(c, |peers|)] + [x];
    } else {
      assert longer[..Min(c, |longer|)] == peers[..Min(c, |peers|)];
    }
  }

  /** Work out the tables of `self`, node by node and district by district. */
  method FormStructure(self: NodeId, n: nat, c: nat, regions: seq<string>, cc: nat) returns (tables: seq<Ring>)
    ensures tables == TablesOf(self, n, c, regions, cc)
  {
    var contacts: set<NodeId> := {};
    var contactList: seq<NodeId> := [];
    var peers: seq<NodeId> := [];
    var i := 0;
    while i < n
      invariant i <= n && peers == DistrictPeers(self.region, i)
      invariant contacts == FirstOf(peers, c) && contactList == DistrictPeers(self.region, Min(c, i))
    {
      var node := NodeId(self.region, i);
      FirstOfGrows(peers, node, c);
      if i < c {
        contacts := contacts + {node};
        contactList := contactList + [node];
      }
      peers := peers + [node];
      i := i + 1;
    }
    tables := [Ring(contacts, peers)];
    if regions == [] {
      return;
    }
    if self in contacts {
      var ring := FormCityRing(contactList, self.region, regions, cc);
      tables := tables + [ring];
    }
  }

  method FormCityRing(contactList: seq<NodeId>, region: string, regions: seq<string>, cc: nat) returns (ring: Ring)
    requires contactList == DistrictPeers(region, |contactList|)
    ensures ring == Ring(FirstOf(CityPeers(regions, |contactList|), cc), CityPeers(regions, |contactList|))
  {
    var peers: seq<NodeId> := [];
    var contacts: set<NodeId> := {};
    var j := 0;
    var i := 0;
    while i < |regions|
      invariant 0 <= i <= |regions| && peers == CityPeers(regions[..i], |contactList|)
      invariant contacts == FirstOf(peers, cc) && j == Min(cc, |peers|)
    {
      var k := 0;
      ghost var done := peers;
      while k < |contactList|
        invariant 0 <= k <= |contactList| && peers == done + DistrictPeers(regions[i], k)
        invariant contacts == FirstOf(peers, cc) && j == Min(cc, |peers|)
      {
        var node := NodeId(regions[i], contactList[k].single);
        FirstOfGrows(peers, node, cc);
        if j < cc {
          contacts := contacts + {node};
          j := j + 1;
        }
        peers := peers + [node];
        k := k + 1;
      }
      assert regions[..i + 1][..i] == regions[..i];
      i := i + 1;
    }
    assert regions[..i] == regions;
    ring := Ring(contacts, peers);
  }

  // ---------- The network of all nodes of a city ----------

  ghost predicate DifferentRegions(regions: seq<string>) {
    forall i, j :: 0 <= i < j < |regions| ==> regions[i] != regions[j]
  }

  ghost function CityNodes(regions: seq<string>, n: nat): set<NodeId> {
    set x | x in CityPeers(regions, n)
  }

  /** The tables of every node; without a city level there is one district and no second ring. */
  ghost function Formed(regions: seq<string>, n: nat, c: nat, cc: nat, cityLevel: bool): Network {
    map x | x in CityNodes(regions, n) :: TablesOf(x, n, c, if cityLevel then regions else [], cc)
  }

  /** What the deployment has to provide: districts with contacts, and contacts of the city ring. */
  ghost predicate Deployed(regions: seq<string>, n: nat, c: nat, cc: nat, cityLevel: bool) {
    && DifferentRegions(regions) && 0 < c <= n && 0 < cc
    && |regions| > 0 && (!cityLevel ==> |regions| == 1)
  }

  lemma {:induction false} CityPeersMembers(regions: seq<string>, c: nat, x: NodeId)
    ensures x in CityPeers(regions, c) <==> x.region in regions && x.single < c
    decreases |regions|
  {
    if regions != [] {
      var last, rest := regions[|regions| - 1], regions[..|regions| - 1];
      CityPeersMembers(rest, c, x);
      assert regions == rest + [last];
      if x.region == last && x.single < c {
        assert DistrictPeers(last, c)[x.single] == x;
      }
    }
  }

  ghost predicate PairwiseDifferent(peers: seq<NodeId>) {
    forall i, j :: 0 <= i < j < |peers| ==> peers[i] != peers[j]
  }

  lemma DifferentIsDistinct(peers: seq<NodeId>)
    requires PairwiseDifferent(peers)
    ensures Distinct(peers)
  {
    forall i | 0 <= i < |peers| ensures Position(peers, peers[i]) == i {
      var p := Position(peers, peers[i]);
      assert peers[i] in peers;
    }
  }

  lemma {:induction false} CityPeersDiffer(regions: seq<string>, c: nat)
    requires DifferentRegions(regions)
    ensures PairwiseDifferent(CityPeers(regions, c))
    decreases |regions|
  {
    if regions != [] {
      var last, rest := regions[|regions| - 1], regions[..|regions| - 1];
      CityPeersDiffer(rest, c);
      var a, b := CityPeers(rest, c), DistrictPeers(last, c);
      forall x | x in a ensures x.region != last {
        CityPeersMembers(rest, c, x);
      }
      forall i, j | 0 <= i < j < |a + b| ensures (a + b)[i] != (a + b)[j] {
        if i < |a| <= j {
          assert (a + b)[i] in a;
        }
      }
    }
  }

  lemma FirstOfDistrict(region: string, n: nat, c: nat, x: NodeId)
    ensures x in FirstOf(DistrictPeers(region, n), c) <==> x.region == region && x.single < Min(c, n)
  {
    if x.region == region && x.single < Min(c, n) {
      assert DistrictPeers(region, n)[..Min(c, n)][x.single] == x;
    }
  }

  lemma FormedTables(regions: seq<string>, n: nat, c: nat, cc: nat, cityLevel: bool, x: NodeId)
    requires Deployed(regions, n, c, cc, cityLevel)
    ensures x in Formed(regions, n, c, cc, cityLevel) <==> x.region in regions && x.single < n
    ensures x in Formed(regions, n, c, cc, cityLevel) ==>
              var tables := Formed(regions, n, c, cc, cityLevel)[x];
              && |tables| == (if cityLevel && x.single < c then 2 else 1)
              && tables[0] == Ring(FirstOf(DistrictPeers(x.region, n), c), DistrictPeers(x.region, n))
              && (|tables| == 2 ==> tables[1] == Ring(FirstOf(CityPeers(regions, c), cc), CityPeers(regions, c)))
  {
    CityPeersMembers(regions, n, x);
    FirstOfDistrict(x.region, n, c, x);
  }

  lemma {:induction false} CityPeersAt(regions: seq<string>, c: nat, r: nat, i: nat)
    requires r < |regions| && i < c
    ensures |CityPeers(regions, c)| == |regions| * c && 0 <= r * c + i < |CityPeers(regions, c)|
    ensures CityPeers(regions, c)[r * c + i] == NodeId(regions[r], i)
    decreases |regions|
  {
    var last := |regions| - 1;
    CityPeersCount(regions, c);
    CityPeersCount(regions[..last], c);
    PlaceInCity(r, last, c, i);
    if r < last {
      CityPeersAt(regions[..last], c, r, i);
    }
  }

  lemma {:induction false} CityPeersCount(regions: seq<string>, c: nat)
    ensures |CityPeers(regions, c)| == |regions| * c
    decreases |regions|
  {
    if regions != [] {
      CityPeersCount(regions[..|regions| - 1], c);
      assert |regions| * c == (|regions| - 1) * c + c;
    }
  }

  lemma PlaceInCity(r: nat, last: nat, c: nat, i: nat)
    requires r <= last && i < c
    ensures r * c + i < (last + 1) * c && (r < last ==> r * c + i < last * c)
  {
    OneMore(r, c);
    NotLess(r + 1, last + 1, c);
    if r < last {
      NotLess(r + 1, last, c);
    }
  }

  lemma OneMore(r: nat, c: nat)
    ensures (r + 1) * c == r * c + c
  {
  }

  lemma NotLess(a: nat, b: nat, c: nat)
    requires a <= b
    ensures a * c <= b * c
  {
  }

  /**
   * The rings in words: a district lists its `n` nodes in order, the first `c` of them are its
   * contacts; the city lists the contacts of its districts one after the other, the first `cc` of
   * them are its contacts.
   */
  lemma FormedRings(regions: seq<string>, n: nat, c: nat, cc: nat, cityLevel: bool, x: NodeId)
    requires Deployed(regions, n, c, cc, cityLevel) && x in Formed(regions, n, c, cc, cityLevel)
    ensures var tables := Formed(regions, n, c, cc, cityLevel)[x];
            && |tables| == (if cityLevel && x.single < c then 2 else 1) && |tables[0].peers| == n
            && (forall i :: 0 <= i < n ==> tables[0].peers[i] == NodeId(x.region, i))
            && (forall y: NodeId :: y in tables[0].contacts <==> y.region == x.region && y.single < c)
            && (|tables| == 2 ==> && |tables[1].peers| == |regions| * c
                                  && (forall r: nat, i: nat :: r < |regions| && i < c ==> InPlace(tables[1].peers, regions, c, r, i))
                                  && (forall y: NodeId :: y in tables[1].contacts <==> 0 <= Position(tables[1].peers, y) < cc))
  {
    FormedTables(regions, n, c, cc, cityLevel, x);
    var tables := Formed(regions, n, c, cc, cityLevel)[x];
    forall y: NodeId ensures y in tables[0].contacts <==> y.region == x.region && y.single < c {
      FirstOfDistrict(x.region, n, c, y);
    }
    if |tables| == 2 {
      CityPeersCount(regions, c);
      forall r: nat, i: nat | r < |regions| && i < c ensures InPlace(tables[1].peers, regions, c, r, i) {
        CityPeersAt(regions, c, r, i);
      }
      CityPeersDiffer(regions, c);
      DifferentIsDistinct(tables[1].peers);
      forall y: NodeId ensures y in tables[1].contacts <==> 0 <= Position(tables[1].peers, y) < cc {
        FirstByPosition(tables[1].peers, cc, y);
      }
    }
  }

  /** Node `i` of district `r` has its place in the list of the city. */
  predicate InPlace(peers: seq<NodeId>, regions: seq<string>, c: nat, r: nat, i: nat)
    requires r < |regions|
  {
    r * c + i < |peers| && peers[r * c + i] == NodeId(regions[r], i)
  }

  lemma FirstByPosition(peers: seq<NodeId>, cc: nat, y: NodeId)
    requires Distinct(peers)
    ensures y in FirstOf(peers, cc) <==> 0 <= Position(peers, y) < cc
  {
    var first := peers[..Min(cc, |peers|)];
    if y in first {
      var i :| 0 <= i < |first| && first[i] == y;
      assert Position(peers, peers[i]) == i;
    }
    if 0 <= Position(peers, y) < cc {
      assert first[Position(peers, y)] == y;
    }
  }

  /** The ring of a district: its contacts are the nodes with a second table, one of them the lead. */
  lemma DistrictRingOk(regions: seq<string>, n: nat, c: nat, cc: nat, cityLevel: bool, x: NodeId)
    requires Deployed(regions, n, c, cc, cityLevel) && x in Formed(regions, n, c, cc, cityLevel)
    ensures 0 < |Formed(regions, n, c, cc, cityLevel)[x]|
    ensures RingOk(Formed(regions, n, c, cc, cityLevel), if cityLevel then 1 else 0, x, 0)
  {
    var net := Formed(regions, n, c, cc, cityLevel);
    FormedTables(regions, n, c, cc, cityLevel, x);
    var ring: Ring := net[x][0];
    DifferentIsDistinct(ring.peers);
    assert ring.peers[x.single] == x;
    forall y | y in ring.peers ensures SharesRing(net, ring, 0, y) {
      FormedTables(regions, n, c, cc, cityLevel, y);
    }
    forall y: NodeId ensures y in ring.contacts <==> y.region == x.region && y.single < c {
      FirstOfDistrict(x.region, n, c, y);
    }
    DistrictContacts(regions, n, c, cc, cityLevel, x, ring);
  }

  lemma DistrictContacts(regions: seq<string>, n: nat, c: nat, cc: nat, cityLevel: bool, x: NodeId, ring: Ring)
    requires Deployed(regions, n, c, cc, cityLevel) && x.region in regions && ring.peers == DistrictPeers(x.region, n)
    requires forall y: NodeId :: y in ring.contacts <==> y.region == x.region && y.single < c
    ensures ring.contacts != {} && (forall y :: y in ring.contacts ==> y in ring.peers)
    ensures cityLevel ==> ContactsAreMembersAbove(Formed(regions, n, c, cc, cityLevel), ring, 0)
  {
    var lead := NodeId(x.region, 0);
    assert lead in ring.contacts;
    forall y | y in ring.contacts ensures y in ring.peers {
      assert ring.peers[y.single] == y;
    }
    var net := Formed(regions, n, c, cc, cityLevel);
    forall y | y in ring.peers && y in net && cityLevel ensures y in ring.contacts <==> 1 < |net[y]| {
      FormedTables(regions, n, c, cc, cityLevel, y);
    }
  }

  lemma CityRingOk(regions: seq<string>, n: nat, c: nat, cc: nat, x: NodeId)
    requires Deployed(regions, n, c, cc, true) && x in Formed(regions, n, c, cc, true) && |Formed(regions, n, c, cc, true)[x]| == 2
    ensures RingOk(Formed(regions, n, c, cc, true), 1, x, 1)
  {
    var net := Formed(regions, n, c, cc, true);
    FormedTables(regions, n, c, cc, true, x);
    var ring: Ring := net[x][1];
    CityPeersDiffer(regions, c);
    DifferentIsDistinct(ring.peers);
    CityPeersMembers(regions, c, x);
    forall y | y in ring.peers ensures SharesRing(net, ring, 1, y) {
      CityPeersMembers(regions, c, y);
      FormedTables(regions, n, c, cc, true, y);
    }
    assert ring.peers[0] in ring.peers[..Min(cc, |ring.peers|)];
    assert ring.peers[0] in ring.contacts;
  }

  lemma FormedNodeOk(regions: seq<string>, n: nat, c: nat, cc: nat, cityLevel: bool, x: NodeId)
    requires Deployed(regions, n, c, cc, cityLevel) && x in Formed(regions, n, c, cc, cityLevel)
    ensures NodeOk(Formed(regions, n, c, cc, cityLevel), if cityLevel then 1 else 0, x)
  {
    var net := Formed(regions, n, c, cc, cityLevel);
    FormedTables(regions, n, c, cc, cityLevel, x);
    DistrictRingOk(regions, n, c, cc, cityLevel, x);
    if |net[x]| == 2 {
      CityRingOk(regions, n, c, cc, x);
    }
  }

  /** What the nodes work out for themselves is one hierarchy of rings. */
  lemma FormedIsWellFormed(regions: seq<string>, n: nat, c: nat, cc: nat, cityLevel: bool)
    requires Deployed(regions, n, c, cc, cityLevel)
    ensures WellFormed(Formed(regions, n, c, cc, cityLevel), if cityLevel then 1 else 0)
  {
    var net, top := Formed(regions, n, c, cc, cityLevel), if cityLevel then 1 else 0;
    forall x | x in net ensures NodeOk(net, top, x) {
      FormedNodeOk(regions, n, c, cc, cityLevel, x);
    }
    forall x, y | x in net && y in net && |net[x]| == top + 1 && |net[y]| == top + 1 ensures net[x][top] == net[y][top] {
      FormedTables(regions, n, c, cc, cityLevel, x);
      FormedTables(regions, n, c, cc, cityLevel, y);
    }
  }

  /** A node of the deployment fills its node table, which then holds the node's rings of that network. */
  method FormNodeTable(self: NodeId, n: nat, c: nat, regions: seq<string>, cc: nat, cityLevel: bool) returns (table: NodeTable)
    requires Deployed(regions, n, c, cc, cityLevel) && self in Formed(regions, n, c, cc, cityLevel)
    ensures fresh(table) && table.selfId == self && table.Valid()
    ensures table.tables == Formed(regions, n, c, cc, cityLevel)[self]
  {
    table := new NodeTable(self);
    var rings := FormStructure(self, n, c, if cityLevel then regions else [], cc);
    table.SetTables(rings);
    FormedIsWellFormed(regions, n, c, cc, cityLevel);
    assert NodeOk(Formed(regions, n, c, cc, cityLevel), if cityLevel then 1 else 0, self);
    forall l | 0 <= l < |table.tables| ensures table.RingValid(l) {
      assert RingOk(Formed(regions, n, c, cc, cityLevel), if cityLevel then 1 else 0, self, l);
    }
  }

  /** Each district has one lead: the node with number 0. */
  lemma FormedIsLedByOne(regions: seq<string>, n: nat, c: nat, cc: nat, cityLevel: bool)
    requires Deployed(regions, n, c, cc, cityLevel)
    ensures LedByOne(Formed(regions, n, c, cc, cityLevel), if cityLevel then 1 else 0)
  {
    var net, top := Formed(regions, n, c, cc, cityLevel), if cityLevel then 1 else 0;
    forall y, k: nat | y in net && k < |net[y]| && k < top ensures HasLead(net, y, k) && AtMostOneLead(net, y, k) {
      FormedTables(regions, n, c, cc, cityLevel, y);
      var lead := NodeId(y.region, 0);
      FormedTables(regions, n, c, cc, cityLevel, lead);
      assert net[y][0].peers[0] == lead;
      assert IsLeadAbove(net, 0, lead);
      assert forall x :: x in net[y][0].peers && IsLead(x) ==> x == lead;
    }
  }

  /** On the network the nodes form, every broadcast that has come to rest has reached every node. */
  lemma FormedBroadcastReachesAll(regions: seq<string>, n: nat, c: nat, cc: nat, cityLevel: bool,
                                  origin: NodeId, run: seq<State>, y: NodeId)
    requires Deployed(regions, n, c, cc, cityLevel)
    requires IsRun(Formed(regions, n, c, cc, cityLevel), origin, run) && run[|run| - 1].flight == []
    requires y.region in regions && y.single < n
    ensures HasReceived(run[|run| - 1], y)
  {
    FormedIsWellFormed(regions, n, c, cc, cityLevel);
    FormedIsLedByOne(regions, n, c, cc, cityLevel);
    FormedTables(regions, n, c, cc, cityLevel, y);
    EveryNodeReceives(Formed(regions, n, c, cc, cityLevel), if cityLevel then 1 else 0, origin, run, y);
  }
}
