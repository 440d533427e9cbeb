/** Node tables of a whole network and what makes them one hierarchy of rings. */
module Topology {
  import opened Overlay
  import opened RingBalance

  type Network = map<NodeId, seq<Ring>>

  /** The rings of one node table, seen by node `x`: every member of a ring has the same ring. */
  ghost predicate NodeOk(net: Network, top: nat, x: NodeId)
    requires x in net
  {
    && 1 <= |net[x]| <= top + 1
    && forall l :: 0 <= l < |net[x]| ==> RingOk(net, top, x, l)
  }

  ghost predicate RingOk(net: Network, top: nat, x: NodeId, l: nat)
    requires x in net && l < |net[x]|
  {
    var ring := net[x][l];
    && x in ring.peers
    && Distinct(ring.peers)
    && (forall y :: y in ring.peers ==> SharesRing(net, ring, l, y))
    && ring.contacts != {}
    && (forall y :: y in ring.contacts ==> y in ring.peers)
    && (l < top ==> ContactsAreMembersAbove(net, ring, l))
  }

  ghost predicate SharesRing(net: Network, ring: Ring, l: nat, y: NodeId) {
    y in net && l < |net[y]| && net[y][l] == ring
  }

  /** The contacts of a ring below the top are exactly its members that sit in a ring above. */
  ghost predicate ContactsAreMembersAbove(net: Network, ring: Ring, l: nat) {
    forall y :: y in ring.peers && y in net ==> (y in ring.contacts <==> l + 1 < |net[y]|)
  }

  ghost predicate WellFormed(net: Network, top: nat) {
    && (forall x :: x in net ==> NodeOk(net, top, x))
    && (forall x, y :: x in net && y in net && |net[x]| == top + 1 && |net[y]| == top + 1 ==> net[x][top] == net[y][top])
  }

  /** A member of the ring with id zero within its district that also sits in a ring above. */
  predicate IsLeadAbove(net: Network, k: nat, c: NodeId) {
    IsLead(c) && c in net && k + 1 < |net[c]|
  }

  /** Every ring below the top has such a member. */
  ghost predicate Led(net: Network, top: nat) {
    forall y, k: nat :: y in net && k < |net[y]| && k < top ==> HasLead(net, y, k)
  }

  ghost predicate HasLead(net: Network, y: NodeId, k: nat)
    requires y in net && k < |net[y]|
  {
    exists c :: c in net[y][k].peers && IsLeadAbove(net, k, c)
  }

  /** Every ring below the top has exactly one. */
  ghost predicate LedByOne(net: Network, top: nat) {
    Led(net, top) && forall y, k: nat :: y in net && k < |net[y]| && k < top ==> AtMostOneLead(net, y, k)
  }

  ghost predicate AtMostOneLead(net: Network, y: NodeId, k: nat)
    requires y in net && k < |net[y]|
  {
    forall c, c' :: c in net[y][k].peers && c' in net[y][k].peers && IsLeadAbove(net, k, c) && IsLeadAbove(net, k, c') ==> c == c'
  }
}
