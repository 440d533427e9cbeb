/**
 * Nodes, rings and messages of the fractal-ring overlay, and what one node sends in reaction
 * to one message.  These are the specification functions of the classes in PeerManager.dfy.
 */
module Overlay {
  import opened Sums
  import opened SpanningTree

  /**
   * A node id: the text up to the district (the first 23 characters) and the 9-digit number of
   * the node within its district.
   */
  datatype NodeId = NodeId(region: string, single: nat)

  /** The id within the district is all zeros: this member restarts the spread in lower rings. */
  predicate IsLead(id: NodeId) {
    id.single == 0
  }

  datatype Ring = Ring(contacts: set<NodeId>, peers: seq<NodeId>)

  /** The message types of the broadcast. */
  const UP_FROM_BELOW := 0
  const UP_SAME_LEVEL := 1
  const WITHIN_AND_DOWN := 2
  const WITHIN_ONLY := 5

  datatype Msg = Msg(to: NodeId, from: NodeId, kind: int, level: nat, order: int)

  /** The order a message carries before a ring broadcast sets it. */
  const NO_ORDER := -1

  /** The first position of `id` in the peer list, from position `i` on, or -1. */
  function PositionFrom(peers: seq<NodeId>, id: NodeId, i: nat): (p: int)
    requires i <= |peers|
    ensures p == -1 || (i <= p < |peers| && peers[p] == id)
    ensures p == -1 ==> forall j :: i <= j < |peers| ==> peers[j] != id
    decreases |peers| - i
  {
    if i == |peers| then -1
    else if peers[i] == id then i
    else PositionFrom(peers, id, i + 1)
  }

  function Position(peers: seq<NodeId>, id: NodeId): (p: int)
    ensures -1 <= p < |peers|
    ensures p >= 0 ==> peers[p] == id
    ensures p == -1 <==> id !in peers
  {
    PositionFrom(peers, id, 0)
  }

  function PeersAt(tables: seq<Ring>, level: nat): seq<NodeId> {
    if level < |tables| then tables[level].peers else []
  }

  function ContactsAt(tables: seq<Ring>, level: nat): set<NodeId> {
    if level < |tables| then tables[level].contacts else {}
  }

  function KindFor(level: nat, receiver: NodeId): int {
    if level == 0 || !IsLead(receiver) then WITHIN_ONLY else WITHIN_AND_DOWN
  }

  /** Position arithmetic of a ring: one subtraction wraps around the end of the list. */
  function Wrapped(position: int, size: int): int {
    if position > size - 1 then position - size else position
  }

  /** The message to the member `2^i` places further along the ring. */
  function Hop(peers: seq<NodeId>, self: NodeId, level: nat, order: int, i: nat): Msg
    requires order >= NO_ORDER && order + Pow2(i) < |peers|
  {
    var receiver := peers[Wrapped(Position(peers, self) + Pow2(i), |peers|)];
    Msg(receiver, self, KindFor(level, receiver), level, order + Pow2(i))
  }

  /** What a member that holds `order` sends within a ring, from exponent `i` on. */
  function RingSends(peers: seq<NodeId>, self: NodeId, level: nat, order: int, i: nat): seq<Msg>
    requires order >= NO_ORDER
    decreases if order + Pow2(i) < |peers| then |peers| - order - Pow2(i) else 0
  {
    if order + Pow2(i) >= |peers| then []
    else if Pow2(i) <= order then RingSends(peers, self, level, order, i + 1)
    else [Hop(peers, self, level, order, i)] + RingSends(peers, self, level, order, i + 1)
  }

  /** The broadcasts a node starts, as order 0, in its rings of level `level` down to level 0. */
  function DownSends(tables: seq<Ring>, self: NodeId, level: int): seq<Msg>
    decreases level
  {
    if level < 0 then []
    else RingSends(PeersAt(tables, level), self, level, 0, 0) + DownSends(tables, self, level - 1)
  }

  /** Passing a message up: to any contact of the ring above, or into the ring when there is none. */
  predicate SendsUp(tables: seq<Ring>, self: NodeId, kind: int, level: nat, out: seq<Msg>) {
    if ContactsAt(tables, level + 1) == {} then
      out == RingSends(PeersAt(tables, level), self, level, NO_ORDER, 0)
    else
      |out| == 1 && out[0].to in ContactsAt(tables, level + 1)
      && out[0] == Msg(out[0].to, self, kind, level, NO_ORDER)
  }

  /** The ring level at which a climbing message has arrived. */
  function ArrivalLevel(m: Msg): nat {
    if m.kind == UP_FROM_BELOW then m.level + 1 else m.level
  }

  predicate Climbs(m: Msg) {
    m.kind == UP_FROM_BELOW || m.kind == UP_SAME_LEVEL
  }

  predicate IsRingMsg(m: Msg) {
    m.kind == WITHIN_ONLY || m.kind == WITHIN_AND_DOWN
  }

  predicate IsBroadcastMsg(m: Msg) {
    m.order >= NO_ORDER && (Climbs(m) || IsRingMsg(m))
  }

  /** The receiver of a climbing message finds itself in the top ring and starts the spread. */
  predicate Launches(tables: seq<Ring>, m: Msg) {
    Climbs(m) && ArrivalLevel(m) < |tables| && ContactsAt(tables, ArrivalLevel(m) + 1) == {}
  }

  /** `out` is a possible output of node `self` with node table `tables` on receiving `m`. */
  predicate Reacts(tables: seq<Ring>, self: NodeId, m: Msg, out: seq<Msg>)
    requires IsBroadcastMsg(m)
  {
    if Climbs(m) then
      if ArrivalLevel(m) >= |tables| then SendsUp(tables, self, UP_SAME_LEVEL, ArrivalLevel(m), out)
      else if Launches(tables, m) then out == DownSends(tables, self, ArrivalLevel(m))
      else SendsUp(tables, self, UP_FROM_BELOW, ArrivalLevel(m), out)
    else if m.kind == WITHIN_AND_DOWN then
      out == RingSends(PeersAt(tables, m.level), self, m.level, m.order, 0) + DownSends(tables, self, m.level - 1)
    else
      out == RingSends(PeersAt(tables, m.level), self, m.level, m.order, 0)
  }

  /** A message that has climbed to a level its receiver has no ring of is dropped. */
  lemma WithoutRingDropped(tables: seq<Ring>, self: NodeId, m: Msg, out: seq<Msg>)
    requires IsBroadcastMsg(m) && Climbs(m) && ArrivalLevel(m) >= |tables| && Reacts(tables, self, m, out)
    ensures out == []
  {
  }
}
