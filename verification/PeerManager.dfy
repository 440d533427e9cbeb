/** The broadcast handlers of one node.  `sent` collects what the node puts on the wire. */
module PeerManagers {
  import opened Sums
  import opened Overlay
  import opened RingBalance
  import opened NodeTables

  /** Messages a node handed to itself, each in reaction to the one before. */
  ghost predicate LocalChain(tables: seq<Ring>, self: NodeId, path: seq<Msg>) {
    && path != []
    && (forall i :: 0 <= i < |path| ==> IsBroadcastMsg(path[i]))
    && (forall i :: 0 < i < |path| ==> HandedOn(tables, self, path, i))
  }

  ghost predicate HandedOn(tables: seq<Ring>, self: NodeId, path: seq<Msg>, i: nat)
    requires 0 < i < |path| && IsBroadcastMsg(path[i - 1])
  {
    path[i].to == self && Reacts(tables, self, path[i - 1], [path[i]])
  }

  /** `out` is what is sent after `first` was handled, along a chain of messages to oneself. */
  ghost predicate Handles(tables: seq<Ring>, self: NodeId, first: Msg, path: seq<Msg>, out: seq<Msg>) {
    && LocalChain(tables, self, path)
    && path[0] == first
    && Reacts(tables, self, path[|path| - 1], out)
    && forall m :: m in out ==> m.to != self
  }

  lemma {:induction false} PrependLocal(tables: seq<Ring>, self: NodeId, m: Msg, path: seq<Msg>, out: seq<Msg>)
    requires IsBroadcastMsg(m) && path != [] && Reacts(tables, self, m, [path[0]])
    requires path[0].to == self && Handles(tables, self, path[0], path, out)
    ensures Handles(tables, self, m, [m] + path, out)
  {
    var longer := [m] + path;
    ChainPrepended(tables, self, m, path);
    assert longer[|longer| - 1] == path[|path| - 1];
  }

  lemma {:induction false} ChainPrepended(tables: seq<Ring>, self: NodeId, m: Msg, path: seq<Msg>)
    requires IsBroadcastMsg(m) && LocalChain(tables, self, path) && path[0].to == self && Reacts(tables, self, m, [path[0]])
    ensures LocalChain(tables, self, [m] + path)
  {
    var longer := [m] + path;
    forall i | 0 < i < |longer| ensures HandedOn(tables, self, longer, i) {
      assert longer[i] == path[i - 1];
      if i > 1 {
        assert HandedOn(tables, self, path, i - 1);
        assert longer[i - 1] == path[i - 2];
      }
    }
  }

  /** One more exponent: its message, if it gets one, comes next. */
  lemma {:induction false} NextExponent(peers: seq<NodeId>, self: NodeId, level: nat, order: int, i: nat, before: seq<Msg>, all: seq<Msg>)
    requires order >= NO_ORDER && order + Pow2(i) < |peers| && before + RingSends(peers, self, level, order, i) == all
    ensures Pow2(i) <= order ==> before + RingSends(peers, self, level, order, i + 1) == all
    ensures Pow2(i) > order ==>
              (before + [Hop(peers, self, level, order, i)]) + RingSends(peers, self, level, order, i + 1) == all
  {
  }

  /** The place of the receiver in the list, and what it is sent. */
  lemma {:induction false} HopInRing(peers: seq<NodeId>, self: NodeId, level: nat, order: nat, i: nat)
    requires self in peers && Distinct(peers) && order + Pow2(i) < |peers| && Pow2(i) > order
    ensures var p := Wrapped(Position(peers, self) + Pow2(i), |peers|);
            && 0 <= p < |peers| && peers[p] != self
            && Hop(peers, self, level, order, i) == Msg(peers[p], self, KindFor(level, peers[p]), level, order + Pow2(i))
  {
    var hop := Hop(peers, self, level, order, i);
    HopStaysRelative(peers, self, level, order, i, self, RelativeOrder(peers, self, order, self), hop);
  }

  /** One level further down: its ring comes next. */
  lemma {:induction false} NextLevelDown(tables: seq<Ring>, self: NodeId, level: nat, before: seq<Msg>, left: seq<Msg>)
    returns (below: seq<Msg>)
    requires left == DownSends(tables, self, level)
    ensures below == DownSends(tables, self, level - 1)
    ensures (before + RingSends(PeersAt(tables, level), self, level, 0, 0)) + below == before + left
  {
    below := DownSends(tables, self, level - 1);
  }

  /** A message whose receiver sends only to others is handled in one reaction. */
  lemma {:induction false} OneReaction(tables: seq<Ring>, self: NodeId, m: Msg, out: seq<Msg>)
    requires IsBroadcastMsg(m) && Reacts(tables, self, m, out) && forall m' :: m' in out ==> m'.to != self
    ensures Handles(tables, self, m, [m], out)
  {
  }

  /** A message that goes on climbing. */
  lemma {:induction false} ClimbReaction(tables: seq<Ring>, self: NodeId, m: Msg, up: Msg)
    requires IsBroadcastMsg(m) && Climbs(m) && ArrivalLevel(m) < |tables|
    requires up.to in ContactsAt(tables, ArrivalLevel(m) + 1) && up == Msg(up.to, self, UP_FROM_BELOW, ArrivalLevel(m), NO_ORDER)
    ensures Reacts(tables, self, m, [up])
  {
  }

  /** The same, said of what was sent before and after. */
  lemma {:induction false} OneReactionSent(tables: seq<Ring>, self: NodeId, m: Msg, before: seq<Msg>, out: seq<Msg>, after: seq<Msg>)
    requires IsBroadcastMsg(m) && Reacts(tables, self, m, out) && forall m' :: m' in out ==> m'.to != self
    requires after == before + out
    ensures before <= after && Handles(tables, self, m, [m], after[|before|..])
  {
    assert after[|before|..] == out;
    OneReaction(tables, self, m, out);
  }

  /** A message that goes on climbing: to another node, or to the node itself. */
  lemma {:induction false} ClimbedOn(tables: seq<Ring>, self: NodeId, m: Msg, up: Msg, rest: seq<Msg>, before: seq<Msg>, after: seq<Msg>)
    requires IsBroadcastMsg(m) && IsBroadcastMsg(up) && Reacts(tables, self, m, [up])
    requires if up.to == self then before <= after && Handles(tables, self, up, rest, after[|before|..]) else after == before + [up]
    ensures before <= after && Handles(tables, self, m, if up.to == self then [m] + rest else [m], after[|before|..])
  {
    if up.to == self {
      PrependLocal(tables, self, m, rest, after[|before|..]);
    } else {
      OneReactionSent(tables, self, m, before, [up], after);
    }
  }

  class PeerManager {
    const node: NodeId
    const nodeTable: NodeTable
    var sent: seq<Msg>

    ghost predicate Valid()
      reads nodeTable
    {
      nodeTable.Valid() && nodeTable.selfId == node
    }

    constructor (node: NodeId, nodeTable: NodeTable)
      ensures this.node == node && this.nodeTable == nodeTable && sent == []
    {
      this.node := node;
      this.nodeTable := nodeTable;
      sent := [];
    }

    /** How many more levels a message can climb through this node. */
    ghost function Height(m: Msg): nat
      reads nodeTable
    {
      if Climbs(m) && ArrivalLevel(m) < |nodeTable.tables| then |nodeTable.tables| - ArrivalLevel(m) else 0
    }

    /** A message to oneself is handled at once; any other goes on the wire. */
    method Send(m: Msg) returns (ghost path: seq<Msg>)
      requires Valid() && IsBroadcastMsg(m) && m.from == node && (IsRingMsg(m) ==> m.order >= 0)
      modifies this`sent
      ensures m.to != node ==> path == [] && sent == old(sent) + [m]
      ensures m.to == node ==> old(sent) <= sent && Handles(nodeTable.tables, node, m, path, sent[|old(sent)|..])
      decreases if m.to == m.from then Height(m) + 1 else 0, 0
    {
      if m.to == m.from {
        path := OnReceive(m);
        return;
      }
      sent := sent + [m];
      path := [];
    }

    /** Ask a random contact of the node's own ring to carry the message up. */
    method Broadcast() returns (contact: NodeId, ghost path: seq<Msg>)
      requires Valid() && ContactsAt(nodeTable.tables, 0) != {}
      modifies this`sent
      ensures contact in ContactsAt(nodeTable.tables, 0)
      ensures var m := Msg(contact, node, UP_SAME_LEVEL, 0, NO_ORDER);
              if contact != node then sent == old(sent) + [m]
              else old(sent) <= sent && Handles(nodeTable.tables, node, m, path, sent[|old(sent)|..])
    {
      var contacts := nodeTable.GetContactNodes(0);
      contact :| contact in contacts;
      path := Send(Msg(contact, node, UP_SAME_LEVEL, 0, NO_ORDER));
    }

    /** Pass a message of type `kind` up to a random contact of the ring above. */
    method BroadcastUp(kind: int, level: nat) returns (ghost m: Msg, ghost path: seq<Msg>)
      requires Valid()
      requires level >= |nodeTable.tables| || (kind == UP_FROM_BELOW && ContactsAt(nodeTable.tables, level + 1) != {})
      modifies this`sent
      ensures level >= |nodeTable.tables| ==> sent == old(sent)
      ensures level < |nodeTable.tables| ==>
                m == Msg(m.to, node, kind, level, NO_ORDER) && m.to in ContactsAt(nodeTable.tables, level + 1)
                && if m.to != node then sent == old(sent) + [m]
                   else old(sent) <= sent && Handles(nodeTable.tables, node, m, path, sent[|old(sent)|..])
      decreases if level < |nodeTable.tables| then |nodeTable.tables| - level else 0, 2
    {
      var contacts := nodeTable.GetContactNodes(level + 1);
      m, path := Msg(node, node, kind, level, NO_ORDER), [];
      if contacts == {} {
        BroadcastWithinRing(level, NO_ORDER);
        return;
      }
      var receiver :| receiver in contacts;
      var up := Msg(receiver, node, kind, level, NO_ORDER);
      m := up;
      path := Send(up);
    }

    /** Forward within the ring of `level`: to order `order + 2^i` for every `2^i > order`. */
    method BroadcastWithinRing(level: nat, order: int)
      requires Valid() && (order >= 0 || (order == NO_ORDER && level >= |nodeTable.tables|))
      modifies this`sent
      ensures sent == old(sent) + RingSends(PeersAt(nodeTable.tables, level), node, level, order, 0)
      decreases 0, 1
    {
      var endId := nodeTable.GetPeerListSize(level);
      var idInVector := nodeTable.GetNodeIdInVector(level, node);
      ghost var peers := PeersAt(nodeTable.tables, level);
      ghost var all := sent + RingSends(peers, node, level, order, 0);
      var i := 0;
      while order + Pow2(i) <= endId
        invariant sent + RingSends(peers, node, level, order, i) == all
        decreases endId - order - Pow2(i)
      {
        NextExponent(peers, node, level, order, i, sent, all);
        if Pow2(i) > order {
          var hop := MessageTo(level, order, i, idInVector, endId);
          ghost var path := Send(hop);
        }
        i := i + 1;
      }
    }

    /** The message to the member `2^i` places further along the ring. */
    method MessageTo(level: nat, order: nat, i: nat, idInVector: int, endId: int) returns (hop: Msg)
      requires Valid() && level < |nodeTable.tables| && Pow2(i) > order && order + Pow2(i) <= endId
      requires idInVector == Position(nodeTable.tables[level].peers, node) && endId == |nodeTable.tables[level].peers| - 1
      ensures hop == Hop(nodeTable.tables[level].peers, node, level, order, i)
      ensures IsRingMsg(hop) && hop.from == node && hop.to != node && hop.order >= 0
    {
      assert nodeTable.RingValid(level);
      HopInRing(nodeTable.tables[level].peers, node, level, order, i);
      var target := idInVector + Pow2(i);
      if target > endId {
        target := target - (endId + 1);
      }
      var receiver := nodeTable.GetPeerByOrder(level, target);
      var kind := WITHIN_ONLY;
      if level != 0 && receiver.single == 0 {
        kind := WITHIN_AND_DOWN;
      }
      hop := Msg(receiver, node, kind, level, order + Pow2(i));
    }

    /** Start a broadcast, as order 0, in each ring of level `level` down to level 0. */
    method BroadcastDownwards(level: int)
      requires Valid() && level >= -1
      modifies this`sent
      ensures sent == old(sent) + DownSends(nodeTable.tables, node, level)
      decreases 0, 2
    {
      ghost var left := DownSends(nodeTable.tables, node, level);
      ghost var all := sent + left;
      var i := 0;
      while level >= i
        invariant 0 <= i <= level + 1
        invariant left == DownSends(nodeTable.tables, node, level - i) && sent + left == all
      {
        left := NextLevelDown(nodeTable.tables, node, level - i, sent, left);
        BroadcastWithinRing(level - i, 0);
        i := i + 1;
      }
    }

    /** Launch the spread: start a broadcast in the top ring, and in the rings below. */
    method LaunchSpread(level: nat)
      requires Valid()
      modifies this`sent
      ensures sent == old(sent) + DownSends(nodeTable.tables, node, level)
      decreases 0, 3
    {
      BroadcastWithinRing(level, 0);
      BroadcastDownwards(level - 1);
    }

    /** The upward half of the handler: climb on, or launch the spread from the top ring. */
    method OnReceiveClimbing(m: Msg, level: nat) returns (ghost path: seq<Msg>)
      requires Valid() && IsBroadcastMsg(m) && Climbs(m) && level == ArrivalLevel(m)
      modifies this`sent
      ensures old(sent) <= sent && Handles(nodeTable.tables, node, m, path, sent[|old(sent)|..])
      decreases Height(m), 4
    {
      path := [m];
      ghost var tables, before := nodeTable.tables, sent;
      ghost var up: Msg;
      ghost var rest: seq<Msg>;
      var isContact := nodeTable.IsContactNode(level);
      var contactsAbove := nodeTable.GetContactNodes(level + 1);
      if !isContact {
        up, rest := BroadcastUp(UP_SAME_LEVEL, level);
        OneReactionSent(tables, node, m, before, [], sent);
      } else if contactsAbove == {} {
        LaunchSpread(level);
        DownSendsToOthers(level);
        OneReactionSent(tables, node, m, before, DownSends(tables, node, level), sent);
      } else {
        up, rest := BroadcastUp(UP_FROM_BELOW, level);
        ClimbReaction(tables, node, m, up);
        if up.to == node {
          path := [m] + rest;
        }
        ClimbedOn(tables, node, m, up, rest, before, sent);
      }
    }

    /** A message within a ring that also starts the rings below. */
    method OnReceiveWithinAndDown(m: Msg)
      requires Valid() && m.kind == WITHIN_AND_DOWN && m.order >= 0
      modifies this`sent
      ensures old(sent) <= sent && Handles(nodeTable.tables, node, m, [m], sent[|old(sent)|..])
      decreases 0, 3
    {
      ghost var tables, before := nodeTable.tables, sent;
      BroadcastWithinRing(m.level, m.order);
      BroadcastDownwards(m.level - 1);
      RingSendsToOthers(m.level, m.order);
      DownSendsToOthers(m.level - 1);
      OneReactionSent(tables, node, m, before,
                      RingSends(PeersAt(tables, m.level), node, m.level, m.order, 0) + DownSends(tables, node, m.level - 1), sent);
    }

    /** A message within a ring only. */
    method OnReceiveWithin(m: Msg)
      requires Valid() && m.kind == WITHIN_ONLY && m.order >= 0
      modifies this`sent
      ensures old(sent) <= sent && Handles(nodeTable.tables, node, m, [m], sent[|old(sent)|..])
      decreases 0, 3
    {
      ghost var tables, before := nodeTable.tables, sent;
      BroadcastWithinRing(m.level, m.order);
      RingSendsToOthers(m.level, m.order);
      OneReactionSent(tables, node, m, before, RingSends(PeersAt(tables, m.level), node, m.level, m.order, 0), sent);
    }

    /** On receiving a message: climb, or forward it within the ring and start the rings below. */
    method OnReceive(m: Msg) returns (ghost path: seq<Msg>)
      requires Valid() && IsBroadcastMsg(m) && (IsRingMsg(m) ==> m.order >= 0)
      modifies this`sent
      ensures old(sent) <= sent && Handles(nodeTable.tables, node, m, path, sent[|old(sent)|..])
      decreases Height(m), 5
    {
      path := [m];
      if m.kind == UP_FROM_BELOW {
        path := OnReceiveClimbing(m, m.level + 1);
      } else if m.kind == UP_SAME_LEVEL {
        path := OnReceiveClimbing(m, m.level);
      } else if m.kind == WITHIN_AND_DOWN {
        OnReceiveWithinAndDown(m);
      } else {
        OnReceiveWithin(m);
      }
    }

    lemma RingSendsToOthers(level: nat, order: nat)
      requires Valid()
      ensures forall m :: m in RingSends(PeersAt(nodeTable.tables, level), node, level, order, 0) ==> m.to != node
    {
      if level < |nodeTable.tables| {
        assert nodeTable.RingValid(level);
        var peers := nodeTable.tables[level].peers;
        forall m | m in RingSends(peers, node, level, order, 0) ensures m.to != node {
          RingSendsShape(peers, node, level, order, 0, m);
        }
      }
    }

    lemma {:induction false} DownSendsToOthers(level: int)
      requires Valid()
      ensures forall m :: m in DownSends(nodeTable.tables, node, level) ==> m.to != node
      decreases level
    {
      if level >= 0 {
        RingSendsToOthers(level, 0);
        DownSendsToOthers(level - 1);
      }
    }
  }
}
