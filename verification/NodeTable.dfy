/** The rings a node sits in, level by level, and the lookups the broadcast makes in them. */
module NodeTables {
  import opened Overlay
  import opened RingBalance

  class NodeTable {
    const selfId: NodeId
    var tables: seq<Ring>

    /** The node sits in ring 0 at least, and once in every ring of its table. */
    ghost predicate Valid()
      reads this
    {
      tables != [] && forall l :: 0 <= l < |tables| ==> RingValid(l)
    }

    ghost predicate RingValid(l: nat)
      reads this
      requires l < |tables|
    {
      selfId in tables[l].peers && Distinct(tables[l].peers)
    }

    constructor (selfId: NodeId)
      ensures this.selfId == selfId && tables == []
    {
      this.selfId := selfId;
      tables := [];
    }

    method SetTables(rings: seq<Ring>)
      modifies this
      ensures tables == rings
    {
      tables := rings;
    }

    /** A node that sits in the ring of a level counts as a contact of the ring below. */
    method IsContactNode(level: nat) returns (yes: bool)
      requires Valid()
      ensures yes <==> level < |tables|
    {
      if level > |tables| - 1 {
        return false;
      } else {
        return true;
      }
    }

    method GetContactNodes(level: nat) returns (contacts: set<NodeId>)
      requires Valid()
      ensures contacts == ContactsAt(tables, level)
    {
      if level > |tables| - 1 {
        return {};
      }
      return tables[level].contacts;
    }

    method GetPeerByOrder(level: nat, order: int) returns (peer: NodeId)
      requires Valid() && level < |tables| && 0 <= order < |tables[level].peers|
      ensures peer == PeersAt(tables, level)[order]
    {
      return tables[level].peers[order];
    }

    /** The first position of `id` in the peer list, or -1 (also when the level is not in the table). */
    method GetNodeIdInVector(level: nat, id: NodeId) returns (position: int)
      requires Valid()
      ensures position == Position(PeersAt(tables, level), id)
    {
      if level > |tables| - 1 {
        return -1;
      }
      var peers := tables[level].peers;
      var i := 0;
      while i < |peers|
        invariant 0 <= i <= |peers|
        invariant PositionFrom(peers, id, i) == Position(peers, id)
      {
        if peers[i] == id {
          return i;
        } else {
          i := i + 1;
        }
      }
      return -1;
    }

    /** The last position of the peer list, or -1 when the level is not in the table. */
    method GetPeerListSize(level: nat) returns (last: int)
      requires Valid()
      ensures last == |PeersAt(tables, level)| - 1
    {
      if level > |tables| - 1 {
        return -1;
      }
      return |tables[level].peers| - 1;
    }
  }
}
