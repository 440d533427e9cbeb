/** The eviction protocol as an object: the message handlers of a node, over its routing table. */
module KademliaProtocols {
  import opened Options
  import opened Sorting
  import opened Buckets
  import opened BucketTable
  import opened Neighbours
  import opened RoutingTables
  import opened Eviction
  import opened EvictionRuns

  /** What is to be done after the walk over the expected pongs. */
  datatype Verdict = GoOn | TakeOver(successor: nat) | Quit | Raise

  ghost predicate Verdicts(v: Verdict, s: Proto, end: LoopEnd) {
    && s == end.state
    && match v
       case GoOn => end.Through?
       case TakeOver(r) => end.Replaced? && end.successor == r
       case Quit => end.Stopped?
       case Raise => end.Failed?
  }

  /** One step of the walk, whatever it finds at position `i`. */
  lemma ExpireStep(s: Proto, local: nat, i: nat, node: nat, now: int, p: Ping, s': Proto, ok: bool)
    requires ProtoOk(s, local) && i < |s.pings| && s.pings[i] == p && Expired(p, now)
    requires s' == s.(pings := Drop(s.pings, p.id), buckets := RemoveNode(s.buckets, p.id.node).0)
    requires ok == RemoveNode(s.buckets, p.id.node).1
    ensures ProtoOk(s', local) && s'.pings == s.pings[..i] + s.pings[i + 1..]
    ensures Expire(s, i, node, now) ==
              if !ok then Failed(s')
              else if p.replacement.Some? then Replaced(s', p.replacement.value)
              else if p.id.node == node then Stopped(s')
              else Expire(s', i, node, now)
  {
    DropAt(s.pings, i);
    EvictKeeps(s, local, i);
  }

  lemma ExpireSkips(s: Proto, i: nat, node: nat, now: int)
    requires i < |s.pings| && !Expired(s.pings[i], now)
    ensures Expire(s, i, node, now) == Expire(s, i + 1, node, now)
  {
  }

  lemma ExpireEnds(s: Proto, i: nat, node: nat, now: int)
    requires i <= |s.pings| && s.pings[i..] == []
    ensures Verdicts(GoOn, s, Expire(s, i, node, now))
  {
    assert |s.pings[i..]| == |s.pings| - i;
  }

  lemma {:induction false} PingAllConcat(s: Proto, wire: nat -> nat, a: seq<nat>, b: seq<nat>, now: int)
    ensures PingAll(s, wire, a + b, now) == PingAll(PingAll(s, wire, a, now), wire, b, now)
    decreases |a|
  {
    if a == [] {
      assert a + b == b;
    } else {
      assert (a + b)[0] == a[0] && (a + b)[1..] == a[1..] + b;
      PingAllConcat(SendPing(s, wire, a[0], None, now), wire, a[1..], b, now);
    }
  }

  lemma SuffixStep(pings: seq<Ping>, i: nat, snapshot: seq<Ping>, k: nat)
    requires i <= |pings| && k < |snapshot| && pings[i..] == snapshot[k..]
    ensures i < |pings| && pings[i] == snapshot[k] && pings[i + 1..] == snapshot[k + 1..]
    ensures (pings[..i] + pings[i + 1..])[i..] == snapshot[k + 1..]
  {
    assert pings[i..][0] == pings[i] && pings[i..][1..] == pings[i + 1..];
    assert snapshot[k..][1..] == snapshot[k + 1..];
  }

  lemma WaitingStep(buckets: seq<Bucket>, i: nat)
    requires i < |buckets|
    ensures Waiting(buckets[i..]) ==
              if |buckets[i].nodes| < K_BUCKET_SIZE then buckets[i].cache + Waiting(buckets[i + 1..])
              else Waiting(buckets[i + 1..])
  {
    assert buckets[i..][0] == buckets[i] && buckets[i..][1..] == buckets[i + 1..];
    assert [] + Waiting(buckets[i + 1..]) == Waiting(buckets[i + 1..]);
  }

  /** After adding, neither the node to be pinged nor a replacement is the local one. */
  lemma AddNamesRemotes(buckets: seq<Bucket>, local: nat, node: nat)
    requires TableOk(buckets, local) && !Cached(buckets, local) && Remote(node, local)
    ensures !Cached(AddNode(buckets, local, node).0, local)
    ensures AddNode(buckets, local, node).1.Evict? ==> AddNode(buckets, local, node).1.candidate != local
  {
    AddKeepsCaches(buckets, local, node, local);
    var outcome := AddNode(buckets, local, node).1;
    if outcome.Evict? {
      AddStores(buckets, local, node, outcome.candidate);
      TableIsRemote(buckets, local, outcome.candidate);
    }
  }

  class KademliaProtocol {
    const thisNode: nat
    const routing: RoutingTable
    const wire: nat -> nat
    var pings: seq<Ping>
    var sent: nat

    ghost function State(): Proto
      reads this, routing
    {
      Proto(routing.model, pings, sent)
    }

    ghost predicate Valid()
      reads this, routing, routing.buckets
    {
      routing.Linked() && routing.thisNode == thisNode && ProtoOk(State(), thisNode)
    }

    constructor (thisNode: nat, routing: RoutingTable, wire: nat -> nat)
      requires routing.Valid() && routing.thisNode == thisNode && routing.model == [Bucket(0, MAX_ID, [], [])]
      ensures Valid() && this.thisNode == thisNode && this.routing == routing && this.wire == wire
      ensures State() == After(thisNode, wire, [])
    {
      this.thisNode, this.routing, this.wire := thisNode, routing, wire;
      pings, sent := [], 0;
      new;
      assert State() == After(thisNode, wire, []);
    }

    /** Send a ping and note it as unanswered. */
    method Ping(node: nat, replacement: Option<nat>, now: int)
      requires node != thisNode
      modifies this`pings, this`sent
      ensures State() == SendPing(old(State()), wire, node, replacement, now)
    {
      var echoed := wire(sent);
      sent := sent + 1;
      pings := Put(pings, Eviction.Ping(PingId(echoed, node), now + REQUEST_TIMEOUT, replacement));
    }

    /** Ping a list of nodes, none of which is the local one. */
    method PingEach(nodes: seq<nat>, now: int)
      requires forall n :: n in nodes ==> n != thisNode
      modifies this`pings, this`sent
      ensures State() == PingAll(old(State()), wire, nodes, now)
    {
      var i := 0;
      assert nodes[0..] == nodes;
      while i < |nodes|
        invariant 0 <= i <= |nodes|
        invariant PingAll(State(), wire, nodes[i..], now) == PingAll(old(State()), wire, nodes, now)
      {
        assert nodes[i..][0] == nodes[i] && nodes[i..][1..] == nodes[i + 1..];
        assert nodes[i] in nodes;
        Ping(nodes[i], None, now);
        i := i + 1;
      }
    }

    /** Evict the nodes whose pings timed out, up to the first one that ends the update. */
    method ExpirePings(node: nat, now: int) returns (verdict: Verdict)
      requires Valid()
      modifies this`pings, routing`model, routing.buckets
      ensures Valid() && Verdicts(verdict, State(), Expire(old(State()), 0, node, now))
    {
      var snapshot := pings;
      var k := 0;
      ghost var i, s := 0, State();
      ghost var end := Expire(s, 0, node, now);
      verdict := GoOn;
      while k < |snapshot| && verdict == GoOn
        invariant Valid() && s == State() && routing.buckets == old(routing.buckets)
        invariant 0 <= k <= |snapshot| && 0 <= i <= |s.pings|
        invariant verdict == GoOn ==> s.pings[i..] == snapshot[k..] && Expire(s, i, node, now) == end
        invariant verdict != GoOn ==> Verdicts(verdict, s, end)
        decreases |snapshot| - k
      {
        SuffixStep(s.pings, i, snapshot, k);
        if now > snapshot[k].timeout {
          verdict := Evict(snapshot[k], i, node, now);
          s := State();
        } else {
          ExpireSkips(s, i, node, now);
          i := i + 1;
        }
        k := k + 1;
      }
      if verdict == GoOn {
        ExpireEnds(s, i, node, now);
      }
    }

    /** The ping at position `i` timed out: its node leaves the table. */
    method Evict(p: Ping, ghost i: nat, node: nat, now: int) returns (verdict: Verdict)
      requires Valid() && i < |pings| && pings[i] == p && Expired(p, now)
      modifies this`pings, routing`model, routing.buckets
      ensures Valid() && pings == old(pings)[..i] + old(pings)[i + 1..]
      ensures if verdict == GoOn then Expire(old(State()), i, node, now) == Expire(State(), i, node, now)
              else Verdicts(verdict, State(), Expire(old(State()), i, node, now))
    {
      assert p in pings && PingOk(p, thisNode);
      pings := Drop(pings, p.id);
      var ok := routing.RemoveNode(p.id.node);
      ExpireStep(old(State()), thisNode, i, node, now, p, State(), ok);
      if !ok {
        return Raise;
      }
      if p.replacement.Some? {
        return TakeOver(p.replacement.value);
      }
      if p.id.node == node {
        return Quit;
      }
      return GoOn;
    }

    /** Credit an expected pong; false stands for the exception of the lookup. */
    method CreditPong(pid: Option<PingId>) returns (ok: bool)
      requires Valid()
      modifies this`pings, routing`model, routing.buckets
      ensures Valid() && (State(), ok) == Credit(old(State()), pid)
    {
      CreditKeeps(State(), thisNode, pid);
      ok := true;
      if pid.Some? {
        var p := Find(pings, pid.value);
        if p.Some? {
          if p.value.replacement.Some? {
            ok := routing.CacheReplacement(p.value.replacement.value);
            if !ok {
              return;
            }
          }
          pings := Drop(pings, pid.value);
        }
      }
    }

    /** Ping the replacements of the buckets that are not full. */
    method PingWaiting(now: int)
      requires routing.Linked() && !Cached(routing.model, thisNode)
      modifies this`pings, this`sent
      ensures State() == PingAll(old(State()), wire, Waiting(routing.model), now)
    {
      var i := 0;
      ghost var model := routing.model;
      assert model[0..] == model;
      while i < |routing.buckets|
        invariant 0 <= i <= |routing.buckets|
        invariant PingAll(State(), wire, Waiting(model[i..]), now) == PingAll(old(State()), wire, Waiting(model), now)
      {
        assert routing.buckets[i].Contents() == model[i];
        assert thisNode !in model[i].cache;
        WaitingStep(model, i);
        if |routing.buckets[i].nodes| < K_BUCKET_SIZE {
          PingAllConcat(State(), wire, model[i].cache, Waiting(model[i + 1..]), now);
          PingEach(routing.buckets[i].cache, now);
        }
        i := i + 1;
      }
    }

    /** Add the sender, or ping the node it might replace; false stands for an exception. */
    method AddSender(node: nat, now: int) returns (ok: bool)
      requires Valid() && Remote(node, thisNode)
      modifies this`pings, this`sent, routing`buckets, routing`model, routing.buckets
      ensures Valid() && (State(), ok) == Admit(old(State()), thisNode, wire, node, now)
      ensures forall k :: 0 <= k < |routing.buckets| ==> routing.buckets[k] in old(routing.buckets) || fresh(routing.buckets[k])
    {
      AdmitKeeps(State(), thisNode, wire, node, now);
      AddNamesRemotes(routing.model, thisNode, node);
      var outcome := routing.AddNode(node);
      if outcome.Raised? {
        return false;
      }
      if outcome.Evict? {
        Ping(outcome.candidate, Some(node), now);
      }
      PingWaiting(now);
      ok := true;
    }

    /** A message from `node` arrived, with the id of the ping it answers when it is a pong. */
    method Update(node: nat, pid: Option<PingId>, now: int) returns (ok: bool)
      requires Valid() && node <= MAX_ID
      modifies this`pings, this`sent, routing`buckets, routing`model, routing.buckets
      ensures Valid() && (State(), ok) == Eviction.Update(old(State()), thisNode, wire, node, pid, now)
      ensures forall k :: 0 <= k < |routing.buckets| ==> routing.buckets[k] in old(routing.buckets) || fresh(routing.buckets[k])
      decreases |pings|
    {
      if node == thisNode {
        return true;
      }
      if pid.Some? && Find(pings, pid.value).None? {
        return true;
      }
      ExpireKeeps(State(), thisNode, 0, node, now);
      var verdict := ExpirePings(node, now);
      match verdict
      case Raise => return false;
      case Quit => return true;
      case TakeOver(r) => ok := Update(r, None, now);
      case GoOn => ok := Finish(node, pid, now);
    }

    /** The rest of an update that no timed-out ping ended. */
    method Finish(node: nat, pid: Option<PingId>, now: int) returns (ok: bool)
      requires Valid() && Remote(node, thisNode)
      modifies this`pings, this`sent, routing`buckets, routing`model, routing.buckets
      ensures Valid() && ProtoOk(Credit(old(State()), pid).0, thisNode)
      ensures var (s, credited) := Credit(old(State()), pid);
              (State(), ok) == if credited then Admit(s, thisNode, wire, node, now) else (s, false)
      ensures forall k :: 0 <= k < |routing.buckets| ==> routing.buckets[k] in old(routing.buckets) || fresh(routing.buckets[k])
    {
      CreditKeeps(State(), thisNode, pid);
      ok := CreditPong(pid);
      if ok {
        ok := AddSender(node, now);
      }
    }

    method RecvPing(remote: nat, now: int) returns (ok: bool)
      requires Valid() && remote <= MAX_ID
      modifies this`pings, this`sent, routing`buckets, routing`model, routing.buckets
      ensures Valid() && (State(), ok) == Handle(old(State()), thisNode, wire, Event.RecvPing(remote, now))
    {
      if remote == thisNode {
        return true;
      }
      ok := Update(remote, None, now);
    }

    method RecvPong(remote: nat, echoed: nat, now: int) returns (ok: bool)
      requires Valid() && remote <= MAX_ID
      modifies this`pings, this`sent, routing`buckets, routing`model, routing.buckets
      ensures Valid() && (State(), ok) == Handle(old(State()), thisNode, wire, Event.RecvPong(remote, echoed, now))
    {
      if remote == thisNode {
        return false;
      }
      ok := Update(remote, Some(PingId(echoed, remote)), now);
    }

    /** Answer with the nodes closest to the target; None stands for an exception. */
    method RecvFindNode(remote: nat, target: nat, now: int) returns (found: Option<seq<nat>>)
      requires Valid() && remote <= MAX_ID
      modifies this`pings, this`sent, routing`buckets, routing`model, routing.buckets
      ensures Valid() && (State(), found.Some?) == Handle(old(State()), thisNode, wire, Event.RecvFindNode(remote, now))
      ensures found.Some? ==>
                found.value == Take(SortBy(AllNodes(routing.model), DistanceTo(target)), K_BUCKET_SIZE)
    {
      var ok := Update(remote, None, now);
      if !ok {
        return None;
      }
      var closest := routing.GetNeighbours(target, K_BUCKET_SIZE);
      found := Some(closest);
    }

    /** Ping the nodes that are not known yet; false stands for the exception of a lookup. */
    method RecvNeighbours(nodes: seq<nat>, now: int) returns (ok: bool)
      requires Valid() && IdsOk(nodes)
      modifies this`pings, this`sent
      ensures Valid() && (State(), ok) == Handle(old(State()), thisNode, wire, Event.RecvNeighbours(nodes, now))
    {
      HandleKeeps(State(), thisNode, wire, Event.RecvNeighbours(nodes, now));
      var unknown := SelectUnknown(nodes);
      if unknown.None? {
        return false;
      }
      PingEach(unknown.value, now);
      ok := true;
    }

    method SelectUnknown(nodes: seq<nat>) returns (unknown: Option<seq<nat>>)
      requires routing.Linked()
      ensures unknown == Unknown(routing.model, thisNode, nodes)
      decreases |nodes|
    {
      if nodes == [] {
        return Some([]);
      }
      var rest := SelectUnknown(nodes[1..]);
      if nodes[0] == thisNode {
        return rest;
      }
      var found := routing.BucketByNode(nodes[0]);
      if found.None? || rest.None? {
        return None;
      }
      assert routing.buckets[found.value].Contents() == routing.model[found.value];
      if nodes[0] in routing.buckets[found.value].nodes {
        return rest;
      }
      return Some([nodes[0]] + rest.value);
    }

    /** Add the nodes one knows from the start. */
    method Bootstrap(nodes: seq<nat>, now: int) returns (ok: bool)
      requires Valid() && IdsOk(nodes)
      modifies routing`buckets, routing`model, routing.buckets
      ensures Valid() && (State(), ok) == Handle(old(State()), thisNode, wire, Event.Bootstrap(nodes, now))
    {
      HandleKeeps(State(), thisNode, wire, Event.Bootstrap(nodes, now));
      var i := 0;
      assert nodes[0..] == nodes;
      while i < |nodes|
        invariant 0 <= i <= |nodes|
        invariant routing.Valid() && routing.thisNode == thisNode
        invariant AddAll(routing.model, thisNode, nodes[i..]) == AddAll(old(routing.model), thisNode, nodes)
        invariant forall k :: 0 <= k < |routing.buckets| ==> routing.buckets[k] in old(routing.buckets) || fresh(routing.buckets[k])
      {
        assert nodes[i..][0] == nodes[i] && nodes[i..][1..] == nodes[i + 1..];
        if nodes[i] != thisNode {
          var outcome := routing.AddNode(nodes[i]);
          if outcome == Raised {
            return false;
          }
        }
        i := i + 1;
      }
      ok := true;
    }
  }
}
