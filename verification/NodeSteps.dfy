/** What a node's handler does with one message is a run of the network model. */
module NodeSteps {
  import opened Overlay
  import opened RingBalance
  import opened Topology
  import opened BroadcastRun
  import opened PeerManagers

  ghost predicate IsPathOfSteps(net: Network, run: seq<State>) {
    run != [] && forall j :: 0 <= j < |run| - 1 ==> Step(net, run[j], run[j + 1])
  }

  /**
   * Handling one delivered message, with all the messages the node hands to itself on the way,
   * takes as many steps as messages handled, and leaves what the node put on the wire in flight.
   */
  lemma {:induction false} HandlingIsRun(net: Network, s: State, i: nat, path: seq<Msg>, out: seq<Msg>) returns (run: seq<State>)
    requires i < |s.flight| && s.flight[i].to in net
    requires Handles(net[s.flight[i].to], s.flight[i].to, s.flight[i], path, out)
    ensures IsPathOfSteps(net, run) && |run| == |path| + 1 && run[0] == s
    ensures run[|path|] == State(s.flight[..i] + s.flight[i + 1..] + out, s.log + path)
    decreases |path|
  {
    var z, others := s.flight[i].to, s.flight[..i] + s.flight[i + 1..];
    if |path| == 1 {
      LastHandles(net[z], z, path, out);
      var s' := FirstStep(net, s, i, path, out);
      run := TwoStates(net, s, s');
    } else {
      RestHandles(net[z], z, path, out);
      var s1 := FirstStep(net, s, i, path, [path[1]]);
      RestOfFlight(others, path[1], out);
      RestOfLog(s.log, path);
      run := HandlingIsRun(net, s1, |others|, path[1..], out);
      PrependStep(net, s, run);
      run := [s] + run;
    }
  }

  lemma TwoStates(net: Network, s: State, s': State) returns (run: seq<State>)
    requires Step(net, s, s')
    ensures IsPathOfSteps(net, run) && run == [s, s']
  {
    run := [s, s'];
  }

  lemma LastHandles(tables: seq<Ring>, z: NodeId, path: seq<Msg>, out: seq<Msg>)
    requires |path| == 1 && Handles(tables, z, path[0], path, out)
    ensures path == [path[0]] && IsBroadcastMsg(path[0]) && Reacts(tables, z, path[0], out)
  {
  }

  lemma RestOfFlight(others: seq<Msg>, m: Msg, out: seq<Msg>)
    ensures (others + [m])[|others|] == m
    ensures (others + [m])[..|others|] + (others + [m])[|others| + 1..] + out == others + out
  {
    assert (others + [m])[..|others|] + (others + [m])[|others| + 1..] == others;
  }

  lemma RestOfLog(log: seq<Msg>, path: seq<Msg>)
    requires path != []
    ensures log + [path[0]] + path[1..] == log + path
  {
  }

  /** Handling the first message of a path is one delivery. */
  lemma FirstStep(net: Network, s: State, i: nat, path: seq<Msg>, out: seq<Msg>) returns (s': State)
    requires i < |s.flight| && s.flight[i].to in net && path != [] && path[0] == s.flight[i]
    requires IsBroadcastMsg(path[0]) && Reacts(net[s.flight[i].to], s.flight[i].to, path[0], out)
    ensures s' == State(s.flight[..i] + s.flight[i + 1..] + out, s.log + [path[0]]) && Step(net, s, s')
  {
    s' := State(s.flight[..i] + s.flight[i + 1..] + out, s.log + [path[0]]);
    assert Delivers(net, s, i, out, s');
  }

  lemma RestHandles(tables: seq<Ring>, z: NodeId, path: seq<Msg>, out: seq<Msg>)
    requires |path| > 1 && Handles(tables, z, path[0], path, out)
    ensures path[1].to == z && Handles(tables, z, path[1], path[1..], out)
    ensures IsBroadcastMsg(path[0]) && Reacts(tables, z, path[0], [path[1]])
  {
    var rest := path[1..];
    assert HandedOn(tables, z, path, 1);
    forall j | 0 < j < |rest| ensures HandedOn(tables, z, rest, j) {
      assert HandedOn(tables, z, path, j + 1);
    }
  }

  lemma PrependStep(net: Network, s: State, run: seq<State>)
    requires IsPathOfSteps(net, run) && Step(net, s, run[0])
    ensures IsPathOfSteps(net, [s] + run) && ([s] + run)[|run|] == run[|run| - 1]
  {
    var longer := [s] + run;
    forall j | 0 <= j < |longer| - 1 ensures Step(net, longer[j], longer[j + 1]) {
      if j > 0 {
        assert Step(net, run[j - 1], run[j]);
      }
    }
  }
}
