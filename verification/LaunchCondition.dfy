/**
 * When every finished broadcast of a network starts each ring exactly once: a condition on the node
 * tables alone.  Any contact of the top ring can be the one that launches the spread.
 */
module LaunchCondition {
  import opened Sums
  import opened Overlay
  import opened RingBalance
  import opened Topology
  import opened BroadcastRun
  import opened BroadcastCoverage
  import opened BroadcastTermination

  ghost predicate IsTopContact(net: Network, top: nat, c: NodeId) {
    c in net && |net[c]| == top + 1 && c in net[c][top].contacts
  }

  // ---------- Runs and their last states ----------

  ghost predicate EndsIn(net: Network, origin: NodeId, run: seq<State>, s: State) {
    IsRun(net, origin, run) && run[|run| - 1] == s
  }

  lemma OneMore(net: Network, origin: NodeId, run: seq<State>, s: State, s': State)
    requires EndsIn(net, origin, run, s) && Step(net, s, s')
    ensures EndsIn(net, origin, run + [s'], s')
  {
    var run' := run + [s'];
    forall i | 0 <= i < |run'| - 1 ensures Step(net, run'[i], run'[i + 1]) {
      assert i < |run| - 1 ==> Step(net, run[i], run[i + 1]);
    }
  }

  // ---------- A contact of the top ring that carries its own message up ----------

  /** A message of `c` to itself that has arrived at level `k`. */
  function OwnMessage(c: NodeId, k: nat): Msg {
    if k == 0 then Msg(c, c, UP_SAME_LEVEL, 0, NO_ORDER) else Msg(c, c, UP_FROM_BELOW, k - 1, NO_ORDER)
  }

  lemma OwnContact(net: Network, top: nat, c: NodeId, k: nat)
    requires WellFormed(net, top) && IsTopContact(net, top, c) && k <= top
    ensures c in ContactsAt(net[c], k)
  {
    OwnRing(net, top, c, k);
  }

  lemma ClimbsByItself(net: Network, top: nat, c: NodeId, k: nat, s: State)
    requires WellFormed(net, top) && IsTopContact(net, top, c) && k < top && s.flight == [OwnMessage(c, k)]
    ensures Step(net, s, State([OwnMessage(c, k + 1)], s.log + [OwnMessage(c, k)]))
  {
    OwnContact(net, top, c, k + 1);
    var out := [OwnMessage(c, k + 1)];
    assert Reacts(net[c], c, OwnMessage(c, k), out);
    assert s.flight[..0] + s.flight[1..] + out == out;
    assert Delivers(net, s, 0, out, State(out, s.log + [OwnMessage(c, k)]));
  }

  lemma {:induction false} CarriedUp(net: Network, top: nat, c: NodeId, k: nat) returns (run: seq<State>, s: State)
    requires WellFormed(net, top) && IsTopContact(net, top, c) && k <= top
    ensures EndsIn(net, c, run, s) && s.flight == [OwnMessage(c, k)]
  {
    if k == 0 {
      OwnContact(net, top, c, 0);
      s := State([OwnMessage(c, 0)], []);
      run := [s];
    } else {
      run, s := CarriedUp(net, top, c, k - 1);
      ClimbsByItself(net, top, c, k - 1, s);
      var s' := State([OwnMessage(c, k)], s.log + [OwnMessage(c, k - 1)]);
      OneMore(net, c, run, s, s');
      run, s := run + [s'], s';
    }
  }

  lemma LaunchesByItself(net: Network, top: nat, c: NodeId, s: State) returns (s': State)
    requires WellFormed(net, top) && IsTopContact(net, top, c) && s.flight == [OwnMessage(c, top)]
    ensures Step(net, s, s') && OwnMessage(c, top) in s'.log && Launches(net[c], OwnMessage(c, top))
  {
    var out := DownSends(net[c], c, top);
    s' := State(s.flight[..0] + s.flight[1..] + out, s.log + [OwnMessage(c, top)]);
    assert Reacts(net[c], c, OwnMessage(c, top), out);
    assert Delivers(net, s, 0, out, s');
  }

  // ---------- Every run can be finished ----------

  lemma StepKeepsLog(net: Network, s: State, s': State, m: Msg)
    requires Step(net, s, s') && m in s.log
    ensures m in s'.log
  {
  }

  lemma {:induction false} Finish(net: Network, top: nat, origin: NodeId, run: seq<State>, s: State, m: Msg)
    returns (run': seq<State>, s': State)
    requires WellFormed(net, top) && EndsIn(net, origin, run, s) && m in s.log
    ensures EndsIn(net, origin, run', s') && s'.flight == [] && m in s'.log
    decreases Measure(net, top, s)
  {
    if s.flight == [] {
      run', s' := run, s;
    } else {
      RunKeepsInvariant(net, top, origin, run, |run| - 1);
      var next := MessagesCanBeDelivered(net, top, s, 0);
      StepDecreases(net, top, s, next);
      StepKeepsLog(net, s, next, m);
      OneMore(net, origin, run, s, next);
      run', s' := Finish(net, top, origin, run + [next], next, m);
    }
  }

  /** Any contact of the top ring launches the spread in some finished run. */
  lemma AnyContactLaunches(net: Network, top: nat, c: NodeId) returns (run: seq<State>, s: State)
    requires WellFormed(net, top) && IsTopContact(net, top, c)
    ensures EndsIn(net, c, run, s) && s.flight == [] && Quiescent(net, s, c)
  {
    run, s := CarriedUp(net, top, c, top);
    var s' := LaunchesByItself(net, top, c, s);
    OneMore(net, c, run, s, s');
    run, s := Finish(net, top, c, run + [s'], s', OwnMessage(c, top));
    RunKeepsInvariant(net, top, c, run, |run| - 1);
    var i :| 0 <= i < |s.log| && s.log[i] == OwnMessage(c, top);
    assert Launching(net)(s.log[i]) > 0;
  }

  // ---------- Main results ----------

  ghost predicate AlwaysOnce(net: Network) {
    forall origin, run: seq<State> :: IsRun(net, origin, run) && run[|run| - 1].flight == [] ==> EveryRingStartedOnce(net, run[|run| - 1])
  }

  /**
   * Every finished broadcast starts every ring exactly once if and only if, for each contact of the
   * top ring, each ring below the top has one member among its leads and that contact.
   */
  lemma AlwaysOnceIff(net: Network, top: nat)
    requires WellFormed(net, top)
    ensures AlwaysOnce(net) <==> forall c :: IsTopContact(net, top, c) ==> OneStarterEach(net, top, c)
  {
    if AlwaysOnce(net) {
      forall c | IsTopContact(net, top, c) ensures OneStarterEach(net, top, c) {
        var run, s := AnyContactLaunches(net, top, c);
        assert EveryRingStartedOnce(net, run[|run| - 1]);
        ExactlyOnceIff(net, top, s, c);
      }
    }
    if forall c :: IsTopContact(net, top, c) ==> OneStarterEach(net, top, c) {
      forall origin, run: seq<State> | IsRun(net, origin, run) && run[|run| - 1].flight == []
        ensures EveryRingStartedOnce(net, run[|run| - 1])
      {
        var launcher := RunDeliversOncePerRing(net, top, origin, run);
        assert IsTopContact(net, top, launcher);
      }
    }
  }

  /** With one lead for each ring: one level, or only leads among the contacts of the top ring. */
  lemma AlwaysOnceWithOneLead(net: Network, top: nat)
    requires WellFormed(net, top) && LedByOne(net, top)
    ensures AlwaysOnce(net) <==> top == 0 || forall c :: IsTopContact(net, top, c) ==> IsLead(c)
  {
    AlwaysOnceIff(net, top);
    forall c | IsTopContact(net, top, c) ensures OneStarterEach(net, top, c) <==> top == 0 || IsLead(c) {
      OneStarterIff(net, top, c);
    }
  }
}
