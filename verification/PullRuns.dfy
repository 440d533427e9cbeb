/**
 * Runs of gossip in pull mode: once nothing new is published they end, and when every sender
 * includes slot 0 every node then holds everything that was published.
 */
module PullRuns {
  import opened Options
  import opened Sums
  import opened GossipRun
  import opened GossipPull

  // ---------- What is left to do ----------

  predicate Holds(data: seq<map<string, string>>, x: nat, key: string) {
    x < |data| && key in data[x]
  }

  /**
   * What a message can still cause.  Data for a node that lacks it counts little: it makes one node
   * less that lacks something.
   */
  function WeightIn(data: seq<map<string, string>>, m: Pull): nat {
    match m
    case Invite(from, to, key) => if Holds(data, to, key) then 1 else 3
    case Request(from, to, key) => if Holds(data, from, key) then 11 else 2
    case Data(to, text) => if Holds(data, to, KeyOf(text)) then 10 else 1
  }

  function Weigh(data: seq<map<string, string>>): Pull -> nat {
    (m: Pull) => WeightIn(data, m)
  }

  /** Who lacks what was published. */
  ghost function Missing(hash: Hash, data: seq<map<string, string>>, origins: set<string>): set<(nat, string)> {
    set x, c | 0 <= x < |data| && c in origins && Label(hash, c) !in data[x] :: (x, Label(hash, c))
  }

  function Tens(u: nat): (p: nat)
    ensures p > 0
  {
    if u == 0 then 1 else 10 * Tens(u - 1)
  }

  /** A bound on the deliveries that follow. */
  ghost function Work(hash: Hash, s: Net): nat {
    Sum(s.flight, Weigh(s.data)) * Tens(|Missing(hash, s.data, s.origins)|)
  }

  // ---------- Every delivery leaves less to do ----------

  lemma RestSum(s: Net, i: nat, f: Pull -> nat)
    requires i < |s.flight|
    ensures Sum(s.flight, f) == Sum(Rest(s, i).flight, f) + f(s.flight[i])
  {
    SumWithout(s.flight, i, f);
  }

  lemma AddedSum(s: seq<Pull>, m: Pull, f: Pull -> nat)
    ensures Sum(s + [m], f) == Sum(s, f) + f(m)
  {
    SumConcat(s, [m], f);
    SumSingle(m, f);
  }

  /** An invitation or a request: the message that takes its place weighs less. */
  lemma AskingWeighsLess(tables: Tables, hash: Hash, s: Net, i: nat, slots: seq<nat>, s': Net)
    requires GossipPull.Invariant(tables, hash, s) && Handles(tables, hash, s, i, slots, s') && !s.flight[i].Data?
    ensures s'.data == s.data && s'.origins == s.origins
    ensures Sum(s'.flight, Weigh(s.data)) < Sum(s.flight, Weigh(s.data))
  {
    var m, f := s.flight[i], Weigh(s.data);
    RestSum(s, i, f);
    assert m in s.flight && MsgOk(hash, s, m);
    if m.Request? {
      var content := s.data[m.to][m.key];
      LabelledText(hash, content);
      AddedSum(Rest(s, i).flight, Data(m.from, m.key + "|" + content), f);
    } else if m.key !in s.data[m.to] {
      AddedSum(Rest(s, i).flight, Request(m.to, m.from, m.key), f);
    }
  }

  lemma {:induction false} AtMostEach(s: seq<Pull>, f: Pull -> nat, w: nat)
    requires forall m :: m in s ==> f(m) <= w
    ensures Sum(s, f) <= w * |s|
  {
    if s != [] {
      AtMostEach(s[1..], f, w);
    }
  }

  lemma {:induction false} AtMostTenfold(s: seq<Pull>, f: Pull -> nat, g: Pull -> nat)
    requires forall m :: m in s ==> g(m) <= 10 * f(m)
    ensures Sum(s, g) <= 10 * Sum(s, f)
  {
    if s != [] {
      AtMostTenfold(s[1..], f, g);
    }
  }

  /** What an announcement sends weighs at most nine. */
  lemma AnnouncedWeight(tables: Tables, x: nat, key: string, slots: seq<nat>, before: seq<Pull>, data: seq<map<string, string>>)
    requires TablesOk(tables) && x < |tables| && Choice(slots)
    ensures Sum(before + Invites(tables[x], x, key, slots), Weigh(data)) <= Sum(before, Weigh(data)) + 9
  {
    var out := Invites(tables[x], x, key, slots);
    SumConcat(before, out, Weigh(data));
    AtMostEach(out, Weigh(data), 3);
  }

  /** Data that its receiver has already. */
  lemma KnownDataWeighsLess(tables: Tables, hash: Hash, s: Net, i: nat, slots: seq<nat>, s': Net)
    requires Handles(tables, hash, s, i, slots, s') && s.flight[i].Data?
    requires Holds(s.data, s.flight[i].to, KeyOf(s.flight[i].text))
    ensures s'.data == s.data && s'.origins == s.origins
    ensures Sum(s'.flight, Weigh(s.data)) < Sum(s.flight, Weigh(s.data))
  {
    var m := s.flight[i];
    RestSum(s, i, Weigh(s.data));
    assert s'.data == s.data;
    AnnouncedWeight(tables, m.to, Label(hash, ContentOf(m.text)), slots, Rest(s, i).flight, s.data);
  }

  /** Data that is new to its receiver. */
  lemma NewDataGrows(tables: Tables, hash: Hash, s: Net, i: nat, slots: seq<nat>, s': Net)
    requires Handles(tables, hash, s, i, slots, s') && s.flight[i].Data?
    requires !Holds(s.data, s.flight[i].to, KeyOf(s.flight[i].text))
    ensures Sum(s'.flight, Weigh(s'.data)) < 10 * Sum(s.flight, Weigh(s.data))
  {
    var m := s.flight[i];
    var r := Rest(s, i).flight;
    RestSum(s, i, Weigh(s.data));
    AnnouncedWeight(tables, m.to, Label(hash, ContentOf(m.text)), slots, r, s'.data);
    forall k | k in r ensures Weigh(s'.data)(k) <= 10 * Weigh(s.data)(k) {
      assert forall x, key :: Holds(s.data, x, key) ==> Holds(s'.data, x, key);
    }
    AtMostTenfold(r, Weigh(s.data), Weigh(s'.data));
  }

  lemma NewDataMissedLess(tables: Tables, hash: Hash, s: Net, i: nat, slots: seq<nat>, s': Net)
    requires GossipPull.Invariant(tables, hash, s) && Handles(tables, hash, s, i, slots, s') && s.flight[i].Data?
    requires !Holds(s.data, s.flight[i].to, KeyOf(s.flight[i].text))
    ensures |Missing(hash, s'.data, s'.origins)| < |Missing(hash, s.data, s.origins)|
  {
    var m := s.flight[i];
    assert m in s.flight && MsgOk(hash, s, m);
    var c :| c in s.origins && m.text == Label(hash, c) + "|" + c;
    LabelledText(hash, c);
    var gone := (m.to, Label(hash, c));
    var before, after := Missing(hash, s.data, s.origins), Missing(hash, s'.data, s'.origins);
    assert gone in before && gone !in after;
    assert after <= before - {gone};
    SubsetSize(after, before - {gone});
  }

  lemma {:induction false} SubsetSize<T>(a: set<T>, b: set<T>)
    requires a <= b
    ensures |a| <= |b|
  {
    assert b == a + (b - a);
  }

  lemma {:induction false} TensMonotone(u: nat, v: nat)
    requires u <= v
    ensures Tens(u) <= Tens(v)
    decreases v
  {
    if u < v {
      TensMonotone(u, v - 1);
    }
  }

  lemma LessWork(w: nat, w': nat, t: nat)
    requires w' < w && t > 0
    ensures w' * t < w * t
  {
    assert w * t == w' * t + (w - w') * t;
  }

  lemma SameMissing(hash: Hash, s: Net, s': Net)
    requires s'.data == s.data && s'.origins == s.origins && Sum(s'.flight, Weigh(s.data)) < Sum(s.flight, Weigh(s.data))
    ensures Work(hash, s') < Work(hash, s)
  {
    LessWork(Sum(s.flight, Weigh(s.data)), Sum(s'.flight, Weigh(s.data)), Tens(|Missing(hash, s.data, s.origins)|));
  }

  lemma FewerMissing(hash: Hash, s: Net, s': Net)
    requires |Missing(hash, s'.data, s'.origins)| < |Missing(hash, s.data, s.origins)|
    requires Sum(s'.flight, Weigh(s'.data)) < 10 * Sum(s.flight, Weigh(s.data))
    ensures Work(hash, s') < Work(hash, s)
  {
    var u, u' := |Missing(hash, s.data, s.origins)|, |Missing(hash, s'.data, s'.origins)|;
    TensMonotone(u', u - 1);
    TenfoldWork(Sum(s.flight, Weigh(s.data)), Sum(s'.flight, Weigh(s'.data)), u, u');
  }

  /** Some message is delivered. */
  ghost predicate Delivers(tables: Tables, hash: Hash, s: Net, s': Net) {
    exists i: nat, slots :: Handles(tables, hash, s, i, slots, s')
  }

  /** Every delivery leaves strictly less to do. */
  lemma DeliveryLeavesLess(tables: Tables, hash: Hash, s: Net, s': Net)
    requires GossipPull.Invariant(tables, hash, s) && Delivers(tables, hash, s, s')
    ensures Work(hash, s') < Work(hash, s)
  {
    var i: nat, slots :| Handles(tables, hash, s, i, slots, s');
    var m := s.flight[i];
    if !m.Data? {
      AskingWeighsLess(tables, hash, s, i, slots, s');
      SameMissing(hash, s, s');
    } else if Holds(s.data, m.to, KeyOf(m.text)) {
      KnownDataWeighsLess(tables, hash, s, i, slots, s');
      SameMissing(hash, s, s');
    } else {
      NewDataGrows(tables, hash, s, i, slots, s');
      NewDataMissedLess(tables, hash, s, i, slots, s');
      FewerMissing(hash, s, s');
    }
  }

  lemma TenfoldWork(w: nat, w': nat, u: nat, u': nat)
    requires w' < 10 * w && u' < u && Tens(u') <= Tens(u - 1)
    ensures w' * Tens(u') < w * Tens(u)
  {
    LessWork(10 * w, w', Tens(u'));
    assert (10 * w) * Tens(u') <= (10 * w) * Tens(u - 1);
    assert (10 * w) * Tens(u - 1) == w * (10 * Tens(u - 1));
  }

  // ---------- Main results ----------

  /** From the state with number `k` on only messages are delivered. */
  ghost predicate OnlyDelivers(tables: Tables, hash: Hash, run: seq<Net>, k: nat) {
    forall j :: k <= j < |run| - 1 ==> Delivers(tables, hash, run[j], run[j + 1])
  }

  lemma {:induction false} Descends(works: seq<nat>, k: nat, n: nat)
    requires k <= n < |works| && forall j :: k < j < |works| ==> works[j] < works[j - 1]
    ensures n - k + works[n] <= works[k]
    decreases n
  {
    if k < n {
      Descends(works, k, n - 1);
    }
  }

  lemma WorkDescends(tables: Tables, hash: Hash, run: seq<Net>, k: nat, j: nat)
    requires GossipPull.IsRun(tables, hash, run) && OnlyDelivers(tables, hash, run, k) && k < j < |run|
    ensures Work(hash, run[j]) < Work(hash, run[j - 1])
  {
    GossipPull.RunKeeps(tables, hash, run, j - 1);
    assert Delivers(tables, hash, run[j - 1], run[j - 1 + 1]);
    DeliveryLeavesLess(tables, hash, run[j - 1], run[j]);
  }

  /**
   * Once nothing new is published, no run goes on for longer than the weight of the messages in
   * flight allows: nobody requests data it holds.
   */
  lemma PullTerminates(tables: Tables, hash: Hash, run: seq<Net>, k: nat)
    requires GossipPull.IsRun(tables, hash, run) && k < |run| && OnlyDelivers(tables, hash, run, k)
    ensures |run| - 1 - k <= Sum(run[k].flight, Weigh(run[k].data)) * Tens(|Missing(hash, run[k].data, run[k].origins)|)
  {
    var works: seq<nat> := seq(|run|, j requires 0 <= j < |run| => Work(hash, run[j]));
    forall j | k < j < |works| ensures works[j] < works[j - 1] {
      WorkDescends(tables, hash, run, k, j);
    }
    Descends(works, k, |run| - 1);
  }

  // ---------- When every sender includes slot 0 ----------

  ghost predicate StepOffersFirst(tables: Tables, hash: Hash, s: Net, s': Net) {
    || (exists x, content, slots :: Publishes(tables, hash, s, x, content, slots, s') && 0 in slots)
    || (exists i: nat, slots :: Handles(tables, hash, s, i, slots, s') && 0 in slots)
  }

  ghost predicate OffersFirst(tables: Tables, hash: Hash, run: seq<Net>) {
    GossipPull.IsRun(tables, hash, run) && forall k :: 0 <= k < |run| - 1 ==> StepOffersFirst(tables, hash, run[k], run[k + 1])
  }

  /** Who holds data has invited slot 0 to it; what was published somebody holds. */
  ghost predicate PassedOn(tables: Tables, hash: Hash, s: Net) {
    && TablesOk(tables) && |s.data| == |tables|
    && (forall x, key :: 0 <= x < |tables| && key in s.data[x] ==> (tables[x][0], key) in s.invited)
    && (forall c :: c in s.origins ==> exists x :: 0 <= x < |tables| && Label(hash, c) in s.data[x])
  }

  lemma AnnouncePassesOn(tables: Tables, hash: Hash, s: Net, x: nat, content: string, slots: seq<nat>, s': Net)
    requires TablesOk(tables) && |s.data| == |tables| && x < |tables| && Choice(slots) && 0 in slots
    requires s' == Announce(tables, hash, s, x, Label(hash, content), content, slots)
    requires forall x, key :: 0 <= x < |tables| && key in s.data[x] ==> (tables[x][0], key) in s.invited
    requires forall c :: c in s.origins && c != content ==> exists x :: 0 <= x < |tables| && Label(hash, c) in s.data[x]
    ensures PassedOn(tables, hash, s')
  {
    var own := Label(hash, content);
    var out := Invites(tables[x], x, own, slots);
    var j :| 0 <= j < |slots| && slots[j] == 0;
    assert out[j] == Invite(x, tables[x][0], own) && out[j] in out;
    assert own in s'.data[x];
    forall c | c in s'.origins ensures exists y :: 0 <= y < |tables| && Label(hash, c) in s'.data[y] {
      if c != content {
        var y :| 0 <= y < |tables| && Label(hash, c) in s.data[y];
        assert Label(hash, c) in s'.data[y];
      }
    }
  }

  lemma HandlePassesOn(tables: Tables, hash: Hash, s: Net, i: nat, slots: seq<nat>, s': Net)
    requires GossipPull.Invariant(tables, hash, s) && PassedOn(tables, hash, s) && Handles(tables, hash, s, i, slots, s') && 0 in slots
    ensures PassedOn(tables, hash, s')
  {
    var m := s.flight[i];
    if m.Data? {
      assert m in s.flight && MsgOk(hash, s, m);
      var content :| content in s.origins && m.text == Label(hash, content) + "|" + content;
      LabelledText(hash, content);
      AnnouncePassesOn(tables, hash, Rest(s, i), m.to, content, slots, s');
    }
  }

  lemma StepPassesOn(tables: Tables, hash: Hash, s: Net, s': Net)
    requires GossipPull.Invariant(tables, hash, s) && PassedOn(tables, hash, s) && StepOffersFirst(tables, hash, s, s')
    ensures PassedOn(tables, hash, s')
  {
    if x, content, slots :| Publishes(tables, hash, s, x, content, slots, s') && 0 in slots {
      AnnouncePassesOn(tables, hash, s.(origins := s.origins + {content}), x, content, slots, s');
    } else {
      var i: nat, slots :| Handles(tables, hash, s, i, slots, s') && 0 in slots;
      HandlePassesOn(tables, hash, s, i, slots, s');
    }
  }

  lemma StartPassesOn(tables: Tables, hash: Hash, run: seq<Net>)
    requires GossipPull.IsRun(tables, hash, run)
    ensures PassedOn(tables, hash, run[0])
  {
  }

  lemma {:induction false} RunPassesOn(tables: Tables, hash: Hash, run: seq<Net>, k: nat)
    requires OffersFirst(tables, hash, run) && k < |run|
    ensures PassedOn(tables, hash, run[k])
    decreases k
  {
    if k == 0 {
      StartPassesOn(tables, hash, run);
    } else {
      RunPassesOn(tables, hash, run, k - 1);
      GossipPull.RunKeeps(tables, hash, run, k - 1);
      assert StepOffersFirst(tables, hash, run[k - 1], run[k - 1 + 1]);
      StepPassesOn(tables, hash, run[k - 1], run[k]);
    }
  }

  lemma {:induction false} AlongHolds(tables: Tables, hash: Hash, run: seq<Net>, x: nat, key: string, d: nat)
    requires OffersFirst(tables, hash, run) && NextFirst(tables) && run[|run| - 1].flight == []
    requires x < |tables| && d <= |tables| && |run[|run| - 1].data| == |tables| && key in run[|run| - 1].data[x]
    ensures Along(|tables|, x, d) < |tables| && key in run[|run| - 1].data[Along(|tables|, x, d)]
    decreases d
  {
    AlongIs(|tables|, x, d);
    if d > 0 {
      AlongHolds(tables, hash, run, x, key, d - 1);
      RunPassesOn(tables, hash, run, |run| - 1);
      InvitedHave(tables, hash, run, Along(|tables|, x, d), key);
    }
  }

  /**
   * If every sender includes its slot 0, then at rest every node holds, under the text of its hash,
   * everything that was published.
   */
  lemma EveryNodeHolds(tables: Tables, hash: Hash, run: seq<Net>, content: string, y: nat)
    requires OffersFirst(tables, hash, run) && NextFirst(tables) && run[|run| - 1].flight == []
    requires content in run[|run| - 1].origins && y < |tables|
    ensures y < |run[|run| - 1].data| && Label(hash, content) in run[|run| - 1].data[y]
  {
    RunPassesOn(tables, hash, run, |run| - 1);
    var x :| 0 <= x < |tables| && Label(hash, content) in run[|run| - 1].data[x];
    var d := if y >= x then y - x else y + |tables| - x;
    AlongIs(|tables|, x, d);
    AlongHolds(tables, hash, run, x, Label(hash, content), d);
  }
}
