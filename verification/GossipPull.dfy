/**
 * Gossip in pull mode: a holder of data invites others by its hash, an invited node that lacks the
 * data requests it, and the holder sends it.  The hash is any function of the data.
 */
module GossipPull {
  import opened Options
  import WireFormat
  import opened GossipRun

  type Hash = string -> nat

  /** The text of a hash, by which data is stored and named. */
  function Label(hash: Hash, content: string): string {
    WireFormat.PrintNat(hash(content))
  }

  datatype Pull =
    | Invite(from: nat, to: nat, key: string)
    | Request(from: nat, to: nat, key: string)
    | Data(to: nat, text: string)

  /** `origins` is what was ever broadcast, `invited` who was ever invited to what. */
  datatype Net = Net(data: seq<map<string, string>>, flight: seq<Pull>, origins: set<string>, invited: set<(nat, string)>)

  function KeyOf(text: string): string {
    match WireFormat.Find(text, '|', 0)
    case None => text
    case Some(bar) => text[..bar]
  }

  function ContentOf(text: string): string {
    match WireFormat.Find(text, '|', 0)
    case None => text
    case Some(bar) => text[bar + 1..]
  }

  function Insert(held: map<string, string>, key: string, content: string): map<string, string> {
    if key in held then held else held[key := content]
  }

  function Invites(table: seq<nat>, x: nat, key: string, slots: seq<nat>): (out: seq<Pull>)
    requires forall i :: 0 <= i < |slots| ==> slots[i] < |table|
    ensures |out| == |slots| && forall i :: 0 <= i < |out| ==> out[i] == Invite(x, table[slots[i]], key)
  {
    seq(|slots|, i requires 0 <= i < |slots| => Invite(x, table[slots[i]], key))
  }

  /** Node `x` stores the content under `key` and invites the chosen slots to what it stored. */
  function Announce(tables: Tables, hash: Hash, s: Net, x: nat, key: string, content: string, slots: seq<nat>): Net
    requires TablesOk(tables) && |s.data| == |tables| && x < |tables| && Choice(slots)
  {
    var own := Label(hash, content);
    var out := Invites(tables[x], x, own, slots);
    Net(s.data[x := Insert(s.data[x], key, content)], s.flight + out, s.origins,
        s.invited + set m | m in out :: (m.to, own))
  }

  ghost predicate Fits(tables: Tables, s: Net) {
    && TablesOk(tables) && |s.data| == |tables|
    && forall m :: m in s.flight ==> m.to < |tables| && (!m.Data? ==> m.from < |tables|)
  }

  /** A node starts a broadcast of its own. */
  ghost predicate Publishes(tables: Tables, hash: Hash, s: Net, x: nat, content: string, slots: seq<nat>, s': Net) {
    && Fits(tables, s) && x < |tables| && Choice(slots)
    && s' == Announce(tables, hash, s.(origins := s.origins + {content}), x, Label(hash, content), content, slots)
  }

  function Rest(s: Net, i: nat): Net
    requires i < |s.flight|
  {
    s.(flight := s.flight[..i] + s.flight[i + 1..])
  }

  /** Message `i` is delivered; a request for data that is not held has no outcome at all. */
  ghost predicate Handles(tables: Tables, hash: Hash, s: Net, i: nat, slots: seq<nat>, s': Net) {
    && Fits(tables, s) && i < |s.flight| && Choice(slots)
    && var r := Rest(s, i);
       match s.flight[i]
       case Invite(from, to, key) =>
         s' == if key in s.data[to] then r else r.(flight := r.flight + [Request(to, from, key)])
       case Request(from, to, key) =>
         && KeyOf(key) in s.data[to]
         && s' == r.(flight := r.flight + [Data(from, key + "|" + s.data[to][KeyOf(key)])])
       case Data(to, text) =>
         s' == Announce(tables, hash, r, to, KeyOf(text), ContentOf(text), slots)
  }

  ghost predicate Step(tables: Tables, hash: Hash, s: Net, s': Net) {
    || (exists x, content, slots :: Publishes(tables, hash, s, x, content, slots, s'))
    || (exists i: nat, slots :: Handles(tables, hash, s, i, slots, s'))
  }

  ghost predicate IsRun(tables: Tables, hash: Hash, run: seq<Net>) {
    && TablesOk(tables) && run != []
    && run[0] == Net(seq(|tables|, _ => map[]), [], {}, {})
    && forall k :: 0 <= k < |run| - 1 ==> Step(tables, hash, run[k], run[k + 1])
  }

  // ---------- What every state satisfies ----------

  /** Every entry of a node holds broadcast content under the text of its hash. */
  ghost predicate DataOk(hash: Hash, s: Net) {
    forall x, key :: 0 <= x < |s.data| && key in s.data[x] ==>
                         s.data[x][key] in s.origins && key == Label(hash, s.data[x][key])
  }

  /** Messages name data their holder has; data is labelled with the text of its hash. */
  ghost predicate MsgOk(hash: Hash, s: Net, m: Pull) {
    match m
    case Invite(from, to, key) => from < |s.data| && key in s.data[from]
    case Request(from, to, key) => to < |s.data| && key in s.data[to]
    case Data(to, text) => exists content :: content in s.origins && text == Label(hash, content) + "|" + content
  }

  /** `y` gets the data `l` by way of message `m`. */
  ghost predicate Waits(m: Pull, y: nat, l: string) {
    match m
    case Invite(from, to, key) => to == y && key == l
    case Request(from, to, key) => from == y && key == l
    case Data(to, text) => to == y && KeyOf(text) == l
  }

  /** The data is on its way to the node. */
  ghost predicate Coming(s: Net, y: nat, key: string) {
    exists m :: m in s.flight && Waits(m, y, key)
  }

  /** Whatever a node was invited to it has, or is about to get. */
  ghost predicate InvitedOk(s: Net) {
    forall y, key :: (y, key) in s.invited ==> y < |s.data| && (key in s.data[y] || Coming(s, y, key))
  }

  ghost predicate Invariant(tables: Tables, hash: Hash, s: Net) {
    Fits(tables, s) && DataOk(hash, s) && (forall m :: m in s.flight ==> MsgOk(hash, s, m)) && InvitedOk(s)
  }

  /** The text of a hash holds no bar: it is all digits. */
  lemma LabelledText(hash: Hash, content: string)
    ensures var key := Label(hash, content);
            && KeyOf(key) == key
            && KeyOf(key + "|" + content) == key && ContentOf(key + "|" + content) == content
  {
    var key := Label(hash, content);
    WireFormat.NatRoundTrip(hash(content));
    WireFormat.BarFound(key, content);
  }

  lemma RestMembers(s: Net, i: nat, m: Pull)
    requires i < |s.flight|
    ensures m in Rest(s, i).flight ==> m in s.flight
    ensures m in s.flight && m != s.flight[i] ==> m in Rest(s, i).flight
  {
    var r := Rest(s, i).flight;
    if m in s.flight {
      var k :| 0 <= k < |s.flight| && s.flight[k] == m;
      assert k < i ==> r[k] == m;
      assert k > i ==> r[k - 1] == m;
    }
  }

  /** Storing keeps what is stored, adds at most the one entry, and invites to what is stored. */
  lemma AnnounceKeeps(tables: Tables, hash: Hash, s: Net, x: nat, content: string, slots: seq<nat>)
    requires Fits(tables, s) && DataOk(hash, s) && x < |tables| && Choice(slots) && content in s.origins
    ensures var key := Label(hash, content);
            var s' := Announce(tables, hash, s, x, key, content, slots);
            && Fits(tables, s') && DataOk(hash, s') && key in s'.data[x]
            && (forall y, l :: 0 <= y < |s.data| && l in s.data[y] ==> l in s'.data[y])
            && (forall m :: m in s'.flight ==> m in s.flight || MsgOk(hash, s', m))
            && (forall m :: m in s.flight ==> m in s'.flight)
            && (forall y, l :: (y, l) in s'.invited && (y, l) !in s.invited ==> y < |tables| && Coming(s', y, l))
  {
    var key := Label(hash, content);
    var s' := Announce(tables, hash, s, x, key, content, slots);
    var out := Invites(tables[x], x, key, slots);
    forall m | m in out ensures m == Invite(x, m.to, key) && m.to < |tables| && m in s'.flight {
      var j :| 0 <= j < |slots| && m == Invite(x, tables[x][slots[j]], key);
      assert tables[x][slots[j]] in tables[x];
    }
    forall y, l | (y, l) in s'.invited && (y, l) !in s.invited ensures y < |tables| && Coming(s', y, l) {
      var m :| m in out && (y, l) == (m.to, key);
    }
  }

  /** Messages stay right as long as holders keep what they hold. */
  lemma MsgStaysOk(hash: Hash, s: Net, s': Net, m: Pull)
    requires MsgOk(hash, s, m) && |s'.data| == |s.data| && s.origins <= s'.origins
    requires forall y, l :: 0 <= y < |s.data| && l in s.data[y] ==> l in s'.data[y]
    ensures MsgOk(hash, s', m)
  {
  }

  lemma PublishKeeps(tables: Tables, hash: Hash, s: Net, x: nat, content: string, slots: seq<nat>, s': Net)
    requires Invariant(tables, hash, s) && Publishes(tables, hash, s, x, content, slots, s')
    ensures Invariant(tables, hash, s')
  {
    var s0 := s.(origins := s.origins + {content});
    AnnounceKeeps(tables, hash, s0, x, content, slots);
    forall m | m in s'.flight ensures MsgOk(hash, s', m) {
      if m in s.flight {
        MsgStaysOk(hash, s, s', m);
      }
    }
    forall y, l | (y, l) in s.invited && l !in s'.data[y] ensures Coming(s', y, l) {
      var m :| m in s.flight && Waits(m, y, l);
      assert m in s'.flight;
    }
  }

  /** Handling a message: what becomes of those who waited for it is what has to be shown. */
  lemma HandledKeepsInvited(tables: Tables, s: Net, i: nat, s': Net)
    requires InvitedOk(s) && i < |s.flight| && |s'.data| == |s.data| == |tables|
    requires forall y, l :: 0 <= y < |s.data| && l in s.data[y] ==> l in s'.data[y]
    requires forall m :: m in Rest(s, i).flight ==> m in s'.flight
    requires forall y, l :: (y, l) in s'.invited && (y, l) !in s.invited ==> y < |tables| && Coming(s', y, l)
    requires forall y: nat, l :: y < |s.data| && Waits(s.flight[i], y, l) ==> l in s'.data[y] || Coming(s', y, l)
    ensures InvitedOk(s')
  {
    forall y, l | (y, l) in s.invited && l !in s'.data[y] ensures Coming(s', y, l) {
      var m :| m in s.flight && Waits(m, y, l);
      RestMembers(s, i, m);
      if m != s.flight[i] {
        assert m in s'.flight;
      }
    }
  }

  lemma HandledKeepsMessages(hash: Hash, s: Net, i: nat, s': Net)
    requires i < |s.flight| && |s'.data| == |s.data| && s'.origins == s.origins
    requires forall m :: m in s.flight ==> MsgOk(hash, s, m)
    requires forall y, l :: 0 <= y < |s.data| && l in s.data[y] ==> l in s'.data[y]
    requires forall m :: m in s'.flight ==> m in Rest(s, i).flight || MsgOk(hash, s', m)
    ensures forall m :: m in s'.flight ==> MsgOk(hash, s', m)
  {
    forall m | m in s'.flight ensures MsgOk(hash, s', m) {
      RestMembers(s, i, m);
      if m in s.flight {
        MsgStaysOk(hash, s, s', m);
      }
    }
  }

  lemma HandleKeeps(tables: Tables, hash: Hash, s: Net, i: nat, slots: seq<nat>, s': Net)
    requires Invariant(tables, hash, s) && Handles(tables, hash, s, i, slots, s')
    ensures Invariant(tables, hash, s')
  {
    var r, m := Rest(s, i), s.flight[i];
    assert m in s.flight && MsgOk(hash, s, m);
    forall k ensures k in r.flight ==> k in s.flight {
      RestMembers(s, i, k);
    }
    if m.Data? {
      var content :| content in s.origins && m.text == Label(hash, content) + "|" + content;
      LabelledText(hash, content);
      AnnounceKeeps(tables, hash, r, m.to, content, slots);
    } else if m.Request? {
      var content := s.data[m.to][m.key];
      LabelledText(hash, content);
      var d := Data(m.from, m.key + "|" + content);
      assert d in s'.flight && MsgOk(hash, s', d) && Waits(d, m.from, m.key);
    } else if m.key !in s.data[m.to] {
      assert Request(m.to, m.from, m.key) in s'.flight;
    }
    HandledKeepsInvited(tables, s, i, s');
    HandledKeepsMessages(hash, s, i, s');
  }

  lemma StepKeeps(tables: Tables, hash: Hash, s: Net, s': Net)
    requires Invariant(tables, hash, s) && Step(tables, hash, s, s')
    ensures Invariant(tables, hash, s')
  {
    if x, content, slots :| Publishes(tables, hash, s, x, content, slots, s') {
      PublishKeeps(tables, hash, s, x, content, slots, s');
    } else {
      var i: nat, slots :| Handles(tables, hash, s, i, slots, s');
      HandleKeeps(tables, hash, s, i, slots, s');
    }
  }

  /** Every state of every run is as described. */
  lemma {:induction false} RunKeeps(tables: Tables, hash: Hash, run: seq<Net>, k: nat)
    requires IsRun(tables, hash, run) && k < |run|
    ensures Invariant(tables, hash, run[k])
    decreases k
  {
    if k > 0 {
      RunKeeps(tables, hash, run, k - 1);
      StepKeeps(tables, hash, run[k - 1], run[k]);
    }
  }

  // ---------- Main results ----------

  /**
   * In every run a request finds what it asks for, so that every message can be handled, and data
   * messages carry broadcast content labelled with its own hash.
   */
  lemma RequestsAreAnswered(tables: Tables, hash: Hash, run: seq<Net>, i: nat) returns (s': Net)
    requires IsRun(tables, hash, run) && i < |run[|run| - 1].flight|
    ensures var s := run[|run| - 1]; var m := s.flight[i];
            && Step(tables, hash, s, s')
            && (m.Request? ==> m.to < |s.data| && KeyOf(m.key) in s.data[m.to])
            && (m.Data? ==> ContentOf(m.text) in s.origins && KeyOf(m.text) == Label(hash, ContentOf(m.text)))
  {
    var s := run[|run| - 1];
    RunKeeps(tables, hash, run, |run| - 1);
    var r, m, slots := Rest(s, i), s.flight[i], [1, 2];
    assert m in s.flight && MsgOk(hash, s, m);
    assert Choice(slots);
    match m
    case Invite(from, to, key) =>
      s' := if key in s.data[to] then r else r.(flight := r.flight + [Request(to, from, key)]);
      assert Handles(tables, hash, s, i, slots, s');
    case Request(from, to, key) =>
      LabelledText(hash, s.data[to][key]);
      s' := r.(flight := r.flight + [Data(from, key + "|" + s.data[to][KeyOf(key)])]);
      assert Handles(tables, hash, s, i, slots, s');
    case Data(to, text) =>
      var content :| content in s.origins && text == Label(hash, content) + "|" + content;
      LabelledText(hash, content);
      s' := Announce(tables, hash, r, to, KeyOf(text), ContentOf(text), slots);
      assert Handles(tables, hash, s, i, slots, s');
  }

  /** At rest every node has all data it was ever invited to, under the text of its hash. */
  lemma InvitedHave(tables: Tables, hash: Hash, run: seq<Net>, y: nat, key: string)
    requires IsRun(tables, hash, run) && run[|run| - 1].flight == [] && (y, key) in run[|run| - 1].invited
    ensures var s := run[|run| - 1];
            && y < |s.data| && key in s.data[y]
            && s.data[y][key] in s.origins && key == Label(hash, s.data[y][key])
  {
    RunKeeps(tables, hash, run, |run| - 1);
  }

  /** Every entry stays, with its content. */
  ghost predicate KeepsStored(s: Net, s': Net) {
    |s'.data| == |s.data| && forall x, key :: 0 <= x < |s.data| && key in s.data[x] ==> key in s'.data[x] && s'.data[x][key] == s.data[x][key]
  }

  lemma StoredOnce(tables: Tables, hash: Hash, s: Net, s': Net)
    requires Step(tables, hash, s, s')
    ensures KeepsStored(s, s')
  {
  }

  lemma {:induction false} KeepsStoredOn(run: seq<Net>, j: nat, k: nat)
    requires j <= k < |run| && forall i :: 0 < i < |run| ==> KeepsStored(run[i - 1], run[i])
    ensures KeepsStored(run[j], run[k])
    decreases k
  {
    if j < k {
      KeepsStoredOn(run, j, k - 1);
      assert KeepsStored(run[k - 1], run[k]);
    }
  }

  /** What is stored under a key stays there unchanged, even when other data with the same hash arrives. */
  lemma StoredStays(tables: Tables, hash: Hash, run: seq<Net>, j: nat, k: nat, x: nat, key: string)
    requires IsRun(tables, hash, run) && j <= k < |run| && x < |run[j].data| && key in run[j].data[x]
    ensures x < |run[k].data| && key in run[k].data[x] && run[k].data[x][key] == run[j].data[x][key]
  {
    forall i | 0 < i < |run| ensures KeepsStored(run[i - 1], run[i]) {
      assert Step(tables, hash, run[i - 1], run[i - 1 + 1]);
      StoredOnce(tables, hash, run[i - 1], run[i]);
    }
    KeepsStoredOn(run, j, k);
  }
}
