/** The text a message is sent as, and how the receiver takes it apart. */
module WireFormat {
  import opened Options

  /** `sentIds` lists the set of ids the sender attaches, in the order of its iteration. */
  datatype Wire = Wire(sender: string, receiver: string, broadcast: string, id: string,
                       kind: int, level: int, order: int, sentIds: seq<string>, payload: string)

  /** What the receiver makes of it. */
  datatype Parsed = Parsed(sender: string, receiver: string, broadcast: string, id: string,
                           kind: int, level: int, order: int, sentIds: set<string>, payload: string)

  // ---------- Numbers ----------

  function Digit(d: nat): char
    requires d < 10
  {
    ['0', '1', '2', '3', '4', '5', '6', '7', '8', '9'][d]
  }

  predicate IsDigit(c: char) {
    '0' <= c <= '9'
  }

  function DigitValue(c: char): (d: nat)
    requires IsDigit(c)
    ensures d < 10
  {
    c as int - '0' as int
  }

  function PrintNat(n: nat): (s: string)
    ensures s != []
  {
    if n < 10 then [Digit(n)] else PrintNat(n / 10) + [Digit(n % 10)]
  }

  function PrintInt(n: int): string {
    if n < 0 then "-" + PrintNat(-n) else PrintNat(n)
  }

  /** The number of leading digits. */
  function DigitCount(s: string): (k: nat)
    ensures k <= |s|
  {
    if s != [] && IsDigit(s[0]) then 1 + DigitCount(s[1..]) else 0
  }

  function Value(s: string): nat
    requires forall i :: 0 <= i < |s| ==> IsDigit(s[i])
  {
    if s == [] then 0 else 10 * Value(s[..|s| - 1]) + DigitValue(s[|s| - 1])
  }

  lemma {:induction false} LeadingAreDigits(s: string)
    ensures forall i :: 0 <= i < DigitCount(s) ==> IsDigit(s[i])
  {
    if s != [] && IsDigit(s[0]) {
      LeadingAreDigits(s[1..]);
      forall i | 0 < i < DigitCount(s) ensures IsDigit(s[i]) {
        assert s[i] == s[1..][i - 1];
      }
    }
  }

  /** An optional sign and the digits behind it; None stands for the exception when there are none. */
  function ReadInt(s: string): Option<int> {
    var signed := s != [] && (s[0] == '-' || s[0] == '+');
    var t := if signed then s[1..] else s;
    LeadingAreDigits(t);
    if DigitCount(t) == 0 then None
    else
      var n: int := Value(t[..DigitCount(t)]);
      Some(if signed && s[0] == '-' then -n else n)
  }

  lemma {:induction false} AllDigits(s: string)
    requires forall i :: 0 <= i < |s| ==> IsDigit(s[i])
    ensures DigitCount(s) == |s|
  {
    if s != [] {
      AllDigits(s[1..]);
    }
  }

  lemma {:induction false} NatRoundTrip(n: nat)
    ensures forall i :: 0 <= i < |PrintNat(n)| ==> IsDigit(PrintNat(n)[i])
    ensures Value(PrintNat(n)) == n
    decreases n
  {
    if n < 10 {
      assert [Digit(n)][..0] == [];
    } else {
      NatRoundTrip(n / 10);
      var s := PrintNat(n);
      assert s[..|s| - 1] == PrintNat(n / 10);
    }
  }

  /** Reading back a printed number; there is no comma in it. */
  lemma IntRoundTrip(n: int)
    ensures ReadInt(PrintInt(n)) == Some(n) && NoneOf(PrintInt(n), ',')
  {
    var t := PrintNat(if n < 0 then -n else n);
    NatRoundTrip(if n < 0 then -n else n);
    AllDigits(t);
    assert t[..|t|] == t;
    if n < 0 {
      assert PrintInt(n)[1..] == t;
    }
  }

  lemma {:induction false} DigitsInFront(s: string, t: string)
    requires (forall i :: 0 <= i < |s| ==> IsDigit(s[i])) && (t == "" || !IsDigit(t[0]))
    ensures DigitCount(s + t) == |s|
    decreases |s|
  {
    if s == [] {
      assert s + t == t;
    } else {
      assert (s + t)[1..] == s[1..] + t;
      DigitsInFront(s[1..], t);
    }
  }

  /** A number is read with either sign or none, up to the first character that is no digit. */
  lemma ReadsNumber(n: nat, t: string)
    requires t == "" || !IsDigit(t[0])
    ensures ReadInt(PrintNat(n) + t) == Some(n) && ReadInt("+" + (PrintNat(n) + t)) == Some(n)
    ensures ReadInt("-" + (PrintNat(n) + t)).Some? && n + ReadInt("-" + (PrintNat(n) + t)).value == 0
  {
    var s := PrintNat(n);
    NatRoundTrip(n);
    DigitsInFront(s, t);
    assert (s + t)[..|s|] == s;
    assert ("+" + (s + t))[1..] == s + t && ("-" + (s + t))[1..] == s + t;
  }

  /** Reading fails exactly when no digit comes first, or second behind a sign. */
  lemma ReadFailsIff(s: string)
    ensures ReadInt(s) == None <==>
              s == "" || (!IsDigit(s[0]) && (|s| == 1 || (s[0] != '-' && s[0] != '+') || !IsDigit(s[1])))
  {
  }

  // ---------- Fields ----------

  ghost predicate NoneOf(s: string, c: char) {
    forall i :: 0 <= i < |s| ==> s[i] != c
  }

  /** The first position of `c` from `start` on. */
  function Find(s: string, c: char, start: nat): (p: Option<nat>)
    requires start <= |s|
    ensures p.Some? ==> start <= p.value < |s| && s[p.value] == c && forall i :: start <= i < p.value ==> s[i] != c
    ensures p.None? ==> forall i :: start <= i < |s| ==> s[i] != c
    decreases |s| - start
  {
    if start == |s| then None else if s[start] == c then Some(start) else Find(s, c, start + 1)
  }

  /** The field at `start` and where the next one starts: at 0 again, when there is no comma behind it. */
  function ReadField(s: string, start: nat): (r: (string, nat))
    requires start <= |s|
    ensures r.1 <= |s|
  {
    match Find(s, ',', start)
    case None => (s[start..], 0)
    case Some(end) => (s[start..end], end + 1)
  }

  function ReadFields(s: string, start: nat, n: nat): (r: (seq<string>, nat))
    requires start <= |s|
    ensures |r.0| == n && r.1 <= |s|
    decreases n
  {
    if n == 0 then ([], start)
    else
      var (field, next) := ReadField(s, start);
      var (fields, end) := ReadFields(s, next, n - 1);
      ([field] + fields, end)
  }

  function WithCommas(fields: seq<string>): string {
    if fields == [] then "" else fields[0] + ("," + WithCommas(fields[1..]))
  }

  lemma FieldRoundTrip(s: string, start: nat, field: string, rest: string)
    requires start <= |s| && s[start..] == field + ("," + rest) && NoneOf(field, ',')
    ensures start + |field| + 1 <= |s| && s[start + |field| + 1..] == rest
    ensures ReadField(s, start) == (field, start + |field| + 1) && Find(s, ',', start) == Some(start + |field|)
    ensures s[start..start + |field|] == field
  {
    var t, end := s[start..], start + |field|;
    assert |s| == start + |t| && t[|field|] == ',' && s[end] == ',';
    forall i | start <= i < end ensures s[i] != ',' {
      assert s[i] == t[i - start] == field[i - start];
    }
    assert s[start..end] == t[..|field|] == field;
    assert s[end + 1..] == t[|field| + 1..] == rest;
  }

  lemma OneField(s: string, start: nat, field: string, behind: string, rest: string)
    requires start <= |s| && s[start..] == (field + ("," + behind)) + rest && NoneOf(field, ',')
    ensures start + |field| + 1 <= |s| && ReadField(s, start) == (field, start + |field| + 1)
    ensures s[start + |field| + 1..] == behind + rest
  {
    assert (field + ("," + behind)) + rest == field + ("," + (behind + rest));
    FieldRoundTrip(s, start, field, behind + rest);
  }

  /** Reading one field and then the others is reading them all. */
  lemma FieldThenFields(s: string, start: nat, next: nat, field: string, others: seq<string>, end: nat)
    requires start <= |s| && next <= |s| && ReadField(s, start) == (field, next)
    requires ReadFields(s, next, |others|) == (others, end)
    ensures ReadFields(s, start, |others| + 1) == ([field] + others, end)
  {
  }

  lemma {:induction false} FieldsRoundTrip(s: string, start: nat, fields: seq<string>, rest: string)
    requires start <= |s| && s[start..] == WithCommas(fields) + rest
    requires forall i :: 0 <= i < |fields| ==> NoneOf(fields[i], ',')
    ensures var end := start + |WithCommas(fields)|;
            end <= |s| && ReadFields(s, start, |fields|) == (fields, end) && s[end..] == rest
    decreases |fields|
  {
    if fields == [] {
      assert "" + rest == rest;
    } else {
      var field, others := fields[0], fields[1..];
      var next := start + |field| + 1;
      OneField(s, start, field, WithCommas(others), rest);
      FieldsRoundTrip(s, next, others, rest);
      FieldThenFields(s, start, next, field, others, next + |WithCommas(others)|);
      assert [field] + others == fields;
    }
  }

  // ---------- The attached ids ----------

  /** The ids with a comma behind each, the last comma taken off again. */
  function JoinIds(ids: seq<string>): string {
    var s := WithCommas(ids);
    if s == "" then "" else s[..|s| - 1]
  }

  /** The ids from `start` on; a last one of a single character is overlooked. */
  function IdsFrom(s: string, start: nat): set<string>
    requires start <= |s|
    decreases |s| - start
  {
    match Find(s, ',', start)
    case Some(end) => {s[start..end]} + IdsFrom(s, end + 1)
    case None => if start == |s| - 1 || start == |s| then {} else {s[start..]}
  }

  method PrintIds(ids: seq<string>) returns (s: string)
    ensures s == JoinIds(ids)
  {
    s := "";
    var i := 0;
    assert ids[0..] == ids;
    while i < |ids|
      invariant 0 <= i <= |ids| && s + WithCommas(ids[i..]) == WithCommas(ids)
    {
      assert ids[i..][0] == ids[i] && ids[i..][1..] == ids[i + 1..];
      s := s + ids[i] + ",";
      i := i + 1;
    }
    assert s + "" == s;
    if |s| > 0 {
      s := s[..|s| - 1];
    }
  }

  method ReadIds(s: string) returns (ids: set<string>)
    ensures ids == IdsFrom(s, 0)
  {
    ids := {};
    var start := 0;
    var end := Find(s, ',', 0);
    while end.Some?
      invariant start <= |s| && end == Find(s, ',', start) && ids + IdsFrom(s, start) == IdsFrom(s, 0)
      decreases |s| - start
    {
      ids := ids + {s[start..end.value]};
      start := end.value + 1;
      end := Find(s, ',', start);
    }
    if start != |s| - 1 {
      var id := s[start..];
      if |id| != 0 {
        ids := ids + {id};
      }
    }
  }

  ghost function Members(ids: seq<string>): set<string> {
    set x | x in ids
  }

  lemma JoinCons(ids: seq<string>) returns (rest: string)
    requires |ids| > 1
    ensures rest == JoinIds(ids[1..]) && JoinIds(ids) == ids[0] + ("," + rest)
  {
    var t := WithCommas(ids[1..]);
    assert |t| > 0;
    rest := t[..|t| - 1];
    var s := ids[0] + ("," + t);
    assert s[..|s| - 1] == ids[0] + ("," + rest);
  }

  lemma JoinOne(id: string)
    ensures JoinIds([id]) == id
  {
    assert WithCommas([id]) == id + ("," + "");
    assert (id + ("," + ""))[..|id|] == id;
  }

  lemma LastIdRead(s: string, start: nat, id: string)
    requires start <= |s| && s[start..] == id && NoneOf(id, ',')
    ensures IdsFrom(s, start) == if |id| >= 2 then {id} else {}
  {
    forall i | start <= i < |s| ensures s[i] != ',' {
      assert s[i] == s[start..][i - start];
    }
  }

  lemma NextIdRead(s: string, start: nat, id: string, rest: string) returns (next: nat)
    requires start <= |s| && s[start..] == id + ("," + rest) && NoneOf(id, ',')
    ensures start < next <= |s| && s[next..] == rest && IdsFrom(s, start) == {id} + IdsFrom(s, next)
  {
    FieldRoundTrip(s, start, id, rest);
    next := start + |id| + 1;
  }

  lemma {:induction false} IdsRead(s: string, start: nat, ids: seq<string>)
    requires start <= |s| && s[start..] == JoinIds(ids)
    requires ids != [] && forall i :: 0 <= i < |ids| ==> NoneOf(ids[i], ',')
    ensures IdsFrom(s, start) == Arriving(ids)
    decreases |ids|
  {
    if |ids| == 1 {
      OnlyIdRead(s, start, ids, ids[0]);
    } else {
      var next := FirstIdRead(s, start, ids);
      IdsRead(s, next, ids[1..]);
      MoreArriving(ids, IdsFrom(s, start), IdsFrom(s, next));
    }
  }

  lemma OnlyIdRead(s: string, start: nat, ids: seq<string>, id: string)
    requires start <= |s| && s[start..] == JoinIds(ids) && |ids| == 1 && ids[0] == id && NoneOf(id, ',')
    ensures IdsFrom(s, start) == Arriving(ids)
  {
    ArrivingOne(ids, id);
    LastIdRead(s, start, id);
  }

  lemma FirstIdRead(s: string, start: nat, ids: seq<string>) returns (next: nat)
    requires start <= |s| && s[start..] == JoinIds(ids) && |ids| > 1 && NoneOf(ids[0], ',')
    ensures start < next <= |s| && s[next..] == JoinIds(ids[1..])
    ensures IdsFrom(s, start) == {ids[0]} + IdsFrom(s, next)
  {
    var rest := JoinCons(ids);
    next := NextIdRead(s, start, ids[0], rest);
  }

  /** All ids but the last, and the last if it has two characters or more. */
  ghost function Arriving(ids: seq<string>): set<string>
    requires ids != []
  {
    Members(ids[..|ids| - 1]) + if |ids[|ids| - 1]| >= 2 then {ids[|ids| - 1]} else {}
  }

  lemma ArrivingOne(ids: seq<string>, id: string)
    requires |ids| == 1 && ids[0] == id
    ensures JoinIds(ids) == id && Arriving(ids) == if |id| >= 2 then {id} else {}
  {
    assert ids == [id];
    JoinOne(id);
    assert Members(ids[..0]) == {};
  }

  lemma MoreArriving(ids: seq<string>, read: set<string>, rest: set<string>)
    requires |ids| > 1 && read == {ids[0]} + rest && rest == Arriving(ids[1..])
    ensures read == Arriving(ids)
  {
    MembersCons(ids);
  }

  lemma MembersCons(ids: seq<string>)
    requires |ids| > 1
    ensures ids[1..][|ids[1..]| - 1] == ids[|ids| - 1]
    ensures Members(ids[..|ids| - 1]) == {ids[0]} + Members(ids[1..][..|ids[1..]| - 1])
  {
    var others := ids[..|ids| - 1];
    assert others == [ids[0]] + ids[1..][..|ids[1..]| - 1];
  }

  /** Attached ids arrive exactly when the one listed last has two characters or more. */
  lemma IdsArriveIff(ids: seq<string>)
    requires forall i :: 0 <= i < |ids| ==> NoneOf(ids[i], ',')
    requires forall i, j :: 0 <= i < j < |ids| ==> ids[i] != ids[j]
    ensures IdsFrom(JoinIds(ids), 0) == Members(ids) <==> ids == [] || |ids[|ids| - 1]| >= 2
  {
    if ids != [] {
      assert JoinIds(ids)[0..] == JoinIds(ids);
      IdsRead(JoinIds(ids), 0, ids);
      AllArriveIff(ids);
    }
  }

  /** Of the ids of two nodes, the second of one character, only the first arrives. */
  lemma ShortIdIsLost()
    ensures IdsFrom(JoinIds(["ab", "7"]), 0) != Members(["ab", "7"])
  {
    IdsArriveIff(["ab", "7"]);
  }

  lemma AllArriveIff(ids: seq<string>)
    requires ids != [] && forall i, j :: 0 <= i < j < |ids| ==> ids[i] != ids[j]
    ensures Arriving(ids) == Members(ids) <==> |ids[|ids| - 1]| >= 2
  {
    LastOfAll(ids, ids[..|ids| - 1], ids[|ids| - 1]);
  }

  lemma LastOfAll(ids: seq<string>, others: seq<string>, last: string)
    requires ids == others + [last]
    requires forall i, j :: 0 <= i < j < |ids| ==> ids[i] != ids[j]
    ensures Members(ids) == Members(others) + {last} && last !in Members(others) && last in Members(ids)
  {
    assert ids[|others|] == last;
    forall x ensures x in ids <==> x in others || x == last {
    }
    assert forall i :: 0 <= i < |others| ==> others[i] == ids[i];
  }

  // ---------- Messages ----------

  function Fields(m: Wire): seq<string> {
    [m.sender, m.receiver, m.broadcast, m.id, PrintInt(m.kind), PrintInt(m.level), PrintInt(m.order)]
  }

  function Print(m: Wire): string {
    WithCommas(Fields(m)) + (JoinIds(m.sentIds) + "|" + m.payload)
  }

  /** The attached ids stand before the first bar, the payload behind it. */
  function IdsText(text: string): string {
    match Find(text, '|', 0)
    case None => text
    case Some(bar) => text[..bar]
  }

  function PayloadText(text: string): string {
    match Find(text, '|', 0)
    case None => text
    case Some(bar) => text[bar + 1..]
  }

  /** None stands for the exception when a number cannot be read. */
  function ParseFields(fs: seq<string>, ids: set<string>, payload: string): Option<Parsed>
    requires |fs| == 7
  {
    match (ReadInt(fs[4]), ReadInt(fs[5]), ReadInt(fs[6]))
    case (Some(kind), Some(level), Some(order)) =>
      Some(Parsed(fs[0], fs[1], fs[2], fs[3], kind, level, order, ids, payload))
    case _ => None
  }

  function Parse(s: string): Option<Parsed> {
    var (fs, end) := ReadFields(s, 0, 7);
    ParseFields(fs, IdsFrom(IdsText(s[end..]), 0), PayloadText(s[end..]))
  }

  /** Ids of nodes, broadcasts and messages hold no comma, attached ids no bar either; the payload is any text. */
  ghost predicate Sendable(m: Wire) {
    && NoneOf(m.sender, ',') && NoneOf(m.receiver, ',') && NoneOf(m.broadcast, ',') && NoneOf(m.id, ',')
    && (forall i :: 0 <= i < |m.sentIds| ==> NoneOf(m.sentIds[i], ',') && NoneOf(m.sentIds[i], '|'))
    && (forall i, j :: 0 <= i < j < |m.sentIds| ==> m.sentIds[i] != m.sentIds[j])
  }

  lemma {:induction false} JoinHasNoBar(ids: seq<string>)
    requires forall i :: 0 <= i < |ids| ==> NoneOf(ids[i], '|')
    ensures NoneOf(WithCommas(ids), '|')
    decreases |ids|
  {
    if ids != [] {
      JoinHasNoBar(ids[1..]);
    }
  }

  lemma BarFound(ids: string, payload: string)
    requires NoneOf(ids, '|')
    ensures Find(ids + "|" + payload, '|', 0) == Some(|ids|)
    ensures (ids + "|" + payload)[..|ids|] == ids && (ids + "|" + payload)[|ids| + 1..] == payload
  {
    var s := ids + "|" + payload;
    assert s[|ids|] == '|' && forall i :: 0 <= i < |ids| ==> s[i] == ids[i];
  }

  function ReceivedIds(m: Wire): set<string> {
    IdsFrom(JoinIds(m.sentIds), 0)
  }

  /** Parsing a text made of seven fields, attached ids and a payload. */
  lemma ParsePrinted(s: string, fs: seq<string>, ids: string, payload: string, kind: int, level: int, order: int)
    requires |fs| == 7 && s == WithCommas(fs) + (ids + "|" + payload) && NoneOf(ids, '|')
    requires forall i :: 0 <= i < |fs| ==> NoneOf(fs[i], ',')
    requires ReadInt(fs[4]) == Some(kind) && ReadInt(fs[5]) == Some(level) && ReadInt(fs[6]) == Some(order)
    ensures Parse(s) == Some(Parsed(fs[0], fs[1], fs[2], fs[3], kind, level, order, IdsFrom(ids, 0), payload))
  {
    assert s[0..] == s;
    FieldsRoundTrip(s, 0, fs, ids + "|" + payload);
    BarFound(ids, payload);
  }

  /**
   * What the receiver parses is what was sent, payloads with commas and bars included; the attached
   * ids are complete exactly when the one listed last has two characters or more.
   */
  lemma WireRoundTrip(m: Wire)
    requires Sendable(m)
    ensures Parse(Print(m)) ==
              Some(Parsed(m.sender, m.receiver, m.broadcast, m.id, m.kind, m.level, m.order, ReceivedIds(m), m.payload))
    ensures ReceivedIds(m) == Members(m.sentIds) <==> m.sentIds == [] || |m.sentIds[|m.sentIds| - 1]| >= 2
  {
    var fs := PrintedFields(m);
    JoinedHasNoBar(m.sentIds);
    ParsePrinted(Print(m), fs, JoinIds(m.sentIds), m.payload, m.kind, m.level, m.order);
    IdsArriveIff(m.sentIds);
  }

  lemma PrintedFields(m: Wire) returns (fs: seq<string>)
    requires Sendable(m)
    ensures |fs| == 7 && forall i :: 0 <= i < |fs| ==> NoneOf(fs[i], ',')
    ensures Print(m) == WithCommas(fs) + (JoinIds(m.sentIds) + "|" + m.payload)
    ensures fs[0] == m.sender && fs[1] == m.receiver && fs[2] == m.broadcast && fs[3] == m.id
    ensures ReadInt(fs[4]) == Some(m.kind) && ReadInt(fs[5]) == Some(m.level) && ReadInt(fs[6]) == Some(m.order)
  {
    IntRoundTrip(m.kind);
    IntRoundTrip(m.level);
    IntRoundTrip(m.order);
    fs := Fields(m);
  }

  lemma JoinedHasNoBar(ids: seq<string>)
    requires forall i :: 0 <= i < |ids| ==> NoneOf(ids[i], '|')
    ensures NoneOf(JoinIds(ids), '|')
  {
    JoinHasNoBar(ids);
  }

  lemma CommaBehind(field: string, others: seq<string>)
    ensures WithCommas([field] + others) == field + ("," + WithCommas(others))
  {
    assert ([field] + others)[1..] == others;
  }

  lemma ThreeFields(a: string, b: string, c: string)
    ensures WithCommas([a, b, c]) == a + ("," + (b + ("," + (c + ("," + "")))))
  {
    CommaBehind(c, []);
    CommaBehind(b, [c]);
    CommaBehind(a, [b, c]);
    assert [c] + [] == [c] && [b] + [c] == [b, c] && [a] + [b, c] == [a, b, c];
  }

  lemma FourFields(a: string, b: string, c: string, d: string, others: seq<string>)
    ensures WithCommas([a, b, c, d] + others) == a + ("," + (b + ("," + (c + ("," + (d + ("," + WithCommas(others))))))))
  {
    CommaBehind(d, others);
    CommaBehind(c, [d] + others);
    CommaBehind(b, [c] + ([d] + others));
    CommaBehind(a, [b] + ([c] + ([d] + others)));
    assert [a] + ([b] + ([c] + ([d] + others))) == [a, b, c, d] + others;
  }

  /** The text: seven fields with a comma behind each, the attached ids, a bar and the payload. */
  lemma PrintIs(m: Wire)
    ensures Print(m)
         == (m.sender + ("," + (m.receiver + ("," + (m.broadcast + ("," + (m.id + ("," +
              (PrintInt(m.kind) + ("," + (PrintInt(m.level) + ("," + (PrintInt(m.order) + ("," + ""))))))))))))))
            + (JoinIds(m.sentIds) + "|" + m.payload)
  {
    var numbers := [PrintInt(m.kind), PrintInt(m.level), PrintInt(m.order)];
    ThreeFields(PrintInt(m.kind), PrintInt(m.level), PrintInt(m.order));
    FourFields(m.sender, m.receiver, m.broadcast, m.id, numbers);
    assert Fields(m) == [m.sender, m.receiver, m.broadcast, m.id] + numbers;
  }

  /** The first bar separates the ids from the payload; a text without a bar is taken for both. */
  lemma SplitAtBar(ids: string, payload: string)
    requires NoneOf(ids, '|')
    ensures IdsText(ids + "|" + payload) == ids && PayloadText(ids + "|" + payload) == payload
    ensures IdsText(ids) == ids && PayloadText(ids) == ids
  {
    BarFound(ids, payload);
  }

  /** Two ids and two numbers in print. */
  lemma PrintExamples()
    ensures JoinIds(["ab", "cd"]) == "ab,cd" && PrintInt(-1) == "-1" && PrintInt(10) == "10"
  {
    JoinOne("cd");
    var rest := JoinCons(["ab", "cd"]);
    assert ["ab", "cd"][1..] == ["cd"];
    assert PrintNat(10) == PrintNat(1) + ['0'] == "10";
  }

  // ---------- Sending and receiving ----------

  method Send(m: Wire) returns (data: string)
    ensures data == Print(m)
  {
    var ids := PrintIds(m.sentIds);
    data := WithCommas(Fields(m)) + (ids + "|" + m.payload);
  }

  /** Take a message apart; None stands for the exception when a number cannot be read. */
  method Receive(data: string) returns (r: Option<Parsed>)
    ensures r == Parse(data)
  {
    var fs, pos := ReadHeader(data);
    var ids := ReadIds(IdsText(data[pos..]));
    ParseOfFields(data, fs, pos, ids);
    var kind, level, order := ReadInt(fs[4]), ReadInt(fs[5]), ReadInt(fs[6]);
    if kind.None? || level.None? || order.None? {
      return None;
    }
    r := Some(Parsed(fs[0], fs[1], fs[2], fs[3], kind.value, level.value, order.value, ids, PayloadText(data[pos..])));
  }

  /** The seven fields in front of the attached ids. */
  method ReadHeader(data: string) returns (fs: seq<string>, pos: nat)
    ensures pos <= |data| && (fs, pos) == ReadFields(data, 0, 7)
  {
    fs, pos := NextField(data, [], 0);
    fs, pos := NextField(data, fs, pos);
    fs, pos := NextField(data, fs, pos);
    fs, pos := NextField(data, fs, pos);
    fs, pos := NextField(data, fs, pos);
    fs, pos := NextField(data, fs, pos);
    fs, pos := NextField(data, fs, pos);
  }

  method NextField(data: string, fs0: seq<string>, pos0: nat) returns (fs: seq<string>, pos: nat)
    requires pos0 <= |data| && ReadFields(data, 0, |fs0|) == (fs0, pos0)
    ensures |fs| == |fs0| + 1 && pos <= |data| && ReadFields(data, 0, |fs|) == (fs, pos)
  {
    var (field, next) := ReadField(data, pos0);
    OneMoreField(data, 0, fs0, pos0, field, next);
    fs, pos := fs0 + [field], next;
  }

  lemma {:induction false} OneMoreField(s: string, start: nat, fs: seq<string>, pos: nat, field: string, next: nat)
    requires start <= |s| && pos <= |s| && ReadFields(s, start, |fs|) == (fs, pos) && ReadField(s, pos) == (field, next)
    ensures ReadFields(s, start, |fs| + 1) == (fs + [field], next)
    decreases |fs|
  {
    if fs == [] {
      FieldThenFields(s, start, next, field, [], next);
      assert [field] + [] == [] + [field];
    } else {
      var (first, second) := ReadField(s, start);
      var others := fs[1..];
      assert fs == [first] + others && ReadFields(s, second, |others|) == (others, pos);
      OneMoreField(s, second, others, pos, field, next);
      FieldThenFields(s, start, second, first, others + [field], next);
      assert [first] + (others + [field]) == fs + [field];
    }
  }

  lemma ParseOfFields(s: string, fs: seq<string>, end: nat, ids: set<string>)
    requires |fs| == 7 && ReadFields(s, 0, 7) == (fs, end) && end <= |s| && ids == IdsFrom(IdsText(s[end..]), 0)
    ensures Parse(s) == ParseFields(fs, ids, PayloadText(s[end..]))
  {
  }
}
