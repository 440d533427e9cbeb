/** The text of a node id: six columns of digits, and how it is cut up again. */
module IdText {
  import opened NodeIds
  import WireFormat

  // ---------- Columns ----------

  const CONTINENT := 3
  const COUNTRY := 4
  const STATE := 5
  const CITY := 6
  const DISTRICT := 5
  const SINGLE := 9

  function Zeros(k: nat): string {
    seq(k, _ => '0')
  }

  /** A number, filled up with zeros to the width of its column; a wider one is not cut. */
  function Padded(n: nat, width: nat): string {
    var s := WireFormat.PrintNat(n);
    if |s| < width then Zeros(width - |s|) + s else s
  }

  function Text(f: Fields): string {
    Padded(f.continent, CONTINENT) + (Padded(f.country, COUNTRY) + (Padded(f.state, STATE)
      + (Padded(f.city, CITY) + (Padded(f.district, DISTRICT) + Padded(f.single, SINGLE)))))
  }

  predicate AllDigits(s: string) {
    forall i :: 0 <= i < |s| ==> WireFormat.IsDigit(s[i])
  }

  /** The columns read back; the last one goes to the end of the text. */
  function Cut(s: string): Fields
    requires |s| >= 23 && AllDigits(s)
  {
    Fields(WireFormat.Value(s[23..]), WireFormat.Value(s[18..23]), WireFormat.Value(s[12..18]),
           WireFormat.Value(s[7..12]), WireFormat.Value(s[3..7]), WireFormat.Value(s[0..3]))
  }

  function Power10(k: nat): (p: nat)
    ensures p > 0
  {
    if k == 0 then 1 else 10 * Power10(k - 1)
  }

  /** The fields in front of the last column fit theirs. */
  predicate FitsColumns(f: Fields) {
    && f.continent < Power10(CONTINENT) && f.country < Power10(COUNTRY) && f.state < Power10(STATE)
    && f.city < Power10(CITY) && f.district < Power10(DISTRICT)
  }

  // ---------- One column ----------

  lemma {:induction false} ValueBound(s: string)
    requires AllDigits(s)
    ensures WireFormat.Value(s) < Power10(|s|)
    decreases |s|
  {
    if s != [] {
      ValueBound(s[..|s| - 1]);
    }
  }

  lemma {:induction false} LeadingZeros(k: nat, s: string)
    requires AllDigits(s)
    ensures AllDigits(Zeros(k) + s) && WireFormat.Value(Zeros(k) + s) == WireFormat.Value(s)
    decreases k + |s|
  {
    var t := Zeros(k) + s;
    if s != [] {
      LeadingZeros(k, s[..|s| - 1]);
      assert t[..|t| - 1] == Zeros(k) + s[..|s| - 1];
    } else if k > 0 {
      LeadingZeros(k - 1, []);
      assert t[..|t| - 1] == Zeros(k - 1) + [];
    }
  }

  lemma {:induction false} PrintedLength(n: nat, width: nat)
    requires width > 0
    ensures |WireFormat.PrintNat(n)| <= width <==> n < Power10(width)
    decreases width
  {
    if width == 1 {
      assert Power10(1) == 10 * Power10(0);
    } else if n >= 10 {
      PrintedLength(n / 10, width - 1);
    }
  }

  /** What a column holds: digits of the number, and exactly its width if the number fits. */
  lemma PaddedIs(n: nat, width: nat)
    requires width > 0
    ensures AllDigits(Padded(n, width)) && WireFormat.Value(Padded(n, width)) == n
    ensures |Padded(n, width)| >= width
    ensures |Padded(n, width)| == width <==> n < Power10(width)
  {
    WireFormat.NatRoundTrip(n);
    PrintedLength(n, width);
    var s := WireFormat.PrintNat(n);
    if |s| < width {
      LeadingZeros(width - |s|, s);
    }
  }

  // ---------- The order of texts ----------

  /** The lexicographic order of texts. */
  predicate TextBefore(s: string, t: string)
    decreases |s|
  {
    if t == [] then false
    else if s == [] then true
    else if s[0] != t[0] then s[0] < t[0]
    else TextBefore(s[1..], t[1..])
  }

  /** Parts of equal length decide one after the other. */
  lemma {:induction false} ConcatOrder(a: string, b: string, s: string, t: string)
    requires |a| == |b|
    ensures TextBefore(a + s, b + t) <==> TextBefore(a, b) || (a == b && TextBefore(s, t))
    decreases |a|
  {
    if a == [] {
      assert a + s == s && b + t == t;
    } else {
      assert (a + s)[1..] == a[1..] + s && (b + t)[1..] == b[1..] + t;
      ConcatOrder(a[1..], b[1..], s, t);
      assert a == b <==> a[0] == b[0] && a[1..] == b[1..] by {
        assert a == [a[0]] + a[1..] && b == [b[0]] + b[1..];
      }
    }
  }

  lemma OneChar(c: char, d: char)
    ensures TextBefore([c], [d]) <==> c < d
  {
    assert [c][1..] == [] && [d][1..] == [];
  }

  /** Texts of digits of equal length are ordered like their values. */
  lemma {:induction false} DigitsOrder(s: string, t: string)
    requires |s| == |t| && AllDigits(s) && AllDigits(t)
    ensures TextBefore(s, t) <==> WireFormat.Value(s) < WireFormat.Value(t)
    ensures s == t <==> WireFormat.Value(s) == WireFormat.Value(t)
    decreases |s|
  {
    if s != [] {
      var n := |s| - 1;
      DigitsOrder(s[..n], t[..n]);
      assert s == s[..n] + [s[n]] && t == t[..n] + [t[n]];
      ConcatOrder(s[..n], t[..n], [s[n]], [t[n]]);
      OneChar(s[n], t[n]);
    }
  }

  lemma ColumnOrder(a: nat, b: nat, width: nat)
    requires width > 0 && a < Power10(width) && b < Power10(width)
    ensures |Padded(a, width)| == |Padded(b, width)|
    ensures TextBefore(Padded(a, width), Padded(b, width)) <==> a < b
    ensures Padded(a, width) == Padded(b, width) <==> a == b
  {
    PaddedIs(a, width);
    PaddedIs(b, width);
    DigitsOrder(Padded(a, width), Padded(b, width));
  }

  // ---------- The whole text ----------

  lemma TextIsDigits(f: Fields)
    ensures AllDigits(Text(f)) && |Text(f)| >= 32
    ensures |Text(f)| == 32 <==> FitsColumns(f) && f.single < Power10(SINGLE)
  {
    PaddedIs(f.continent, CONTINENT);
    PaddedIs(f.country, COUNTRY);
    PaddedIs(f.state, STATE);
    PaddedIs(f.city, CITY);
    PaddedIs(f.district, DISTRICT);
    PaddedIs(f.single, SINGLE);
  }

  lemma SixColumns(a: string, b: string, c: string, d: string, e: string, f: string)
    requires |a| == 3 && |b| == 4 && |c| == 5 && |d| == 6 && |e| == 5
    ensures var s := a + (b + (c + (d + (e + f))));
            && |s| >= 23 && s[0..3] == a && s[3..7] == b && s[7..12] == c && s[12..18] == d && s[18..23] == e && s[23..] == f
  {
    var s := a + (b + (c + (d + (e + f))));
    assert s[3..] == b + (c + (d + (e + f)));
    assert s[7..] == c + (d + (e + f));
    assert s[12..] == d + (e + f);
    assert s[18..] == e + f;
  }

  /** Where the columns are when each fits. */
  lemma ColumnsOf(f: Fields)
    requires FitsColumns(f)
    ensures |Text(f)| >= 23
    ensures Text(f)[0..3] == Padded(f.continent, CONTINENT) && Text(f)[3..7] == Padded(f.country, COUNTRY)
    ensures Text(f)[7..12] == Padded(f.state, STATE) && Text(f)[12..18] == Padded(f.city, CITY)
    ensures Text(f)[18..23] == Padded(f.district, DISTRICT) && Text(f)[23..] == Padded(f.single, SINGLE)
  {
    PaddedIs(f.continent, CONTINENT);
    PaddedIs(f.country, COUNTRY);
    PaddedIs(f.state, STATE);
    PaddedIs(f.city, CITY);
    PaddedIs(f.district, DISTRICT);
    SixColumns(Padded(f.continent, CONTINENT), Padded(f.country, COUNTRY), Padded(f.state, STATE),
               Padded(f.city, CITY), Padded(f.district, DISTRICT), Padded(f.single, SINGLE));
  }

  lemma CutFits(s: string)
    requires |s| >= 23 && AllDigits(s)
    ensures FitsColumns(Cut(s))
  {
    ValueBound(s[0..3]);
    ValueBound(s[3..7]);
    ValueBound(s[7..12]);
    ValueBound(s[12..18]);
    ValueBound(s[18..23]);
  }

  /** Cutting up the text of an id gives its fields exactly when all of them but the last fit their columns. */
  lemma TextRoundTripIff(f: Fields)
    ensures AllDigits(Text(f)) && |Text(f)| >= 23
    ensures Cut(Text(f)) == f <==> FitsColumns(f)
  {
    TextIsDigits(f);
    CutFits(Text(f));
    if FitsColumns(f) {
      ColumnsOf(f);
      PaddedIs(f.continent, CONTINENT);
      PaddedIs(f.country, COUNTRY);
      PaddedIs(f.state, STATE);
      PaddedIs(f.city, CITY);
      PaddedIs(f.district, DISTRICT);
      PaddedIs(f.single, SINGLE);
    }
  }

  /** Fields that fit stand in columns of 3, 4, 5, 6, 5 and 9 digits, the continent first. */
  lemma ColumnsAre(f: Fields)
    requires f.continent < 1_000 && f.country < 10_000 && f.state < 100_000 && f.city < 1_000_000
    requires f.district < 100_000 && f.single < 1_000_000_000
    ensures var s := Text(f);
            && |s| == 32 && AllDigits(s)
            && WireFormat.Value(s[0..3]) == f.continent && WireFormat.Value(s[3..7]) == f.country && WireFormat.Value(s[7..12]) == f.state
            && WireFormat.Value(s[12..18]) == f.city && WireFormat.Value(s[18..23]) == f.district && WireFormat.Value(s[23..32]) == f.single
  {
    PowersOfTen();
    TextIsDigits(f);
    TextRoundTripIff(f);
    assert Text(f)[23..] == Text(f)[23..32];
  }

  lemma PowersOfTen()
    ensures Power10(3) == 1_000 && Power10(4) == 10_000 && Power10(5) == 100_000 && Power10(6) == 1_000_000 && Power10(9) == 1_000_000_000
  {
    assert Power10(0) == 1 && Power10(1) == 10 && Power10(2) == 100 && Power10(3) == 1_000;
    assert Power10(6) == 10 * (10 * (10 * Power10(3)));
    assert Power10(9) == 10 * (10 * (10 * Power10(6)));
  }

  /** The order of the texts is the lexicographic order of the fields. */
  lemma TextOrder(f: Fields, g: Fields)
    requires FitsColumns(f) && FitsColumns(g) && f.single < Power10(SINGLE) && g.single < Power10(SINGLE)
    ensures TextBefore(Text(f), Text(g)) <==> Before(f, g)
  {
    ColumnOrder(f.continent, g.continent, CONTINENT);
    ColumnOrder(f.country, g.country, COUNTRY);
    ColumnOrder(f.state, g.state, STATE);
    ColumnOrder(f.city, g.city, CITY);
    ColumnOrder(f.district, g.district, DISTRICT);
    ColumnOrder(f.single, g.single, SINGLE);
    var s5, t5 := Padded(f.district, DISTRICT) + Padded(f.single, SINGLE), Padded(g.district, DISTRICT) + Padded(g.single, SINGLE);
    ConcatOrder(Padded(f.district, DISTRICT), Padded(g.district, DISTRICT), Padded(f.single, SINGLE), Padded(g.single, SINGLE));
    var s4, t4 := Padded(f.city, CITY) + s5, Padded(g.city, CITY) + t5;
    ConcatOrder(Padded(f.city, CITY), Padded(g.city, CITY), s5, t5);
    var s3, t3 := Padded(f.state, STATE) + s4, Padded(g.state, STATE) + t4;
    ConcatOrder(Padded(f.state, STATE), Padded(g.state, STATE), s4, t4);
    var s2, t2 := Padded(f.country, COUNTRY) + s3, Padded(g.country, COUNTRY) + t3;
    ConcatOrder(Padded(f.country, COUNTRY), Padded(g.country, COUNTRY), s3, t3);
    ConcatOrder(Padded(f.continent, CONTINENT), Padded(g.continent, CONTINENT), s2, t2);
  }

  // ---------- The two conversions ----------

  function ToText(id: nat, z: Sizes): string
    requires Divides(z)
  {
    Text(ToFields(id, z))
  }

  function FromText(s: string, z: Sizes): nat
    requires Divides(z) && |s| >= 23 && AllDigits(s)
  {
    ToNumber(Cut(s), z)
  }

  /** Number to text to number, for an id whose fields fit the columns. */
  lemma NumberTextRoundTripIff(id: nat, z: Sizes)
    requires Divides(z) && FitsColumns(ToFields(id, z))
    ensures AllDigits(ToText(id, z)) && |ToText(id, z)| >= 23
    ensures FromText(ToText(id, z), z) == id <==> SameValue(ToFields(id, z), z)
  {
    TextRoundTripIff(ToFields(id, z));
    NumberRoundTripIff(id, z);
  }

  /** Text to number to text, for the text of a node whose fields fit the columns. */
  lemma TextNumberRoundTripIff(f: Fields, z: Sizes)
    requires Divides(z) && InRange(f, TextRadix(z)) && FitsColumns(f) && f.single < Power10(SINGLE)
    ensures AllDigits(Text(f)) && |Text(f)| >= 23
    ensures ToText(FromText(Text(f), z), z) == Text(f) <==> SameValue(f, z)
  {
    TextRoundTripIff(f);
    FieldsRoundTripIff(f, z);
    var g := ToFields(ToNumber(f, z), z);
    TextIsDigits(f);
    TextIsDigits(g);
    if Text(g) == Text(f) {
      TextRoundTripIff(g);
    }
  }

  /** All nodes of a deployment fit the columns. */
  predicate DeploymentFits(z: Sizes, continents: nat)
    requires Divides(z)
  {
    var t := TextRadix(z);
    && continents <= Power10(CONTINENT) && t.country <= Power10(COUNTRY) && t.state <= Power10(STATE)
    && t.city <= Power10(CITY) && t.district <= Power10(DISTRICT) && t.single <= Power10(SINGLE)
  }

  lemma NodeTextOrder(z: Sizes, continents: nat, f: Fields, g: Fields)
    requires Divides(z) && DeploymentFits(z, continents) && IsNode(z, continents, f) && IsNode(z, continents, g)
    ensures TextBefore(Text(f), Text(g)) <==> Before(f, g)
  {
    TextOrder(f, g);
  }

  /** The texts of the nodes of a deployment are ordered like their numbers exactly when there is room. */
  lemma TextOrderAgreesIff(z: Sizes, continents: nat)
    requires Divides(z) && DeploymentFits(z, continents)
    ensures (forall f, g :: IsNode(z, continents, f) && IsNode(z, continents, g) ==>
              (ToNumber(f, z) < ToNumber(g, z) <==> TextBefore(Text(f), Text(g))))
       <==> Roomy(z, continents)
  {
    if Roomy(z, continents) {
      forall f, g | IsNode(z, continents, f) && IsNode(z, continents, g)
        ensures ToNumber(f, z) < ToNumber(g, z) <==> TextBefore(Text(f), Text(g))
      {
        NumberIs(f, z);
        NumberIs(g, z);
        NodeOrder(z, continents, f, g);
        NodeTextOrder(z, continents, f, g);
      }
    } else {
      var f, g := OutOfOrder(z, continents);
      NumberIs(f, z);
      NumberIs(g, z);
      NodeTextOrder(z, continents, f, g);
    }
  }
}
