/**
 * Node ids as numbers and as six fields, in a mixed radix given by the sizes of the deployment.
 * The two conversions use different radices: they divide by different contact counts at the level
 * of states, and only one of them replaces a quotient of zero by one.
 */
module NodeIds {
  /** Nodes and contacts of each level. */
  datatype Sizes = Sizes(nodesInDist: nat, contactsInDist: nat, nodesInCity: nat, contactsInCity: nat, nodesInState: nat,
                         contactsInState: nat, nodesInCountry: nat, contactsInCountry: nat, nodesInContinent: nat)

  datatype Fields = Fields(single: nat, district: nat, city: nat, state: nat, country: nat, continent: nat)

  /** How many values each field below the continent has. */
  datatype Radix = Radix(single: nat, district: nat, city: nat, state: nat, country: nat)

  predicate Positive(r: Radix) {
    r.single > 0 && r.district > 0 && r.city > 0 && r.state > 0 && r.country > 0
  }

  /** What the conversions divide by. */
  predicate Divides(z: Sizes) {
    z.nodesInDist > 0 && z.contactsInDist > 0 && z.contactsInCity > 0 && z.contactsInState > 0 && z.contactsInCountry > 0
  }

  function AtLeastOne(q: nat): (r: nat)
    ensures r > 0 && (q > 0 ==> r == q)
  {
    if q == 0 then 1 else q
  }

  /** The radix of the conversion to text. */
  function TextRadix(z: Sizes): (r: Radix)
    requires Divides(z)
    ensures Positive(r)
  {
    Radix(z.nodesInDist,
          AtLeastOne(z.nodesInCity / z.contactsInDist), AtLeastOne(z.nodesInState / z.contactsInCity),
          AtLeastOne(z.nodesInCountry / z.contactsInState), AtLeastOne(z.nodesInContinent / z.contactsInCountry))
  }

  /** The radix of the conversion to a number: it divides the nodes of a state by the contacts of a district. */
  function ReadRadix(z: Sizes): Radix
    requires Divides(z)
  {
    Radix(z.nodesInDist,
          z.nodesInCity / z.contactsInDist, z.nodesInState / z.contactsInDist,
          z.nodesInCountry / z.contactsInState, z.nodesInContinent / z.contactsInCountry)
  }

  /** How many nodes a city, a state, a country and a continent have. */
  function OneCity(r: Radix): (m: nat)
    requires Positive(r)
    ensures m > 0
  {
    PositiveProduct(r.single, r.district);
    r.single * r.district
  }

  function OneState(r: Radix): (m: nat)
    requires Positive(r)
    ensures m > 0
  {
    PositiveProduct(OneCity(r), r.city);
    OneCity(r) * r.city
  }

  function OneCountry(r: Radix): (m: nat)
    requires Positive(r)
    ensures m > 0
  {
    PositiveProduct(OneState(r), r.state);
    OneState(r) * r.state
  }

  function OneContinent(r: Radix): (m: nat)
    requires Positive(r)
    ensures m > 0
  {
    PositiveProduct(OneCountry(r), r.country);
    OneCountry(r) * r.country
  }

  /** The digit of `id` for units of `m`, in radix `r`. */
  function Digit(id: nat, m: nat, r: nat): nat
    requires m > 0 && r > 0
  {
    id / m % r
  }

  function Quotient(id: nat, m: nat): nat
    requires m > 0
  {
    id / m
  }

  function ToFields(id: nat, z: Sizes): Fields
    requires Divides(z)
  {
    var t := TextRadix(z);
    Fields(id % t.single, Digit(id, t.single, t.district), Digit(id, OneCity(t), t.city), Digit(id, OneState(t), t.state),
           Digit(id, OneCountry(t), t.country), Quotient(id, OneContinent(t)))
  }

  function ToNumber(f: Fields, z: Sizes): nat
    requires Divides(z)
  {
    var r := ReadRadix(z);
    var oneCity := Times(r.single, r.district);
    var oneState := Times(oneCity, r.city);
    var oneCountry := Times(oneState, r.state);
    var oneContinent := Times(oneCountry, r.country);
    Times(oneContinent, f.continent) + Times(oneCountry, f.country) + Times(oneState, f.state)
    + Times(oneCity, f.city) + Times(r.single, f.district) + f.single
  }

  function Times(a: nat, b: nat): nat {
    a * b
  }

  // ---------- Arithmetic ----------

  lemma PositiveProduct(a: nat, b: nat)
    requires a > 0 && b > 0
    ensures a * b > 0
  {
  }

  lemma UniqueDivision(x: nat, m: nat, q: nat, r: nat)
    requires m > 0 && x == q * m + r && r < m
    ensures x / m == q && x % m == r
  {
    var q', r' := x / m, x % m;
    assert x == q' * m + r';
    assert (q - q') * m == r' - r && (q' - q) * m == r - r';
    if q > q' {
      MulAtLeast(q - q', m);
    } else if q < q' {
      MulAtLeast(q' - q, m);
    }
  }

  lemma MulAtLeast(k: nat, m: nat)
    requires k > 0
    ensures k * m >= m
  {
    assert k * m == (k - 1) * m + m;
  }

  /** Dividing by `m` and then by `r` is dividing by the product. */
  lemma DivideTwice(x: nat, m: nat, r: nat)
    requires m > 0 && r > 0
    ensures m * r > 0 && x / m == Put(x / m % r, r, x / (m * r))
  {
    var y := x / m;
    PositiveProduct(m, r);
    DivisionIs(x, m);
    DivisionIs(y, r);
    QuotientOfProduct(x, m, r, y / r, y % r, x % m);
  }

  lemma DivisionIs(x: nat, m: nat)
    requires m > 0
    ensures x == (x / m) * m + x % m && x % m < m
  {
  }

  lemma QuotientOfProduct(x: nat, m: nat, r: nat, q: nat, s: nat, t: nat)
    requires m > 0 && r > 0 && m * r > 0 && x == (q * r + s) * m + t && s < r && t < m
    ensures x / (m * r) == q
  {
    Regroup(q, r, s, m);
    SmallRemainder(s, r, m, t);
    UniqueDivision(x, m * r, q, s * m + t);
  }

  lemma Regroup(q: nat, r: nat, s: nat, m: nat)
    ensures (q * r + s) * m == q * (m * r) + s * m
  {
  }

  lemma SmallRemainder(s: nat, r: nat, m: nat, t: nat)
    requires s < r && t < m
    ensures s * m + t < m * r
  {
    assert (r - s) * m >= m by {
      MulAtLeast(r - s, m);
    }
    assert (r - s) * m == r * m - s * m;
  }

  // ---------- Digits ----------

  /** A digit in front of which `rest` is written, in radix `r`. */
  function Put(digit: nat, r: nat, rest: nat): nat {
    digit + r * rest
  }

  /** Comparing two numbers: their rests decide, then their digits. */
  lemma PutOrder(a: nat, x: nat, b: nat, y: nat, r: nat)
    requires a < r && b < r
    ensures Put(a, r, x) < Put(b, r, y) <==> x < y || (x == y && a < b)
    ensures Put(a, r, x) == Put(b, r, y) <==> x == y && a == b
  {
    if x < y {
      PutBelow(a, x, b, y, r);
    } else if y < x {
      PutBelow(b, y, a, x, r);
    }
  }

  lemma PutBelow(a: nat, x: nat, b: nat, y: nat, r: nat)
    requires a < r && x < y
    ensures Put(a, r, x) < Put(b, r, y)
  {
    assert r * y == r * x + r * (y - x);
    MulAtLeast(y - x, r);
  }

  lemma PutIsZero(a: nat, r: nat, x: nat)
    requires r > 0
    ensures Put(a, r, x) == 0 <==> a == 0 && x == 0
  {
    if x > 0 {
      PositiveProduct(r, x);
    }
  }

  lemma SameTail(a: nat, r: nat, x: nat, y: nat)
    requires r > 0
    ensures Put(a, r, x) == Put(a, r, y) <==> x == y
  {
    if x < y {
      ScaleUp(r, x, y);
    } else if y < x {
      ScaleUp(r, y, x);
    }
  }

  lemma ScaleUp(r: nat, x: nat, y: nat)
    requires r > 0 && x < y
    ensures r * x < r * y
  {
    assert r * y == r * x + r * (y - x);
    PositiveProduct(r, y - x);
  }

  lemma SameRadix(a: nat, r: nat, r': nat, x: nat)
    ensures Put(a, r, x) == Put(a, r', x) <==> r == r' || x == 0
  {
    if x > 0 && r < r' {
      ScaleUp(x, r, r');
    } else if x > 0 && r' < r {
      ScaleUp(x, r', r);
    }
  }

  // ---------- The value of fields ----------

  function Value(f: Fields, r: Radix): nat {
    Put(f.single, r.single, AboveSingle(f, r))
  }

  function AboveSingle(f: Fields, r: Radix): nat {
    Put(f.district, r.district, AboveDistrict(f, r))
  }

  function AboveDistrict(f: Fields, r: Radix): nat {
    Put(f.city, r.city, AboveCity(f, r))
  }

  function AboveCity(f: Fields, r: Radix): nat {
    Put(f.state, r.state, AboveState(f, r))
  }

  function AboveState(f: Fields, r: Radix): nat {
    Put(f.country, r.country, f.continent)
  }

  lemma Expand(a: nat, r: nat, digit: nat, rest: nat)
    ensures Times(a, Put(digit, r, rest)) == Times(a, digit) + Times(Times(a, r), rest)
  {
    assert a * (digit + r * rest) == a * digit + a * (r * rest);
    assert a * (r * rest) == (a * r) * rest;
  }

  /** The conversion to a number is the value in the radix of that conversion. */
  lemma NumberIs(f: Fields, z: Sizes)
    requires Divides(z)
    ensures ToNumber(f, z) == Value(f, ReadRadix(z))
  {
    var r := ReadRadix(z);
    var oneCity := Times(r.single, r.district);
    var oneState := Times(oneCity, r.city);
    Expand(r.single, r.district, f.district, AboveDistrict(f, r));
    Expand(oneCity, r.city, f.city, AboveCity(f, r));
    Expand(oneState, r.state, f.state, AboveState(f, r));
    Expand(Times(oneState, r.state), r.country, f.country, f.continent);
  }

  /** The fields are less than their radices; the continent is not bounded. */
  predicate InRange(f: Fields, r: Radix) {
    f.single < r.single && f.district < r.district && f.city < r.city && f.state < r.state && f.country < r.country
  }

  /** The conversion to text gives the digits of the number in the radix of that conversion. */
  lemma FieldsAre(id: nat, z: Sizes)
    requires Divides(z)
    ensures InRange(ToFields(id, z), TextRadix(z)) && Value(ToFields(id, z), TextRadix(z)) == id
  {
    var t, f := TextRadix(z), ToFields(id, z);
    FirstDigits(id, t, f);
    LastDigits(id, t, f);
  }

  lemma FirstDigits(id: nat, t: Radix, f: Fields)
    requires Positive(t) && f.single == id % t.single && f.district == id / t.single % t.district
    requires f.city == id / OneCity(t) % t.city
    ensures f.single < t.single && f.district < t.district && f.city < t.city
    ensures id == Put(f.single, t.single, Put(f.district, t.district, Put(f.city, t.city, id / OneState(t))))
  {
    DivideTwice(id, t.single, t.district);
    DivideTwice(id, OneCity(t), t.city);
  }

  lemma LastDigits(id: nat, t: Radix, f: Fields)
    requires Positive(t) && f.state == id / OneState(t) % t.state && f.country == id / OneCountry(t) % t.country
    requires f.continent == id / OneContinent(t)
    ensures f.state < t.state && f.country < t.country
    ensures id / OneState(t) == AboveCity(f, t)
  {
    DivideTwice(id, OneState(t), t.state);
    DivideTwice(id, OneCountry(t), t.country);
  }

  /** How many groups so many nodes make up that have so many contacts each: one at least. */
  function Groups(nodes: nat, contacts: nat): nat
    requires contacts > 0
  {
    if nodes < contacts then 1 else nodes / contacts
  }

  lemma GroupsAre(nodes: nat, contacts: nat)
    requires contacts > 0
    ensures AtLeastOne(nodes / contacts) == Groups(nodes, contacts)
  {
    DivisionIs(nodes, contacts);
    if nodes >= contacts && nodes / contacts == 0 {
      assert false;
    }
    if nodes < contacts {
      UniqueDivision(nodes, contacts, 0, nodes);
    }
  }

  /**
   * The number of a node, level by level: a continent is so many countries of so many states and so on.
   * The states are counted with the contacts of a district.
   */
  lemma NumberFromSizes(f: Fields, z: Sizes)
    requires Divides(z)
    ensures ToNumber(f, z) == f.single + z.nodesInDist * (f.district + (z.nodesInCity / z.contactsInDist) * (f.city
                              + (z.nodesInState / z.contactsInDist) * (f.state + (z.nodesInCountry / z.contactsInState) * (f.country
                              + (z.nodesInContinent / z.contactsInCountry) * f.continent))))
  {
    NumberIs(f, z);
  }

  /** The fields of a number, level by level, here with the contacts of a city and one group at least. */
  lemma FieldsFromSizes(id: nat, z: Sizes)
    requires Divides(z)
    ensures var f := ToFields(id, z);
            && f.single < z.nodesInDist && f.district < Groups(z.nodesInCity, z.contactsInDist) && f.city < Groups(z.nodesInState, z.contactsInCity)
            && f.state < Groups(z.nodesInCountry, z.contactsInState) && f.country < Groups(z.nodesInContinent, z.contactsInCountry)
            && id == f.single + z.nodesInDist * (f.district + Groups(z.nodesInCity, z.contactsInDist) * (f.city
                     + Groups(z.nodesInState, z.contactsInCity) * (f.state + Groups(z.nodesInCountry, z.contactsInState) * (f.country
                     + Groups(z.nodesInContinent, z.contactsInCountry) * f.continent))))
  {
    FieldsAre(id, z);
    GroupsAre(z.nodesInCity, z.contactsInDist);
    GroupsAre(z.nodesInState, z.contactsInCity);
    GroupsAre(z.nodesInCountry, z.contactsInState);
    GroupsAre(z.nodesInContinent, z.contactsInCountry);
  }

  /** Lexicographic order, the continent first. */
  predicate Before(f: Fields, g: Fields) {
    if f.continent != g.continent then f.continent < g.continent
    else if f.country != g.country then f.country < g.country
    else if f.state != g.state then f.state < g.state
    else if f.city != g.city then f.city < g.city
    else if f.district != g.district then f.district < g.district
    else f.single < g.single
  }

  lemma ValueOrder(f: Fields, g: Fields, r: Radix)
    requires InRange(f, r) && InRange(g, r)
    ensures Value(f, r) < Value(g, r) <==> Before(f, g)
    ensures Value(f, r) == Value(g, r) <==> f == g
  {
    PutOrder(f.country, f.continent, g.country, g.continent, r.country);
    PutOrder(f.state, AboveState(f, r), g.state, AboveState(g, r), r.state);
    PutOrder(f.city, AboveCity(f, r), g.city, AboveCity(g, r), r.city);
    PutOrder(f.district, AboveDistrict(f, r), g.district, AboveDistrict(g, r), r.district);
    PutOrder(f.single, AboveSingle(f, r), g.single, AboveSingle(g, r), r.single);
  }

  lemma FieldsOfValue(f: Fields, z: Sizes)
    requires Divides(z) && InRange(f, TextRadix(z))
    ensures ToFields(Value(f, TextRadix(z)), z) == f
  {
    var t := TextRadix(z);
    FieldsAre(Value(f, t), z);
    ValueOrder(f, ToFields(Value(f, t), z), t);
  }

  // ---------- Round trips ----------

  ghost predicate NothingAboveCity(f: Fields) {
    f.state == 0 && f.country == 0 && f.continent == 0
  }

  /**
   * When the two radices give the same value: no field is in use above a level that the conversion
   * to a number gives no room, and where it leaves room the two counts of cities agree or do not matter.
   */
  ghost predicate SameValue(f: Fields, z: Sizes)
    requires Divides(z)
  {
    SameDigits(f, TextRadix(z), ReadRadix(z))
  }

  ghost predicate SameDigits(f: Fields, t: Radix, r: Radix) {
    if r.district == 0 then f.city == 0 && NothingAboveCity(f)
    else if r.city == 0 then NothingAboveCity(f)
    else if r.state == 0 then f.country == 0 && f.continent == 0
    else if r.country == 0 then Times(t.city, Put(f.state, t.state, f.continent)) == Times(r.city, f.state)
    else t.city == r.city || NothingAboveCity(f)
  }

  lemma ZeroAboveCity(f: Fields, r: Radix)
    requires r.state > 0 && r.country > 0
    ensures AboveState(f, r) == 0 <==> f.country == 0 && f.continent == 0
    ensures AboveCity(f, r) == 0 <==> NothingAboveCity(f)
  {
    PutIsZero(f.country, r.country, f.continent);
    PutIsZero(f.state, r.state, AboveState(f, r));
  }

  lemma AboveDistrictSame(f: Fields, z: Sizes)
    requires Divides(z) && InRange(f, TextRadix(z)) && ReadRadix(z).district > 0
    ensures AboveDistrict(f, TextRadix(z)) == AboveDistrict(f, ReadRadix(z)) <==> SameValue(f, z)
  {
    var t, r := TextRadix(z), ReadRadix(z);
    ZeroAboveCity(f, t);
    if r.city == 0 {
      SameRadix(f.city, t.city, 0, AboveCity(f, t));
    } else if r.state == 0 {
      assert AboveCity(f, r) == 0 && AboveCity(f, t) == AboveState(f, t);
      SameRadix(f.city, t.city, 0, AboveCity(f, t));
    } else if r.country == 0 {
      assert AboveCity(f, r) == f.state && AboveCity(f, t) == Put(f.state, t.state, f.continent);
    } else {
      assert AboveCity(f, r) == AboveCity(f, t);
      SameRadix(f.city, t.city, r.city, AboveCity(f, t));
    }
  }

  lemma SameValueIff(f: Fields, z: Sizes)
    requires Divides(z) && InRange(f, TextRadix(z))
    ensures Value(f, TextRadix(z)) == Value(f, ReadRadix(z)) <==> SameValue(f, z)
  {
    var t, r := TextRadix(z), ReadRadix(z);
    SameTail(f.single, t.single, AboveSingle(f, t), AboveSingle(f, r));
    if r.district == 0 {
      ZeroAboveCity(f, t);
      PutIsZero(f.city, t.city, AboveCity(f, t));
    } else {
      SameTail(f.district, t.district, AboveDistrict(f, t), AboveDistrict(f, r));
      AboveDistrictSame(f, z);
    }
  }

  /** Turning a number into fields and back gives the number exactly when its fields have the same value for both. */
  lemma NumberRoundTripIff(id: nat, z: Sizes)
    requires Divides(z)
    ensures ToNumber(ToFields(id, z), z) == id <==> SameValue(ToFields(id, z), z)
  {
    FieldsAre(id, z);
    NumberIs(ToFields(id, z), z);
    SameValueIff(ToFields(id, z), z);
  }

  /** Turning fields in range into a number and back gives the fields under the same condition. */
  lemma FieldsRoundTripIff(f: Fields, z: Sizes)
    requires Divides(z) && InRange(f, TextRadix(z))
    ensures ToFields(ToNumber(f, z), z) == f <==> SameValue(f, z)
  {
    NumberIs(f, z);
    SameValueIff(f, z);
    FieldsOfValue(f, z);
    FieldsAre(ToNumber(f, z), z);
  }

  /** With every level in use: the two counts of cities agree, or the node is in the first state. */
  lemma UsedRoundTripIff(id: nat, z: Sizes)
    requires Divides(z) && Positive(ReadRadix(z))
    ensures ToNumber(ToFields(id, z), z) == id
       <==> TextRadix(z).city == ReadRadix(z).city || id < OneState(TextRadix(z))
  {
    var t, f := TextRadix(z), ToFields(id, z);
    NumberRoundTripIff(id, z);
    LastDigits(id, t, f);
    ZeroAboveCity(f, t);
    FirstState(id, OneState(t));
  }

  lemma FirstState(id: nat, m: nat)
    requires m > 0
    ensures id / m == 0 <==> id < m
  {
    if id < m {
      UniqueDivision(id, m, 0, id);
    }
  }

  /** Two nodes in a district, two districts in a city, two cities in a state, which the other way counts as four. */
  function SmallDeployment(): Sizes {
    Sizes(2, 1, 2, 2, 4, 1, 2, 1, 1)
  }

  /** The first node of the second state gets the number 16 where it should be 8. */
  lemma ConversionsDiffer()
    ensures Divides(SmallDeployment()) && ToFields(8, SmallDeployment()) == Fields(0, 0, 0, 1, 0, 0)
    ensures ToNumber(Fields(0, 0, 0, 1, 0, 0), SmallDeployment()) == 16
  {
    assert TextRadix(SmallDeployment()) == Radix(2, 2, 2, 2, 1);
    assert ReadRadix(SmallDeployment()) == Radix(2, 2, 4, 2, 1);
  }

  // ---------- The nodes of a deployment ----------

  /** The nodes of a deployment with so many continents. */
  predicate IsNode(z: Sizes, continents: nat, f: Fields)
    requires Divides(z)
  {
    InRange(f, TextRadix(z)) && f.continent < continents
  }

  /** How many nodes there are. */
  function Total(z: Sizes, continents: nat): nat
    requires Divides(z)
  {
    Value(Fields(0, 0, 0, 0, 0, continents), TextRadix(z))
  }

  /** All nodes have the same value for both conversions. */
  ghost predicate CountsNodes(z: Sizes, continents: nat)
    requires Divides(z)
  {
    forall f :: IsNode(z, continents, f) ==> SameValue(f, z)
  }

  /** What a deployment has to be like for that: a level without room has nothing above it that is used. */
  predicate RadicesFit(t: Radix, r: Radix, continents: nat) {
    if continents == 0 then true
    else if r.district == 0 then t.city == 1 && t.state == 1 && t.country == 1 && continents == 1
    else if r.city == 0 then t.state == 1 && t.country == 1 && continents == 1
    else if r.state == 0 then t.country == 1 && continents == 1
    else if r.country == 0 then continents == 1 && (t.city == r.city || t.state == 1)
    else t.city == r.city || (t.state == 1 && t.country == 1 && continents == 1)
  }

  /** A node with the first value but one in one field, and the first in the others. */
  function InCity(): Fields {
    Fields(0, 0, 1, 0, 0, 0)
  }

  function InState(): Fields {
    Fields(0, 0, 0, 1, 0, 0)
  }

  function InCountry(): Fields {
    Fields(0, 0, 0, 0, 1, 0)
  }

  function InContinent(): Fields {
    Fields(0, 0, 0, 0, 0, 1)
  }

  lemma PutNothing(a: nat, r: nat)
    ensures Put(a, r, 0) == a && Put(0, r, 1) == r
  {
  }

  /** With room up to the states and none for countries. */
  lemma NoCountries(t: Radix, r: Radix)
    requires r.district > 0 && r.city > 0 && r.state > 0 && r.country == 0 && t.city > 0 && t.state > 0
    ensures !SameDigits(InContinent(), t, r)
    ensures SameDigits(InState(), t, r) ==> t.city == r.city
  {
    PutNothing(1, t.state);
    PositiveProduct(t.city, t.state);
    assert Times(t.city, Put(0, t.state, 1)) == t.city * t.state && Times(r.city, 0) == 0;
    assert Times(t.city, Put(1, t.state, 0)) == t.city && Times(r.city, 1) == r.city;
  }

  lemma CountedRadices(t: Radix, r: Radix, continents: nat)
    requires Positive(t) && continents > 0
    requires t.city > 1 ==> SameDigits(InCity(), t, r)
    requires t.state > 1 ==> SameDigits(InState(), t, r)
    requires t.country > 1 ==> SameDigits(InCountry(), t, r)
    requires continents > 1 ==> SameDigits(InContinent(), t, r)
    ensures RadicesFit(t, r, continents)
  {
    if r.district > 0 && r.city > 0 && r.state > 0 && r.country == 0 {
      NoCountries(t, r);
    }
  }

  lemma FittingSame(f: Fields, t: Radix, r: Radix, continents: nat)
    requires RadicesFit(t, r, continents) && InRange(f, t) && f.continent < continents
    ensures SameDigits(f, t, r)
  {
    PutNothing(f.state, t.state);
  }

  lemma CountsNodesIff(z: Sizes, continents: nat)
    requires Divides(z)
    ensures CountsNodes(z, continents) <==> RadicesFit(TextRadix(z), ReadRadix(z), continents)
  {
    var t, r := TextRadix(z), ReadRadix(z);
    if CountsNodes(z, continents) && continents > 0 {
      assert t.city > 1 ==> IsNode(z, continents, InCity()) && SameValue(InCity(), z);
      assert t.state > 1 ==> IsNode(z, continents, InState()) && SameValue(InState(), z);
      assert t.country > 1 ==> IsNode(z, continents, InCountry()) && SameValue(InCountry(), z);
      assert continents > 1 ==> IsNode(z, continents, InContinent()) && SameValue(InContinent(), z);
      CountedRadices(t, r, continents);
    }
    if RadicesFit(t, r, continents) {
      forall f | IsNode(z, continents, f) ensures SameValue(f, z) {
        FittingSame(f, t, r, continents);
      }
    }
  }

  /** The numbers of the nodes then count them from 0 on. */
  lemma NumbersCount(z: Sizes, continents: nat, f: Fields)
    requires Divides(z) && CountsNodes(z, continents) && IsNode(z, continents, f)
    ensures ToNumber(f, z) == Value(f, TextRadix(z)) < Total(z, continents)
  {
    NumberIs(f, z);
    SameValueIff(f, z);
    ValueOrder(f, Fields(0, 0, 0, 0, 0, continents), TextRadix(z));
  }

  lemma NodeOfNumber(z: Sizes, continents: nat, y: nat)
    requires Divides(z) && CountsNodes(z, continents) && y < Total(z, continents)
    ensures IsNode(z, continents, ToFields(y, z)) && ToNumber(ToFields(y, z), z) == y
  {
    var f := ToFields(y, z);
    FieldsAre(y, z);
    ValueOrder(f, Fields(0, 0, 0, 0, 0, continents), TextRadix(z));
    NumbersCount(z, continents, f);
  }

  // ---------- Order ----------

  /**
   * The conversion to a number leaves each field at least the room the conversion to text uses,
   * unless the fields above it have one value only.
   */
  predicate Roomy(z: Sizes, continents: nat)
    requires Divides(z)
  {
    RoomyRadix(TextRadix(z), ReadRadix(z), continents)
  }

  predicate RoomyRadix(t: Radix, r: Radix, continents: nat) {
    continents == 0
    || (&& (t.country <= r.country || continents == 1)
        && (t.state <= r.state || (continents == 1 && t.country == 1))
        && (t.city <= r.city || (continents == 1 && t.country == 1 && t.state == 1))
        && (t.district <= r.district || (continents == 1 && t.country == 1 && t.state == 1 && t.city == 1)))
  }

  /** Comparing two digits and their rests, when there is room for the digits or nothing else. */
  lemma RoomyOrder(a: nat, x: nat, b: nat, y: nat, t: nat, r: nat)
    requires a < t && b < t && (t <= r || (x == 0 && y == 0))
    ensures Put(a, r, x) < Put(b, r, y) <==> x < y || (x == y && a < b)
    ensures Put(a, r, x) == Put(b, r, y) <==> x == y && a == b
  {
    if t <= r {
      PutOrder(a, x, b, y, r);
    }
  }

  lemma NothingAbove(f: Fields, r: Radix)
    ensures f.continent == 0 && f.country == 0 ==> AboveState(f, r) == 0
    ensures f.continent == 0 && f.country == 0 && f.state == 0 ==> AboveCity(f, r) == 0
    ensures NothingAboveCity(f) && f.city == 0 ==> AboveDistrict(f, r) == 0
  {
    PutNothing(0, r.country);
    PutNothing(0, r.state);
    PutNothing(0, r.city);
  }

  lemma OrderAboveCity(t: Radix, r: Radix, continents: nat, f: Fields, g: Fields)
    requires RoomyRadix(t, r, continents) && InRange(f, t) && InRange(g, t) && f.continent < continents && g.continent < continents
    ensures AboveCity(f, r) < AboveCity(g, r) <==> AboveCityBefore(f, g)
    ensures AboveCity(f, r) == AboveCity(g, r) <==> f.continent == g.continent && f.country == g.country && f.state == g.state
  {
    NothingAbove(f, r);
    NothingAbove(g, r);
    RoomyOrder(f.country, f.continent, g.country, g.continent, t.country, r.country);
    RoomyOrder(f.state, AboveState(f, r), g.state, AboveState(g, r), t.state, r.state);
  }

  predicate AboveCityBefore(f: Fields, g: Fields) {
    if f.continent != g.continent then f.continent < g.continent
    else if f.country != g.country then f.country < g.country
    else f.state < g.state
  }

  lemma RadixOrder(t: Radix, r: Radix, continents: nat, f: Fields, g: Fields)
    requires r.single == t.single && RoomyRadix(t, r, continents)
    requires InRange(f, t) && InRange(g, t) && f.continent < continents && g.continent < continents
    ensures Value(f, r) < Value(g, r) <==> Before(f, g)
  {
    NothingAbove(f, r);
    NothingAbove(g, r);
    OrderAboveCity(t, r, continents, f, g);
    RoomyOrder(f.city, AboveCity(f, r), g.city, AboveCity(g, r), t.city, r.city);
    RoomyOrder(f.district, AboveDistrict(f, r), g.district, AboveDistrict(g, r), t.district, r.district);
    RoomyOrder(f.single, AboveSingle(f, r), g.single, AboveSingle(g, r), t.single, r.single);
  }

  lemma NodeOrder(z: Sizes, continents: nat, f: Fields, g: Fields)
    requires Divides(z) && Roomy(z, continents) && IsNode(z, continents, f) && IsNode(z, continents, g)
    ensures Value(f, ReadRadix(z)) < Value(g, ReadRadix(z)) <==> Before(f, g)
  {
    RadixOrder(TextRadix(z), ReadRadix(z), continents, f, g);
  }

  /** The next node when a state, a city or a district is used up. */
  function AfterState(t: Radix): Fields {
    if t.country > 1 then InCountry() else InContinent()
  }

  function AfterCity(t: Radix): Fields {
    if t.state > 1 then InState() else AfterState(t)
  }

  function AfterDistrict(t: Radix): Fields {
    if t.city > 1 then InCity() else AfterCity(t)
  }

  lemma ScaleNotDown(r: nat, x: nat, y: nat)
    requires x <= y
    ensures r * x <= r * y
  {
  }

  /** Two nodes with the same fields up to the state: what is above decides. */
  lemma SameBelowState(f: Fields, g: Fields, r: Radix)
    requires f.single == g.single && f.district == g.district && f.city == g.city && AboveCity(f, r) >= AboveCity(g, r)
    ensures Value(f, r) >= Value(g, r)
  {
    ScaleNotDown(r.city, AboveCity(g, r), AboveCity(f, r));
    SameBelowCity(f, g, r);
  }

  lemma SameBelowCity(f: Fields, g: Fields, r: Radix)
    requires f.single == g.single && f.district == g.district && AboveDistrict(f, r) >= AboveDistrict(g, r)
    ensures Value(f, r) >= Value(g, r)
  {
    ScaleNotDown(r.district, AboveDistrict(g, r), AboveDistrict(f, r));
    ScaleNotDown(r.single, AboveSingle(g, r), AboveSingle(f, r));
  }

  lemma AtMostOne(r: nat, x: nat)
    requires r <= 1 && x <= 1
    ensures Put(0, r, x) <= 1 && Put(1, r, 0) == 1
  {
  }

  /** The last node of what lacks room does not come before the next one. */
  lemma NoRoomForCountries(z: Sizes)
    requires Divides(z) && ReadRadix(z).country < TextRadix(z).country
    ensures Value(Fields(0, 0, 0, 0, TextRadix(z).country - 1, 0), ReadRadix(z)) >= Value(InContinent(), ReadRadix(z))
  {
    var f, g, r := Fields(0, 0, 0, 0, TextRadix(z).country - 1, 0), InContinent(), ReadRadix(z);
    ScaleNotDown(r.state, AboveState(g, r), AboveState(f, r));
    SameBelowState(f, g, r);
  }

  lemma NextAboveState(z: Sizes)
    requires Divides(z)
    ensures AboveState(AfterState(TextRadix(z)), ReadRadix(z)) <= 1
  {
    PutNothing(1, ReadRadix(z).country);
  }

  lemma NextAboveCity(z: Sizes)
    requires Divides(z)
    ensures AboveCity(AfterCity(TextRadix(z)), ReadRadix(z)) <= 1
  {
    var t, r := TextRadix(z), ReadRadix(z);
    if t.state > 1 {
      PutNothing(0, r.country);
      PutNothing(1, r.state);
    } else {
      NextAboveState(z);
      AtMostOne(r.state, AboveState(AfterState(t), r));
    }
  }

  lemma NoRoomForStates(z: Sizes)
    requires Divides(z) && ReadRadix(z).state < TextRadix(z).state
    ensures Value(Fields(0, 0, 0, TextRadix(z).state - 1, 0, 0), ReadRadix(z)) >= Value(AfterState(TextRadix(z)), ReadRadix(z))
  {
    var t, r := TextRadix(z), ReadRadix(z);
    var f, g := Fields(0, 0, 0, t.state - 1, 0, 0), AfterState(t);
    PutNothing(0, r.country);
    PutNothing(t.state - 1, r.state);
    NextAboveState(z);
    ScaleNotDown(r.state, AboveState(g, r), 1);
    SameBelowState(f, g, r);
  }

  lemma NoRoomForCities(z: Sizes)
    requires Divides(z) && ReadRadix(z).city < TextRadix(z).city
    ensures Value(Fields(0, 0, TextRadix(z).city - 1, 0, 0, 0), ReadRadix(z)) >= Value(AfterCity(TextRadix(z)), ReadRadix(z))
  {
    var t, r := TextRadix(z), ReadRadix(z);
    var f, g := Fields(0, 0, t.city - 1, 0, 0, 0), AfterCity(t);
    NothingAbove(f, r);
    PutNothing(t.city - 1, r.city);
    NextAboveCity(z);
    ScaleNotDown(r.city, AboveCity(g, r), 1);
    SameBelowCity(f, g, r);
  }

  lemma NoRoomForDistricts(z: Sizes)
    requires Divides(z) && ReadRadix(z).district < TextRadix(z).district
    ensures Value(Fields(0, 0, 0, 0, 0, 0), ReadRadix(z)) >= Value(AfterDistrict(TextRadix(z)), ReadRadix(z))
  {
    var r, g := ReadRadix(z), AfterDistrict(TextRadix(z));
    assert r.district == 0;
    assert AboveSingle(g, r) == 0;
  }

  /** Where there is no room, two nodes out of order. */
  lemma OutOfOrder(z: Sizes, continents: nat) returns (f: Fields, g: Fields)
    requires Divides(z) && !Roomy(z, continents)
    ensures IsNode(z, continents, f) && IsNode(z, continents, g) && Before(f, g)
    ensures Value(f, ReadRadix(z)) >= Value(g, ReadRadix(z))
  {
    var t, r := TextRadix(z), ReadRadix(z);
    if !(t.country <= r.country || continents == 1) {
      NoRoomForCountries(z);
      f, g := Fields(0, 0, 0, 0, t.country - 1, 0), InContinent();
    } else if !(t.state <= r.state || (continents == 1 && t.country == 1)) {
      NoRoomForStates(z);
      f, g := Fields(0, 0, 0, t.state - 1, 0, 0), AfterState(t);
    } else if !(t.city <= r.city || (continents == 1 && t.country == 1 && t.state == 1)) {
      NoRoomForCities(z);
      f, g := Fields(0, 0, t.city - 1, 0, 0, 0), AfterCity(t);
    } else {
      NoRoomForDistricts(z);
      f, g := Fields(0, 0, 0, 0, 0, 0), AfterDistrict(t);
    }
  }

  /**
   * The lexicographic order of the nodes of a deployment is the order of their numbers exactly when
   * the conversion to a number leaves enough room to every field above which a field is used.
   */
  lemma OrderAgreesIff(z: Sizes, continents: nat)
    requires Divides(z)
    ensures (forall f, g :: IsNode(z, continents, f) && IsNode(z, continents, g) ==>
              (ToNumber(f, z) < ToNumber(g, z) <==> Before(f, g)))
       <==> Roomy(z, continents)
  {
    if Roomy(z, continents) {
      forall f, g | IsNode(z, continents, f) && IsNode(z, continents, g)
        ensures ToNumber(f, z) < ToNumber(g, z) <==> Before(f, g)
      {
        NumberIs(f, z);
        NumberIs(g, z);
        NodeOrder(z, continents, f, g);
      }
    } else {
      var f, g := OutOfOrder(z, continents);
      NumberIs(f, z);
      NumberIs(g, z);
    }
  }

  /** The deployment of forty nodes in bootstrap_eth_40.sh: no level above the cities is used. */
  lemma FortyNodes()
    ensures var z := Sizes(10, 2, 4, 2, 4, 2, 0, 1, 0);
            && Divides(z) && TextRadix(z) != ReadRadix(z) && Total(z, 1) == 40
            && CountsNodes(z, 1) && Roomy(z, 1)
  {
    var z := Sizes(10, 2, 4, 2, 4, 2, 0, 1, 0);
    assert TextRadix(z) == Radix(10, 2, 2, 1, 1) && ReadRadix(z) == Radix(10, 2, 2, 0, 0);
    CountsNodesIff(z, 1);
  }
}
