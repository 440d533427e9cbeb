/** Sorting by a numeric key. */
module Sorting {
  function Insert<T>(x: T, s: seq<T>, key: T -> nat): seq<T> {
    if s == [] || key(x) <= key(s[0]) then [x] + s else [s[0]] + Insert(x, s[1..], key)
  }

  /** A stable sort. */
  function SortBy<T>(s: seq<T>, key: T -> nat): seq<T> {
    if s == [] then [] else Insert(s[0], SortBy(s[1..], key), key)
  }

  ghost predicate Ascending<T>(s: seq<T>, key: T -> nat) {
    forall i, j :: 0 <= i < j < |s| ==> key(s[i]) <= key(s[j])
  }

  ghost predicate StrictlyAscending<T>(s: seq<T>, key: T -> nat) {
    forall i, j :: 0 <= i < j < |s| ==> key(s[i]) < key(s[j])
  }

  ghost predicate NoDuplicates<T>(s: seq<T>) {
    forall i, j :: 0 <= i < j < |s| ==> s[i] != s[j]
  }

  ghost predicate SameMembers<T>(s: seq<T>, t: seq<T>) {
    (forall x :: x in s ==> x in t) && (forall x :: x in t ==> x in s)
  }

  lemma {:induction false} InsertSorts<T(!new)>(x: T, s: seq<T>, key: T -> nat)
    requires Ascending(s, key)
    ensures Ascending(Insert(x, s, key), key)
    ensures forall y :: y in Insert(x, s, key) <==> y == x || y in s
    ensures |Insert(x, s, key)| == |s| + 1
    decreases |s|
  {
    var r := Insert(x, s, key);
    if s == [] || key(x) <= key(s[0]) {
      forall i, j | 0 <= i < j < |r| ensures key(r[i]) <= key(r[j]) {
        if i == 0 {
          assert key(s[0]) <= key(s[j - 1]);
        }
      }
    } else {
      var t := Insert(x, s[1..], key);
      InsertSorts(x, s[1..], key);
      forall i, j | 0 <= i < j < |r| ensures key(r[i]) <= key(r[j]) {
        if i == 0 {
          assert t[j - 1] in t;
          if t[j - 1] != x {
            var k :| 0 <= k < |s[1..]| && s[1..][k] == t[j - 1];
            assert s[k + 1] == t[j - 1];
          }
        }
      }
      assert forall y :: y in s <==> y == s[0] || y in s[1..];
    }
  }

  lemma {:induction false} SortSorts<T(!new)>(s: seq<T>, key: T -> nat)
    ensures Ascending(SortBy(s, key), key) && SameMembers(SortBy(s, key), s) && |SortBy(s, key)| == |s|
    decreases |s|
  {
    if s != [] {
      SortSorts(s[1..], key);
      InsertSorts(s[0], SortBy(s[1..], key), key);
      assert forall y :: y in s <==> y == s[0] || y in s[1..];
    }
  }

  /** The number of times `x` occurs: sorting keeps it. */
  function Occurrences<T(==)>(s: seq<T>, x: T): nat {
    if s == [] then 0 else (if s[0] == x then 1 else 0) + Occurrences(s[1..], x)
  }

  lemma {:induction false} InsertOccurrences<T(!new)>(x: T, s: seq<T>, key: T -> nat, y: T)
    ensures Occurrences(Insert(x, s, key), y) == Occurrences(s, y) + if y == x then 1 else 0
    decreases |s|
  {
    if s == [] || key(x) <= key(s[0]) {
      assert ([x] + s)[1..] == s;
    } else {
      InsertOccurrences(x, s[1..], key, y);
      assert ([s[0]] + Insert(x, s[1..], key))[1..] == Insert(x, s[1..], key);
    }
  }

  lemma {:induction false} SortOccurrences<T(!new)>(s: seq<T>, key: T -> nat, y: T)
    ensures Occurrences(SortBy(s, key), y) == Occurrences(s, y)
    decreases |s|
  {
    if s != [] {
      SortOccurrences(s[1..], key, y);
      InsertOccurrences(s[0], SortBy(s[1..], key), key, y);
    }
  }

  lemma {:induction false} OccurrencesOfMember<T(!new)>(s: seq<T>, i: nat)
    requires i < |s|
    ensures Occurrences(s, s[i]) >= 1
    decreases |s|
  {
    if i > 0 {
      OccurrencesOfMember(s[1..], i - 1);
    }
  }

  lemma {:induction false} OccurrencesTwice<T(!new)>(s: seq<T>, i: nat, j: nat)
    requires i < j < |s| && s[i] == s[j]
    ensures Occurrences(s, s[i]) >= 2
    decreases |s|
  {
    if i == 0 {
      OccurrencesOfMember(s[1..], j - 1);
    } else {
      OccurrencesTwice(s[1..], i - 1, j - 1);
    }
  }

  lemma {:induction false} OccurrencesOnce<T(!new)>(s: seq<T>, x: T)
    requires NoDuplicates(s)
    ensures Occurrences(s, x) <= 1
    ensures x !in s ==> Occurrences(s, x) == 0
    decreases |s|
  {
    if s != [] {
      OccurrencesOnce(s[1..], x);
    }
  }

  /** Without duplicates and with an injective key the result ascends strictly. */
  lemma SortStrictly<T(!new)>(s: seq<T>, key: T -> nat)
    requires NoDuplicates(s) && forall x, y :: x in s && y in s && key(x) == key(y) ==> x == y
    ensures StrictlyAscending(SortBy(s, key), key) && SameMembers(SortBy(s, key), s) && |SortBy(s, key)| == |s|
  {
    SortSorts(s, key);
    var r := SortBy(s, key);
    forall i, j | 0 <= i < j < |r| ensures key(r[i]) < key(r[j]) {
      assert r[i] in r && r[j] in r;
      if r[i] == r[j] {
        OccurrencesTwice(r, i, j);
        SortOccurrences(s, key, r[i]);
        OccurrencesOnce(s, r[i]);
      }
    }
  }

  lemma FirstIsMember<T>(s: seq<T>)
    requires |s| > 0
    ensures s[0] in s
  {
  }

  /** Two strictly ascending sequences with the same members are one sequence. */
  lemma {:induction false} AscendingIsUnique<T(!new)>(s: seq<T>, t: seq<T>, key: T -> nat)
    requires StrictlyAscending(s, key) && StrictlyAscending(t, key) && SameMembers(s, t)
    ensures s == t
    decreases |s|
  {
    if s == [] {
      if |t| > 0 {
        FirstIsMember(t);
        assert false;
      }
    } else {
      assert s[0] in t;
      FirstIsSmallest(s, t, key);
      FirstIsSmallest(t, s, key);
      TailsSameMembers(s, t, key);
      AscendingIsUnique(s[1..], t[1..], key);
      assert s == [s[0]] + s[1..] && t == [t[0]] + t[1..];
    }
  }

  lemma FirstIsSmallest<T(!new)>(s: seq<T>, t: seq<T>, key: T -> nat)
    requires StrictlyAscending(s, key) && StrictlyAscending(t, key) && SameMembers(s, t) && s != [] && t != []
    ensures s[0] == t[0]
  {
    assert s[0] in t && t[0] in s;
    var i :| 0 <= i < |t| && t[i] == s[0];
    var j :| 0 <= j < |s| && s[j] == t[0];
  }

  lemma TailMembers<T(!new)>(s: seq<T>, key: T -> nat, x: T)
    requires StrictlyAscending(s, key) && s != []
    ensures x in s[1..] <==> x in s && x != s[0]
  {
    if x in s[1..] {
      var i :| 0 <= i < |s[1..]| && s[1..][i] == x;
      assert key(s[0]) < key(s[i + 1]);
    }
  }

  lemma TailsSameMembers<T(!new)>(s: seq<T>, t: seq<T>, key: T -> nat)
    requires StrictlyAscending(s, key) && StrictlyAscending(t, key) && SameMembers(s, t)
    requires s != [] && t != [] && s[0] == t[0]
    ensures SameMembers(s[1..], t[1..])
  {
    forall x ensures x in s[1..] <==> x in t[1..] {
      TailMembers(s, key, x);
      TailMembers(t, key, x);
    }
  }
}
