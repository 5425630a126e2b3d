/** Finite sets of numbers as sorted sequences: what `BTreeSet`, `sort_unstable` and `dedup` compute. */
module NatSets {

  predicate IsLeast(s: set<nat>, m: nat) { m in s && forall x :: x in s ==> m <= x }

  lemma {:induction false} LeastExists(s: set<nat>)
    requires s != {}
    ensures exists m :: IsLeast(s, m)
  {
    var y :| y in s;
    if s == {y} {
      assert IsLeast(s, y);
    } else {
      LeastExists(s - {y});
      var m :| IsLeast(s - {y}, m);
      var least := if m < y then m else y;
      assert forall x :: x in s ==> x == y || x in s - {y};
      assert IsLeast(s, least);
    }
  }

  function Least(s: set<nat>): (m: nat)
    requires s != {}
    ensures m in s && forall x :: x in s ==> m <= x
  {
    LeastExists(s);
    var m :| m in s && forall x :: x in s ==> m <= x;
    m
  }

  predicate StrictlyAscending(r: seq<nat>)
  {
    forall i, j :: 0 <= i < j < |r| ==> r[i] < r[j]
  }

  /** The elements of a set from least to greatest. */
  function Ascending(s: set<nat>): (r: seq<nat>)
    ensures |r| == |s|
    ensures StrictlyAscending(r)
    ensures forall x :: x in r <==> x in s
  {
    if s == {} then []
    else
      var m := Least(s);
      [m] + Ascending(s - {m})
  }

  /** There is only one way to list a set in ascending order. */
  lemma {:induction false} AscendingUnique(r: seq<nat>, s: set<nat>)
    requires StrictlyAscending(r)
    requires forall x :: x in r <==> x in s
    ensures r == Ascending(s)
  {
    if r == [] {
      assert s == {};
    } else {
      assert r[0] in s;
      var m := Least(s);
      assert m in r;
      assert r[0] == m;
      var tail := r[1..];
      assert r == [m] + tail;
      forall x ensures x in tail <==> x in s - {m} {
        if x in tail {
          var i :| 0 <= i < |tail| && tail[i] == x;
          assert r[i + 1] == x;
        }
      }
      AscendingUnique(tail, s - {m});
    }
  }

  function Insert(x: nat, s: seq<nat>): (r: seq<nat>)
    ensures |r| == |s| + 1 && multiset(r) == multiset(s) + multiset{x}
  {
    if s == [] || x <= s[0] then
      assert [x] + s == [x] + s;
      [x] + s
    else
      assert s == [s[0]] + s[1..];
      [s[0]] + Insert(x, s[1..])
  }

  lemma {:induction false} InsertSorts(x: nat, s: seq<nat>)
    requires Sorted(s)
    ensures Sorted(Insert(x, s))
  {
    if s != [] && x > s[0] {
      InsertSorts(x, s[1..]);
      var rest := Insert(x, s[1..]);
      forall i | 0 <= i < |rest| ensures s[0] <= rest[i] {
        InsertElement(x, s[1..], i);
      }
    }
  }

  /** Every element of an insertion is the new one or an old one. */
  lemma {:induction false} InsertElement(x: nat, s: seq<nat>, i: nat)
    requires i < |Insert(x, s)|
    ensures Insert(x, s)[i] == x || Insert(x, s)[i] in s
  {
    if s != [] && x > s[0] && i > 0 {
      InsertElement(x, s[1..], i - 1);
    }
  }

  predicate Sorted(s: seq<nat>)
  {
    forall i, j :: 0 <= i < j < |s| ==> s[i] <= s[j]
  }

  /** `sort_unstable` */
  function Sort(s: seq<nat>): (r: seq<nat>)
    ensures Sorted(r)
    ensures multiset(r) == multiset(s)
  {
    if s == [] then []
    else
      assert s == [s[0]] + s[1..];
      InsertSorts(s[0], Sort(s[1..]));
      Insert(s[0], Sort(s[1..]))
  }

  /** `dedup`: drops each element equal to its predecessor. */
  function Dedup(s: seq<nat>): (r: seq<nat>)
    ensures forall x :: x in r <==> x in s
    ensures Sorted(s) ==> StrictlyAscending(r)
    ensures s != [] ==> r != [] && r[0] == s[0]
  {
    if |s| <= 1 then s
    else if s[0] == s[1] then
      assert forall x :: x in s <==> x in s[1..];
      Dedup(s[1..])
    else
      var rest := Dedup(s[1..]);
      assert s == [s[0]] + s[1..];
      assert Sorted(s) ==> forall y :: y in rest ==> s[0] < y by {
        if Sorted(s) {
          assert StrictlyAscending(rest);
          forall y | y in rest ensures s[0] < y {
            assert y in s[1..];
          }
        }
      }
      [s[0]] + rest
  }

  /** `retain` */
  function Retain(s: seq<nat>, keep: nat -> bool): (r: seq<nat>)
    ensures forall x :: x in r <==> x in s && keep(x)
  {
    if s == [] then []
    else
      assert s == [s[0]] + s[1..];
      (if keep(s[0]) then [s[0]] else []) + Retain(s[1..], keep)
  }

  /** Sorting and deduplicating a reply lists the set of its elements. */
  lemma SortedSet(s: seq<nat>, elements: set<nat>)
    requires forall x :: x in s <==> x in elements
    ensures Dedup(Sort(s)) == Ascending(elements)
  {
    var sorted := Sort(s);
    forall x ensures x in sorted <==> x in s {
      assert x in sorted <==> x in multiset(sorted);
      assert x in s <==> x in multiset(s);
    }
    AscendingUnique(Dedup(sorted), elements);
  }
}
