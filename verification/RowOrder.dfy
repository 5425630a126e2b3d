/** The order of message lists: by timestamp, then by id. */
module RowOrder {
  datatype Key = Key(timestamp: int, id: string)

  /** Lexicographic by code point, which is the byte order of the UTF-8 forms. */
  predicate TextLess(a: string, b: string)
  {
    b != "" && (a == "" || a[0] < b[0] || (a[0] == b[0] && TextLess(a[1..], b[1..])))
  }

  predicate Less(a: Key, b: Key)
  {
    a.timestamp < b.timestamp || (a.timestamp == b.timestamp && TextLess(a.id, b.id))
  }

  lemma {:induction false} TextTrichotomy(a: string, b: string)
    ensures TextLess(a, b) || TextLess(b, a) || a == b
    ensures !(TextLess(a, b) && TextLess(b, a)) && (a == b ==> !TextLess(a, b))
  {
    if a != "" && b != "" && a[0] == b[0] {
      TextTrichotomy(a[1..], b[1..]);
      assert a == [a[0]] + a[1..] && b == [b[0]] + b[1..];
    }
  }

  lemma {:induction false} TextTransitive(a: string, b: string, c: string)
    requires TextLess(a, b) && TextLess(b, c)
    ensures TextLess(a, c)
  {
    if a != "" && a[0] == b[0] == c[0] {
      TextTransitive(a[1..], b[1..], c[1..]);
    }
  }

  lemma Trichotomy(a: Key, b: Key)
    ensures Less(a, b) || Less(b, a) || a == b
    ensures !(Less(a, b) && Less(b, a)) && !Less(a, a)
  {
    TextTrichotomy(a.id, b.id);
    TextTrichotomy(a.id, a.id);
  }

  lemma Transitive(a: Key, b: Key, c: Key)
    requires Less(a, b) && Less(b, c)
    ensures Less(a, c)
  {
    if a.timestamp == b.timestamp == c.timestamp {
      TextTransitive(a.id, b.id, c.id);
    }
  }

  predicate IsDescending(keys: seq<Key>) { forall i, j :: 0 <= i < j < |keys| ==> Less(keys[j], keys[i]) }

  predicate IsMax(keys: set<Key>, top: Key) { top in keys && forall k :: k in keys && k != top ==> Less(k, top) }

  lemma {:induction false} MaxExists(keys: set<Key>) returns (top: Key)
    requires keys != {}
    ensures IsMax(keys, top)
  {
    var some :| some in keys;
    top := some;
    if keys != {some} {
      var rest := keys - {some};
      assert keys == {some} + rest;
      var best := MaxExists(rest);
      Trichotomy(some, best);
      if Less(some, best) {
        top := best;
        assert forall k :: k in keys ==> k == some || k in rest;
      } else {
        forall k | k in keys && k != some ensures Less(k, some) {
          assert k in rest;
          if k != best { Transitive(k, best, some); }
        }
      }
    }
  }

  /** The keys of a set, newest first. */
  ghost function Descending(keys: set<Key>): (sorted: seq<Key>)
    ensures IsDescending(sorted) && forall k :: k in sorted <==> k in keys
    ensures |sorted| == |keys|
  {
    if keys == {} then []
    else
      assert exists top :: IsMax(keys, top) by { var top := MaxExists(keys); }
      var top :| IsMax(keys, top);
      var rest := Descending(keys - {top});
      assert forall k :: k in rest ==> k in keys && k != top;
      [top] + rest
  }

  /** A descending list is determined by its elements. */
  lemma {:induction false} DescendingUnique(a: seq<Key>, b: seq<Key>)
    requires IsDescending(a) && IsDescending(b) && forall k :: k in a <==> k in b
    ensures a == b
  {
    if b != [] {
      assert b[0] in a;
    }
    if a != [] {
      assert a[0] in b;
      Trichotomy(a[0], b[0]);
      forall k ensures k in a[1..] <==> k in b[1..] {
        Trichotomy(a[0], a[0]);
        assert k in a[1..] ==> k in a && Less(k, a[0]);
        assert k in b[1..] ==> k in b && Less(k, b[0]);
        assert k in a && k != a[0] ==> k in a[1..];
        assert k in b && k != b[0] ==> k in b[1..];
      }
      DescendingUnique(a[1..], b[1..]);
      assert a == [a[0]] + a[1..] && b == [b[0]] + b[1..];
    }
  }

  function Min(a: nat, b: nat): nat { if a < b then a else b }

  /** The greatest keys of a set, newest first, with the rest. */
  predicate Selected(keys: set<Key>, rows: seq<Key>, rest: set<Key>)
  {
    && IsDescending(rows) && rest <= keys && |rows| + |rest| == |keys|
    && (forall k :: k in rows ==> k in keys && k !in rest)
    && (forall k :: k in keys && k !in rest ==> k in rows)
    && (forall k, l :: k in rows && l in rest ==> Less(l, k))
  }

  lemma SelectedIsPrefix(keys: set<Key>, rows: seq<Key>, rest: set<Key>)
    requires Selected(keys, rows, rest)
    ensures rows == Descending(keys)[..|rows|]
  {
    var others := Descending(rest);
    forall i, j | 0 <= i < j < |rows + others| ensures Less((rows + others)[j], (rows + others)[i]) {
      assert j >= |rows| ==> (rows + others)[j] in others;
      assert i < |rows| ==> (rows + others)[i] in rows;
    }
    DescendingUnique(rows + others, Descending(keys));
    assert rows == (rows + others)[..|rows|];
  }

  /** ORDER BY timestamp DESC, id DESC LIMIT n: repeatedly the greatest of what is left. */
  method SelectDescending(keys: set<Key>, limit: nat) returns (rows: seq<Key>)
    ensures rows == Descending(keys)[..Min(limit, |keys|)]
  {
    rows := [];
    var rest := keys;
    while rest != {} && |rows| < limit
      invariant |rows| <= limit && Selected(keys, rows, rest)
      decreases |rest|
    {
      var top := Greatest(rest);
      rows := rows + [top];
      rest := rest - {top};
    }
    SelectedIsPrefix(keys, rows, rest);
  }

  method Greatest(keys: set<Key>) returns (top: Key)
    requires keys != {}
    ensures IsMax(keys, top)
  {
    top :| top in keys;
    var rest := keys - {top};
    while rest != {}
      invariant rest < keys && top in keys && top !in rest
      invariant forall k :: k in keys && k !in rest && k != top ==> Less(k, top)
      decreases rest
    {
      var next :| next in rest;
      Trichotomy(next, top);
      if Less(top, next) {
        forall k | k in keys && k !in rest && k != top ensures Less(k, next) {
          Transitive(k, top, next);
        }
        top := next;
      }
      rest := rest - {next};
    }
  }
}
