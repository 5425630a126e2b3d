/** Keyset pages over the message table, while rows come and go between them. */
module Paging {
  import opened Wrappers
  import opened StorageErrors
  import opened RowOrder
  import opened Storage

  const MAX_PAGE_SIZE: nat := 200

  /** A message query without its cursor and limit; a blank search text is no search. */
  datatype Query = Query(account: Option<string>, mailbox: Option<string>, unreadOnly: bool, search: Option<string>)

  /** The full-text engine: whether an index row matches a search text. */
  type Engine = (string, IndexRow) -> bool

  function KeyOfRow(t: Tables, id: string): Key
    requires id in t.messages
  {
    Key(t.messages[id].summary.timestamp, id)
  }

  predicate Found(t: Tables, id: string, text: string, engine: Engine)
  {
    id in t.index && exists i :: 0 <= i < |t.index[id]| && engine(text, t.index[id][i])
  }

  predicate Matches(t: Tables, query: Query, engine: Engine, id: string)
  {
    && id in t.messages
    && (query.account.Some? ==> t.messages[id].summary.accountId == query.account.value)
    && (query.mailbox.Some? ==> t.messages[id].summary.mailboxId == query.mailbox)
    && (query.unreadOnly ==> !t.messages[id].summary.read)
    && (query.search.Some? ==> Found(t, id, query.search.value, engine))
  }

  /** The keys of every matching row. */
  function MatchingKeys(t: Tables, query: Query, engine: Engine): set<Key>
  {
    set id | id in t.messages && Matches(t, query, engine, id) :: KeyOfRow(t, id)
  }

  function Below(keys: set<Key>, cursor: Option<Key>): set<Key>
  {
    match cursor case None => keys case Some(bound) => set k | k in keys && Less(k, bound)
  }

  datatype Page = Page(rows: seq<Key>, next: Option<Key>)

  function Clamp(limit: nat): nat { if limit < 1 then 1 else if limit > MAX_PAGE_SIZE then MAX_PAGE_SIZE else limit }

  /** A cursor text decodes to a timestamp and an id that is not empty. */
  predicate CursorAccepted(cursor: Option<Key>) { cursor.Some? ==> cursor.value.id != "" }

  /** The first n rows, and a cursor when there are more. */
  function Cut(all: seq<Key>, n: nat): Page
    requires n >= 1
  {
    if |all| > n then Page(all[..n], Some(all[n - 1])) else Page(all, None)
  }

  ghost function ListPage(t: Tables, query: Query, engine: Engine, cursor: Option<Key>, limit: nat)
    : Result<Page, StorageError>
  {
    if !CursorAccepted(cursor) then Err(InvalidCursor)
    else Ok(Cut(Descending(Below(MatchingKeys(t, query, engine), cursor)), Clamp(limit)))
  }

  lemma CutOfMore(all: seq<Key>, n: nat, rows: seq<Key>)
    requires n >= 1 && rows == all[..Min(n + 1, |all|)]
    ensures Cut(rows, n) == Cut(all, n)
  {
    assert |all| > n ==> rows[..n] == all[..n];
  }

  /** One row more than the page shows tells whether there is a next page. */
  method SelectPage(keys: set<Key>, n: nat) returns (page: Page)
    requires n >= 1
    ensures page == Cut(Descending(keys), n)
  {
    var rows := SelectDescending(keys, n + 1);
    CutOfMore(Descending(keys), n, rows);
    var hasMore := |rows| > n;
    if hasMore {
      rows := rows[..n];
    }
    page := Page(rows, if hasMore then Some(rows[|rows| - 1]) else None);
  }

  method ListMessages(t: Tables, query: Query, engine: Engine, cursor: Option<Key>, limit: nat)
    returns (page: Result<Page, StorageError>)
    ensures page == ListPage(t, query, engine, cursor, limit)
  {
    if cursor.Some? && cursor.value.id == "" {
      return Err(InvalidCursor);
    }
    var rows := SelectPage(Below(MatchingKeys(t, query, engine), cursor), Clamp(limit));
    page := Ok(rows);
  }

  // ----- One page -----

  predicate AllBelow(rows: seq<Key>, cursor: Option<Key>)
  {
    cursor.Some? ==> forall k :: k in rows ==> Less(k, cursor.value)
  }

  predicate AllAtLeast(rows: seq<Key>, cursor: Option<Key>)
  {
    cursor.Some? ==> forall k :: k in rows ==> k == cursor.value || Less(cursor.value, k)
  }

  /** The greatest n keys of a set below the cursor; everything else below it is below the next cursor. */
  predicate IsPage(keys: set<Key>, cursor: Option<Key>, n: nat, page: Page)
  {
    && IsDescending(page.rows) && AllBelow(page.rows, cursor) && AllAtLeast(page.rows, page.next)
    && (forall k :: k in page.rows ==> k in keys)
    && |page.rows| <= n && (page.next.Some? ==> |page.rows| == n && page.next.value in page.rows)
    && (forall k :: k in Below(keys, cursor) ==> k in page.rows || (page.next.Some? && Less(k, page.next.value)))
  }

  lemma CutIsPage(keys: set<Key>, cursor: Option<Key>, all: seq<Key>, n: nat)
    requires n >= 1 && IsDescending(all) && forall k :: k in all <==> k in Below(keys, cursor)
    ensures IsPage(keys, cursor, n, Cut(all, n))
  {
    var page := Cut(all, n);
    assert forall k :: k in page.rows ==> k in all;
    forall k | k in all ensures k in page.rows || (page.next.Some? && Less(k, page.next.value)) {
      var i :| 0 <= i < |all| && all[i] == k;
      assert i < |page.rows| ==> page.rows[i] == k;
    }
    if page.next.Some? {
      assert page.next.value == page.rows[n - 1];
      forall k | k in page.rows ensures k == page.next.value || Less(page.next.value, k) {
        var i :| 0 <= i < n && page.rows[i] == k;
      }
    }
  }

  lemma PageExact(t: Tables, query: Query, engine: Engine, cursor: Option<Key>, limit: nat, page: Page)
    requires ListPage(t, query, engine, cursor, limit) == Ok(page)
    ensures IsPage(MatchingKeys(t, query, engine), cursor, Clamp(limit), page)
  {
    var keys := MatchingKeys(t, query, engine);
    CutIsPage(keys, cursor, Descending(Below(keys, cursor)), Clamp(limit));
  }

  // ----- Walks over changing sets of matching keys -----

  function CursorBefore(pages: seq<Page>, i: nat): Option<Key>
    requires i <= |pages|
  {
    if i == 0 then None else pages[i - 1].next
  }

  /** Following cursors: page i was read from the keys that matched then. */
  predicate Follows(keys: seq<set<Key>>, pages: seq<Page>, n: nat)
  {
    && |keys| == |pages|
    && (forall i :: 0 <= i < |pages| ==> IsPage(keys[i], CursorBefore(pages, i), n, pages[i]))
    && (forall i :: 0 <= i < |pages| - 1 ==> pages[i].next.Some?)
  }

  function Rows(pages: seq<Page>): seq<Key>
  {
    if pages == [] then [] else Rows(pages[..|pages| - 1]) + pages[|pages| - 1].rows
  }

  lemma FollowsPrefix(keys: seq<set<Key>>, pages: seq<Page>, n: nat)
    requires Follows(keys, pages, n) && pages != []
    ensures Follows(keys[..|pages| - 1], pages[..|pages| - 1], n)
    ensures CursorBefore(pages[..|pages| - 1], |pages| - 1) == CursorBefore(pages, |pages| - 1)
  {
    var m := |pages| - 1;
    forall i | 0 <= i < m ensures IsPage(keys[..m][i], CursorBefore(pages[..m], i), n, pages[..m][i]) {
      assert CursorBefore(pages[..m], i) == CursorBefore(pages, i);
    }
  }

  lemma Concatenate(a: seq<Key>, b: seq<Key>)
    requires IsDescending(a) && IsDescending(b) && forall x, y :: x in a && y in b ==> Less(y, x)
    ensures IsDescending(a + b)
  {
    forall i, j | 0 <= i < j < |a + b| ensures Less((a + b)[j], (a + b)[i]) {
      if i < |a| <= j {
        assert a[i] in a && b[j - |a|] in b;
      }
    }
  }

  lemma {:induction false} RowsDescend(keys: seq<set<Key>>, pages: seq<Page>, n: nat)
    requires Follows(keys, pages, n)
    ensures IsDescending(Rows(pages)) && AllAtLeast(Rows(pages), CursorBefore(pages, |pages|))
  {
    if pages != [] {
      var m := |pages| - 1;
      FollowsPrefix(keys, pages, n);
      RowsDescend(keys[..m], pages[..m], n);
      var cursor, earlier, rows := CursorBefore(pages, m), Rows(pages[..m]), pages[m].rows;
      forall a, b | a in earlier && b in rows ensures Less(b, a) {
        if a != cursor.value { Transitive(b, cursor.value, a); }
      }
      Concatenate(earlier, rows);
    }
  }

  /** A key is still to come, or there is nothing more to come. */
  predicate Ahead(key: Key, cursor: Option<Key>) { cursor.Some? && Less(key, cursor.value) }

  predicate Reached(pages: seq<Page>, key: Key)
  {
    key in Rows(pages) || pages == [] || Ahead(key, CursorBefore(pages, |pages|))
  }

  lemma PageReaches(keys: set<Key>, cursor: Option<Key>, n: nat, page: Page, key: Key)
    requires IsPage(keys, cursor, n, page) && key in keys && (cursor.None? || Ahead(key, cursor))
    ensures key in page.rows || Ahead(key, page.next)
  {
    assert key in Below(keys, cursor);
  }

  lemma OnePageMore(before: seq<Page>, last: Page, key: Key)
    requires key in Rows(before) || key in last.rows || Ahead(key, last.next)
    ensures Reached(before + [last], key)
  {
    assert (before + [last])[..|before|] == before;
  }

  /** A page lists a key that is ahead of it, or leaves it ahead. */
  predicate Advances(pages: seq<Page>, i: nat, key: Key)
    requires i < |pages|
  {
    CursorBefore(pages, i).None? || Ahead(key, CursorBefore(pages, i)) ==>
      key in pages[i].rows || Ahead(key, pages[i].next)
  }

  lemma {:induction false} AdvancesReach(pages: seq<Page>, key: Key, m: nat)
    requires m <= |pages| && forall i :: 0 <= i < |pages| ==> Advances(pages, i, key)
    ensures Reached(pages[..m], key)
  {
    if m > 0 {
      AdvancesReach(pages, key, m - 1);
      var before := pages[..m - 1];
      assert CursorBefore(before, m - 1) == CursorBefore(pages, m - 1);
      assert Advances(pages, m - 1, key);
      OnePageMore(before, pages[m - 1], key);
      assert pages[..m] == before + [pages[m - 1]];
    }
  }

  lemma RowReached(keys: seq<set<Key>>, pages: seq<Page>, n: nat, key: Key)
    requires Follows(keys, pages, n) && forall i :: 0 <= i < |keys| ==> key in keys[i]
    ensures Reached(pages, key)
  {
    forall i | 0 <= i < |pages| ensures Advances(pages, i, key) {
      PageAdvances(keys, pages, n, key, i);
    }
    AdvancesReach(pages, key, |pages|);
    assert pages[..|pages|] == pages;
  }

  lemma PageAdvances(keys: seq<set<Key>>, pages: seq<Page>, n: nat, key: Key, i: nat)
    requires Follows(keys, pages, n) && i < |pages| && key in keys[i]
    ensures Advances(pages, i, key)
  {
    if CursorBefore(pages, i).None? || Ahead(key, CursorBefore(pages, i)) {
      PageReaches(keys[i], CursorBefore(pages, i), n, pages[i], key);
    }
  }

  lemma {:induction false} RowMatched(keys: seq<set<Key>>, pages: seq<Page>, n: nat, key: Key)
    requires Follows(keys, pages, n) && key in Rows(pages)
    ensures exists i :: 0 <= i < |keys| && key in keys[i]
  {
    var m := |pages| - 1;
    if key !in pages[m].rows {
      FollowsPrefix(keys, pages, n);
      RowMatched(keys[..m], pages[..m], n, key);
    }
  }

  lemma {:induction false} FullPages(pages: seq<Page>, n: nat)
    requires forall i :: 0 <= i < |pages| ==> |pages[i].rows| == n
    ensures |Rows(pages)| == |pages| * n
  {
    if pages != [] {
      FullPages(pages[..|pages| - 1], n);
      OneMore(|pages| - 1, n);
    }
  }

  lemma OneMore(m: nat, n: nat)
    ensures (m + 1) * n == m * n + n
  {
  }

  // ----- Walks over changing tables -----

  ghost predicate IsWalk(tables: seq<Tables>, pages: seq<Page>, query: Query, engine: Engine, limit: nat)
  {
    && |tables| == |pages|
    && (forall i :: 0 <= i < |pages| ==>
          ListPage(tables[i], query, engine, CursorBefore(pages, i), limit) == Ok(pages[i]))
    && (forall i :: 0 <= i < |pages| - 1 ==> pages[i].next.Some?)
  }

  function KeySets(tables: seq<Tables>, query: Query, engine: Engine): seq<set<Key>>
  {
    seq(|tables|, i requires 0 <= i < |tables| => MatchingKeys(tables[i], query, engine))
  }

  lemma WalkFollows(tables: seq<Tables>, pages: seq<Page>, query: Query, engine: Engine, limit: nat)
    requires IsWalk(tables, pages, query, engine, limit)
    ensures Follows(KeySets(tables, query, engine), pages, Clamp(limit))
  {
    forall i | 0 <= i < |pages|
      ensures IsPage(MatchingKeys(tables[i], query, engine), CursorBefore(pages, i), Clamp(limit), pages[i])
    {
      PageExact(tables[i], query, engine, CursorBefore(pages, i), limit, pages[i]);
    }
  }

  /** The keys of a walk strictly descend, whatever happens to the tables between its pages. */
  lemma WalkDescends(tables: seq<Tables>, pages: seq<Page>, query: Query, engine: Engine, limit: nat)
    requires IsWalk(tables, pages, query, engine, limit)
    ensures IsDescending(Rows(pages))
    ensures forall i, j :: 0 <= i < j < |Rows(pages)| ==> Rows(pages)[i] != Rows(pages)[j]
  {
    WalkFollows(tables, pages, query, engine, limit);
    RowsDescend(KeySets(tables, query, engine), pages, Clamp(limit));
    forall i, j | 0 <= i < j < |Rows(pages)| ensures Rows(pages)[i] != Rows(pages)[j] {
      Trichotomy(Rows(pages)[i], Rows(pages)[j]);
    }
  }

  /** The row matches with this key in every state the walk reads. */
  ghost predicate Stays(tables: seq<Tables>, query: Query, engine: Engine, key: Key)
  {
    forall i :: 0 <= i < |tables| ==> Matches(tables[i], query, engine, key.id) && KeyOfRow(tables[i], key.id) == key
  }

  /** A row that matches with the same key throughout a finished walk is listed, and by WalkDescends only once, however
      other rows come and go. */
  lemma UnchangedRowListed(tables: seq<Tables>, pages: seq<Page>, query: Query, engine: Engine, limit: nat, key: Key)
    requires IsWalk(tables, pages, query, engine, limit) && pages != [] && pages[|pages| - 1].next.None?
    requires Stays(tables, query, engine, key)
    ensures key in Rows(pages)
  {
    WalkFollows(tables, pages, query, engine, limit);
    var keys := KeySets(tables, query, engine);
    forall i | 0 <= i < |keys| ensures key in keys[i] {
      assert Matches(tables[i], query, engine, key.id) && KeyOfRow(tables[i], key.id) == key;
    }
    RowReached(keys, pages, Clamp(limit), key);
  }

  /** On a store that does not change, a finished walk has listed precisely the matching rows, newest first. */
  lemma FixedStoreWalkIsComplete(
      t: Tables, tables: seq<Tables>, pages: seq<Page>, query: Query, engine: Engine, limit: nat)
    requires IsWalk(tables, pages, query, engine, limit) && pages != [] && pages[|pages| - 1].next.None?
    requires forall i :: 0 <= i < |tables| ==> tables[i] == t
    ensures Rows(pages) == Descending(MatchingKeys(t, query, engine))
  {
    WalkFollows(tables, pages, query, engine, limit);
    WalkDescends(tables, pages, query, engine, limit);
    var keys, all := KeySets(tables, query, engine), MatchingKeys(t, query, engine);
    assert forall i :: 0 <= i < |keys| ==> keys[i] == all;
    forall k ensures k in Rows(pages) <==> k in all {
      if k in Rows(pages) {
        RowMatched(keys, pages, Clamp(limit), k);
      }
      if k in all {
        RowReached(keys, pages, Clamp(limit), k);
      }
    }
    DescendingUnique(Rows(pages), Descending(all));
  }

  lemma FollowedPageFull(keys: seq<set<Key>>, pages: seq<Page>, n: nat, i: nat)
    requires Follows(keys, pages, n) && i < |pages| && pages[i].next.Some?
    ensures |pages[i].rows| == n
  {
    assert IsPage(keys[i], CursorBefore(pages, i), n, pages[i]);
  }

  lemma FollowedPagesFull(keys: seq<set<Key>>, pages: seq<Page>, n: nat)
    requires Follows(keys, pages, n) && pages != [] && pages[|pages| - 1].next.Some?
    ensures |Rows(pages)| == |pages| * n
  {
    forall i | 0 <= i < |pages| ensures |pages[i].rows| == n {
      FollowedPageFull(keys, pages, n, i);
    }
    FullPages(pages, n);
  }

  /** While a walk goes on, every page is full. */
  lemma WalkContinues(tables: seq<Tables>, pages: seq<Page>, query: Query, engine: Engine, limit: nat)
    requires IsWalk(tables, pages, query, engine, limit) && pages != [] && pages[|pages| - 1].next.Some?
    ensures |Rows(pages)| == |pages| * Clamp(limit)
  {
    WalkFollows(tables, pages, query, engine, limit);
    FollowedPagesFull(KeySets(tables, query, engine), pages, Clamp(limit));
  }

  /** The row read beyond a page that has a successor. */
  lemma RowBeyond(t: Tables, query: Query, engine: Engine, cursor: Option<Key>, limit: nat, page: Page)
    returns (key: Key)
    requires ListPage(t, query, engine, cursor, limit) == Ok(page) && page.next.Some?
    ensures key in MatchingKeys(t, query, engine) && Less(key, page.next.value)
  {
    var all := Descending(Below(MatchingKeys(t, query, engine), cursor));
    key := all[Clamp(limit)];
    assert key in all;
  }

  lemma DistinctRows(rows: seq<Key>, keys: set<Key>)
    requires IsDescending(rows) && forall k :: k in rows ==> k in keys
    ensures |rows| <= |keys|
    ensures (exists k :: k in keys && k !in rows) ==> |rows| < |keys|
  {
    var listed := set k | k in rows;
    DescendingUnique(rows, Descending(listed));
    assert keys == listed + (keys - listed);
    assert (exists k :: k in keys && k !in rows) ==> keys - listed != {};
  }

  lemma {:induction false} RowsAtMost(pages: seq<Page>, n: nat)
    requires forall i :: 0 <= i < |pages| ==> |pages[i].rows| <= n
    ensures |Rows(pages)| <= |pages| * n
  {
    if pages != [] {
      RowsAtMost(pages[..|pages| - 1], n);
      OneMore(|pages| - 1, n);
    }
  }

  /** On a store that does not change, a walk goes on exactly while its pages hold fewer rows than match; so it ends,
      with the least number of pages that hold m matching rows. */
  lemma FixedStoreWalkEnds(
      t: Tables, tables: seq<Tables>, pages: seq<Page>, query: Query, engine: Engine, limit: nat)
    requires IsWalk(tables, pages, query, engine, limit) && pages != []
    requires forall i :: 0 <= i < |tables| ==> tables[i] == t
    ensures pages[|pages| - 1].next.Some? <==> |pages| * Clamp(limit) < |MatchingKeys(t, query, engine)|
  {
    var keys, last, n := KeySets(tables, query, engine), |pages| - 1, Clamp(limit);
    WalkFollows(tables, pages, query, engine, limit);
    if pages[last].next.Some? {
      WalkContinues(tables, pages, query, engine, limit);
      RowsDescend(keys, pages, n);
      forall k | k in Rows(pages) ensures k in MatchingKeys(t, query, engine) {
        RowMatched(keys, pages, n, k);
      }
      var beyond := RowBeyond(t, query, engine, CursorBefore(pages, last), limit, pages[last]);
      NotListed(Rows(pages), pages[last].next, beyond);
      DistinctRows(Rows(pages), MatchingKeys(t, query, engine));
    } else {
      FixedStoreWalkIsComplete(t, tables, pages, query, engine, limit);
      forall i | 0 <= i < |pages| ensures |pages[i].rows| <= n {
        assert IsPage(keys[i], CursorBefore(pages, i), n, pages[i]);
      }
      RowsAtMost(pages, n);
    }
  }

  lemma NotListed(rows: seq<Key>, cursor: Option<Key>, key: Key)
    requires AllAtLeast(rows, cursor) && Ahead(key, cursor)
    ensures key !in rows
  {
    Trichotomy(key, cursor.value);
  }
}
