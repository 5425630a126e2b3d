/** Conversation lookup: one row per RFC Message-ID, the requested copy first, at most 100 rows. */
module Conversation {
  import opened Wrappers
  import opened StorageErrors
  import opened RowOrder
  import opened Storage
  import opened Paging
  import Text

  const MAX_THREAD_MESSAGES: nat := 100

  datatype ThreadConversation = ThreadConversation(id: string, messages: seq<Key>, truncated: bool)

  /** TRIM of SQLite removes spaces only. */
  function TrimSpaces(s: string): string
  {
    if s != "" && s[0] == ' ' then TrimSpaces(s[1..])
    else if s != "" && s[|s| - 1] == ' ' then TrimSpaces(s[..|s| - 1])
    else s
  }

  /** What makes two rows copies of one message: the Message-ID, or the row id when there is none. */
  function CopyKey(t: Tables, id: string): string
    requires id in t.messages
  {
    match t.messages[id].summary.providerData.messageId
    case Some(text) => if TrimSpaces(text) != "" then TrimSpaces(text) else id
    case None => id
  }

  /** The thread a row belongs to, unless its thread id is blank. */
  function ThreadOf(t: Tables, id: string): Option<string>
    requires id in t.messages
  {
    match t.messages[id].summary.threadId
    case Some(thread) => if Text.Trim(thread) == "" then None else Some(thread)
    case None => None
  }

  function Scope(t: Tables, account: string, thread: string): set<string>
  {
    set id | id in t.messages
      && t.messages[id].summary.accountId == account && t.messages[id].summary.threadId == Some(thread)
  }

  /** Row number 1 of its partition: the requested copy, or else the newest. */
  predicate Represents(t: Tables, scope: set<string>, anchor: string, id: string)
    requires scope <= t.messages.Keys
  {
    && id in scope
    && forall other :: other in scope && other != id && CopyKey(t, other) == CopyKey(t, id) ==>
         id == anchor || (other != anchor && Less(KeyOfRow(t, other), KeyOfRow(t, id)))
  }

  function Representatives(t: Tables, scope: set<string>, anchor: string): set<string>
    requires scope <= t.messages.Keys
  {
    set id | id in scope && Represents(t, scope, anchor, id)
  }

  function KeysOf(t: Tables, ids: set<string>): set<Key>
    requires ids <= t.messages.Keys
  {
    set id | id in ids :: KeyOfRow(t, id)
  }

  function Elements(rows: seq<Key>): set<Key> { set k | k in rows }

  predicate IsAscending(rows: seq<Key>) { forall i, j :: 0 <= i < j < |rows| ==> Less(rows[i], rows[j]) }

  /** The keys a conversation shows: the anchor and the newest 99 others. */
  ghost function Shown(t: Tables, scope: set<string>, anchor: string): set<Key>
    requires scope <= t.messages.Keys && anchor in scope
  {
    var others := KeysOf(t, Representatives(t, scope, anchor) - {anchor});
    {KeyOfRow(t, anchor)} + Elements(Descending(others)[..Min(MAX_THREAD_MESSAGES - 1, |others|)])
  }

  method SortAscending(rows: seq<Key>) returns (sorted: seq<Key>)
    requires forall i, j :: 0 <= i < j < |rows| ==> rows[i] != rows[j]
    ensures IsAscending(sorted) && Elements(sorted) == Elements(rows) && |sorted| == |rows|
  {
    sorted := [];
    for n := 0 to |rows|
      invariant IsAscending(sorted) && Elements(sorted) == Elements(rows[..n]) && |sorted| == n
    {
      var row := rows[n];
      assert row !in rows[..n];
      assert row !in Elements(sorted);
      var p := 0;
      while p < |sorted| && Less(sorted[p], row)
        invariant p <= |sorted| && forall k :: 0 <= k < p ==> Less(sorted[k], row)
      {
        p := p + 1;
      }
      InsertAscending(sorted, p, row);
      sorted := sorted[..p] + [row] + sorted[p..];
      assert rows[..n + 1] == rows[..n] + [row];
    }
    assert rows[..|rows|] == rows;
  }

  lemma InsertAscending(sorted: seq<Key>, p: nat, row: Key)
    requires IsAscending(sorted) && p <= |sorted| && row !in sorted
    requires forall k :: 0 <= k < p ==> Less(sorted[k], row)
    requires p < |sorted| ==> !Less(sorted[p], row)
    ensures IsAscending(sorted[..p] + [row] + sorted[p..])
    ensures Elements(sorted[..p] + [row] + sorted[p..]) == Elements(sorted) + {row}
  {
    forall k | p <= k < |sorted| ensures Less(row, sorted[k]) {
      assert sorted[k] in sorted && sorted[p] in sorted;
      Trichotomy(row, sorted[p]);
      if p < k { Transitive(row, sorted[p], sorted[k]); }
    }
    assert sorted == sorted[..p] + sorted[p..];
  }

  method GetThread(t: Tables, messageId: string) returns (result: Result<ThreadConversation, StorageError>)
    ensures messageId !in t.messages <==> result == Err(NotFound)
    ensures messageId in t.messages ==> result.Ok? && match ThreadOf(t, messageId)
      case None => result.value == ThreadConversation(messageId, [KeyOfRow(t, messageId)], false)
      case Some(thread) =>
        var scope := Scope(t, t.messages[messageId].summary.accountId, thread);
        && result.value.id == thread && IsAscending(result.value.messages)
        && Elements(result.value.messages) == Shown(t, scope, messageId)
        && (result.value.truncated <==> |Representatives(t, scope, messageId)| > MAX_THREAD_MESSAGES)
  {
    if messageId !in t.messages {
      return Err(NotFound);
    }
    var thread := ThreadOf(t, messageId);
    if thread.None? {
      return Ok(ThreadConversation(messageId, [KeyOfRow(t, messageId)], false));
    }
    var scope := Scope(t, t.messages[messageId].summary.accountId, thread.value);
    var first := KeyOfRow(t, messageId);
    var others := KeysOf(t, Representatives(t, scope, messageId) - {messageId});
    RepresentativeCount(t, scope, messageId);
    assert first !in others;
    var rows, truncated := ShowRows(first, others);
    result := Ok(ThreadConversation(thread.value, rows, truncated));
  }

  /** One row more than is shown tells whether the conversation is cut. */
  method ShowRows(first: Key, others: set<Key>) returns (rows: seq<Key>, truncated: bool)
    requires first !in others
    ensures IsAscending(rows)
    ensures Elements(rows) == {first} + Elements(Descending(others)[..Min(MAX_THREAD_MESSAGES - 1, |others|)])
    ensures truncated <==> |others| + 1 > MAX_THREAD_MESSAGES
  {
    var selected := SelectDescending(others, MAX_THREAD_MESSAGES);
    rows := [first] + selected;
    truncated := |rows| > MAX_THREAD_MESSAGES;
    if truncated {
      rows := rows[..MAX_THREAD_MESSAGES];
    }
    ghost var shown := Descending(others)[..Min(MAX_THREAD_MESSAGES - 1, |others|)];
    assert rows == [first] + shown;
    ShownDistinct(others, first, shown);
    rows := SortAscending(rows);
  }

  lemma DistinctPrefix(all: seq<Key>, shown: seq<Key>)
    requires IsDescending(all) && shown <= all
    ensures forall i, j :: 0 <= i < j < |shown| ==> shown[i] != shown[j]
  {
    forall i, j | 0 <= i < j < |shown| ensures shown[i] != shown[j] {
      assert shown[i] == all[i] && shown[j] == all[j];
      Trichotomy(all[i], all[j]);
    }
  }

  lemma ShownDistinct(others: set<Key>, first: Key, shown: seq<Key>)
    requires first !in others && shown <= Descending(others)
    ensures forall i, j :: 0 <= i < j < |[first] + shown| ==> ([first] + shown)[i] != ([first] + shown)[j]
    ensures Elements([first] + shown) == {first} + Elements(shown)
  {
    var all := Descending(others);
    DistinctPrefix(all, shown);
    assert forall k :: k in shown ==> k in all;
    DistinctCons(first, shown);
  }

  lemma DistinctCons(first: Key, shown: seq<Key>)
    requires first !in shown && forall i, j :: 0 <= i < j < |shown| ==> shown[i] != shown[j]
    ensures forall i, j :: 0 <= i < j < |[first] + shown| ==> ([first] + shown)[i] != ([first] + shown)[j]
    ensures Elements([first] + shown) == {first} + Elements(shown)
  {
  }

  /** The requested copy represents its own message, and counts as one of the representatives. */
  lemma RepresentativeCount(t: Tables, scope: set<string>, anchor: string)
    requires scope <= t.messages.Keys && anchor in scope
    ensures anchor in Representatives(t, scope, anchor)
    ensures |KeysOf(t, Representatives(t, scope, anchor) - {anchor})| == |Representatives(t, scope, anchor)| - 1
  {
    KeysCount(t, Representatives(t, scope, anchor) - {anchor});
  }

  lemma {:induction false} KeysCount(t: Tables, ids: set<string>)
    requires ids <= t.messages.Keys
    ensures |KeysOf(t, ids)| == |ids|
  {
    if ids != {} {
      var id :| id in ids;
      KeysCount(t, ids - {id});
      assert KeysOf(t, ids) == KeysOf(t, ids - {id}) + {KeyOfRow(t, id)};
    }
  }

  // ----- The set specification -----

  function CopyKeys(t: Tables, scope: set<string>): set<string>
    requires scope <= t.messages.Keys
  {
    set id | id in scope :: CopyKey(t, id)
  }

  /** Every message of the scope has exactly one representative. */
  lemma OneRepresentative(t: Tables, scope: set<string>, anchor: string, id: string)
    requires scope <= t.messages.Keys && anchor in scope && id in scope
    ensures exists rep :: rep in Representatives(t, scope, anchor) && CopyKey(t, rep) == CopyKey(t, id)
    ensures forall a, b :: (a in Representatives(t, scope, anchor) && b in Representatives(t, scope, anchor)
      && CopyKey(t, a) == CopyKey(t, b)) ==> a == b
  {
    if CopyKey(t, anchor) == CopyKey(t, id) {
      assert anchor in Representatives(t, scope, anchor);
    } else {
      var copies := set other | other in scope && CopyKey(t, other) == CopyKey(t, id);
      assert KeyOfRow(t, id) in KeysOf(t, copies);
      var top := MaxExists(KeysOf(t, copies));
      var rep :| rep in copies && KeyOfRow(t, rep) == top;
      forall other | other in scope && other != rep && CopyKey(t, other) == CopyKey(t, rep)
        ensures other != anchor && Less(KeyOfRow(t, other), KeyOfRow(t, rep))
      {
        assert other in copies && KeyOfRow(t, other) in KeysOf(t, copies);
      }
      assert rep in Representatives(t, scope, anchor);
    }
    forall a, b | a in Representatives(t, scope, anchor) && b in Representatives(t, scope, anchor)
      && CopyKey(t, a) == CopyKey(t, b) ensures a == b
    {
      Trichotomy(KeyOfRow(t, a), KeyOfRow(t, b));
    }
  }

  lemma {:induction false} CountByCopyKey(t: Tables, ids: set<string>)
    requires ids <= t.messages.Keys
    requires forall a, b :: a in ids && b in ids && CopyKey(t, a) == CopyKey(t, b) ==> a == b
    ensures |CopyKeys(t, ids)| == |ids|
  {
    if ids != {} {
      var id :| id in ids;
      CountByCopyKey(t, ids - {id});
      assert CopyKeys(t, ids) == CopyKeys(t, ids - {id}) + {CopyKey(t, id)};
    }
  }

  /** So there are as many representatives as distinct Message-IDs. */
  lemma RepresentativesCountMessages(t: Tables, scope: set<string>, anchor: string)
    requires scope <= t.messages.Keys && anchor in scope
    ensures |Representatives(t, scope, anchor)| == |CopyKeys(t, scope)|
  {
    var reps := Representatives(t, scope, anchor);
    OneRepresentative(t, scope, anchor, anchor);
    CountByCopyKey(t, reps);
    forall key | key in CopyKeys(t, scope) ensures key in CopyKeys(t, reps) {
      var id :| id in scope && CopyKey(t, id) == key;
      OneRepresentative(t, scope, anchor, id);
    }
    assert CopyKeys(t, reps) == CopyKeys(t, scope);
  }

  /** A conversation holds the requested copy and only representatives, hence one row per Message-ID. */
  lemma ShowsRepresentatives(t: Tables, scope: set<string>, anchor: string)
    requires scope <= t.messages.Keys && anchor in scope
    ensures KeyOfRow(t, anchor) in Shown(t, scope, anchor)
    ensures forall k :: k in Shown(t, scope, anchor) ==>
      k.id in Representatives(t, scope, anchor) && KeyOfRow(t, k.id) == k
  {
    var others := KeysOf(t, Representatives(t, scope, anchor) - {anchor});
    RepresentativeCount(t, scope, anchor);
    forall k | k in Shown(t, scope, anchor)
      ensures k.id in Representatives(t, scope, anchor) && KeyOfRow(t, k.id) == k
    {
      assert k != KeyOfRow(t, anchor) ==> k in Descending(others) && k in others;
    }
  }

  lemma Newest(all: seq<Key>, n: nat, left: Key, kept: Key)
    requires IsDescending(all) && n <= |all| && left in all && left !in all[..n] && kept in all[..n]
    ensures Less(left, kept)
  {
    var i :| 0 <= i < |all| && all[i] == left;
    var j :| 0 <= j < n && all[j] == kept;
    assert i >= n by {
      assert forall k :: 0 <= k < n ==> all[..n][k] == all[k];
    }
  }

  /** Every other representative that is left out is older than every one shown besides the requested copy. */
  lemma ShowsNewest(t: Tables, scope: set<string>, anchor: string, id: string, k: Key)
    requires scope <= t.messages.Keys && anchor in scope
    requires id in Representatives(t, scope, anchor) && KeyOfRow(t, id) !in Shown(t, scope, anchor)
    requires k in Shown(t, scope, anchor) && k.id != anchor
    ensures Less(KeyOfRow(t, id), k)
  {
    var others := KeysOf(t, Representatives(t, scope, anchor) - {anchor});
    assert KeyOfRow(t, id) in others;
    Newest(Descending(others), Min(MAX_THREAD_MESSAGES - 1, |others|), KeyOfRow(t, id), k);
  }

  /** It shows as many rows as there are distinct Message-IDs, up to 100; and it is marked truncated if and only if
      there are more, that is if and only if a representative is left out. */
  lemma ShowsUpToLimit(t: Tables, scope: set<string>, anchor: string)
    requires scope <= t.messages.Keys && anchor in scope
    ensures |Shown(t, scope, anchor)| == Min(MAX_THREAD_MESSAGES, |CopyKeys(t, scope)|)
    ensures Shown(t, scope, anchor) <= KeysOf(t, Representatives(t, scope, anchor))
    ensures |Representatives(t, scope, anchor)| > MAX_THREAD_MESSAGES <==> |CopyKeys(t, scope)| > MAX_THREAD_MESSAGES
    ensures Shown(t, scope, anchor) != KeysOf(t, Representatives(t, scope, anchor)) <==>
      |CopyKeys(t, scope)| > MAX_THREAD_MESSAGES
  {
    var all := KeysOf(t, Representatives(t, scope, anchor));
    ShownCount(t, scope, anchor);
    ShowsRepresentatives(t, scope, anchor);
    RepresentativesCountMessages(t, scope, anchor);
    KeysCount(t, Representatives(t, scope, anchor));
    forall k | k in Shown(t, scope, anchor) ensures k in all {
      assert k == KeyOfRow(t, k.id);
    }
    SameCount(Shown(t, scope, anchor), all);
  }

  lemma ShownCount(t: Tables, scope: set<string>, anchor: string)
    requires scope <= t.messages.Keys && anchor in scope
    ensures |Shown(t, scope, anchor)| == Min(MAX_THREAD_MESSAGES, |Representatives(t, scope, anchor)|)
  {
    var first, others := KeyOfRow(t, anchor), KeysOf(t, Representatives(t, scope, anchor) - {anchor});
    var shown := Descending(others)[..Min(MAX_THREAD_MESSAGES - 1, |others|)];
    RepresentativeCount(t, scope, anchor);
    assert first !in others;
    ShownDistinct(others, first, shown);
    DistinctCount([first] + shown);
    assert Shown(t, scope, anchor) == Elements([first] + shown);
  }

  lemma SameCount(a: set<Key>, b: set<Key>)
    requires a <= b
    ensures |a| == |b| ==> a == b
    ensures |a| <= |b|
  {
    assert b == a + (b - a);
    assert |b| == |a| + |b - a|;
  }

  lemma {:induction false} DistinctCount(rows: seq<Key>)
    requires forall i, j :: 0 <= i < j < |rows| ==> rows[i] != rows[j]
    ensures |Elements(rows)| == |rows|
  {
    if rows != [] {
      var n := |rows| - 1;
      DistinctCount(rows[..n]);
      assert Elements(rows) == Elements(rows[..n]) + {rows[n]};
    }
  }
}
