/** UID arithmetic of the incremental IMAP sync: plans, search ranges, bounded pages and windows. */
module ImapUids {
  import opened Wrappers
  import opened ImapErrors
  import opened Text
  import opened StableId
  import opened NatSets
  import opened Arithmetic

  const SEARCH_SPAN: nat := 4096
  const MAX_SEARCH_WINDOWS: nat := 16

  /** What a SELECT reports. */
  datatype Selected = Selected(uidValidity: nat, uidNext: nat)

  datatype Plan = Plan(afterUid: Option<nat>, throughUid: nat, reset: bool)

  function UidSyncPlan(previous: Option<UidCursor>, selected: Selected): Plan
  {
    var sameGeneration := previous.Some? && previous.value.uidValidity == selected.uidValidity;
    Plan(
      if sameGeneration then Some(previous.value.lastUid) else None,
      if selected.uidNext == 0 then 0 else selected.uidNext - 1,
      previous.Some? && !sameGeneration)
  }

  /** The UIDs one incremental SEARCH asks for, or nothing when the cursor has caught up. */
  function SearchRange(afterUid: nat, throughUid: nat): (r: Result<Option<(nat, nat)>, ImapError>)
    ensures r.Ok? && r.value.Some? ==>
      var (first, covered) := r.value.value;
      afterUid < first == afterUid + 1 <= covered <= throughUid && covered <= afterUid + SEARCH_SPAN
      && covered <= U32_MAX
  {
    if throughUid <= afterUid then Ok(None)
    else if afterUid + SEARCH_SPAN > U64_MAX then Err(InvalidCursor)
    else
      var first := afterUid + 1;
      var covered := if throughUid <= afterUid + SEARCH_SPAN then throughUid else afterUid + SEARCH_SPAN;
      if first > U32_MAX || covered > U32_MAX then Err(InvalidCursor) else Ok(Some((first, covered)))
  }

  /** Below a 32-bit UIDNEXT the range is never refused. */
  lemma SearchRangeAccepted(afterUid: nat, throughUid: nat)
    requires throughUid <= U32_MAX
    ensures SearchRange(afterUid, throughUid).Ok?
    ensures SearchRange(afterUid, throughUid).value.None? <==> throughUid <= afterUid
  {
  }

  datatype UidPage = UidPage(uids: seq<nat>, highUid: nat)

  function Between(found: set<nat>, afterUid: nat, throughUid: nat): set<nat>
  {
    set u | u in found && afterUid < u <= throughUid
  }

  function AtLeastOne(limit: nat): nat { if limit == 0 then 1 else limit }

  /** The page of a SEARCH reply: its `limit` oldest UIDs, and how far the cursor may move. */
  function IncrementalPage(found: set<nat>, afterUid: nat, throughUid: nat, limit: nat): UidPage
  {
    var uids := Ascending(Between(found, afterUid, throughUid));
    if |uids| > AtLeastOne(limit) then UidPage(uids[..AtLeastOne(limit)], uids[AtLeastOne(limit) - 1])
    else UidPage(uids, throughUid)
  }

  /** Filters, sorts, deduplicates and truncates the reply in place. */
  method IncrementalUidPage(reply: seq<nat>, afterUid: nat, throughUid: nat, limit: nat) returns (page: UidPage)
    ensures page == IncrementalPage((set u | u in reply), afterUid, throughUid, limit)
  {
    var uids := Retain(reply, uid => afterUid < uid <= throughUid);
    SortedSet(uids, Between((set u | u in reply), afterUid, throughUid));
    uids := Sort(uids);
    uids := Dedup(uids);

    var bound := AtLeastOne(limit);
    var hasMore := |uids| > bound;
    if hasMore {
      uids := uids[..bound];
    }
    var highUid := if hasMore then uids[|uids| - 1] else throughUid;
    page := UidPage(uids, highUid);
  }

  /** The cursor never steps over a UID the reply contained, and never leaves the searched range. */
  lemma PageCovers(found: set<nat>, afterUid: nat, throughUid: nat, limit: nat)
    requires afterUid < throughUid
    ensures var page := IncrementalPage(found, afterUid, throughUid, limit);
      && afterUid < page.highUid <= throughUid
      && |page.uids| <= AtLeastOne(limit)
      && (forall u :: u in page.uids <==> u in found && afterUid < u <= page.highUid)
  {
    var asc := Ascending(Between(found, afterUid, throughUid));
    var page := IncrementalPage(found, afterUid, throughUid, limit);
    var bound := AtLeastOne(limit);
    if |asc| > bound {
      assert asc[bound - 1] in asc;
      forall u | u in found && afterUid < u <= page.highUid ensures u in page.uids {
        assert u in Between(found, afterUid, throughUid);
        var i :| 0 <= i < |asc| && asc[i] == u;
        assert i < bound;
        assert page.uids[i] == u;
      }
      forall u | u in page.uids ensures u in found && afterUid < u <= page.highUid {
        var i :| 0 <= i < |page.uids| && page.uids[i] == u;
        assert asc[i] in asc;
      }
    }
  }

  // ----- Bootstrap -----

  function Floor(throughUid: nat): nat
  {
    if throughUid <= SEARCH_SPAN * MAX_SEARCH_WINDOWS then 0 else throughUid - SEARCH_SPAN * MAX_SEARCH_WINDOWS
  }

  /** Window `i` counted from the newest: its first and last UID. */
  function Window(throughUid: nat, i: nat): (nat, nat)
    requires SEARCH_SPAN * i < throughUid
  {
    var last := throughUid - SEARCH_SPAN * i;
    (if last <= SEARCH_SPAN then 1 else last - (SEARCH_SPAN - 1), last)
  }

  /** Every UID from `low + 1` to `throughUid` lies in a window, and nothing else does. */
  predicate WindowsOf(windows: seq<(nat, nat)>, throughUid: nat)
  {
    && |windows| <= MAX_SEARCH_WINDOWS
    && (throughUid == 0 <==> windows == [])
    && (forall i :: 0 <= i < |windows| ==> SEARCH_SPAN * i < throughUid && windows[i] == Window(throughUid, i))
    && (windows != [] ==> windows[|windows| - 1].0 == Floor(throughUid) + 1)
  }

  /** Walks backwards in adjacent windows until UID 1 or the window bound. */
  method RecentUidSearchWindows(throughUid: nat) returns (r: Result<seq<(nat, nat)>, ImapError>)
    ensures r.Err? <==> throughUid > U32_MAX
    ensures r.Ok? ==> WindowsOf(r.value, throughUid)
  {
    if throughUid == 0 {
      return Ok([]);
    }
    if throughUid > U32_MAX {
      return Err(InvalidCursor);
    }
    var windows: seq<(nat, nat)> := [];
    var lastUid := throughUid;
    for i := 0 to MAX_SEARCH_WINDOWS
      invariant |windows| == i && SEARCH_SPAN * i < throughUid
      invariant lastUid == throughUid - SEARCH_SPAN * i
      invariant forall k :: 0 <= k < i ==> SEARCH_SPAN * k < throughUid && windows[k] == Window(throughUid, k)
      invariant i > 0 ==> windows[i - 1].0 == lastUid + 1
    {
      var firstUid := if lastUid <= SEARCH_SPAN then 1 else lastUid - (SEARCH_SPAN - 1);
      windows := windows + [(firstUid, lastUid)];
      if firstUid == 1 {
        break;
      }
      lastUid := firstUid - 1;
    }
    r := Ok(windows);
  }

  /** Windows are adjacent, disjoint, at most 4096 wide and tile the UIDs above the floor. */
  lemma WindowsTile(windows: seq<(nat, nat)>, throughUid: nat, uid: nat)
    requires WindowsOf(windows, throughUid)
    ensures forall i :: 0 <= i < |windows| ==> windows[i].0 <= windows[i].1 < windows[i].0 + SEARCH_SPAN
    ensures forall i :: 0 < i < |windows| ==> windows[i].1 + 1 == windows[i - 1].0
    ensures (exists i :: 0 <= i < |windows| && windows[i].0 <= uid <= windows[i].1)
            <==> Floor(throughUid) < uid <= throughUid
    ensures forall i, j :: 0 <= i < j < |windows| && windows[i].0 <= uid <= windows[i].1 ==>
      !(windows[j].0 <= uid <= windows[j].1)
  {
    if Floor(throughUid) < uid <= throughUid {
      var i := (throughUid - uid) / SEARCH_SPAN;
      assert SEARCH_SPAN * i <= throughUid - uid < SEARCH_SPAN * i + SEARCH_SPAN;
      assert windows[|windows| - 1] == Window(throughUid, |windows| - 1);
      assert i < |windows|;
      assert windows[i] == Window(throughUid, i);
    }
  }

  function Reverse(s: seq<nat>): (r: seq<nat>)
    ensures |r| == |s|
    ensures forall i :: 0 <= i < |s| ==> r[i] == s[|s| - 1 - i]
  {
    if s == [] then [] else Reverse(s[1..]) + [s[0]]
  }

  /** `sort_unstable_by(right.cmp(left))` and `truncate`, after keeping UIDs below `beforeUid` (0: all). */
  function NewestUidPage(uids: seq<nat>, beforeUid: nat, limit: nat): seq<nat>
  {
    var kept := Retain(uids, uid => beforeUid == 0 || uid < beforeUid);
    Truncate(Reverse(Sort(kept)), limit)
  }

  function Truncate(s: seq<nat>, limit: nat): seq<nat>
  {
    if |s| <= limit then s else s[..limit]
  }

  /** The `limit` newest elements, newest first. */
  function Newest(found: set<nat>, limit: nat): seq<nat>
  {
    Truncate(Reverse(Ascending(found)), limit)
  }

  /** The newer part of a set ends its ascending list. */
  lemma AscendingSplit(newer: set<nat>, all: set<nat>)
    requires newer <= all
    requires forall u, v :: u in all - newer && v in newer ==> u < v
    ensures Ascending(all) == Ascending(all - newer) + Ascending(newer)
  {
    var low, high := Ascending(all - newer), Ascending(newer);
    var joined := low + high;
    forall i, j | 0 <= i < j < |joined| ensures joined[i] < joined[j] {
      if i < |low| <= j {
        assert low[i] in all - newer;
        assert high[j - |low|] in newer;
      }
    }
    forall x ensures x in joined <==> x in all {
      assert x in joined <==> x in low || x in high;
    }
    AscendingUnique(joined, all);
  }

  lemma ReversePrefix(low: seq<nat>, high: seq<nat>, limit: nat)
    requires limit <= |high|
    ensures Truncate(Reverse(low + high), limit) == Truncate(Reverse(high), limit)
  {
    var a, b := Reverse(low + high), Reverse(high);
    assert a[..limit] == b[..limit];
    assert |a| == limit ==> a[..limit] == a;
    assert |b| == limit ==> b[..limit] == b;
  }

  /** Dropping everything older than `limit` kept elements does not change the newest `limit`. */
  lemma NewestIgnoresOlder(found: set<nat>, all: set<nat>, low: nat, limit: nat)
    requires forall u :: u in found <==> u in all && low < u
    requires |found| >= limit || found == all
    ensures Newest(found, limit) == Newest(all, limit)
  {
    if found != all {
      AscendingSplit(found, all);
      ReversePrefix(Ascending(all - found), Ascending(found), limit);
    }
  }

  lemma NewestOfReply(reply: seq<nat>, found: set<nat>, limit: nat)
    requires StrictlyAscending(reply) && forall u :: u in reply <==> u in found
    ensures NewestUidPage(reply, 0, limit) == Newest(found, limit)
  {
    var keep: nat -> bool := uid => 0 == 0 || uid < 0;
    RetainAll(reply, keep);
    SortAscending(reply);
    AscendingUnique(reply, found);
  }

  lemma {:induction false} RetainAll(s: seq<nat>, keep: nat -> bool)
    requires forall x :: x in s ==> keep(x)
    ensures Retain(s, keep) == s
  {
    if s != [] {
      RetainAll(s[1..], keep);
    }
  }

  lemma {:induction false} SortAscending(s: seq<nat>)
    requires StrictlyAscending(s)
    ensures Sort(s) == s
  {
    if s != [] {
      SortAscending(s[1..]);
    }
  }

  function LiveBetween(live: set<nat>, first: nat, last: nat): set<nat>
  {
    set u | u in live && first <= u <= last
  }

  function WindowCount(throughUid: nat): (n: nat)
    ensures n <= MAX_SEARCH_WINDOWS
    ensures forall i :: 0 <= i < n ==> SEARCH_SPAN * i < throughUid
  {
    if throughUid > SEARCH_SPAN * MAX_SEARCH_WINDOWS then MAX_SEARCH_WINDOWS
    else (throughUid + SEARCH_SPAN - 1) / SEARCH_SPAN
  }

  lemma CountOfWindows(windows: seq<(nat, nat)>, throughUid: nat)
    requires WindowsOf(windows, throughUid)
    ensures |windows| == WindowCount(throughUid)
  {
    if windows != [] {
      assert windows[|windows| - 1] == Window(throughUid, |windows| - 1);
    }
  }

  /** The first `k` windows reach down to here, exclusively. */
  function Below(throughUid: nat, k: nat): (low: nat)
    requires k <= WindowCount(throughUid)
    ensures k == WindowCount(throughUid) ==> low == Floor(throughUid)
    ensures Floor(throughUid) <= low <= throughUid
  {
    if k == 0 then throughUid else Window(throughUid, k - 1).0 - 1
  }

  /** What the first `k` searches found, when the UIDs `live(i)` existed at search `i`. */
  function Gathered(live: nat -> set<nat>, throughUid: nat, k: nat): set<nat>
    requires k <= WindowCount(throughUid)
  {
    if k == 0 then {}
    else
      var (first, last) := Window(throughUid, k - 1);
      Gathered(live, throughUid, k - 1) + LiveBetween(live(k - 1), first, last)
  }

  /** How many windows are searched: all, or up to the one that completes `bound` UIDs. */
  function SearchesFrom(live: nat -> set<nat>, throughUid: nat, bound: nat, k: nat): (n: nat)
    requires k <= WindowCount(throughUid)
    ensures k <= n <= WindowCount(throughUid)
    ensures n == WindowCount(throughUid) || |Gathered(live, throughUid, n)| >= bound
    decreases WindowCount(throughUid) - k
  {
    if k == WindowCount(throughUid) || |Gathered(live, throughUid, k)| >= bound then k
    else SearchesFrom(live, throughUid, bound, k + 1)
  }

  /** The UIDs a bootstrap fetches. */
  function RecentUids(live: nat -> set<nat>, throughUid: nat, limit: nat): seq<nat>
  {
    var bound := AtLeastOne(limit);
    Newest(Gathered(live, throughUid, SearchesFrom(live, throughUid, bound, 0)), bound)
  }

  lemma SearchesNext(live: nat -> set<nat>, throughUid: nat, windows: seq<(nat, nat)>, bound: nat, i: nat)
    requires WindowsOf(windows, throughUid) && i < |windows| == WindowCount(throughUid)
    requires |Gathered(live, throughUid, i)| < bound
    ensures Gathered(live, throughUid, i + 1) ==
      Gathered(live, throughUid, i) + LiveBetween(live(i), windows[i].0, windows[i].1)
    ensures SearchesFrom(live, throughUid, bound, i) == SearchesFrom(live, throughUid, bound, i + 1)
  {
    assert windows[i] == Window(throughUid, i);
  }

  /** The search session: window after window, until `bound` UIDs are found. */
  method SearchWindows(live: nat -> set<nat>, throughUid: nat, windows: seq<(nat, nat)>, bound: nat)
    returns (uids: set<nat>)
    requires WindowsOf(windows, throughUid) && bound > 0
    ensures uids == Gathered(live, throughUid, SearchesFrom(live, throughUid, bound, 0))
  {
    CountOfWindows(windows, throughUid);
    uids := {};
    var i := 0;
    while i < |windows|
      invariant 0 <= i <= |windows|
      invariant uids == Gathered(live, throughUid, i) && |uids| < bound
      invariant SearchesFrom(live, throughUid, bound, 0) == SearchesFrom(live, throughUid, bound, i)
    {
      SearchesNext(live, throughUid, windows, bound, i);
      uids := uids + LiveBetween(live(i), windows[i].0, windows[i].1);
      i := i + 1;
      if |uids| >= bound {
        break;
      }
    }
  }

  /** Fetches the newest of the found UIDs; the mailbox may change between any two searches. */
  method SearchRecentUids(live: nat -> set<nat>, throughUid: nat, limit: nat) returns (r: Result<seq<nat>, ImapError>)
    ensures r.Err? <==> throughUid > U32_MAX
    ensures r.Ok? ==> r.value == RecentUids(live, throughUid, limit)
  {
    var windows := RecentUidSearchWindows(throughUid);
    if windows.Err? {
      return Err(windows.error);
    }
    if windows.value == [] {
      return Ok([]);
    }
    var bound := AtLeastOne(limit);
    var uids := SearchWindows(live, throughUid, windows.value, bound);
    NewestOfReply(Ascending(uids), uids, bound);
    r := Ok(NewestUidPage(Ascending(uids), 0, bound));
  }

  lemma {:induction false} GatheredFrom(live: nat -> set<nat>, throughUid: nat, k: nat, uid: nat)
    requires k <= WindowCount(throughUid)
    ensures uid in Gathered(live, throughUid, k) ==>
      Below(throughUid, k) < uid <= throughUid && exists i :: 0 <= i < k && uid in live(i)
    ensures Below(throughUid, k) < uid <= throughUid && (forall i :: 0 <= i < k ==> uid in live(i)) ==>
      uid in Gathered(live, throughUid, k)
  {
    if k > 0 {
      GatheredFrom(live, throughUid, k - 1, uid);
    }
  }

  /** The elements of `asc` from its end. */
  predicate EndOf(kept: seq<nat>, asc: seq<nat>)
  {
    |kept| <= |asc| && forall j :: 0 <= j < |kept| ==> kept[j] == asc[|asc| - 1 - j]
  }

  lemma NewestIsEnd(found: set<nat>, limit: nat)
    ensures EndOf(Newest(found, limit), Ascending(found))
    ensures |Newest(found, limit)| == if |found| <= limit then |found| else limit
  {
    TruncatedReverse(Ascending(found), limit);
  }

  lemma TruncatedReverse(asc: seq<nat>, limit: nat)
    ensures var kept := Truncate(Reverse(asc), limit);
      EndOf(kept, asc) && |kept| == if |asc| <= limit then |asc| else limit
  {
    var reversed := Reverse(asc);
    forall j | 0 <= j < |Truncate(reversed, limit)| ensures Truncate(reversed, limit)[j] == asc[|asc| - 1 - j] {
      assert reversed[j] == asc[|asc| - 1 - j];
    }
  }

  lemma EndMember(kept: seq<nat>, asc: seq<nat>, j: nat)
    requires EndOf(kept, asc) && j < |kept|
    ensures asc[|asc| - 1 - j] in kept
  {
    assert kept[j] in kept;
  }

  lemma EndIsNewest(kept: seq<nat>, asc: seq<nat>, uid: nat)
    requires EndOf(kept, asc) && StrictlyAscending(asc) && uid in asc && uid !in kept
    ensures |kept| < |asc| && forall v :: v in kept ==> uid < v
  {
    var i :| 0 <= i < |asc| && asc[i] == uid;
    if |asc| - 1 - i < |kept| {
      EndMember(kept, asc, |asc| - 1 - i);
    }
    forall j | 0 <= j < |kept| ensures uid < kept[j] {
      assert i < |asc| - 1 - j;
    }
  }

  /** What `Newest` leaves out is older than all it keeps, and is left out only when `limit` newer ones are kept. */
  lemma NewestKeepsNewest(found: set<nat>, limit: nat, uid: nat)
    requires uid in found && uid !in Newest(found, limit)
    ensures |Newest(found, limit)| == limit
    ensures forall v :: v in Newest(found, limit) ==> uid < v
  {
    NewestIsEnd(found, limit);
    EndIsNewest(Newest(found, limit), Ascending(found), uid);
  }

  lemma NewestFound(found: set<nat>, limit: nat, uid: nat)
    requires uid in Newest(found, limit)
    ensures uid in found
  {
    NewestIsEnd(found, limit);
    var asc, kept := Ascending(found), Newest(found, limit);
    var j :| 0 <= j < |kept| && kept[j] == uid;
    assert asc[|asc| - 1 - j] in asc;
  }

  /** However the mailbox changes during the searches, only UIDs that were live at one of them are listed, and a UID
      above the floor that stays live is left out only when `limit` newer ones are listed. */
  lemma RecentUidsAreNewest(live: nat -> set<nat>, throughUid: nat, limit: nat, uid: nat)
    ensures uid in RecentUids(live, throughUid, limit) ==>
      Floor(throughUid) < uid <= throughUid && exists i :: 0 <= i < MAX_SEARCH_WINDOWS && uid in live(i)
    ensures Floor(throughUid) < uid <= throughUid && (forall i :: uid in live(i)) ==>
      var listed := RecentUids(live, throughUid, limit);
      uid in listed || (|listed| == AtLeastOne(limit) && forall v :: v in listed ==> uid < v)
  {
    var bound := AtLeastOne(limit);
    var n := SearchesFrom(live, throughUid, bound, 0);
    var found := Gathered(live, throughUid, n);
    GatheredFrom(live, throughUid, n, uid);
    if uid in Newest(found, bound) {
      NewestFound(found, bound, uid);
    } else if uid in found {
      NewestKeepsNewest(found, bound, uid);
    } else if uid <= Below(throughUid, n) {
      forall v | v in Newest(found, bound) ensures Below(throughUid, n) < v {
        NewestFound(found, bound, v);
        GatheredFrom(live, throughUid, n, v);
      }
    }
  }

  /** In a mailbox that does not change meanwhile the bootstrap finds the newest `limit` of the last 65,536 UIDs,
      although it may stop searching early. */
  lemma RecentOfFixed(live: set<nat>, throughUid: nat, limit: nat)
    ensures RecentUids(_ => live, throughUid, limit)
         == Newest(Between(live, Floor(throughUid), throughUid), AtLeastOne(limit))
  {
    var bound, fixed := AtLeastOne(limit), (_: nat) => live;
    var n := SearchesFrom(fixed, throughUid, bound, 0);
    var found, all := Gathered(fixed, throughUid, n), Between(live, Floor(throughUid), throughUid);
    forall u ensures u in found <==> u in all && Below(throughUid, n) < u {
      GatheredFrom(fixed, throughUid, n, u);
      assert u in live ==> forall i :: 0 <= i < n ==> u in fixed(i);
    }
    if n == WindowCount(throughUid) {
      assert found == all;
    }
    NewestIgnoresOlder(found, all, Below(throughUid, n), bound);
  }

  /** Dropping old elements keeps the newest `limit` if and only if `limit` are left or none was dropped. */
  lemma SameNewest(recent: set<nat>, live: set<nat>, low: nat, limit: nat)
    requires forall u :: u in recent <==> u in live && low < u
    ensures Newest(recent, limit) == Newest(live, limit) <==> |recent| >= limit || forall u :: u in live ==> u > low
  {
    if |recent| >= limit || forall u :: u in live ==> u > low {
      assert |recent| < limit ==> recent == live;
      NewestIgnoresOlder(recent, live, low, limit);
    } else {
      NewestIsEnd(recent, limit);
      NewestIsEnd(live, limit);
      FewerThan(recent, live);
    }
  }

  /** The bootstrap lists the newest `limit` live UIDs if and only if it finds that many above the floor, or no live
      UID is at or below the floor. */
  lemma BootstrapExact(live: set<nat>, throughUid: nat, limit: nat)
    requires forall u :: u in live ==> 0 < u <= throughUid
    ensures RecentUids(_ => live, throughUid, limit) == Newest(live, AtLeastOne(limit)) <==>
      || |Between(live, Floor(throughUid), throughUid)| >= AtLeastOne(limit)
      || forall u :: u in live ==> u > Floor(throughUid)
  {
    var recent := Between(live, Floor(throughUid), throughUid);
    RecentOfFixed(live, throughUid, limit);
    SameNewest(recent, live, Floor(throughUid), AtLeastOne(limit));
  }

  lemma FewerThan(part: set<nat>, all: set<nat>)
    requires part < all
    ensures |part| < |all|
  {
    assert all == part + (all - part) && all - part != {};
  }

  /** One message in UID 1 and UIDNEXT 65,538: the bootstrap lists nothing. */
  lemma OldMailIsNotListed()
    ensures RecentUids(_ => {1}, 65537, 1) == [] && Newest({1}, 1) == [1]
  {
    RecentOfFixed({1}, 65537, 1);
    assert Between({1}, Floor(65537), 65537) == {};
    AscendingUnique([1], {1});
    assert Reverse([1]) == [1];
  }

  // ----- Convergence -----

  /** Where one incremental sync of a quiet mailbox leaves the cursor. */
  function NextHigh(live: set<nat>, highUid: nat, topUid: nat, limit: nat): nat
  {
    match SearchRange(highUid, topUid)
    case Ok(Some((_, covered))) => IncrementalPage(live, highUid, covered, limit).highUid
    case _ => highUid
  }

  /** Below the top the cursor rises strictly; it never falls and never leaves the 32-bit space. */
  lemma CursorRises(live: set<nat>, highUid: nat, topUid: nat, limit: nat)
    requires topUid <= U32_MAX
    ensures highUid < topUid ==> highUid < NextHigh(live, highUid, topUid, limit) <= topUid
    ensures highUid >= topUid ==> NextHigh(live, highUid, topUid, limit) == highUid
  {
    SearchRangeAccepted(highUid, topUid);
    if highUid < topUid {
      var (_, covered) := SearchRange(highUid, topUid).value.value;
      PageCovers(live, highUid, covered, limit);
    }
  }

  /** How many incremental syncs bring the cursor to the top. */
  function SyncsToTop(live: set<nat>, highUid: nat, topUid: nat, limit: nat): nat
    requires topUid <= U32_MAX
    decreases topUid - highUid
  {
    if highUid >= topUid then 0
    else
      CursorRises(live, highUid, topUid, limit);
      1 + SyncsToTop(live, NextHigh(live, highUid, topUid, limit), topUid, limit)
  }

  function WindowsOver(gap: nat): nat { (gap + SEARCH_SPAN - 1) / SEARCH_SPAN }

  function SyncBound(live: set<nat>, highUid: nat, topUid: nat, limit: nat): nat
  {
    |Between(live, highUid, topUid)| / AtLeastOne(limit)
      + WindowsOver(if highUid <= topUid then topUid - highUid else 0)
  }

  /** A page that was cut short consumes exactly `limit` live UIDs. */
  lemma FullPageConsumes(live: set<nat>, highUid: nat, covered: nat, topUid: nat, limit: nat)
    requires highUid < covered <= topUid
    requires |Between(live, highUid, covered)| > AtLeastOne(limit)
    ensures var next := IncrementalPage(live, highUid, covered, limit).highUid;
      |Between(live, highUid, topUid)| == AtLeastOne(limit) + |Between(live, next, topUid)|
  {
    var page := IncrementalPage(live, highUid, covered, limit);
    PageCovers(live, highUid, covered, limit);
    assert |page.uids| == AtLeastOne(limit);
    var taken := set u | u in page.uids;
    AscendingUnique(page.uids, taken);
    assert |taken| == AtLeastOne(limit);
    FullPageParts(live, taken, highUid, page.highUid, topUid);
  }

  lemma FullPageParts(live: set<nat>, taken: set<nat>, highUid: nat, next: nat, topUid: nat)
    requires highUid < next <= topUid
    requires forall u :: u in taken <==> u in live && highUid < u <= next
    ensures |Between(live, highUid, topUid)| == |taken| + |Between(live, next, topUid)|
  {
    var rest := Between(live, next, topUid);
    assert taken !! rest;
    assert Between(live, highUid, topUid) == taken + rest;
  }

  lemma BetweenShrinks(live: set<nat>, a: nat, b: nat, topUid: nat)
    requires a <= b
    ensures |Between(live, b, topUid)| <= |Between(live, a, topUid)|
  {
    var rest := Between(live, a, topUid) - Between(live, b, topUid);
    assert Between(live, a, topUid) == rest + Between(live, b, topUid);
  }

  /** At most floor(L / limit) + ceil(gap / 4096) steps bring the cursor over L live UIDs to the top. */
  lemma {:induction false} SyncConverges(live: set<nat>, highUid: nat, topUid: nat, limit: nat)
    requires topUid <= U32_MAX
    ensures SyncsToTop(live, highUid, topUid, limit)
         <= SyncBound(live, highUid, topUid, limit)
    decreases topUid - highUid
  {
    if highUid < topUid {
      var bound := AtLeastOne(limit);
      CursorRises(live, highUid, topUid, limit);
      SearchRangeAccepted(highUid, topUid);
      var next := NextHigh(live, highUid, topUid, limit);
      var (_, covered) := SearchRange(highUid, topUid).value.value;
      SyncConverges(live, next, topUid, limit);
      if |Between(live, highUid, covered)| > bound {
        FullPageConsumes(live, highUid, covered, topUid, limit);
        DivAfterSubtract(|Between(live, highUid, topUid)|, bound);
        DivMono(topUid - next + SEARCH_SPAN - 1, topUid - highUid + SEARCH_SPAN - 1, SEARCH_SPAN);
      } else {
        assert next == covered;
        BetweenShrinks(live, highUid, next, topUid);
        DivMono(|Between(live, next, topUid)|, |Between(live, highUid, topUid)|, bound);
        assert WindowsOver(topUid - next) + 1 <= WindowsOver(topUid - highUid);
      }
    }
  }

  /** Where `n` incremental syncs leave the cursor. */
  function HighAfter(live: set<nat>, highUid: nat, topUid: nat, limit: nat, n: nat): nat
    decreases n
  {
    if n == 0 then highUid else HighAfter(live, NextHigh(live, highUid, topUid, limit), topUid, limit, n - 1)
  }

  lemma {:induction false} HighAfterSteps(live: set<nat>, highUid: nat, topUid: nat, limit: nat, n: nat)
    ensures HighAfter(live, highUid, topUid, limit, n + 1)
         == NextHigh(live, HighAfter(live, highUid, topUid, limit, n), topUid, limit)
    decreases n
  {
    if n > 0 {
      HighAfterSteps(live, NextHigh(live, highUid, topUid, limit), topUid, limit, n - 1);
    }
  }

  /** Enough steps end precisely at the top. */
  lemma {:induction false} HighAfterTop(live: set<nat>, highUid: nat, topUid: nat, limit: nat, n: nat)
    requires highUid <= topUid <= U32_MAX && n >= SyncsToTop(live, highUid, topUid, limit)
    ensures HighAfter(live, highUid, topUid, limit, n) == topUid
    decreases n
  {
    if n > 0 {
      CursorRises(live, highUid, topUid, limit);
      HighAfterTop(live, NextHigh(live, highUid, topUid, limit), topUid, limit, n - 1);
    }
  }
}
