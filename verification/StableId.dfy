/** Message identifiers and sync cursors of the IMAP provider: their text forms and parsers. */
module StableId {
  import opened Wrappers
  import opened Text
  import opened Utf8

  function HexDigit(n: nat): (c: char)
    requires n < 16
  {
    if n < 10 then '0' + n as char else 'a' + (n - 10) as char
  }

  function HexValue(c: char): (r: Option<nat>)
    ensures r.Some? ==> r.value < 16
  {
    if '0' <= c <= '9' then Some((c - '0') as nat)
    else if 'a' <= c <= 'f' then Some((c - 'a') as nat + 10)
    else if 'A' <= c <= 'F' then Some((c - 'A') as nat + 10)
    else None
  }

  function EncodeHex(input: Bytes): (s: string)
    ensures |s| == 2 * |input|
    ensures ':' !in s
  {
    if input == [] then ""
    else [HexDigit(input[0] / 16), HexDigit(input[0] % 16)] + EncodeHex(input[1..])
  }

  function DecodeHexBytes(s: string): Option<Bytes>
  {
    if s == "" then Some([])
    else if |s| == 1 then None
    else match (HexValue(s[0]), HexValue(s[1]), DecodeHexBytes(s[2..]))
      case (Some(high), Some(low), Some(rest)) => Some([16 * high + low] + rest)
      case _ => None
  }

  /** Hex pairs, then UTF-8. */
  function DecodeHex(s: string): Option<string>
  {
    match DecodeHexBytes(s)
    case None => None
    case Some(bytes) => Decode(bytes)
  }

  lemma HexDigitValue(n: nat)
    requires n < 16
    ensures HexValue(HexDigit(n)) == Some(n)
  {
  }

  lemma {:induction false} HexRoundTrip(input: Bytes)
    ensures DecodeHexBytes(EncodeHex(input)) == Some(input)
  {
    if input != [] {
      var s := EncodeHex(input);
      HexDigitValue(input[0] / 16);
      HexDigitValue(input[0] % 16);
      assert s[2..] == EncodeHex(input[1..]);
      HexRoundTrip(input[1..]);
      var b: int := input[0];
      assert 16 * (b / 16) + b % 16 == b;
      assert [input[0]] + input[1..] == input;
    }
  }

  datatype StableImapId = StableImapId(mailbox: string, uidValidity: nat, uid: nat) {
    function ToText(): string
    {
      "imap" + [':'] + (Print(uidValidity) + [':'] + (Print(uid) + [':'] + EncodeHex(Encode(mailbox))))
    }

    /** The fields are unsigned 64-bit integers and the UID is nonzero. */
    predicate Valid() { uidValidity <= U64_MAX && 0 < uid <= U64_MAX }
  }

  function ParseStableId(value: string): (r: Option<StableImapId>)
    ensures r.Some? ==> r.value.Valid()
  {
    var parts := Split(value, ':');
    if |parts| != 4 || parts[0] != "imap" then None
    else match (ParseU64(parts[1]), ParseU64(parts[2]), DecodeHex(parts[3]))
      case (Some(uidValidity), Some(uid), Some(mailbox)) =>
        if uid == 0 then None else Some(StableImapId(mailbox, uidValidity, uid))
      case _ => None
  }

  /** Parsing inverts printing for every mailbox name, colons and non-ASCII characters included. */
  lemma StableIdRoundTrip(id: StableImapId)
    requires id.Valid()
    ensures ParseStableId(id.ToText()) == Some(id)
  {
    var hex := EncodeHex(Encode(id.mailbox));
    SplitWithout(hex, ':');
    SplitAt(Print(id.uid), ':', hex);
    SplitAt(Print(id.uidValidity), ':', Print(id.uid) + [':'] + hex);
    SplitAt("imap", ':', Print(id.uidValidity) + [':'] + (Print(id.uid) + [':'] + hex));
    assert Split(id.ToText(), ':') == ["imap", Print(id.uidValidity), Print(id.uid), hex];
    ParsePrint(id.uidValidity);
    ParsePrint(id.uid);
    HexRoundTrip(Encode(id.mailbox));
    DecodeEncode(id.mailbox);
  }

  function NormalizedMessageId(account: string, native: string): string
  {
    account + [':'] + native
  }

  /** The account name, a colon and at least one more character. */
  predicate IsNormalizedMessageId(account: string, id: string)
  {
    |id| > |account| + 1 && id[..|account|] == account && id[|account|] == ':'
  }

  /** Strips the account and requires an IMAP identifier. */
  function ProviderNativeId(account: string, id: string): (r: Option<string>)
  {
    if |account| < |id| && id[..|account|] == account && id[|account|] == ':'
       && "imap:" <= id[|account| + 1..]
    then Some(id[|account| + 1..])
    else None
  }

  /** The message key of a UID: what a summary row is stored under. */
  function MessageKey(account: string, mailbox: string, uidValidity: nat, uid: nat): string
  {
    NormalizedMessageId(account, StableImapId(mailbox, uidValidity, uid).ToText())
  }

  /** The identifier a message key stands for, if it belongs to the account. */
  function KeyOf(account: string, id: string): (r: Option<StableImapId>)
    ensures r.Some? ==> r.value.Valid()
  {
    match ProviderNativeId(account, id)
    case None => None
    case Some(native) => ParseStableId(native)
  }

  lemma ThreeColons(id: StableImapId)
    requires id.Valid()
    ensures Occurrences(id.ToText(), ':') == 3
  {
    StableIdRoundTrip(id);
    SplitCounts(id.ToText(), ':');
  }

  lemma ParsedHasThreeColons(native: string)
    requires ParseStableId(native).Some?
    ensures Occurrences(native, ':') == 3
  {
    SplitCounts(native, ':');
  }

  lemma ColonAt(head: string, tail: string)
    ensures Occurrences(head + [':'] + tail, ':') == Occurrences(head, ':') + 1 + Occurrences(tail, ':')
  {
    OccurrencesConcat(head + [':'], tail, ':');
    OccurrencesConcat(head, [':'], ':');
    assert [':'][1..] == "";
  }

  /** One text with two splits at a colon has as many colons after each. */
  lemma SameSplit(a: string, x: string, b: string, y: string)
    requires a + [':'] + x == b + [':'] + y && Occurrences(x, ':') == Occurrences(y, ':')
    ensures a == b
  {
    var s := a + [':'] + x;
    if |a| < |b| {
      ShorterSplit(a, x, b, y);
    } else if |b| < |a| {
      ShorterSplit(b, y, a, x);
    } else {
      assert a == s[..|a|] == (b + [':'] + y)[..|b|] == b;
    }
  }

  lemma ShorterSplit(a: string, x: string, b: string, y: string)
    requires a + [':'] + x == b + [':'] + y && |a| < |b|
    ensures Occurrences(x, ':') > Occurrences(y, ':')
  {
    var rest := b[|a| + 1..];
    assert x == (a + [':'] + x)[|a| + 1..] == (b + [':'] + y)[|a| + 1..] == rest + [':'] + y;
    ColonAt(rest, y);
  }

  lemma NativeSplits(account: string, key: string)
    requires ProviderNativeId(account, key).Some?
    ensures key == account + [':'] + ProviderNativeId(account, key).value
  {
    assert key == key[..|account|] + [key[|account|]] + key[|account| + 1..];
  }

  lemma KeyHasThreeColons(account: string, key: string)
    requires KeyOf(account, key).Some?
    ensures ProviderNativeId(account, key).Some? && Occurrences(ProviderNativeId(account, key).value, ':') == 3
  {
    ParsedHasThreeColons(ProviderNativeId(account, key).value);
  }

  /** No other account's parser accepts the key. */
  lemma OtherAccountsRefuse(account: string, text: string, other: string)
    requires Occurrences(text, ':') == 3 && KeyOf(other, account + [':'] + text).Some?
    ensures other == account
  {
    var key := account + [':'] + text;
    KeyHasThreeColons(other, key);
    NativeSplits(other, key);
    SameSplit(account, text, other, ProviderNativeId(other, key).value);
  }

  /** A message key names exactly one mailbox, generation and UID. */
  lemma KeyRoundTrip(account: string, mailbox: string, uidValidity: nat, uid: nat)
    requires uidValidity <= U64_MAX && 0 < uid <= U64_MAX
    ensures KeyOf(account, MessageKey(account, mailbox, uidValidity, uid))
         == Some(StableImapId(mailbox, uidValidity, uid))
    ensures IsNormalizedMessageId(account, MessageKey(account, mailbox, uidValidity, uid))
  {
    var id := StableImapId(mailbox, uidValidity, uid);
    var key := MessageKey(account, mailbox, uidValidity, uid);
    assert key[..|account|] == account;
    assert key[|account| + 1..] == id.ToText();
    assert id.ToText()[..5] == "imap:";
    StableIdRoundTrip(id);
  }

  /** A key is accepted by the parser of its own account only, whatever colons the account names hold. */
  lemma KeyNamesOneAccount(account: string, id: StableImapId, other: string)
    requires id.Valid()
    ensures KeyOf(other, MessageKey(account, id.mailbox, id.uidValidity, id.uid)) ==
      if other == account then Some(id) else None
  {
    var key := MessageKey(account, id.mailbox, id.uidValidity, id.uid);
    if other == account {
      KeyRoundTrip(account, id.mailbox, id.uidValidity, id.uid);
    } else if KeyOf(other, key).Some? {
      ThreeColons(id);
      OtherAccountsRefuse(account, id.ToText(), other);
    }
  }

  datatype UidCursor = UidCursor(uidValidity: nat, lastUid: nat) {
    function ToText(): string
    {
      Print(uidValidity) + [':'] + Print(lastUid)
    }

    predicate InRange() { 0 < uidValidity <= U32_MAX && lastUid <= U32_MAX }
  }

  function ParseCursor(value: string): (r: Option<UidCursor>)
    ensures r.Some? ==> r.value.InRange()
  {
    match SplitOnce(value, ':')
    case None => None
    case Some((left, right)) =>
      match (ParseU64(left), ParseU64(right))
      case (Some(uidValidity), Some(lastUid)) =>
        var cursor := UidCursor(uidValidity, lastUid);
        if cursor.InRange() then Some(cursor) else None
      case _ => None
  }

  /** A stored cursor is read back exactly when it is within the 32-bit UID space. */
  lemma CursorRoundTrip(cursor: UidCursor)
    requires cursor.uidValidity <= U64_MAX && cursor.lastUid <= U64_MAX
    ensures cursor.InRange() ==> ParseCursor(cursor.ToText()) == Some(cursor)
    ensures !cursor.InRange() ==> ParseCursor(cursor.ToText()) == None
  {
    assert ':' !in Print(cursor.uidValidity);
    SplitOnceAt(Print(cursor.uidValidity), ':', Print(cursor.lastUid));
    ParsePrint(cursor.uidValidity);
    ParsePrint(cursor.lastUid);
  }

  /** A cursor in range is short printable text, which is all the cache demands of it. */
  lemma CursorTextShape(cursor: UidCursor)
    requires cursor.InRange()
    ensures 3 <= |cursor.ToText()| <= 21
    ensures '\0' !in cursor.ToText()
  {
    assert Pow10(10) == 10_000_000_000 by {
      assert Pow10(4) == 10_000;
      assert Pow10(7) == 10_000_000;
    }
    PrintLength(cursor.uidValidity, 10);
    PrintLength(cursor.lastUid, 10);
  }
}
