/** RFC Message-IDs, the References chain of a reply, and the conversation a message belongs to. */
module Threads {
  import opened Wrappers
  import opened Storage
  import opened Text
  import Utf8

  predicate IsControl(c: char)
  {
    var n := c as int;
    n < 0x20 || 0x7F <= n < 0xA0
  }

  function StripAngles(s: string): string
  {
    if |s| >= 2 && s[0] == '<' && s[|s| - 1] == '>' then s[1..|s| - 1] else s
  }

  /** The position of the last `@`. */
  function LastAt(s: string): (r: Option<nat>)
    ensures r.None? <==> '@' !in s
    ensures r.Some? ==> r.value < |s| && s[r.value] == '@' && '@' !in s[r.value + 1..]
  {
    if s == "" then None
    else match LastAt(s[1..])
      case Some(i) => assert s[1..][i + 1..] == s[i + 2..]; Some(i + 1)
      case None => if s[0] == '@' then Some(0) else None
  }

  /** Removes the backslashes of a quoted local part; a trailing backslash is malformed. */
  function Unquote(s: string): Option<string>
  {
    if s == "" then Some("")
    else if s[0] != '\\' then
      match Unquote(s[1..]) case Some(rest) => Some([s[0]] + rest) case None => None
    else if |s| == 1 then None
    else match Unquote(s[2..]) case Some(rest) => Some([s[1]] + rest) case None => None
  }

  function LocalPart(local: string): Option<string>
  {
    if |local| >= 2 && local[0] == '"' && local[|local| - 1] == '"' then Unquote(local[1..|local| - 1])
    else Some(local)
  }

  /** The text inside one pair of angle brackets. */
  function Unwrapped(text: string): string { Trim(StripAngles(Trim(text))) }

  /** The comparison form of a Message-ID, or nothing when it is not one. */
  function CanonicalMessageId(text: string): Option<string> { CanonicalValue(Unwrapped(text)) }

  function CanonicalValue(value: string): Option<string>
  {
    if value == "" || |Utf8.Encode(value)| > 998 || exists i :: 0 <= i < |value| && IsControl(value[i]) then None
    else match LastAt(value)
      case None => None
      case Some(at) =>
        var local, domain := value[..at], value[at + 1..];
        if local == "" || domain == "" || exists i :: 0 <= i < |domain| && IsWhitespace(domain[i]) then None
        else match LocalPart(local)
          case None => None
          case Some(name) => Some(name + "@" + LowerAscii(domain))
  }

  /** What a reply writes into its headers for an ancestor. */
  function BareMessageId(text: string): Option<string>
  {
    var value := Unwrapped(text);
    if '\r' in text || '\n' in text || value == "" || |Utf8.Encode(value)| > 998 || '@' !in value then None
    else Some(value)
  }

  // The chain below is proved for any reader of identifiers, so that no proof looks inside the two above.
  type Reader = string -> Option<string>

  function FirstRead(ids: seq<string>, read: Reader): Option<string>
  {
    if ids == [] then None
    else if read(ids[0]).Some? then read(ids[0])
    else FirstRead(ids[1..], read)
  }

  function RootBy(read: Reader, data: ProviderData): Option<string>
  {
    var byReferences := FirstRead(data.references, read);
    if byReferences.Some? then byReferences
    else
      var byParent := FirstRead(data.inReplyTo, read);
      if byParent.Some? then byParent
      else if data.messageId.Some? then read(data.messageId.value)
      else None
  }

  /** References when one is valid, else In-Reply-To, else the message itself. */
  function ThreadRoot(data: ProviderData): Option<string> { RootBy(CanonicalMessageId, data) }

  /** The name a thread id is derived from; the daemon hashes it with UUIDv5. */
  function ThreadName(account: string, data: ProviderData): Option<string>
  {
    match ThreadRoot(data)
    case None => None
    case Some(root) => Some("quickmail:rfc822-thread:" + account + ":" + root)
  }

  function SingletonName(account: string, native: string): string
  {
    "quickmail:imap-singleton:" + account + ":" + native
  }

  // ----- Replies -----

  const MAX_INHERITED: nat := 99

  function ReplyReferenceChain(parent: ProviderData): seq<string>
  {
    if parent.references == [] then parent.inReplyTo else parent.references
  }

  function Take(ids: seq<string>, n: nat): seq<string> { if |ids| <= n then ids else ids[..n] }

  function ReadAll(ids: seq<string>, read: Reader): Option<seq<string>>
  {
    if ids == [] then Some([])
    else match (read(ids[0]), ReadAll(ids[1..], read))
      case (Some(first), Some(rest)) => Some([first] + rest)
      case _ => None
  }

  function AppendParent(inherited: seq<string>, parentId: string): seq<string>
  {
    if inherited != [] && inherited[|inherited| - 1] == parentId then inherited else inherited + [parentId]
  }

  function ReplyBy(bare: Reader, parent: ProviderData, newId: string): Option<ProviderData>
  {
    if parent.messageId.None? then None
    else match (bare(parent.messageId.value), ReadAll(Take(ReplyReferenceChain(parent), MAX_INHERITED), bare))
      case (Some(parentId), Some(inherited)) =>
        Some(ProviderData(Some(newId), AppendParent(inherited, parentId), [parentId]))
      case _ => None
  }

  /** The threading headers of a reply to a cached parent; building fails when an ancestor id is unusable. */
  function Reply(parent: ProviderData, newId: string): Option<ProviderData>
  {
    ReplyBy(BareMessageId, parent, newId)
  }

  // ----- When a reply is built, and its root -----

  predicate AllUsable(ids: seq<string>, read: Reader) { forall i :: 0 <= i < |ids| ==> read(ids[i]).Some? }

  lemma {:induction false} ReadAllExactly(ids: seq<string>, read: Reader)
    ensures ReadAll(ids, read).Some? <==> AllUsable(ids, read)
    ensures ReadAll(ids, read).Some? ==>
      |ReadAll(ids, read).value| == |ids|
      && forall i :: 0 <= i < |ids| ==> Some(ReadAll(ids, read).value[i]) == read(ids[i])
  {
    if ids != [] {
      ReadAllExactly(ids[1..], read);
      assert AllUsable(ids, read) ==> AllUsable(ids[1..], read);
    }
  }

  /** What the parser reads from the form in which a reply writes an ancestor. */
  function CarriedBy(read: Reader, bare: Reader): Reader
  {
    id => match bare(id) case Some(written) => read(written) case None => None
  }

  lemma {:induction false} FirstReadCarried(ids: seq<string>, read: Reader, bare: Reader)
    requires ReadAll(ids, bare).Some?
    ensures FirstRead(ReadAll(ids, bare).value, read) == FirstRead(ids, CarriedBy(read, bare))
  {
    if ids != [] {
      FirstReadCarried(ids[1..], read, bare);
      var written := ReadAll(ids, bare).value;
      assert written[1..] == ReadAll(ids[1..], bare).value;
    }
  }

  lemma {:induction false} FirstReadAppend(ids: seq<string>, last: string, read: Reader)
    ensures FirstRead(ids + [last], read) == if FirstRead(ids, read).Some? then FirstRead(ids, read) else read(last)
  {
    if ids == [] {
      assert [] + [last] == [last];
    } else {
      assert (ids + [last])[1..] == ids[1..] + [last];
      FirstReadAppend(ids[1..], last, read);
    }
  }

  lemma {:induction false} FirstReadFinds(ids: seq<string>, k: nat, read: Reader)
    requires k < |ids| && read(ids[k]).Some?
    ensures FirstRead(ids, read).Some?
  {
    if read(ids[0]).None? {
      FirstReadFinds(ids[1..], k - 1, read);
    }
  }

  lemma {:induction false} FirstReadPrefix(ids: seq<string>, k: nat, read: Reader)
    requires k <= |ids| && FirstRead(ids[..k], read).Some?
    ensures FirstRead(ids, read) == FirstRead(ids[..k], read)
  {
    if read(ids[0]).None? {
      assert ids[..k][1..] == ids[1..][..k - 1];
      FirstReadPrefix(ids[1..], k - 1, read);
    }
  }

  lemma FirstReadParent(inherited: seq<string>, parentId: string, read: Reader)
    ensures FirstRead(AppendParent(inherited, parentId), read) ==
      if FirstRead(inherited, read).Some? then FirstRead(inherited, read) else read(parentId)
  {
    FirstReadAppend(inherited, parentId, read);
    if inherited != [] && inherited[|inherited| - 1] == parentId && read(parentId).Some? {
      FirstReadFinds(inherited, |inherited| - 1, read);
    }
  }

  /** The entries a reply inherits. */
  function Inherited(parent: ProviderData): seq<string> { Take(ReplyReferenceChain(parent), MAX_INHERITED) }

  /** A reply is built if and only if the parent has a Message-ID and this and the first 99 ancestors are usable. */
  lemma ReplyBuiltExactly(parent: ProviderData, newId: string)
    ensures Reply(parent, newId).Some? <==>
      && parent.messageId.Some? && BareMessageId(parent.messageId.value).Some?
      && AllUsable(Inherited(parent), BareMessageId)
  {
    ReadAllExactly(Inherited(parent), BareMessageId);
  }

  lemma ReplyRootBy(read: Reader, bare: Reader, parent: ProviderData, newId: string)
    requires ReplyBy(bare, parent, newId).Some?
    ensures parent.messageId.Some?
    ensures var carried := CarriedBy(read, bare);
      RootBy(read, ReplyBy(bare, parent, newId).value) ==
        if FirstRead(Inherited(parent), carried).Some? then FirstRead(Inherited(parent), carried)
        else if carried(parent.messageId.value).Some? then carried(parent.messageId.value)
        else read(newId)
  {
    var parentId := bare(parent.messageId.value).value;
    FirstReadCarried(Inherited(parent), read, bare);
    FirstReadParent(ReadAll(Inherited(parent), bare).value, parentId, read);
    assert FirstRead([parentId][1..], read) == None;
  }

  /** For every parent, the root of a reply: the first inherited entry that is valid as the reply writes it, else the
      parent's id as written, else the reply itself. */
  lemma ReplyRoot(parent: ProviderData, newId: string)
    requires Reply(parent, newId).Some?
    ensures parent.messageId.Some?
    ensures var carried := CarriedBy(CanonicalMessageId, BareMessageId);
      ThreadRoot(Reply(parent, newId).value) ==
        if FirstRead(Inherited(parent), carried).Some? then FirstRead(Inherited(parent), carried)
        else if carried(parent.messageId.value).Some? then carried(parent.messageId.value)
        else CanonicalMessageId(newId)
  {
    ReplyRootBy(CanonicalMessageId, BareMessageId, parent, newId);
  }

  // ----- Ids in at most one pair of brackets -----

  /** Inside its brackets the id has no second pair. */
  predicate Plain(text: string) { StripAngles(Unwrapped(text)) == Unwrapped(text) }

  lemma UnwrappedOnce(text: string)
    requires Plain(text)
    ensures Unwrapped(Unwrapped(text)) == Unwrapped(text)
  {
    TrimEdges(StripAngles(Trim(text)));
    TrimIdentity(Unwrapped(text));
  }

  lemma CarriedAsRead(read: Reader, bare: Reader, text: string)
    requires bare(text).Some? && read(bare(text).value) == read(text)
    ensures CarriedBy(read, bare)(text) == read(text)
  {
  }

  lemma CanonicalOfUnwrapped(text: string, value: string)
    requires Unwrapped(value) == value == Unwrapped(text)
    ensures CanonicalMessageId(value) == CanonicalMessageId(text)
  {
  }

  /** Writing a plain id into a header does not change what it stands for. */
  lemma PlainIsCarried(text: string)
    requires Plain(text) && BareMessageId(text).Some?
    ensures CarriedBy(CanonicalMessageId, BareMessageId)(text) == CanonicalMessageId(text)
  {
    var value := BareMessageId(text).value;
    UnwrappedOnce(text);
    CanonicalOfUnwrapped(text, value);
    CarriedAsRead(CanonicalMessageId, BareMessageId, text);
  }

  /** Ids as the header parser returns them hold no closing bracket, so they are plain. */
  lemma HeaderIdsArePlain(id: string)
    requires '>' !in id
    ensures Plain(id)
  {
    TrimEdges(id);
    TrimEdges(StripAngles(Trim(id)));
    var value := Unwrapped(id);
    assert value != "" ==> value[|value| - 1] in value;
  }

  lemma {:induction false} FirstReadSame(ids: seq<string>, a: Reader, b: Reader)
    requires forall i :: 0 <= i < |ids| ==> a(ids[i]) == b(ids[i])
    ensures FirstRead(ids, a) == FirstRead(ids, b)
  {
    if ids != [] {
      FirstReadSame(ids[1..], a, b);
    }
  }

  predicate PlainAncestry(parent: ProviderData)
  {
    && (parent.messageId.Some? ==> Plain(parent.messageId.value))
    && forall i :: 0 <= i < |Inherited(parent)| ==> Plain(Inherited(parent)[i])
  }

  /** What a parent has besides the entries its reply inherits, in the order in which a root is looked for. */
  function Beyond(parent: ProviderData): seq<string>
  {
    var rest := ReplyReferenceChain(parent)[|Inherited(parent)|..];
    if parent.references == [] then rest else rest + parent.inReplyTo
  }

  lemma {:induction false} FirstReadConcat(a: seq<string>, b: seq<string>, read: Reader)
    ensures FirstRead(a + b, read) == if FirstRead(a, read).Some? then FirstRead(a, read) else FirstRead(b, read)
  {
    if a == [] {
      assert [] + b == b;
    } else {
      assert (a + b)[1..] == a[1..] + b;
      FirstReadConcat(a[1..], b, read);
    }
  }

  /** Without a valid entry among those its reply inherits, a message takes its root from the others or is its own. */
  lemma RootBeyond(read: Reader, parent: ProviderData)
    requires FirstRead(Inherited(parent), read).None?
    ensures RootBy(read, parent) ==
      if FirstRead(Beyond(parent), read).Some? then FirstRead(Beyond(parent), read)
      else if parent.messageId.Some? then read(parent.messageId.value)
      else None
  {
    var chain, inherited := ReplyReferenceChain(parent), Inherited(parent);
    var rest := chain[|inherited|..];
    assert chain == inherited + rest;
    FirstReadConcat(inherited, rest, read);
    FirstReadConcat(rest, parent.inReplyTo, read);
  }

  predicate SameConversation(a: ProviderData, b: ProviderData) { ThreadRoot(a).Some? && ThreadRoot(a) == ThreadRoot(b) }

  /** A reply that is built stays in its parent's conversation if and only if a valid ancestor is among the 99 entries
      it inherits; or none is valid among the parent's other ancestors either, and the parent's own id is; or the first
      valid one among those is the parent's own id, or the reply's when that of the parent is not valid. */
  lemma ReplyKeepsThread(parent: ProviderData, newId: string)
    requires Reply(parent, newId).Some? && PlainAncestry(parent)
    ensures parent.messageId.Some?
    ensures var own := CanonicalMessageId(parent.messageId.value);
      SameConversation(parent, Reply(parent, newId).value) <==>
        || FirstRead(Inherited(parent), CanonicalMessageId).Some?
        || match FirstRead(Beyond(parent), CanonicalMessageId)
           case None => own.Some?
           case Some(root) => Some(root) == if own.Some? then own else CanonicalMessageId(newId)
  {
    var carried := CarriedBy(CanonicalMessageId, BareMessageId);
    ReplyBuiltExactly(parent, newId);
    ReplyRoot(parent, newId);
    PlainIsCarried(parent.messageId.value);
    forall i | 0 <= i < |Inherited(parent)|
      ensures carried(Inherited(parent)[i]) == CanonicalMessageId(Inherited(parent)[i])
    {
      PlainIsCarried(Inherited(parent)[i]);
    }
    FirstReadSame(Inherited(parent), carried, CanonicalMessageId);
    InheritedRoot(CanonicalMessageId, parent);
    if FirstRead(Inherited(parent), CanonicalMessageId).None? {
      RootBeyond(CanonicalMessageId, parent);
    }
  }

  /** A valid entry among the inherited ones is the parent's own root. */
  lemma InheritedRoot(read: Reader, parent: ProviderData)
    ensures FirstRead(Inherited(parent), read).Some? ==> RootBy(read, parent) == FirstRead(Inherited(parent), read)
  {
    var chain, inherited := ReplyReferenceChain(parent), Inherited(parent);
    if FirstRead(inherited, read).Some? {
      assert chain[..|inherited|] == inherited;
      FirstReadPrefix(chain, |inherited|, read);
    }
  }

  predicate Letters(s: string) { s != "" && forall i :: 0 <= i < |s| ==> 'a' <= s[i] <= 'z' }

  lemma {:induction false} LastAtBetween(local: string, domain: string)
    requires '@' !in domain
    ensures LastAt(local + ['@'] + domain) == Some(|local|)
  {
    var s := local + ['@'] + domain;
    if local == "" {
      assert s[1..] == domain;
    } else {
      assert s[1..] == local[1..] + ['@'] + domain;
      LastAtBetween(local[1..], domain);
    }
  }

  predicate Printable(id: string) { forall i :: 0 <= i < |id| ==> id[i] == '@' || 'a' <= id[i] <= 'z' }

  lemma PrintableValue(id: string)
    requires id != "" && Printable(id)
    ensures Unwrapped(id) == id && |Utf8.Encode(id)| == |id|
  {
    TrimIdentity(id);
    Utf8.EncodeAscii(id);
  }

  lemma PrintableIsBare(id: string)
    requires Printable(id) && '@' in id && |id| <= 998
    ensures BareMessageId(id) == Some(id)
  {
    PrintableValue(id);
  }

  lemma CanonicalParts(value: string, local: string, domain: string)
    requires value == local + ['@'] + domain && LastAt(value) == Some(|local|) && |Utf8.Encode(value)| <= 998
    requires domain != "" && LocalPart(local) == Some(local) && LowerAscii(domain) == domain
    requires forall i :: 0 <= i < |value| ==> !IsControl(value[i])
    requires forall i :: 0 <= i < |domain| ==> !IsWhitespace(domain[i])
    ensures CanonicalValue(value) == if local == "" then None else Some(value)
  {
    assert value[..|local|] == local && value[|local| + 1..] == domain;
    assert local + "@" + domain == value;
  }

  lemma LettersAreLocal(local: string)
    requires local == "" || Letters(local)
    ensures LocalPart(local) == Some(local)
  {
  }

  lemma LettersAreDomain(domain: string)
    requires Letters(domain)
    ensures LowerAscii(domain) == domain
    ensures forall i :: 0 <= i < |domain| ==> !IsWhitespace(domain[i])
  {
  }

  lemma PrintableHasNoControls(id: string)
    requires Printable(id)
    ensures forall i :: 0 <= i < |id| ==> !IsControl(id[i])
  {
  }

  lemma SimpleIsPrintable(id: string, local: string, domain: string)
    requires (local == "" || Letters(local)) && Letters(domain) && id == local + ['@'] + domain
    ensures Printable(id) && '@' in id && id != "" && LastAt(id) == Some(|local|)
  {
    LastAtBetween(local, domain);
    assert id[|local|] == '@';
    forall i | 0 <= i < |id| ensures id[i] == '@' || 'a' <= id[i] <= 'z' {
      if i < |local| {
        assert id[i] == local[i];
      } else if i > |local| {
        assert id[i] == domain[i - |local| - 1];
      }
    }
  }

  /** An id of letters around an `@` is usable; it is valid, and its own comparison form, when its local part is not
      empty. */
  lemma SimpleId(local: string, domain: string, id: string)
    requires (local == "" || Letters(local)) && Letters(domain) && |local| + |domain| < 998
    requires id == local + ['@'] + domain
    ensures BareMessageId(id) == Some(id)
    ensures CanonicalMessageId(id) == if local == "" then None else Some(id)
  {
    SimpleIsPrintable(id, local, domain);
    PrintableIsBare(id);
    PrintableValue(id);
    LettersAreLocal(local);
    LettersAreDomain(domain);
    PrintableHasNoControls(id);
    CanonicalParts(id, local, domain);
  }

  lemma SplitRoots(read: Reader, bare: Reader, parent: ProviderData, x: string, ab: string, cd: string, newId: string)
    requires parent == ProviderData(Some(cd), [x], [ab])
    requires read(x) == None && read(ab) == Some(ab) && read(cd) == Some(cd)
    requires bare(x) == Some(x) && bare(cd) == Some(cd)
    ensures ReplyBy(bare, parent, newId).Some?
    ensures RootBy(read, parent) == Some(ab)
    ensures RootBy(read, ReplyBy(bare, parent, newId).value) == Some(cd)
  {
    ReadAllSame([x], bare);
    FirstReadParent([x], cd, read);
    assert FirstRead([x][1..], read) == None;
  }

  lemma SplitIds(parent: ProviderData, a: string, b: string, c: string, d: string, x: string, newId: string)
    requires Letters(a) && Letters(b) && Letters(c) && Letters(d) && Letters(x)
    requires |a| == |b| == |c| == |d| == |x| == 1
    requires parent == ProviderData(Some(c + ['@'] + d), ["" + ['@'] + x], [a + ['@'] + b])
    ensures Reply(parent, newId).Some? && ThreadRoot(parent) == Some(a + ['@'] + b)
    ensures ThreadRoot(Reply(parent, newId).value) == Some(c + ['@'] + d)
  {
    SimpleId("", x, "" + ['@'] + x);
    SimpleId(a, b, a + ['@'] + b);
    SimpleId(c, d, c + ['@'] + d);
    SplitRoots(CanonicalMessageId, BareMessageId, parent, "" + ['@'] + x, a + ['@'] + b, c + ['@'] + d, newId);
  }

  /** A parent whose only reference, @x, is not a valid id and which names its own parent, a@b, in In-Reply-To belongs
      to the conversation of a@b, and every reply to it to that of its own id, c@d. */
  lemma InvalidReferenceSplits(parent: ProviderData, newId: string)
    requires parent == ProviderData(Some("c@d"), ["@x"], ["a@b"])
    ensures Reply(parent, newId).Some?
    ensures ThreadRoot(parent) == Some("a@b") && ThreadRoot(Reply(parent, newId).value) == Some("c@d")
  {
    assert "" + ['@'] + "x" == "@x" && "a" + ['@'] + "b" == "a@b" && "c" + ['@'] + "d" == "c@d";
    SplitIds(parent, "a", "b", "c", "d", "x", newId);
  }

  // ----- Conversations of any depth -----

  function ConversationBy(bare: Reader, ids: seq<string>): Option<ProviderData>
    requires ids != []
  {
    if |ids| == 1 then Some(ProviderData(Some(ids[0]), [], []))
    else match ConversationBy(bare, ids[..|ids| - 1])
      case None => None
      case Some(parent) => ReplyBy(bare, parent, ids[|ids| - 1])
  }

  /** The newest message of a conversation in which `ids[i + 1]` replies to `ids[i]`. */
  function Conversation(ids: seq<string>): Option<ProviderData>
    requires ids != []
  {
    ConversationBy(BareMessageId, ids)
  }

  /** Bare and canonically valid. */
  predicate Usable(read: Reader, bare: Reader, id: string) { bare(id) == Some(id) && read(id).Some? }

  predicate UsableIds(read: Reader, bare: Reader, ids: seq<string>)
  {
    forall i :: 0 <= i < |ids| ==> Usable(read, bare, ids[i])
  }

  /** A reply to a reply, at any depth, is built, names its parent, carries the root first among at most 100 References
      and belongs to the conversation of its root ancestor, even when ids occur more than once. */
  lemma RepliesStayInConversation(ids: seq<string>)
    requires ids != [] && UsableIds(CanonicalMessageId, BareMessageId, ids)
    ensures Conversation(ids).Some?
    ensures var newest := Conversation(ids).value;
      && newest.messageId == Some(ids[|ids| - 1])
      && newest.inReplyTo == (if |ids| == 1 then [] else [ids[|ids| - 2]])
      && |newest.references| <= 100 && (|ids| > 1 ==> newest.references != [] && newest.references[0] == ids[0])
      && ThreadRoot(newest) == CanonicalMessageId(ids[0])
  {
    ConversationHolds(CanonicalMessageId, BareMessageId, ids);
  }

  predicate Holds(read: Reader, bare: Reader, newest: ProviderData, ids: seq<string>)
    requires ids != []
  {
    && newest.messageId == Some(ids[|ids| - 1])
    && newest.inReplyTo == (if |ids| == 1 then [] else [ids[|ids| - 2]])
    && |newest.references| <= 100 && UsableIds(read, bare, newest.references)
    && (if |ids| == 1 then newest.references == [] else newest.references != [] && newest.references[0] == ids[0])
  }

  lemma {:induction false} ConversationHolds(read: Reader, bare: Reader, ids: seq<string>)
    requires ids != [] && UsableIds(read, bare, ids)
    ensures ConversationBy(bare, ids).Some? && Holds(read, bare, ConversationBy(bare, ids).value, ids)
    ensures RootBy(read, ConversationBy(bare, ids).value) == read(ids[0])
  {
    if |ids| > 1 {
      var earlier := ids[..|ids| - 1];
      ConversationHolds(read, bare, earlier);
      var parent := ConversationBy(bare, earlier).value;
      assert Usable(read, bare, ids[|ids| - 2]);
      ReplyHolds(read, bare, parent, ids);
    }
    assert Usable(read, bare, ids[0]);
  }

  /** The reply to the newest message of a conversation. */
  lemma ReplyHolds(read: Reader, bare: Reader, parent: ProviderData, ids: seq<string>)
    requires |ids| > 1 && Holds(read, bare, parent, ids[..|ids| - 1]) && Usable(read, bare, ids[|ids| - 2])
    ensures ReplyBy(bare, parent, ids[|ids| - 1]).Some?
    ensures Holds(read, bare, ReplyBy(bare, parent, ids[|ids| - 1]).value, ids)
  {
    var inherited := Inherited(parent);
    assert ReplyReferenceChain(parent) == parent.references;
    forall i | 0 <= i < |inherited| ensures Usable(read, bare, inherited[i]) {
      assert inherited[i] == parent.references[i];
    }
    ReadAllSame(inherited, bare);
  }

  lemma {:induction false} ReadAllSame(ids: seq<string>, bare: Reader)
    requires forall i :: 0 <= i < |ids| ==> bare(ids[i]) == Some(ids[i])
    ensures ReadAll(ids, bare) == Some(ids)
  {
    if ids != [] {
      ReadAllSame(ids[1..], bare);
      assert [ids[0]] + ids[1..] == ids;
    }
  }

  // ----- The References of a conversation without repetitions -----

  /** The References a reply at this depth carries: all ancestors, or the 99 oldest and the parent. */
  function Ancestry(ids: seq<string>): seq<string>
    requires ids != []
  {
    var ancestors := ids[..|ids| - 1];
    if |ancestors| <= MAX_INHERITED + 1 then ancestors
    else ancestors[..MAX_INHERITED] + [ancestors[|ancestors| - 1]]
  }

  predicate Distinct(ids: seq<string>) { forall i, j :: 0 <= i < j < |ids| ==> ids[i] != ids[j] }

  /** When no id occurs twice, the References are exactly all ancestors, or the 99 oldest and the parent. */
  lemma ReferencesExactly(ids: seq<string>)
    requires ids != [] && UsableIds(CanonicalMessageId, BareMessageId, ids) && Distinct(ids)
    ensures Conversation(ids).Some? && Conversation(ids).value.references == Ancestry(ids)
  {
    ReferencesExactlyBy(CanonicalMessageId, BareMessageId, ids);
  }

  lemma {:induction false} ReferencesExactlyBy(read: Reader, bare: Reader, ids: seq<string>)
    requires ids != [] && UsableIds(read, bare, ids) && Distinct(ids)
    ensures ConversationBy(bare, ids).Some? && ConversationBy(bare, ids).value.references == Ancestry(ids)
  {
    ConversationHolds(read, bare, ids);
    if |ids| > 1 {
      var earlier := ids[..|ids| - 1];
      ConversationHolds(read, bare, earlier);
      ReferencesExactlyBy(read, bare, earlier);
      var parent := ConversationBy(bare, earlier).value;
      InheritedPart(ids);
      assert ReplyReferenceChain(parent) == Ancestry(earlier);
      forall i | 0 <= i < |Inherited(parent)| ensures bare(Inherited(parent)[i]) == Some(Inherited(parent)[i]) {
        assert Inherited(parent)[i] == ids[i] && Usable(read, bare, ids[i]);
      }
      ReadAllSame(Inherited(parent), bare);
      assert Usable(read, bare, ids[|ids| - 2]);
    }
  }

  lemma InheritedPart(ids: seq<string>)
    requires |ids| > 1 && Distinct(ids)
    ensures var inherited := Take(Ancestry(ids[..|ids| - 1]), MAX_INHERITED);
      && AppendParent(inherited, ids[|ids| - 2]) == Ancestry(ids)
      && |inherited| < |ids|
      && (forall i :: 0 <= i < |inherited| ==> inherited[i] == ids[i])
  {
    var inherited := Take(Ancestry(ids[..|ids| - 1]), MAX_INHERITED);
    assert inherited == Take(ids[..|ids| - 2], MAX_INHERITED);
    assert inherited + [ids[|ids| - 2]] == Ancestry(ids);
  }
}
