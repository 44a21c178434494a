/**
 * The user's conversation list: community conversations, keyed by normalised
 * base URL and case-insensitive room token, and legacy group conversations,
 * keyed by group id. Both tables are kept as sequences with unique keys (new
 * records go at the end); `CommunityTable` and `LegacyTable` are their content.
 */
module UserGroups {
  import opened Common
  import opened Text
  import opened Tables
  import opened LegacyGroups

  /** Longest base URL a community record can hold, counted in characters (the C buffer counts bytes). */
  const BaseUrlMaxLength: nat := 267
  /** Longest room token a community record can hold, counted in characters (the C buffer counts bytes). */
  const RoomMaxLength: nat := 64
  /** Length of a community's public key, in bytes. */
  const CommunityPubkeyLength: nat := 32

  /** A community conversation. The room token keeps the case it was stored with. */
  datatype Community = Community(
    baseUrl: string,
    room: string,
    pubkey: seq<byte>,
    priority: int,
    joinedAt: int,
    notifications: NotifyMode,
    muteUntil: int)

  /** The key a stored community is filed under: its base URL and its room, lower-cased. */
  function CommunityKey(c: Community): (string, string) {
    (c.baseUrl, Lower(c.room))
  }

  /** The key a lookup by base URL and room searches for. */
  function LookupKey(url: string, room: string): (string, string) {
    (NormalizeUrl(url), Lower(room))
  }

  predicate WellFormedCommunity(c: Community) {
    && NormalizeUrl(c.baseUrl) == c.baseUrl
    && |c.baseUrl| <= BaseUrlMaxLength
    && |c.room| <= RoomMaxLength
    && |c.pubkey| == CommunityPubkeyLength
  }

  /** A stored community is found again by its own base URL and room. */
  lemma OwnKeyIsLookupKey(c: Community)
    requires WellFormedCommunity(c)
    ensures LookupKey(c.baseUrl, c.room) == CommunityKey(c)
  {
    NormalizeUrlIdempotent(c.baseUrl);
  }

  /** The record a new community starts with: the given URL normalised, the room as given. */
  function NewCommunity(url: string, room: string, pubkey: seq<byte>): (c: Community)
    ensures c.baseUrl == NormalizeUrl(url) && c.room == room && c.pubkey == pubkey
    ensures c.priority == 0 && c.joinedAt == 0 && c.muteUntil == 0
    ensures c.notifications == DefaultNotify
    ensures CommunityKey(c) == LookupKey(url, room)
  {
    Community(NormalizeUrl(url), room, pubkey, 0, 0, DefaultNotify, 0)
  }

  /** Which conversations an iterator visits. */
  datatype Kind = AllConversations | CommunitiesOnly | LegacyGroupsOnly

  datatype Conversation = CommunityConvo(community: Community) | LegacyConvo(group: LegacyGroupRecord)

  function CommunityConvos(s: seq<Community>): (r: seq<Conversation>)
    ensures |r| == |s| && forall i :: 0 <= i < |s| ==> r[i] == CommunityConvo(s[i])
  {
    seq(|s|, i requires 0 <= i < |s| => CommunityConvo(s[i]))
  }

  function LegacyConvos(s: seq<LegacyGroupRecord>): (r: seq<Conversation>)
    ensures |r| == |s| && forall i :: 0 <= i < |s| ==> r[i] == LegacyConvo(s[i])
  {
    seq(|s|, i requires 0 <= i < |s| => LegacyConvo(s[i]))
  }

  /** The conversations of the given kind in tables `cs` and `ls`, communities first. */
  function Convos(kind: Kind, cs: seq<Community>, ls: seq<LegacyGroupRecord>): seq<Conversation> {
    match kind
    case AllConversations => CommunityConvos(cs) + LegacyConvos(ls)
    case CommunitiesOnly => CommunityConvos(cs)
    case LegacyGroupsOnly => LegacyConvos(ls)
  }

  /** Where the legacy groups start in the conversations of a kind. */
  function LegacyOffset(kind: Kind, cs: seq<Community>): nat {
    if kind == AllConversations then |cs| else 0
  }

  /** Removing the element at `k` from the left part of a concatenation. */
  lemma EraseInLeft<T>(a: seq<T>, b: seq<T>, k: nat)
    requires k < |a|
    ensures (a + b)[..k] + (a + b)[k + 1..] == (a[..k] + a[k + 1..]) + b
  {
    assert (a + b)[..k] == a[..k];
    assert (a + b)[k + 1..] == a[k + 1..] + b;
  }

  /** Removing the element at `k` from the right part of a concatenation. */
  lemma EraseInRight<T>(a: seq<T>, b: seq<T>, k: nat)
    requires k < |b|
    ensures (a + b)[..|a| + k] + (a + b)[|a| + k + 1..] == a + (b[..k] + b[k + 1..])
  {
    assert (a + b)[..|a| + k] == a + b[..k];
    assert (a + b)[|a| + k + 1..] == b[k + 1..];
  }

  lemma CommunityConvosErase(cs: seq<Community>, k: nat)
    requires k < |cs|
    ensures CommunityConvos(cs[..k] + cs[k + 1..]) == CommunityConvos(cs)[..k] + CommunityConvos(cs)[k + 1..]
  {
  }

  lemma LegacyConvosErase(ls: seq<LegacyGroupRecord>, k: nat)
    requires k < |ls|
    ensures LegacyConvos(ls[..k] + ls[k + 1..]) == LegacyConvos(ls)[..k] + LegacyConvos(ls)[k + 1..]
  {
  }

  /** Removing the community at `k` removes the conversation at `k`. */
  lemma ConvosEraseCommunity(kind: Kind, cs: seq<Community>, ls: seq<LegacyGroupRecord>, k: nat)
    requires kind != LegacyGroupsOnly && k < |cs|
    ensures Convos(kind, cs, ls)[k] == CommunityConvo(cs[k])
    ensures Convos(kind, cs[..k] + cs[k + 1..], ls) == Convos(kind, cs, ls)[..k] + Convos(kind, cs, ls)[k + 1..]
  {
    CommunityConvosErase(cs, k);
    if kind == AllConversations {
      EraseInLeft(CommunityConvos(cs), LegacyConvos(ls), k);
    }
  }

  /** Removing the legacy group at `k` removes the conversation just as far past the communities. */
  lemma ConvosEraseLegacy(kind: Kind, cs: seq<Community>, ls: seq<LegacyGroupRecord>, k: nat)
    requires kind != CommunitiesOnly && k < |ls|
    ensures Convos(kind, cs, ls)[LegacyOffset(kind, cs) + k] == LegacyConvo(ls[k])
    ensures Convos(kind, cs, ls[..k] + ls[k + 1..])
         == Convos(kind, cs, ls)[..LegacyOffset(kind, cs) + k] + Convos(kind, cs, ls)[LegacyOffset(kind, cs) + k + 1..]
  {
    LegacyConvosErase(ls, k);
    if kind == AllConversations {
      EraseInRight(CommunityConvos(cs), LegacyConvos(ls), k);
    }
  }

  /** The communities whose key is not in `keys`, in their original order. */
  function CommunitiesWithout(s: seq<Community>, keys: set<(string, string)>): seq<Community>
  {
    if |s| == 0 then []
    else CommunitiesWithout(s[..|s| - 1], keys) + (if CommunityKey(s[|s| - 1]) in keys then [] else [s[|s| - 1]])
  }

  /** A community survives exactly when its key is not among those dropped. */
  lemma {:induction false} CommunitiesWithoutKeeps(s: seq<Community>, keys: set<(string, string)>, c: Community)
    ensures c in CommunitiesWithout(s, keys) <==> c in s && CommunityKey(c) !in keys
  {
    if |s| > 0 {
      CommunitiesWithoutKeeps(s[..|s| - 1], keys, c);
      assert s == s[..|s| - 1] + [s[|s| - 1]];
    }
  }

  lemma CommunitiesWithoutStep(s: seq<Community>, keys: set<(string, string)>, k: nat)
    requires k < |s|
    ensures CommunitiesWithout(s[..k + 1], keys)
         == CommunitiesWithout(s[..k], keys) + (if CommunityKey(s[k]) in keys then [] else [s[k]])
  {
    assert s[..k + 1][..k] == s[..k];
  }

  /** The conversation list (`user_groups` config object). */
  class UserGroups {
    var communities: seq<Community>
    var legacyGroups: seq<LegacyGroupRecord>
    /** Number of conversation iterators currently open over this list. */
    ghost var cursors: nat

    ghost predicate Valid()
      reads this`communities, this`legacyGroups
    {
      && UniqueKeys(communities, CommunityKey)
      && UniqueKeys(legacyGroups, GroupId)
      && (forall i {:trigger WellFormedCommunity(communities[i])} ::
            0 <= i < |communities| ==> WellFormedCommunity(communities[i]))
      && (forall i {:trigger WellFormedRecord(legacyGroups[i])} ::
            0 <= i < |legacyGroups| ==> WellFormedRecord(legacyGroups[i]))
    }

    function CommunityTable(): map<(string, string), Community>
      reads this`communities
    {
      ToMap(communities, CommunityKey, Itself)
    }

    function LegacyTable(): map<string, LegacyGroupRecord>
      reads this`legacyGroups
    {
      ToMap(legacyGroups, GroupId, Itself)
    }

    /** Every conversation of the given kind, communities before legacy groups. */
    function Conversations(kind: Kind): seq<Conversation>
      reads this`communities, this`legacyGroups
    {
      Convos(kind, communities, legacyGroups)
    }

    /** An empty conversation list. */
    constructor ()
      ensures Valid() && communities == [] && legacyGroups == [] && cursors == 0
    {
      communities, legacyGroups, cursors := [], [], 0;
    }

    /** The community filed under `key`, if any. */
    function FindCommunity(key: (string, string)): (r: Option<Community>)
      reads this`communities, this`legacyGroups
      requires Valid()
      ensures r.Some? <==> key in CommunityTable()
      ensures r.Some? ==> r.value == CommunityTable()[key] && CommunityKey(r.value) == key
      ensures r.Some? ==> WellFormedCommunity(r.value)
    {
      FindAgreesWithToMap(communities, CommunityKey, Itself, key);
      match Find(communities, CommunityKey, key)
      case None => None
      case Some(i) => Some(communities[i])
    }

    /**
     * Looks a community up by base URL (normalised first) and room token
     * (compared ignoring case). The record found may spell the room with a
     * different case than the query.
     */
    function GetCommunity(url: string, room: string): (r: Option<Community>)
      reads this`communities, this`legacyGroups
      requires Valid()
      ensures r.Some? <==> LookupKey(url, room) in CommunityTable()
      ensures r.Some? ==> r.value == CommunityTable()[LookupKey(url, room)]
      ensures r.Some? ==> r.value.baseUrl == NormalizeUrl(url) && SameIgnoringCase(r.value.room, room)
    {
      FindCommunity(LookupKey(url, room))
    }

    /**
     * The stored community if there is one (with its own room case);
     * otherwise a new record with the base URL normalised and the room
     * exactly as given. None only when a new record would not fit the
     * record's bounds.
     */
    function GetOrConstructCommunity(url: string, room: string, pubkey: seq<byte>): (r: Option<Community>)
      reads this`communities, this`legacyGroups
      requires Valid() && |pubkey| == CommunityPubkeyLength
      ensures LookupKey(url, room) in CommunityTable() ==> r == Some(CommunityTable()[LookupKey(url, room)])
      ensures LookupKey(url, room) !in CommunityTable() ==>
                r == if |NormalizeUrl(url)| <= BaseUrlMaxLength && |room| <= RoomMaxLength
                     then Some(NewCommunity(url, room, pubkey)) else None
      ensures r.Some? ==> WellFormedCommunity(r.value) && CommunityKey(r.value) == LookupKey(url, room)
    {
      var found := FindCommunity(LookupKey(url, room));
      if found.Some? then
        OwnKeyIsLookupKey(found.value);
        found
      else if |NormalizeUrl(url)| <= BaseUrlMaxLength && |room| <= RoomMaxLength then
        NormalizeUrlIdempotent(url);
        Some(NewCommunity(url, room, pubkey))
      else
        None
    }

    /**
     * Adds a community or replaces the one filed under the lookup key of its
     * base URL and room. The base URL is stored normalised; the stored room
     * case becomes the one `c` carries.
     */
    method SetCommunity(c: Community)
      requires Valid()
      requires |NormalizeUrl(c.baseUrl)| <= BaseUrlMaxLength && |c.room| <= RoomMaxLength
      requires |c.pubkey| == CommunityPubkeyLength
      modifies this`communities
      ensures Valid()
      ensures CommunityTable()
           == old(CommunityTable())[LookupKey(c.baseUrl, c.room) := c.(baseUrl := NormalizeUrl(c.baseUrl))]
    {
      NormalizeUrlIdempotent(c.baseUrl);
      StoreCommunity(c.(baseUrl := NormalizeUrl(c.baseUrl)));
    }

    /** Files a community whose base URL is already normalised under its own key. */
    method StoreCommunity(c: Community)
      requires Valid() && WellFormedCommunity(c)
      modifies this`communities
      ensures Valid()
      ensures CommunityTable() == old(CommunityTable())[CommunityKey(c) := c]
    {
      var i := Find(communities, CommunityKey, CommunityKey(c));
      if i.Some? {
        ToMapReplace(communities, CommunityKey, Itself, i.value, c);
        communities := communities[i.value := c];
      } else {
        ToMapAppend(communities, CommunityKey, Itself, c);
        communities := communities + [c];
      }
    }

    /**
     * Erases the community filed under the lookup key of `url` and `room`;
     * reports whether there was one. Not to be used while a conversation
     * iterator is open.
     */
    method EraseCommunity(url: string, room: string) returns (found: bool)
      requires Valid() && cursors == 0
      modifies this`communities
      ensures Valid()
      ensures found <==> LookupKey(url, room) in old(CommunityTable())
      ensures CommunityTable() == old(CommunityTable()) - {LookupKey(url, room)}
    {
      found := EraseCommunityKey(LookupKey(url, room));
    }

    /** Erases the community filed under `key`; not to be used while a conversation iterator is open. */
    method EraseCommunityKey(key: (string, string)) returns (found: bool)
      requires Valid() && cursors == 0
      modifies this`communities
      ensures Valid()
      ensures found <==> key in old(CommunityTable())
      ensures CommunityTable() == old(CommunityTable()) - {key}
    {
      FindAgreesWithToMap(communities, CommunityKey, Itself, key);
      var i := Find(communities, CommunityKey, key);
      if i.None? {
        return false;
      }
      EraseCommunityAt(i.value);
      return true;
    }

    /** Erases the community at position `k`. */
    method EraseCommunityAt(k: nat)
      requires Valid() && k < |communities|
      modifies this`communities
      ensures Valid()
      ensures communities == old(communities[..k] + communities[k + 1..])
      ensures CommunityTable() == old(CommunityTable()) - {CommunityKey(old(communities[k]))}
    {
      ToMapDelete(communities, CommunityKey, Itself, k);
      communities := communities[..k] + communities[k + 1..];
    }

    /** The legacy group filed under `id`, if any. */
    function FindLegacyGroup(id: string): (r: Option<LegacyGroupRecord>)
      reads this`communities, this`legacyGroups
      requires Valid()
      ensures r.Some? <==> id in LegacyTable()
      ensures r.Some? ==> r.value == LegacyTable()[id] && r.value.sessionId == id && WellFormedRecord(r.value)
    {
      FindAgreesWithToMap(legacyGroups, GroupId, Itself, id);
      match Find(legacyGroups, GroupId, id)
      case None => None
      case Some(i) => Some(legacyGroups[i])
    }

    /**
     * The legacy group filed under `id`, or a fresh record with every field
     * at its default when there is none; None only for an invalid id.
     */
    function LegacyGroupOrDefault(id: string): (r: Option<LegacyGroupRecord>)
      reads this`communities, this`legacyGroups
      requires Valid()
      ensures r.None? <==> !ValidSessionId(id)
      ensures id in LegacyTable() ==> r == Some(LegacyTable()[id])
      ensures id !in LegacyTable() && ValidSessionId(id) ==> r == Some(DefaultRecord(id))
      ensures r.Some? ==> r.value.sessionId == id && WellFormedRecord(r.value)
    {
      match FindLegacyGroup(id)
      case Some(g) => Some(g)
      case None => if ValidSessionId(id) then Some(DefaultRecord(id)) else None
    }

    /** A handle on the legacy group filed under `id`, or null when there is none. */
    method GetLegacyGroup(id: string) returns (g: LegacyGroup?)
      requires Valid()
      ensures g == null <==> id !in LegacyTable()
      ensures g != null ==> fresh(g) && g.Valid() && g.cursors == 0 && g.Record() == LegacyTable()[id]
    {
      var r := FindLegacyGroup(id);
      if r.None? {
        return null;
      }
      g := new LegacyGroup.FromRecord(r.value);
    }

    /**
     * A handle on the legacy group filed under `id`, or on a new default
     * record for it; null only when `id` is not a valid group id.
     */
    method GetOrConstructLegacyGroup(id: string) returns (g: LegacyGroup?)
      requires Valid()
      ensures g == null <==> !ValidSessionId(id)
      ensures g != null ==> fresh(g) && g.Valid() && g.cursors == 0
      ensures g != null ==> g.Record() == LegacyGroupOrDefault(id).value
    {
      var r := LegacyGroupOrDefault(id);
      if r.None? {
        return null;
      }
      g := new LegacyGroup.FromRecord(r.value);
    }

    /** Adds the legacy group the handle holds, or replaces the one with its id. */
    method SetLegacyGroup(g: LegacyGroup)
      requires Valid() && g.Valid()
      modifies this`legacyGroups
      ensures Valid()
      ensures LegacyTable() == old(LegacyTable())[g.sessionId := g.Record()]
    {
      var rec := g.Record();
      var i := Find(legacyGroups, GroupId, rec.sessionId);
      if i.Some? {
        ToMapReplace(legacyGroups, GroupId, Itself, i.value, rec);
        legacyGroups := legacyGroups[i.value := rec];
      } else {
        ToMapAppend(legacyGroups, GroupId, Itself, rec);
        legacyGroups := legacyGroups + [rec];
      }
    }

    /**
     * Erases the legacy group filed under `id`; reports whether there was
     * one. Not to be used while a conversation iterator is open.
     */
    method EraseLegacyGroup(id: string) returns (found: bool)
      requires Valid() && cursors == 0
      modifies this`legacyGroups
      ensures Valid()
      ensures found <==> id in old(LegacyTable())
      ensures LegacyTable() == old(LegacyTable()) - {id}
    {
      FindAgreesWithToMap(legacyGroups, GroupId, Itself, id);
      var i := Find(legacyGroups, GroupId, id);
      if i.None? {
        return false;
      }
      EraseLegacyGroupAt(i.value);
      return true;
    }

    /** Erases the legacy group at position `k`. */
    method EraseLegacyGroupAt(k: nat)
      requires Valid() && k < |legacyGroups|
      modifies this`legacyGroups
      ensures Valid()
      ensures legacyGroups == old(legacyGroups[..k] + legacyGroups[k + 1..])
      ensures LegacyTable() == old(LegacyTable()) - {old(legacyGroups[k]).sessionId}
    {
      ToMapDelete(legacyGroups, GroupId, Itself, k);
      legacyGroups := legacyGroups[..k] + legacyGroups[k + 1..];
    }

    /** Number of community conversations. */
    function SizeCommunities(): (n: nat)
      reads this`communities, this`legacyGroups
      requires Valid()
      ensures n == |CommunityTable()| == |Conversations(CommunitiesOnly)|
    {
      ToMapSize(communities, CommunityKey, Itself);
      |communities|
    }

    /** Number of legacy group conversations. */
    function SizeLegacyGroups(): (n: nat)
      reads this`communities, this`legacyGroups
      requires Valid()
      ensures n == |LegacyTable()| == |Conversations(LegacyGroupsOnly)|
    {
      ToMapSize(legacyGroups, GroupId, Itself);
      |legacyGroups|
    }

    /** Number of conversations of either kind. */
    function Size(): (n: nat)
      reads this`communities, this`legacyGroups
      requires Valid()
      ensures n == |CommunityTable()| + |LegacyTable()| == |Conversations(AllConversations)|
    {
      SizeCommunities() + SizeLegacyGroups()
    }

    /** Opens an iterator over the conversations of the given kind. */
    method NewIterator(kind: Kind) returns (it: ConvoIterator)
      requires Valid()
      modifies this`cursors
      ensures fresh(it) && it.store == this && it.kind == kind && it.pos == 0 && it.Valid() && it.open
      ensures cursors == old(cursors) + 1
    {
      it := new ConvoIterator(this, kind);
    }
  }

  /** Looking a stored community up by its own URL and by any case variant of its room finds it. */
  lemma GetCommunityFindsStored(store: UserGroups, i: nat, room: string)
    requires store.Valid() && i < |store.communities|
    requires SameIgnoringCase(room, store.communities[i].room)
    ensures store.GetCommunity(store.communities[i].baseUrl, room) == Some(store.communities[i])
  {
    var c := store.communities[i];
    OwnKeyIsLookupKey(c);
    ToMapAt(store.communities, CommunityKey, Itself, i);
  }

  /** Community lookup does not depend on the case of the room token asked for. */
  lemma LookupIgnoresRoomCase(store: UserGroups, url: string, a: string, b: string)
    requires store.Valid() && SameIgnoringCase(a, b)
    ensures store.GetCommunity(url, a) == store.GetCommunity(url, b)
  {
  }

  /**
   * A community set with base URL "https://Example.com:443/" and room "Room"
   * is filed under the key that a lookup of "https://example.com" and "ROOM"
   * searches for: the URL's case, its default port and its trailing '/' do
   * not matter, nor does the room's case.
   */
  lemma SetKeyMatchesLookup(scheme: string, host: string, slashes: string, other: string, room: string, query: string)
    requires scheme == HttpsScheme || scheme == HttpScheme
    requires forall j :: 0 <= j < |host| ==> host[j] != '/'
    requires !HasPortColon(host)
    requires forall j :: 0 <= j < |slashes| ==> slashes[j] == '/'
    requires SameIgnoringCase(host, other) && SameIgnoringCase(room, query)
    ensures LookupKey(scheme + host + DefaultPortSuffix(scheme) + slashes, room) == LookupKey(scheme + other, query)
    ensures NormalizeUrl(scheme + host + DefaultPortSuffix(scheme) + slashes) == scheme + Lower(host)
  {
    NormalizeIgnoresCaseAndDefaultPort(scheme, host, slashes);
    SameHostShape(host, other);
    NormalizePlainHost(scheme, other);
  }

  /** A host spelled with other capitals has no '/' and no port of its own either. */
  lemma SameHostShape(host: string, other: string)
    requires forall j :: 0 <= j < |host| ==> host[j] != '/'
    requires !HasPortColon(host) && SameIgnoringCase(host, other)
    ensures forall j :: 0 <= j < |other| ==> other[j] != '/'
    ensures !HasPortColon(other)
  {
    LowerKeepsPortColon(host);
    LowerKeepsPortColon(other);
    forall j | 0 <= j < |other| ensures other[j] != '/' {
      assert Lower(other)[j] == Lower(host)[j];
    }
  }

  /** Storing a community, then reading it back under another spelling of its URL and room. */
  method SetThenGetCommunity(store: UserGroups, c: Community, scheme: string, host: string, slashes: string,
                             other: string, query: string)
    returns (r: Option<Community>)
    requires store.Valid()
    requires scheme == HttpsScheme || scheme == HttpScheme
    requires forall j :: 0 <= j < |host| ==> host[j] != '/'
    requires !HasPortColon(host)
    requires forall j :: 0 <= j < |slashes| ==> slashes[j] == '/'
    requires c.baseUrl == scheme + host + DefaultPortSuffix(scheme) + slashes
    requires |scheme + host| <= BaseUrlMaxLength && |c.room| <= RoomMaxLength && |c.pubkey| == CommunityPubkeyLength
    requires SameIgnoringCase(host, other) && SameIgnoringCase(c.room, query)
    modifies store`communities
    ensures r == Some(c.(baseUrl := scheme + Lower(host)))
  {
    SetKeyMatchesLookup(scheme, host, slashes, other, c.room, query);
    store.SetCommunity(c);
    r := store.GetCommunity(scheme + other, query);
  }

  /**
   * A cursor over the conversation list. `pos` indexes the list of
   * conversations of its kind; erasing the current conversation leaves the
   * next one at `pos`.
   */
  class ConvoIterator {
    const store: UserGroups
    const kind: Kind
    var pos: nat
    /** Whether the iterator is still in use; it is closed once, at the end. */
    ghost var open: bool

    ghost predicate Valid()
      reads this`pos, store`communities, store`legacyGroups
    {
      store.Valid() && pos <= |store.Conversations(kind)|
    }

    /** An iterator at the first conversation, counted among the list's open iterators. */
    constructor (s: UserGroups, k: Kind)
      requires s.Valid()
      modifies s`cursors
      ensures store == s && kind == k && pos == 0 && Valid() && open
      ensures s.cursors == old(s.cursors) + 1
    {
      store, kind, pos, open := s, k, 0, true;
      new;
      s.cursors := s.cursors + 1;
    }

    /** Whether every conversation has been visited. */
    predicate Done()
      reads this`pos, store`communities, store`legacyGroups
    {
      pos >= |store.Conversations(kind)|
    }

    /** Moves to the next conversation. */
    method Advance()
      requires Valid() && open && !Done()
      modifies this`pos
      ensures Valid() && pos == old(pos) + 1
    {
      pos := pos + 1;
    }

    /**
     * The current conversation when it is a community. For an iterator over
     * communities only, this is always present until the end.
     */
    function AsCommunity(): (r: Option<Community>)
      reads this`pos, store`communities, store`legacyGroups
      requires Valid()
      ensures r.Some? <==> !Done() && store.Conversations(kind)[pos].CommunityConvo?
      ensures r.Some? ==> store.Conversations(kind)[pos] == CommunityConvo(r.value)
      ensures r.Some? ==>
                CommunityKey(r.value) in store.CommunityTable() && store.CommunityTable()[CommunityKey(r.value)] == r.value
      ensures kind == CommunitiesOnly && !Done() ==> r.Some?
    {
      var cs := store.communities;
      if kind != LegacyGroupsOnly && pos < |cs| then
        ToMapAt(cs, CommunityKey, Itself, pos);
        Some(cs[pos])
      else
        None
    }

    /**
     * The current conversation when it is a legacy group. For an iterator
     * over legacy groups only, this is always present until the end.
     */
    function AsLegacyGroup(): (r: Option<LegacyGroupRecord>)
      reads this`pos, store`communities, store`legacyGroups
      requires Valid()
      ensures r.Some? <==> !Done() && store.Conversations(kind)[pos].LegacyConvo?
      ensures r.Some? ==> store.Conversations(kind)[pos] == LegacyConvo(r.value)
      ensures r.Some? ==>
                r.value.sessionId in store.LegacyTable() && store.LegacyTable()[r.value.sessionId] == r.value
      ensures kind == LegacyGroupsOnly && !Done() ==> r.Some?
    {
      var skip := LegacyOffset(kind, store.communities);
      var ls := store.legacyGroups;
      if kind != CommunitiesOnly && skip <= pos < skip + |ls| then
        ToMapAt(ls, GroupId, Itself, pos - skip);
        Some(ls[pos - skip])
      else
        None
    }

    /**
     * Erases the current conversation; the iteration continues with the one
     * that followed it, which is now current.
     */
    method Erase()
      requires Valid() && open && !Done()
      modifies store`communities, store`legacyGroups
      ensures Valid()
      ensures store.Conversations(kind)
           == old(store.Conversations(kind)[..pos] + store.Conversations(kind)[pos + 1..])
      ensures old(store.Conversations(kind)[pos]).CommunityConvo? ==>
                && store.CommunityTable() == old(store.CommunityTable()) - {CommunityKey(old(store.Conversations(kind)[pos]).community)}
                && store.legacyGroups == old(store.legacyGroups)
      ensures old(kind != LegacyGroupsOnly && pos < |store.communities|) ==>
                store.communities == old(store.communities[..pos] + store.communities[pos + 1..])
      ensures old(store.Conversations(kind)[pos]).LegacyConvo? ==>
                && store.LegacyTable() == old(store.LegacyTable()) - {old(store.Conversations(kind)[pos]).group.sessionId}
                && store.communities == old(store.communities)
    {
      if kind != LegacyGroupsOnly && pos < |store.communities| {
        EraseCommunityHere();
      } else {
        EraseLegacyGroupHere(pos - LegacyOffset(kind, store.communities));
      }
    }

    method EraseCommunityHere()
      requires Valid() && kind != LegacyGroupsOnly && pos < |store.communities|
      modifies store`communities
      ensures Valid()
      ensures old(store.Conversations(kind)[pos]) == CommunityConvo(old(store.communities[pos]))
      ensures store.Conversations(kind)
           == old(store.Conversations(kind)[..pos] + store.Conversations(kind)[pos + 1..])
      ensures store.CommunityTable() == old(store.CommunityTable()) - {CommunityKey(old(store.communities[pos]))}
      ensures store.communities == old(store.communities[..pos] + store.communities[pos + 1..])
    {
      ConvosEraseCommunity(kind, store.communities, store.legacyGroups, pos);
      store.EraseCommunityAt(pos);
    }

    method EraseLegacyGroupHere(k: nat)
      requires Valid() && kind != CommunitiesOnly && k < |store.legacyGroups|
      requires pos == LegacyOffset(kind, store.communities) + k
      modifies store`legacyGroups
      ensures Valid()
      ensures old(store.Conversations(kind)[pos]) == LegacyConvo(old(store.legacyGroups[k]))
      ensures store.Conversations(kind)
           == old(store.Conversations(kind)[..pos] + store.Conversations(kind)[pos + 1..])
      ensures store.LegacyTable() == old(store.LegacyTable()) - {old(store.legacyGroups[k]).sessionId}
    {
      ConvosEraseLegacy(kind, store.communities, store.legacyGroups, k);
      store.EraseLegacyGroupAt(k);
    }

    /** Ends the iteration; the iterator is not used again. */
    method Close()
      requires open && store.cursors > 0
      modifies this`open, store`cursors
      ensures !open && store.cursors == old(store.cursors) - 1
    {
      store.cursors := store.cursors - 1;
      open := false;
    }
  }

  /** The iteration is over exactly when there is no current conversation of either kind. */
  lemma DoneIffNoCurrent(it: ConvoIterator)
    requires it.Valid()
    ensures it.Done() <==> it.AsCommunity().None? && it.AsLegacyGroup().None?
  {
    if !it.Done() {
      var conv := it.store.Conversations(it.kind)[it.pos];
      assert conv.CommunityConvo? || conv.LegacyConvo?;
    }
  }

  /**
   * The erase-while-iterating loop over the whole conversation list: each
   * community whose key the caller has chosen to remove (`doomed`) is erased
   * and the iteration moves on; every other conversation is stepped over.
   * Exactly those communities go, the rest stay in order, and the legacy
   * groups are untouched.
   */
  method EraseCommunitiesWhere(store: UserGroups, doomed: set<(string, string)>)
    requires store.Valid()
    modifies store`communities, store`legacyGroups, store`cursors
    ensures store.Valid() && store.cursors == old(store.cursors)
    ensures store.communities == CommunitiesWithout(old(store.communities), doomed)
    ensures forall c :: c in store.communities <==> c in old(store.communities) && CommunityKey(c) !in doomed
    ensures store.legacyGroups == old(store.legacyGroups)
  {
    ghost var orig := store.communities;
    var it := store.NewIterator(AllConversations);
    EraseCommunitiesFrom(it, doomed);
    it.Close();
    forall c {
      CommunitiesWithoutKeeps(orig, doomed, c);
    }
  }

  /**
   * Where the loop of `EraseCommunitiesWhere` stands: the first `k` of the
   * original communities and the first `j` legacy groups have been visited,
   * and of those communities exactly `kept` remain.
   */
  ghost predicate Walked(it: ConvoIterator, doomed: set<(string, string)>, orig: seq<Community>,
                         kept: seq<Community>, k: nat, j: nat)
    reads it`pos, it`open, it.store`communities, it.store`legacyGroups
  {
    && it.Valid() && it.open && it.kind == AllConversations
    && k <= |orig| && j <= |it.store.legacyGroups| && (j > 0 ==> k == |orig|)
    && it.store.communities == kept + orig[k..] && it.pos == |kept| + j
    && kept == CommunitiesWithout(orig[..k], doomed)
  }

  /** The loop of `EraseCommunitiesWhere`, run with a fresh iterator. */
  method EraseCommunitiesFrom(it: ConvoIterator, doomed: set<(string, string)>)
    requires it.Valid() && it.open && it.kind == AllConversations && it.pos == 0
    modifies it`pos, it.store`communities, it.store`legacyGroups
    ensures it.Valid() && it.open
    ensures it.store.communities == CommunitiesWithout(old(it.store.communities), doomed)
    ensures it.store.legacyGroups == old(it.store.legacyGroups)
  {
    var store := it.store;
    ghost var orig := store.communities;
    ghost var k: nat := 0;
    ghost var j: nat := 0;
    ghost var kept: seq<Community> := [];
    while !it.Done()
      invariant it.store == store && store.legacyGroups == old(store.legacyGroups)
      invariant Walked(it, doomed, orig, kept, k, j)
      decreases |orig| - k + |store.legacyGroups| - j
    {
      kept, k, j := EraseOrSkip(it, doomed, orig, kept, k, j);
    }
    assert orig[..k] == orig;
  }

  /** One turn of the loop: erases the current conversation when it is a doomed community, else steps over it. */
  method EraseOrSkip(it: ConvoIterator, doomed: set<(string, string)>, ghost orig: seq<Community>,
                     ghost kept: seq<Community>, ghost k: nat, ghost j: nat)
    returns (ghost kept': seq<Community>, ghost k': nat, ghost j': nat)
    requires Walked(it, doomed, orig, kept, k, j) && !it.Done()
    modifies it`pos, it.store`communities, it.store`legacyGroups
    ensures Walked(it, doomed, orig, kept', k', j')
    ensures it.store.legacyGroups == old(it.store.legacyGroups)
    ensures (k' == k + 1 && j' == j) || (k' == k && j' == j + 1)
  {
    var c := it.AsCommunity();
    if c.Some? && CommunityKey(c.value) in doomed {
      EraseDoomed(it, doomed, orig, kept, k, j);
      kept', k', j' := kept, k + 1, j;
    } else {
      kept', k', j' := Skip(it, doomed, orig, kept, k, j);
    }
  }

  /** Erases the current conversation, a community whose key is doomed. */
  method EraseDoomed(it: ConvoIterator, doomed: set<(string, string)>, ghost orig: seq<Community>,
                     ghost kept: seq<Community>, ghost k: nat, ghost j: nat)
    requires Walked(it, doomed, orig, kept, k, j) && !it.Done()
    requires it.AsCommunity().Some? && CommunityKey(it.AsCommunity().value) in doomed
    modifies it.store`communities, it.store`legacyGroups
    ensures Walked(it, doomed, orig, kept, k + 1, j)
    ensures it.store.legacyGroups == old(it.store.legacyGroups)
  {
    CommunitiesWithoutStep(orig, doomed, k);
    assert it.AsCommunity().value == orig[k];
    assert it.store.communities[..it.pos] == kept && it.store.communities[it.pos + 1..] == orig[k + 1..];
    it.Erase();
  }

  /** Steps over the current conversation, which is not a doomed community. */
  method Skip(it: ConvoIterator, doomed: set<(string, string)>, ghost orig: seq<Community>,
              ghost kept: seq<Community>, ghost k: nat, ghost j: nat)
    returns (ghost kept': seq<Community>, ghost k': nat, ghost j': nat)
    requires Walked(it, doomed, orig, kept, k, j) && !it.Done()
    requires it.AsCommunity().Some? ==> CommunityKey(it.AsCommunity().value) !in doomed
    modifies it`pos
    ensures Walked(it, doomed, orig, kept', k', j')
    ensures (k' == k + 1 && j' == j) || (k' == k && j' == j + 1)
  {
    var c := it.AsCommunity();
    if c.Some? {
      CommunitiesWithoutStep(orig, doomed, k);
      assert c.value == orig[k];
      kept', k', j' := kept + [orig[k]], k + 1, j;
      assert it.store.communities == kept' + orig[k'..];
    } else {
      kept', k', j' := kept, k, j + 1;
    }
    it.Advance();
  }
}
