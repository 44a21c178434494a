/**
 * Legacy (closed) group records and their member tables.
 *
 * A member table holds each member once, keyed by session id and carrying an
 * admin flag; it is kept in ascending byte order of the session id, and a
 * cursor walks it in that order.
 */
module LegacyGroups {
  import opened Common
  import opened Text
  import opened Tables

  /** Maximum length of a group name, counted in characters (the C buffer counts bytes). */
  const GroupNameMaxLength: nat := 100

  /** When the user wants notifications; the mode codes live outside this model. */
  datatype NotifyMode = NotifyMode(code: int)

  /** The default notification mode, given to freshly constructed records. */
  const DefaultNotify: NotifyMode := NotifyMode(0)

  datatype KeyPair = KeyPair(pubkey: seq<byte>, seckey: seq<byte>)

  datatype Member = Member(sessionId: string, admin: bool)

  function MemberId(m: Member): string { m.sessionId }
  function MemberAdmin(m: Member): bool { m.admin }

  /** The content of a member table: session id to admin flag. */
  function MemberMap(s: seq<Member>): map<string, bool> {
    ToMap(s, MemberId, MemberAdmin)
  }

  /** Members in strictly ascending session-id order, every id well formed. */
  predicate WellFormedMembers(s: seq<Member>) {
    && (forall i, j {:trigger Before(s[i].sessionId, s[j].sessionId)} ::
          0 <= i < j < |s| ==> Before(s[i].sessionId, s[j].sessionId))
    && (forall i :: 0 <= i < |s| ==> ValidSessionId(s[i].sessionId))
  }

  lemma SortedMembersUnique(s: seq<Member>)
    requires WellFormedMembers(s)
    ensures UniqueKeys(s, MemberId)
  {
    forall i, j | 0 <= i < j < |s| ensures MemberId(s[i]) != MemberId(s[j]) {
      BeforeDistinct(s[i].sessionId, s[j].sessionId);
    }
  }

  /** Number of admins among the members. */
  function AdminCount(s: seq<Member>): (n: nat)
    ensures n <= |s|
  {
    if |s| == 0 then 0
    else AdminCount(s[..|s| - 1]) + (if s[|s| - 1].admin then 1 else 0)
  }

  /** A legacy group conversation as it is stored in the conversation list. */
  datatype LegacyGroupRecord = LegacyGroupRecord(
    sessionId: string,
    name: string,
    encKeys: Option<KeyPair>,
    disappearingTimer: int,
    priority: int,
    joinedAt: int,
    notifications: NotifyMode,
    muteUntil: int,
    members: seq<Member>)

  function GroupId(g: LegacyGroupRecord): string { g.sessionId }

  predicate WellFormedRecord(g: LegacyGroupRecord) {
    && ValidSessionId(g.sessionId)
    && |g.name| <= GroupNameMaxLength
    && (g.encKeys.Some? ==> |g.encKeys.value.pubkey| == 32 && |g.encKeys.value.seckey| == 32)
    && WellFormedMembers(g.members)
  }

  /** The record a new group id starts with: every field at its default, no members. */
  function DefaultRecord(id: string): (g: LegacyGroupRecord)
    requires ValidSessionId(id)
    ensures WellFormedRecord(g) && g.sessionId == id
    ensures g.name == "" && g.encKeys.None? && g.members == []
    ensures g.disappearingTimer == 0 && g.priority == 0 && g.joinedAt == 0 && g.muteUntil == 0
    ensures g.notifications == DefaultNotify
  {
    LegacyGroupRecord(id, "", None, 0, 0, 0, DefaultNotify, 0, [])
  }

  /**
   * A legacy group record handed to the caller: its plain fields may be
   * assigned directly, its member table changes only through the methods.
   */
  class LegacyGroup {
    var sessionId: string
    var name: string
    var encKeys: Option<KeyPair>
    var disappearingTimer: int
    var priority: int
    var joinedAt: int
    var notifications: NotifyMode
    var muteUntil: int
    var members: seq<Member>
    /** Number of member cursors currently open over this group. */
    ghost var cursors: nat

    ghost predicate Valid()
      reads this
    {
      WellFormedRecord(Record())
    }

    /** The record value this handle currently holds. */
    function Record(): LegacyGroupRecord
      reads this
    {
      LegacyGroupRecord(sessionId, name, encKeys, disappearingTimer, priority, joinedAt,
                        notifications, muteUntil, members)
    }

    /** The member table's content. */
    function Members(): map<string, bool>
      reads this
    {
      MemberMap(members)
    }

    constructor FromRecord(g: LegacyGroupRecord)
      requires WellFormedRecord(g)
      ensures Valid() && Record() == g && cursors == 0
    {
      sessionId, name, encKeys := g.sessionId, g.name, g.encKeys;
      disappearingTimer, priority, joinedAt := g.disappearingTimer, g.priority, g.joinedAt;
      notifications, muteUntil, members := g.notifications, g.muteUntil, g.members;
      cursors := 0;
    }

    /**
     * Adds a member, or changes an existing member's admin flag. Reports
     * whether anything changed: false for an invalid session id and for a
     * member that already has that flag, and then the table is unchanged.
     */
    method Add(sid: string, admin: bool) returns (changed: bool)
      requires Valid()
      modifies this`members
      ensures Valid()
      ensures changed <==> ValidSessionId(sid) && (sid !in old(Members()) || old(Members())[sid] != admin)
      ensures Members() == if changed then old(Members())[sid := admin] else old(Members())
    {
      SortedMembersUnique(members);
      if !ValidSessionId(sid) {
        ToMapKeys(members, MemberId, MemberAdmin, sid);
        return false;
      }
      var i := 0;
      while i < |members| && Before(members[i].sessionId, sid)
        invariant 0 <= i <= |members|
        invariant forall j :: 0 <= j < i ==> Before(members[j].sessionId, sid)
      {
        i := i + 1;
      }
      if i < |members| && members[i].sessionId == sid {
        ToMapAt(members, MemberId, MemberAdmin, i);
        if members[i].admin == admin {
          return false;
        }
        ToMapReplace(members, MemberId, MemberAdmin, i, Member(sid, admin));
        members := members[i := Member(sid, admin)];
        return true;
      }
      InsertPreservesOrder(members, i, Member(sid, admin));
      ToMapKeys(members, MemberId, MemberAdmin, sid);
      ToMapInsert(members, MemberId, MemberAdmin, i, Member(sid, admin));
      var t := members[..i] + [Member(sid, admin)] + members[i..];
      members := t;
      return true;
    }

    /**
     * Removes a member (admin or not) by session id; reports whether it was
     * there. Not to be used while a member cursor is open over this group.
     */
    method Remove(sid: string) returns (found: bool)
      requires Valid() && cursors == 0
      modifies this`members
      ensures Valid()
      ensures found <==> sid in old(Members())
      ensures Members() == old(Members()) - {sid}
    {
      SortedMembersUnique(members);
      FindAgreesWithToMap(members, MemberId, MemberAdmin, sid);
      var i := Find(members, MemberId, sid);
      if i.None? {
        return false;
      }
      var k := i.value;
      ToMapDelete(members, MemberId, MemberAdmin, k);
      DeletePreservesOrder(members, k);
      members := members[..k] + members[k + 1..];
      return true;
    }

    /**
     * Counts the members: the overall number, the non-admins and the admins.
     */
    method Count() returns (total: nat, nonAdmins: nat, admins: nat)
      requires Valid()
      ensures total == |Members()| == nonAdmins + admins
      ensures admins == AdminCount(members)
    {
      total, nonAdmins, admins := 0, 0, 0;
      var i := 0;
      while i < |members|
        invariant 0 <= i <= |members|
        invariant admins == AdminCount(members[..i])
        invariant total == i == nonAdmins + admins
      {
        assert members[..i + 1][..i] == members[..i];
        if members[i].admin {
          admins := admins + 1;
        } else {
          nonAdmins := nonAdmins + 1;
        }
        total := total + 1;
        i := i + 1;
      }
      assert members[..i] == members;
      SortedMembersUnique(members);
      ToMapSize(members, MemberId, MemberAdmin);
    }

    /** Opens a cursor over the members, positioned before the first one. */
    method Begin() returns (it: MemberCursor)
      requires Valid()
      modifies this`cursors
      ensures fresh(it) && it.group == this && it.Valid()
      ensures it.last.None? && !it.onMember && !it.done && it.open
      ensures cursors == old(cursors) + 1
    {
      it := new MemberCursor(this);
    }
  }

  /**
   * Inserting a well-formed id at the first position whose id does not sort
   * before it keeps the table well formed, when the id is not already there.
   */
  lemma InsertPreservesOrder(s: seq<Member>, i: nat, m: Member)
    requires WellFormedMembers(s) && ValidSessionId(m.sessionId) && i <= |s|
    requires forall j :: 0 <= j < i ==> Before(s[j].sessionId, m.sessionId)
    requires i < |s| ==> !Before(s[i].sessionId, m.sessionId) && s[i].sessionId != m.sessionId
    ensures forall j :: 0 <= j < |s| ==> s[j].sessionId != m.sessionId
    ensures WellFormedMembers(s[..i] + [m] + s[i..])
  {
    var sid := m.sessionId;
    forall j | i <= j < |s| ensures Before(sid, s[j].sessionId) {
      BeforeTotal(sid, s[i].sessionId);
      if j > i {
        BeforeTransitive(sid, s[i].sessionId, s[j].sessionId);
      }
    }
    forall j | 0 <= j < |s| ensures s[j].sessionId != sid {
      if j < i {
        BeforeDistinct(s[j].sessionId, sid);
      } else {
        BeforeDistinct(sid, s[j].sessionId);
      }
    }
    var t := s[..i] + [m] + s[i..];
    forall a, b | 0 <= a < b < |t| ensures Before(t[a].sessionId, t[b].sessionId) {
      if a < i && b == i {
      } else if a < i && b > i {
        assert t[a] == s[a] && t[b] == s[b - 1];
        BeforeTransitive(t[a].sessionId, sid, t[b].sessionId);
      } else if a == i {
        assert t[b] == s[b - 1];
      } else if a > i {
        assert t[a] == s[a - 1] && t[b] == s[b - 1];
      } else {
        assert t[a] == s[a] && t[b] == s[b];
      }
    }
    forall a | 0 <= a < |t| ensures ValidSessionId(t[a].sessionId) {
      if a < i {
        assert t[a] == s[a];
      } else if a > i {
        assert t[a] == s[a - 1];
      }
    }
  }

  /** Deleting one member keeps the table well formed. */
  lemma DeletePreservesOrder(s: seq<Member>, k: nat)
    requires WellFormedMembers(s) && k < |s|
    ensures WellFormedMembers(s[..k] + s[k + 1..])
  {
    var t := s[..k] + s[k + 1..];
    forall a, b | 0 <= a < b < |t| ensures Before(t[a].sessionId, t[b].sessionId) {
      var a' := if a < k then a else a + 1;
      var b' := if b < k then b else b + 1;
      assert t[a] == s[a'] && t[b] == s[b'];
    }
    forall a | 0 <= a < |t| ensures ValidSessionId(t[a].sessionId) {
      assert t[a] == s[if a < k then a else a + 1];
    }
  }

  /** Whether `id` sorts after the position `last`; before the first member, every id does. */
  predicate After(last: Option<string>, id: string) {
    last.None? || Before(last.value, id)
  }

  /** Index of the first member whose id sorts after `last`, or |s| when none does. */
  function FirstAfter(s: seq<Member>, last: Option<string>): (i: nat)
    ensures i <= |s|
    ensures forall j :: 0 <= j < i ==> !After(last, s[j].sessionId)
    ensures i < |s| ==> After(last, s[i].sessionId)
  {
    if |s| == 0 || After(last, s[0].sessionId) then 0 else 1 + FirstAfter(s[1..], last)
  }

  /**
   * In a well-formed table the members after a position are exactly those
   * from `FirstAfter` on, so `FirstAfter` picks the least id after it.
   */
  lemma FirstAfterSplits(s: seq<Member>, last: Option<string>)
    requires WellFormedMembers(s)
    ensures forall j :: 0 <= j < |s| ==> (After(last, s[j].sessionId) <==> FirstAfter(s, last) <= j)
  {
    var i := FirstAfter(s, last);
    forall j | i < j < |s| ensures After(last, s[j].sessionId) {
      if last.Some? {
        BeforeTransitive(last.value, s[i].sessionId, s[j].sessionId);
      }
    }
  }

  /** Any index with the defining properties of `FirstAfter` is `FirstAfter`. */
  lemma FirstAfterUnique(s: seq<Member>, last: Option<string>, i: nat)
    requires i <= |s|
    requires forall j :: 0 <= j < i ==> !After(last, s[j].sessionId)
    requires i < |s| ==> After(last, s[i].sessionId)
    ensures FirstAfter(s, last) == i
  {
  }

  /**
   * A cursor over a group's members. It remembers the id of the member it
   * produced last (`last`), so it walks the table in id order whatever is
   * added meanwhile; `onMember` says that member is still there to erase,
   * `done` that the walk has ended, and the ghost `open` that the cursor has
   * not been closed.
   */
  class MemberCursor {
    const group: LegacyGroup
    var last: Option<string>
    var onMember: bool
    var done: bool
    ghost var open: bool

    ghost predicate Valid()
      reads this, group
    {
      && group.Valid()
      && (onMember ==> last.Some? && last.value in group.Members())
    }

    /** A cursor before the first member, counted among the group's open cursors. */
    constructor (g: LegacyGroup)
      requires g.Valid()
      modifies g`cursors
      ensures group == g && last.None? && !onMember && !done && open && Valid()
      ensures g.cursors == old(g.cursors) + 1
    {
      group := g;
      last, onMember, done := None, false, false;
      open := true;
      new;
      g.cursors := g.cursors + 1;
    }

    /**
     * Produces the member with the least id after the one produced last (the
     * first member on the first call), or None once there is none.
     */
    method Next() returns (m: Option<Member>)
      requires Valid() && open
      modifies this
      ensures Valid() && open
      ensures var i := FirstAfter(group.members, old(last));
              m == if old(done) || i == |group.members| then None else Some(group.members[i])
      ensures m.Some? ==> last == Some(m.value.sessionId) && onMember && !done
      ensures m.None? ==> last == old(last) && !onMember && done
    {
      var members := group.members;
      if done {
        onMember := false;
        return None;
      }
      var i := 0;
      while i < |members| && !After(last, members[i].sessionId)
        invariant 0 <= i <= |members|
        invariant forall j :: 0 <= j < i ==> !After(last, members[j].sessionId)
      {
        i := i + 1;
      }
      FirstAfterUnique(members, last, i);
      if i == |members| {
        onMember, done := false, true;
        return None;
      }
      SortedMembersUnique(members);
      ToMapAt(members, MemberId, MemberAdmin, i);
      m := Some(members[i]);
      last, onMember := Some(members[i].sessionId), true;
    }

    /**
     * Erases the member that `Next` produced last; the following `Next`
     * produces the member after it.
     */
    method Erase()
      requires Valid() && open && onMember
      modifies this`onMember, group`members
      ensures Valid() && !onMember && last == old(last) && done == old(done)
      ensures group.members == MembersWithout(old(group.members), {old(last).value})
      ensures group.Members() == old(group.Members()) - {old(last).value}
    {
      var members := group.members;
      var id := last.value;
      SortedMembersUnique(members);
      FindAgreesWithToMap(members, MemberId, MemberAdmin, id);
      var k := Find(members, MemberId, id).value;
      ToMapDelete(members, MemberId, MemberAdmin, k);
      DeletePreservesOrder(members, k);
      MembersWithoutOne(members, k);
      group.members := members[..k] + members[k + 1..];
      onMember := false;
    }

    /** Ends the iteration. */
    method Close()
      requires open && group.cursors > 0
      modifies this`open, group`cursors
      ensures !open && group.cursors == old(group.cursors) - 1
    {
      open := false;
      group.cursors := group.cursors - 1;
    }
  }

  /** The members whose session id is not in `ids`, in their original order. */
  function MembersWithout(s: seq<Member>, ids: set<string>): (r: seq<Member>)
  {
    if |s| == 0 then []
    else MembersWithout(s[..|s| - 1], ids) + (if s[|s| - 1].sessionId in ids then [] else [s[|s| - 1]])
  }

  /** A member survives exactly when its id is not among those dropped. */
  lemma {:induction false} MembersWithoutKeeps(s: seq<Member>, ids: set<string>, m: Member)
    ensures m in MembersWithout(s, ids) <==> m in s && m.sessionId !in ids
  {
    if |s| > 0 {
      MembersWithoutKeeps(s[..|s| - 1], ids, m);
      assert s == s[..|s| - 1] + [s[|s| - 1]];
    }
  }

  lemma MembersWithoutStep(s: seq<Member>, ids: set<string>, k: nat)
    requires k < |s|
    ensures MembersWithout(s[..k + 1], ids)
         == MembersWithout(s[..k], ids) + (if s[k].sessionId in ids then [] else [s[k]])
  {
    assert s[..k + 1][..k] == s[..k];
  }

  /** Dropping ids no member has changes nothing. */
  lemma {:induction false} MembersWithoutNone(s: seq<Member>, ids: set<string>)
    requires forall j :: 0 <= j < |s| ==> s[j].sessionId !in ids
    ensures MembersWithout(s, ids) == s
  {
    if |s| > 0 {
      MembersWithoutNone(s[..|s| - 1], ids);
      assert s == s[..|s| - 1] + [s[|s| - 1]];
    }
  }

  /** Dropping ids from a concatenation drops them from each part. */
  lemma {:induction false} MembersWithoutConcat(a: seq<Member>, b: seq<Member>, ids: set<string>)
    ensures MembersWithout(a + b, ids) == MembersWithout(a, ids) + MembersWithout(b, ids)
  {
    if |b| > 0 {
      var b' := b[..|b| - 1];
      MembersWithoutConcat(a, b', ids);
      assert (a + b)[..|a + b| - 1] == a + b';
    } else {
      assert a + b == a;
    }
  }

  /** A sequence is its part before `k`, its element at `k` and its part after `k`. */
  lemma SplitAt<T>(s: seq<T>, k: nat)
    requires k < |s|
    ensures s == s[..k] + [s[k]] + s[k + 1..]
  {
  }

  /** Dropping the ids of one member and of no other removes just that member. */
  lemma MembersWithoutGap(pre: seq<Member>, x: Member, post: seq<Member>, ids: set<string>)
    requires x.sessionId in ids
    requires forall j :: 0 <= j < |pre| ==> pre[j].sessionId !in ids
    requires forall j :: 0 <= j < |post| ==> post[j].sessionId !in ids
    ensures MembersWithout(pre + [x] + post, ids) == pre + post
  {
    MembersWithoutNone(pre, ids);
    MembersWithoutNone(post, ids);
    assert MembersWithout([x], ids) == [] by {
      assert [x][..0] == [];
    }
    MembersWithoutConcat(pre + [x], post, ids);
    MembersWithoutConcat(pre, [x], ids);
    assert pre + [] == pre;
  }

  /** Dropping the id of one member of a table with unique ids removes just that member. */
  lemma MembersWithoutOne(s: seq<Member>, k: nat)
    requires WellFormedMembers(s) && k < |s|
    ensures MembersWithout(s, {s[k].sessionId}) == s[..k] + s[k + 1..]
  {
    var pre, post := s[..k], s[k + 1..];
    forall j | 0 <= j < |pre| ensures pre[j].sessionId != s[k].sessionId {
      BeforeDistinct(s[j].sessionId, s[k].sessionId);
    }
    forall j | 0 <= j < |post| ensures post[j].sessionId != s[k].sessionId {
      BeforeDistinct(s[k].sessionId, s[k + 1 + j].sessionId);
    }
    SplitAt(s, k);
    MembersWithoutGap(pre, s[k], post, {s[k].sessionId});
  }

  /** The ids of the second, fourth, sixth, ... members. */
  function OddPositionIds(s: seq<Member>): set<string> {
    set i | 0 <= i < |s| && i % 2 == 1 :: s[i].sessionId
  }

  /** Erasing every other member, starting with the second, leaves half of them, rounded up. */
  lemma EraseEveryOtherLeavesHalf(s: seq<Member>)
    requires WellFormedMembers(s)
    ensures |MembersWithout(s, OddPositionIds(s))| == (|s| + 1) / 2
  {
    SortedMembersUnique(s);
    var k := 0;
    while k < |s|
      invariant 0 <= k <= |s|
      invariant |MembersWithout(s[..k], OddPositionIds(s))| == (k + 1) / 2
    {
      MembersWithoutStep(s, OddPositionIds(s), k);
      if k % 2 == 0 && s[k].sessionId in OddPositionIds(s) {
        assert false;
      }
      k := k + 1;
    }
    assert s[..k] == s;
  }

  /**
   * Where the loop of `EraseMembersWhere` stands after the first `k` original
   * members: of those, exactly `kept` remain, each sorting before `orig[k]`.
   */
  lemma NextAfterKept(orig: seq<Member>, doomed: set<string>, kept: seq<Member>, k: nat)
    requires WellFormedMembers(orig) && k < |orig|
    requires kept == MembersWithout(orig[..k + 1], doomed)
    ensures FirstAfter(kept + orig[k + 1..], Some(orig[k].sessionId)) == |kept|
  {
    var t := kept + orig[k + 1..];
    forall j | 0 <= j < |kept| ensures !After(Some(orig[k].sessionId), t[j].sessionId) {
      MembersWithoutKeeps(orig[..k + 1], doomed, kept[j]);
      var a :| 0 <= a < k + 1 && orig[..k + 1][a] == kept[j];
      if a < k {
        BeforeAsymmetric(orig[a].sessionId, orig[k].sessionId);
      } else {
        BeforeIrreflexive(orig[k].sessionId);
      }
    }
    if |kept| < |t| {
      assert t[|kept|] == orig[k + 1];
    }
    FirstAfterUnique(t, Some(orig[k].sessionId), |kept|);
  }

  /**
   * One turn of the loop below: erases the member the cursor has just
   * produced when its id is in `doomed`, then moves on to the next member.
   */
  method EraseOrKeep(it: MemberCursor, doomed: set<string>, ghost orig: seq<Member>,
                     ghost kept: seq<Member>, ghost k: nat)
    returns (m: Option<Member>, ghost kept': seq<Member>)
    requires it.Valid() && it.open && it.onMember && !it.done && k < |orig|
    requires WellFormedMembers(orig) && kept == MembersWithout(orig[..k], doomed)
    requires it.group.members == kept + orig[k..] && it.last == Some(orig[k].sessionId)
    modifies it, it.group`members
    ensures it.Valid() && it.open
    ensures kept' == MembersWithout(orig[..k + 1], doomed)
    ensures it.group.members == kept' + orig[k + 1..]
    ensures m == if k + 1 < |orig| then Some(orig[k + 1]) else None
    ensures m.Some? ==> it.onMember && !it.done && it.last == Some(orig[k + 1].sessionId)
  {
    MembersWithoutStep(orig, doomed, k);
    if it.last.value in doomed {
      EraseCurrent(it, orig, kept, k);
      kept' := kept;
    } else {
      kept' := kept + [orig[k]];
      assert it.group.members == kept' + orig[k + 1..];
    }
    NextAfterKept(orig, doomed, kept', k);
    m := it.Next();
  }

  /** Erases `orig[k]`, the member the cursor stands on, from `kept + orig[k..]`. */
  method EraseCurrent(it: MemberCursor, ghost orig: seq<Member>, ghost kept: seq<Member>, ghost k: nat)
    requires it.Valid() && it.open && it.onMember && k < |orig|
    requires it.group.members == kept + orig[k..] && it.last == Some(orig[k].sessionId)
    modifies it`onMember, it.group`members
    ensures it.Valid() && it.open && it.last == old(it.last) && it.done == old(it.done)
    ensures it.group.members == kept + orig[k + 1..]
  {
    ghost var before := it.group.members;
    assert before[|kept|] == orig[k];
    MembersWithoutOne(before, |kept|);
    assert before[..|kept|] == kept && before[|kept| + 1..] == orig[k + 1..];
    it.Erase();
  }

  /**
   * The erase-while-iterating loop: walks the members with a cursor and erases
   * each one whose session id the caller has chosen to remove (`doomed`).
   * Exactly those members go; the others stay, in their original order.
   */
  method EraseMembersWhere(g: LegacyGroup, doomed: set<string>)
    requires g.Valid()
    modifies g`members, g`cursors
    ensures g.Valid() && g.cursors == old(g.cursors)
    ensures g.members == MembersWithout(old(g.members), doomed)
    ensures forall m :: m in g.members <==> m in old(g.members) && m.sessionId !in doomed
  {
    ghost var orig := g.members;
    var it := g.Begin();
    FirstAfterUnique(g.members, None, 0);
    var m := it.Next();
    EraseRest(it, m, doomed);
    it.Close();
    forall m {
      MembersWithoutKeeps(orig, doomed, m);
    }
  }

  /** The loop of `EraseMembersWhere`, from a cursor that has produced its first member. */
  method EraseRest(it: MemberCursor, m: Option<Member>, doomed: set<string>)
    requires it.Valid() && it.open
    requires m == if 0 < |it.group.members| then Some(it.group.members[0]) else None
    requires m.Some? ==> it.onMember && !it.done && it.last == Some(m.value.sessionId)
    modifies it, it.group`members
    ensures it.Valid() && it.open
    ensures it.group.cursors == old(it.group.cursors)
    ensures it.group.members == MembersWithout(old(it.group.members), doomed)
  {
    ghost var orig := it.group.members;
    ghost var k := 0;
    ghost var kept: seq<Member> := [];
    var cur := m;
    assert orig[k..] == orig;
    while cur.Some?
      invariant it.Valid() && it.open
      invariant it.group.cursors == old(it.group.cursors)
      invariant 0 <= k <= |orig|
      invariant it.group.members == kept + orig[k..]
      invariant kept == MembersWithout(orig[..k], doomed)
      invariant cur == if k < |orig| then Some(orig[k]) else None
      invariant cur.Some? ==> it.onMember && !it.done && it.last == Some(orig[k].sessionId)
      decreases |orig| - k
    {
      cur, kept := EraseOrKeep(it, doomed, orig, kept, k);
      k := k + 1;
    }
    assert orig[..k] == orig;
  }

  /**
   * A member added in the middle of a walk, even one that sorts before the
   * cursor, does not move it: the member erased is still the one produced.
   */
  method AddDuringWalk(g: LegacyGroup, sid: string, admin: bool) returns (produced: Option<Member>)
    requires g.Valid() && g.members != []
    requires ValidSessionId(sid) && sid !in g.Members()
    modifies g`members, g`cursors
    ensures produced == Some(old(g.members[0]))
    ensures g.Valid() && g.cursors == old(g.cursors)
    ensures g.Members() == old(g.Members())[sid := admin] - {old(g.members[0]).sessionId}
  {
    var it := g.Begin();
    FirstAfterUnique(g.members, None, 0);
    produced := it.Next();
    var added := g.Add(sid, admin);
    it.Erase();
    it.Close();
  }
}
