/**
 * The groups hook: which groups the logged-in user sees and who is shown as
 * their members, and the writes `createGroup`, `addMember`, `removeMember`
 * and `deleteGroup`.
 */
module Groups {
  import opened Wrappers
  import opened Seqs
  import opened Store
  import Expenses

  /** A member as the hook presents it; a manual friend has no e-mail. */
  datatype MemberView = MemberView(id: Id, fullName: string, email: Option<string>, isManualFriend: bool)

  datatype GroupView = GroupView(id: Id, name: string, isOwner: bool, members: seq<MemberView>)

  // ----- Which groups the user sees -----

  function NamesUser(me: Id): GroupMemberRow -> bool
  {
    (m: GroupMemberRow) => m.registeredUserId == Some(me)
  }

  function NamesManualFriendIn(ids: seq<Id>): GroupMemberRow -> bool
  {
    (m: GroupMemberRow) => m.manualFriendId.Some? && m.manualFriendId.value in ids
  }

  function MembershipGroupId(m: GroupMemberRow): Id
  {
    m.groupId
  }

  /**
   * A group id is visible to `me` when a membership of that group names `me`
   * as registered user, or names a manual friend `me` owns.
   */
  ghost predicate Visible(t: Tables, me: Id, x: Id)
  {
    || (exists m :: m in t.groupMembers && m.groupId == x && m.registeredUserId == Some(me))
    || (exists m, f :: m in t.groupMembers && f in t.manualFriends && m.groupId == x &&
                       f.ownerId == me && m.manualFriendId == Some(f.id))
  }

  /** Ids of the groups with a membership naming `me` as registered user. */
  function RegisteredGroupIds(rows: seq<GroupMemberRow>, me: Id): (ids: seq<Id>)
    ensures forall x :: x in ids <==> exists m :: m in rows && m.groupId == x && m.registeredUserId == Some(me)
  {
    Map(Filter(rows, NamesUser(me)), MembershipGroupId)
  }

  /** Ids of the groups with a membership naming one of `me`'s manual friends; not queried when there are none. */
  function ManualGroupIds(t: Tables, me: Id): (ids: seq<Id>)
    ensures forall x :: x in ids <==> exists m, f :: m in t.groupMembers && f in t.manualFriends && m.groupId == x &&
                                                       f.ownerId == me && m.manualFriendId == Some(f.id)
  {
    var friendIds := ManualFriendIdsOf(t.manualFriends, me);
    if |friendIds| > 0 then Map(Filter(t.groupMembers, NamesManualFriendIn(friendIds)), MembershipGroupId) else []
  }

  /** The two id lists of `fetchGroups`, concatenated and deduplicated. */
  function VisibleGroupIds(t: Tables, me: Id): (ids: seq<Id>)
    ensures NoDups(ids)
    ensures forall x :: x in ids <==> Visible(t, me, x)
  {
    Dedup(RegisteredGroupIds(t.groupMembers, me) + ManualGroupIds(t, me))
  }

  // ----- Who is shown as a member -----

  /**
   * A membership row as the hook presents it: the details of the user or
   * manual friend it names, or `None` when that row is not among `users` /
   * `manualFriends` (such members are dropped).
   */
  function ResolveMember(m: GroupMemberRow, users: seq<UserRow>, manualFriends: seq<ManualFriendRow>): (v: Option<MemberView>)
    ensures m.isManualFriend ==>
      (v.Some? <==> exists f :: f in manualFriends && m.manualFriendId == Some(f.id))
    ensures !m.isManualFriend ==>
      (v.Some? <==> exists u :: u in users && m.registeredUserId == Some(u.id))
    ensures v.Some? && m.isManualFriend ==>
      && v.value.isManualFriend && v.value.email.None? && m.manualFriendId == Some(v.value.id)
      && exists f :: f in manualFriends && f.id == v.value.id && f.name == v.value.fullName
    ensures v.Some? && !m.isManualFriend ==>
      && !v.value.isManualFriend && m.registeredUserId == Some(v.value.id)
      && v.value.email.Some? && UserRow(v.value.id, v.value.email.value, v.value.fullName) in users
  {
    if m.isManualFriend then
      match m.manualFriendId
      case None => None
      case Some(fid) =>
        match Find(manualFriends, ManualFriendWithId(fid))
        case Some(f) => Some(MemberView(f.id, f.name, None, true))
        case None => None
    else
      match m.registeredUserId
      case None => None
      case Some(uid) =>
        match Find(users, UserWithId(uid))
        case Some(u) => Some(MemberView(u.id, u.fullName, Some(u.email), false))
        case None => None
  }

  function ResolveWith(users: seq<UserRow>, manualFriends: seq<ManualFriendRow>): GroupMemberRow -> Option<MemberView>
  {
    (m: GroupMemberRow) => ResolveMember(m, users, manualFriends)
  }

  function InGroup(groupId: Id): GroupMemberRow -> bool
  {
    (m: GroupMemberRow) => m.groupId == groupId
  }

  /** The presented members of one group: its membership rows, in order, minus those naming no known person. */
  function GroupMembers(groupId: Id, rows: seq<GroupMemberRow>, users: seq<UserRow>, manualFriends: seq<ManualFriendRow>): (ms: seq<MemberView>)
    ensures forall v :: v in ms <==>
      exists m :: m in rows && m.groupId == groupId && ResolveMember(m, users, manualFriends) == Some(v)
  {
    FilterMap(Filter(rows, InGroup(groupId)), ResolveWith(users, manualFriends))
  }

  /** The concatenation of two runs of membership rows shows the members of the first run, then those of the second. */
  lemma GroupMembersConcat(groupId: Id, a: seq<GroupMemberRow>, b: seq<GroupMemberRow>, users: seq<UserRow>, manualFriends: seq<ManualFriendRow>)
    ensures GroupMembers(groupId, a + b, users, manualFriends) ==
            GroupMembers(groupId, a, users, manualFriends) + GroupMembers(groupId, b, users, manualFriends)
  {
    FilterConcat(a, b, InGroup(groupId));
    FilterMapConcat(Filter(a, InGroup(groupId)), Filter(b, InGroup(groupId)), ResolveWith(users, manualFriends));
  }

  /** One membership row shows its resolved member when it is of that group and names a known person, and nothing otherwise. */
  lemma GroupMembersOfOneRow(groupId: Id, m: GroupMemberRow, users: seq<UserRow>, manualFriends: seq<ManualFriendRow>)
    ensures GroupMembers(groupId, [m], users, manualFriends) ==
            if m.groupId == groupId && ResolveMember(m, users, manualFriends).Some?
            then [ResolveMember(m, users, manualFriends).value] else []
  {
    assert [m][1..] == [];
    if m.groupId == groupId {
      assert Filter([m], InGroup(groupId)) == [m];
    }
  }

  /** A group as `fetchGroups` presents it: owned iff `me` created it, with the members its membership rows resolve to. */
  function ViewGroup(g: GroupRow, rows: seq<GroupMemberRow>, users: seq<UserRow>, manualFriends: seq<ManualFriendRow>, me: Id): (v: GroupView)
    ensures v.id == g.id && v.name == g.name
    ensures v.isOwner <==> g.createdBy == me
    ensures forall x :: x in v.members <==>
      exists m :: m in rows && m.groupId == g.id && ResolveMember(m, users, manualFriends) == Some(x)
  {
    GroupView(g.id, g.name, g.createdBy == me, GroupMembers(g.id, rows, users, manualFriends))
  }

  function ViewWith(rows: seq<GroupMemberRow>, users: seq<UserRow>, manualFriends: seq<ManualFriendRow>, me: Id): GroupRow -> GroupView
  {
    (g: GroupRow) => ViewGroup(g, rows, users, manualFriends, me)
  }

  function RegisteredIdOf(m: GroupMemberRow): Option<Id>
  {
    if !m.isManualFriend then m.registeredUserId else None
  }

  function ManualIdOf(m: GroupMemberRow): Option<Id>
  {
    if m.isManualFriend then m.manualFriendId else None
  }

  function FriendIdIn(ids: seq<Id>): ManualFriendRow -> bool
  {
    (f: ManualFriendRow) => f.id in ids
  }

  /** The user rows `fetchGroups` loads: those named by a registered membership; no query when there are none. */
  function FetchedUsers(users: seq<UserRow>, rows: seq<GroupMemberRow>): (found: seq<UserRow>)
    ensures forall u :: u in found <==>
      u in users && exists m :: m in rows && !m.isManualFriend && m.registeredUserId == Some(u.id)
    ensures |found| <= |users|
  {
    var ids := FilterMap(rows, RegisteredIdOf);
    if |ids| > 0 then Filter(users, UserIdIn(ids)) else []
  }

  /** The manual friend rows `fetchGroups` loads: those named by a manual membership; no query when there are none. */
  function FetchedFriends(manualFriends: seq<ManualFriendRow>, rows: seq<GroupMemberRow>): (found: seq<ManualFriendRow>)
    ensures forall f :: f in found <==>
      f in manualFriends && exists m :: m in rows && m.isManualFriend && m.manualFriendId == Some(f.id)
    ensures |found| <= |manualFriends|
  {
    var ids := FilterMap(rows, ManualIdOf);
    if |ids| > 0 then Filter(manualFriends, FriendIdIn(ids)) else []
  }

  /** Loading only the people the memberships name loses nobody a membership row resolves to. */
  lemma ResolveAgainstFetched(m: GroupMemberRow, rows: seq<GroupMemberRow>, t: Tables)
    requires m in rows
    ensures ResolveMember(m, FetchedUsers(t.users, rows), FetchedFriends(t.manualFriends, rows)) ==
            ResolveMember(m, t.users, t.manualFriends)
  {
    if m.isManualFriend {
      var ids := FilterMap(rows, ManualIdOf);
      if m.manualFriendId.Some? {
        assert ManualIdOf(m) == m.manualFriendId;
        assert m.manualFriendId.value in ids;
        FindFiltered(t.manualFriends, FriendIdIn(ids), ManualFriendWithId(m.manualFriendId.value));
      }
    } else {
      var ids := FilterMap(rows, RegisteredIdOf);
      if m.registeredUserId.Some? {
        assert RegisteredIdOf(m) == m.registeredUserId;
        assert m.registeredUserId.value in ids;
        FindFiltered(t.users, UserIdIn(ids), UserWithId(m.registeredUserId.value));
      }
    }
  }

  function GroupIn(ids: seq<Id>): GroupMemberRow -> bool
  {
    (m: GroupMemberRow) => m.groupId in ids
  }

  function IdIn(ids: seq<Id>): GroupRow -> bool
  {
    (g: GroupRow) => g.id in ids
  }

  /**
   * `fetchGroups`: with no user logged in it fails; when no group is visible
   * the list is empty; otherwise every visible group row, in table order,
   * presented with the members resolved from the rows it loaded.
   */
  function FetchGroups(t: Tables, me: Option<Id>): (r: Result<seq<GroupView>, Error>)
    ensures me.None? <==> r.Failure?
    ensures r.Failure? ==> r.error == NoUser
    ensures me.Some? && VisibleGroupIds(t, me.value) == [] ==> r == Success([])
  {
    if me.None? then Failure(NoUser)
    else
      var ids := VisibleGroupIds(t, me.value);
      if ids == [] then Success([])
      else
        var rows := Filter(t.groupMembers, GroupIn(ids));
        var users := FetchedUsers(t.users, rows);
        var friends := FetchedFriends(t.manualFriends, rows);
        Success(Map(Filter(t.groups, IdIn(ids)), ViewWith(rows, users, friends, me.value)))
  }

  /** The members shown for a visible group are those of all of its membership rows. */
  lemma FetchedMembersComplete(t: Tables, ids: seq<Id>, g: GroupRow, me: Id)
    requires g.id in ids
    ensures var rows := Filter(t.groupMembers, GroupIn(ids));
      ViewGroup(g, rows, FetchedUsers(t.users, rows), FetchedFriends(t.manualFriends, rows), me) ==
      ViewGroup(g, t.groupMembers, t.users, t.manualFriends, me)
  {
    var rows := Filter(t.groupMembers, GroupIn(ids));
    var users := FetchedUsers(t.users, rows);
    var friends := FetchedFriends(t.manualFriends, rows);
    FilterFilter(t.groupMembers, GroupIn(ids), InGroup(g.id));
    var own := Filter(rows, InGroup(g.id));
    forall m | m in own
      ensures ResolveWith(users, friends)(m) == ResolveWith(t.users, t.manualFriends)(m)
    {
      ResolveAgainstFetched(m, rows, t);
    }
    FilterMapAgrees(own, ResolveWith(users, friends), ResolveWith(t.users, t.manualFriends));
  }

  /**
   * What `fetchGroups` lists is exactly the visible group rows, each with
   * `isOwner` true iff `me` created it and with the members of all its
   * membership rows.
   */
  lemma FetchGroupsListsVisible(t: Tables, me: Id)
    ensures FetchGroups(t, Some(me)).Success?
    ensures forall v :: v in FetchGroups(t, Some(me)).value <==>
      exists g :: g in t.groups && Visible(t, me, g.id) && v == ViewGroup(g, t.groupMembers, t.users, t.manualFriends, me)
  {
    var ids := VisibleGroupIds(t, me);
    if ids != [] {
      var rows := Filter(t.groupMembers, GroupIn(ids));
      var users := FetchedUsers(t.users, rows);
      var friends := FetchedFriends(t.manualFriends, rows);
      forall g | g in t.groups && g.id in ids
        ensures ViewWith(rows, users, friends, me)(g) == ViewGroup(g, t.groupMembers, t.users, t.manualFriends, me)
      {
        FetchedMembersComplete(t, ids, g, me);
      }
    }
  }

  /** Every listed group comes from a visible group row with the same id, and is marked owned iff `me` created it. */
  lemma ListedGroupsExist(t: Tables, me: Id, v: GroupView)
    requires FetchGroups(t, Some(me)).Success? && v in FetchGroups(t, Some(me)).value
    ensures exists g :: g in t.groups && g.id == v.id && g.name == v.name && Visible(t, me, g.id) &&
                        (v.isOwner <==> g.createdBy == me)
  {
    FetchGroupsListsVisible(t, me);
  }

  // ----- createGroup -----

  /**
   * A member the caller passes to `createGroup`: a registered user by id, or
   * a manual friend by name. The hook writes the manual friend's id back into
   * this object.
   */
  datatype MemberInput = MemberInput(isRegistered: bool, id: Option<Id>, fullName: string)

  /**
   * Backend failures during `createGroup`: the group insert, the creator's
   * membership insert, and, by member position, the manual friend insert and
   * the membership insert (those two are skipped over, not reported).
   */
  datatype GroupFaults = GroupFaults(
    groupRejected: bool,
    creatorRejected: bool,
    friendRejectedAt: set<nat>,
    memberRejectedAt: set<nat>)

  /** What processing the members has changed so far. */
  datatype Attached = Attached(
    manualFriends: seq<ManualFriendRow>,
    groupMembers: seq<GroupMemberRow>,
    nextId: Id,
    members: seq<MemberInput>)

  /** What processing one member writes: at most one new manual friend, at most one membership row, and the member as updated. */
  datatype Step = Step(newFriend: seq<ManualFriendRow>, row: seq<GroupMemberRow>, member: MemberInput)

  function NamedBy(name: string, owner: Id): ManualFriendRow -> bool
  {
    (f: ManualFriendRow) => f.name == name && f.ownerId == owner
  }

  function MembershipIf(rejected: bool, row: GroupMemberRow): seq<GroupMemberRow>
  {
    if rejected then [] else [row]
  }

  /**
   * Processing the member at position `k`: a registered member gets a
   * membership row; a manual member is matched to the one manual friend of
   * `me` with that name, or else a new manual friend is created (when that
   * fails the member is skipped), its id is written back into the member, and
   * it gets a membership row.
   */
  function AttachStep(manualFriends: seq<ManualFriendRow>, nextId: Id, me: Id, gid: Id, member: MemberInput, k: nat,
                      faults: GroupFaults): (s: Step)
    ensures s.member == member.(id := s.member.id)
    ensures s.newFriend == [] || s.newFriend == [ManualFriendRow(nextId, me, member.fullName)]
    ensures forall row :: row in s.row ==> row.groupId == gid
  {
    if member.isRegistered then
      Step([], MembershipIf(k in faults.memberRejectedAt, GroupMemberRow(gid, member.id, None, false)), member)
    else
      var existing := Filter(manualFriends, NamedBy(member.fullName, me));
      if |existing| == 1 then
        var m := member.(id := Some(existing[0].id));
        Step([], MembershipIf(k in faults.memberRejectedAt, GroupMemberRow(gid, None, m.id, true)), m)
      else if k in faults.friendRejectedAt then
        Step([], [], member)
      else
        var friend := ManualFriendRow(nextId, me, member.fullName);
        var m := member.(id := Some(friend.id));
        Step([friend], MembershipIf(k in faults.memberRejectedAt, GroupMemberRow(gid, None, m.id, true)), m)
  }

  /**
   * What processing one member does: a registered member is left as it is
   * and gets its membership row; a manual member is matched to the one manual
   * friend of `me` with its name when there is exactly one, and otherwise,
   * unless creating the friend fails, gets a new one; either way it then
   * carries that friend's id and gets its membership row.
   */
  lemma AttachStepEffect(manualFriends: seq<ManualFriendRow>, nextId: Id, me: Id, gid: Id, member: MemberInput, k: nat,
                         faults: GroupFaults, s: Step)
    requires s == AttachStep(manualFriends, nextId, me, gid, member, k, faults)
    ensures member.isRegistered ==>
      s.newFriend == [] && s.member == member &&
      s.row == MembershipIf(k in faults.memberRejectedAt, GroupMemberRow(gid, member.id, None, false))
    ensures !member.isRegistered && |Filter(manualFriends, NamedBy(member.fullName, me))| == 1 ==>
      s.newFriend == [] && s.member.id == Some(Filter(manualFriends, NamedBy(member.fullName, me))[0].id)
    ensures !member.isRegistered && s.newFriend == [] && s.member.id != member.id ==>
      |Filter(manualFriends, NamedBy(member.fullName, me))| == 1
    ensures !member.isRegistered && (k !in faults.friendRejectedAt || |Filter(manualFriends, NamedBy(member.fullName, me))| == 1) ==>
      && s.member.id.Some?
      && ManualFriendRow(s.member.id.value, me, member.fullName) in manualFriends + s.newFriend
      && s.row == MembershipIf(k in faults.memberRejectedAt, GroupMemberRow(gid, None, s.member.id, true))
    ensures !member.isRegistered && |Filter(manualFriends, NamedBy(member.fullName, me))| != 1 && k in faults.friendRejectedAt ==>
      s == Step([], [], member)
    ensures !member.isRegistered && |Filter(manualFriends, NamedBy(member.fullName, me))| != 1 && k !in faults.friendRejectedAt ==>
      s.newFriend == [ManualFriendRow(nextId, me, member.fullName)] && s.member.id == Some(nextId)
  {
    var existing := Filter(manualFriends, NamedBy(member.fullName, me));
    if !member.isRegistered && |existing| == 1 {
      assert existing[0] in existing;
    }
  }

  function Apply(a: Attached, s: Step): Attached
  {
    Attached(a.manualFriends + s.newFriend, a.groupMembers + s.row, a.nextId + |s.newFriend|, a.members + [s.member])
  }

  /** The effect of processing `inputs` in order, starting from the manual friends table and the id counter. */
  function AttachAll(manualFriends: seq<ManualFriendRow>, groupMembers: seq<GroupMemberRow>, nextId: Id, me: Id, gid: Id,
                     inputs: seq<MemberInput>, faults: GroupFaults): (r: Attached)
    ensures |r.members| == |inputs|
  {
    if inputs == [] then Attached(manualFriends, groupMembers, nextId, [])
    else
      var k := |inputs| - 1;
      var a := AttachAll(manualFriends, groupMembers, nextId, me, gid, inputs[..k], faults);
      Apply(a, AttachStep(a.manualFriends, a.nextId, me, gid, inputs[k], k, faults))
  }

  /**
   * Processing the members only appends to the manual friends table, every
   * friend it adds is owned by `me` and has an id issued from the counter,
   * and every membership row it adds is for the new group.
   */
  lemma {:induction false} AttachAllBounds(manualFriends: seq<ManualFriendRow>, groupMembers: seq<GroupMemberRow>, nextId: Id, me: Id, gid: Id,
                                           inputs: seq<MemberInput>, faults: GroupFaults, r: Attached)
    requires r == AttachAll(manualFriends, groupMembers, nextId, me, gid, inputs, faults)
    ensures nextId <= r.nextId && manualFriends <= r.manualFriends && groupMembers <= r.groupMembers
    ensures forall row :: row in r.groupMembers ==> row in groupMembers || row.groupId == gid
    ensures forall f :: f in r.manualFriends ==> f in manualFriends || (f.ownerId == me && nextId <= f.id < r.nextId)
    decreases |inputs|
  {
    if inputs != [] {
      var k := |inputs| - 1;
      var a := AttachAll(manualFriends, groupMembers, nextId, me, gid, inputs[..k], faults);
      AttachAllBounds(manualFriends, groupMembers, nextId, me, gid, inputs[..k], faults, a);
    }
  }

  /** Member `k`, passed as `input`, is in the group in state `r` as `MembersJoin` describes. */
  ghost predicate Joined(r: Attached, me: Id, gid: Id, input: MemberInput, k: nat)
  {
    && k < |r.members|
    && r.members[k] == input.(id := r.members[k].id)
    && (input.isRegistered ==> r.members[k] == input && GroupMemberRow(gid, input.id, None, false) in r.groupMembers)
    && (!input.isRegistered ==>
          && r.members[k].id.Some?
          && ManualFriendRow(r.members[k].id.value, me, input.fullName) in r.manualFriends
          && GroupMemberRow(gid, None, r.members[k].id, true) in r.groupMembers)
  }

  lemma JoinedPersists(a: Attached, s: Step, me: Id, gid: Id, input: MemberInput, k: nat)
    requires Joined(a, me, gid, input, k)
    ensures Joined(Apply(a, s), me, gid, input, k)
  {
    assert Apply(a, s).members[k] == a.members[k];
  }

  lemma JoinedAtStep(a: Attached, me: Id, gid: Id, input: MemberInput, k: nat, faults: GroupFaults)
    requires |a.members| == k && k !in faults.memberRejectedAt
    requires !input.isRegistered ==> k !in faults.friendRejectedAt
    ensures Joined(Apply(a, AttachStep(a.manualFriends, a.nextId, me, gid, input, k, faults)), me, gid, input, k)
  {
    var s := AttachStep(a.manualFriends, a.nextId, me, gid, input, k, faults);
    AttachStepEffect(a.manualFriends, a.nextId, me, gid, input, k, faults, s);
    assert Apply(a, s).members[k] == s.member;
  }

  /** Processing one more member is one more step. */
  lemma AttachAllSnoc(manualFriends: seq<ManualFriendRow>, groupMembers: seq<GroupMemberRow>, nextId: Id, me: Id, gid: Id, inputs: seq<MemberInput>,
                      faults: GroupFaults, k: nat)
    requires k < |inputs|
    ensures var a := AttachAll(manualFriends, groupMembers, nextId, me, gid, inputs[..k], faults);
      AttachAll(manualFriends, groupMembers, nextId, me, gid, inputs[..k + 1], faults) ==
      Apply(a, AttachStep(a.manualFriends, a.nextId, me, gid, inputs[k], k, faults))
  {
    assert inputs[..k + 1][..k] == inputs[..k];
  }

  /**
   * Every member passed to `createGroup` that the backend does not reject
   * ends up in the group: a registered member under its own id, a manual
   * member under the id of a manual friend of `me` with its name, which is
   * also written back into the caller's member object.
   */
  lemma {:induction false} MembersJoin(manualFriends: seq<ManualFriendRow>, groupMembers: seq<GroupMemberRow>, nextId: Id, me: Id, gid: Id,
                                       inputs: seq<MemberInput>, faults: GroupFaults, k: nat)
    requires k < |inputs| && k !in faults.memberRejectedAt
    requires !inputs[k].isRegistered ==> k !in faults.friendRejectedAt
    ensures Joined(AttachAll(manualFriends, groupMembers, nextId, me, gid, inputs, faults), me, gid, inputs[k], k)
    decreases |inputs|
  {
    var last := |inputs| - 1;
    var front := inputs[..last];
    var a := AttachAll(manualFriends, groupMembers, nextId, me, gid, front, faults);
    var s := AttachStep(a.manualFriends, a.nextId, me, gid, inputs[last], last, faults);
    AttachAllSnoc(manualFriends, groupMembers, nextId, me, gid, inputs, faults, last);
    assert inputs[..last + 1] == inputs;
    if k < last {
      MembersJoin(manualFriends, groupMembers, nextId, me, gid, front, faults, k);
      assert front[k] == inputs[k];
      JoinedPersists(a, s, me, gid, inputs[k], k);
    } else {
      JoinedAtStep(a, me, gid, inputs[k], k, faults);
    }
  }

  /** Inserts the group row with the next id, created by `me`. */
  method InsertGroup(db: Backend, name: string, me: Id) returns (gid: Id)
    requires db.Valid()
    modifies db
    ensures db.Valid() && db.nextId == old(db.nextId) + 1 && gid == old(db.nextId)
    ensures db.Snapshot() == old(db.Snapshot()).(groups := old(db.groups) + [GroupRow(gid, name, me)])
  {
    gid := db.nextId;
    db.groups := db.groups + [GroupRow(gid, name, me)];
    db.nextId := db.nextId + 1;
  }

  /** Inserts one membership row. */
  method InsertMembership(db: Backend, row: GroupMemberRow)
    requires db.Valid()
    modifies db
    ensures db.Valid() && db.nextId == old(db.nextId)
    ensures db.Snapshot() == old(db.Snapshot()).(groupMembers := old(db.groupMembers) + [row])
  {
    db.groupMembers := db.groupMembers + [row];
  }

  /** Inserts a manual friend of `owner` with the next id. */
  method InsertManualFriend(db: Backend, owner: Id, name: string) returns (friend: ManualFriendRow)
    requires db.Valid()
    modifies db
    ensures db.Valid() && db.nextId == old(db.nextId) + 1
    ensures friend == ManualFriendRow(old(db.nextId), owner, name)
    ensures db.Snapshot() == old(db.Snapshot()).(manualFriends := old(db.manualFriends) + [friend])
  {
    friend := ManualFriendRow(db.nextId, owner, name);
    db.manualFriends := db.manualFriends + [friend];
    db.nextId := db.nextId + 1;
  }

  /** Processes the member at position `k`, writing a manual friend's id back into it. */
  method AttachOne(db: Backend, me: Id, gid: Id, members: array<MemberInput>, k: nat, faults: GroupFaults)
    requires db.Valid() && k < members.Length
    modifies db, members
    ensures db.Valid()
    ensures var s := AttachStep(old(db.manualFriends), old(db.nextId), me, gid, old(members[k]), k, faults);
      && db.Snapshot() == old(db.Snapshot()).(manualFriends := old(db.manualFriends) + s.newFriend,
                                              groupMembers := old(db.groupMembers) + s.row)
      && db.nextId == old(db.nextId) + |s.newFriend|
      && members[k] == s.member
      && (forall j :: 0 <= j < members.Length && j != k ==> members[j] == old(members[j]))
  {
    var member := members[k];
    if member.isRegistered {
      if k !in faults.memberRejectedAt {
        InsertMembership(db, GroupMemberRow(gid, member.id, None, false));
      }
    } else {
      var existing := Filter(db.manualFriends, NamedBy(member.fullName, me));
      var attached := true;
      if |existing| == 1 {
        members[k] := member.(id := Some(existing[0].id));
      } else if k in faults.friendRejectedAt {
        attached := false;
      } else {
        var friend := InsertManualFriend(db, me, member.fullName);
        members[k] := member.(id := Some(friend.id));
      }
      if attached && k !in faults.memberRejectedAt {
        InsertMembership(db, GroupMemberRow(gid, None, members[k].id, true));
      }
    }
  }

  /** The member loop of `createGroup`, writing each manual friend's id back into `members`. */
  method AttachMembers(db: Backend, me: Id, gid: Id, members: array<MemberInput>, faults: GroupFaults)
    requires db.Valid()
    modifies db, members
    ensures db.Valid()
    ensures var a := AttachAll(old(db.manualFriends), old(db.groupMembers), old(db.nextId), me, gid, old(members[..]), faults);
      && db.Snapshot() == old(db.Snapshot()).(manualFriends := a.manualFriends, groupMembers := a.groupMembers)
      && db.nextId == a.nextId
      && members[..] == a.members
  {
    ghost var inputs := members[..];
    ghost var before := db.Snapshot();
    ghost var firstId := db.nextId;
    ghost var acc := Attached(before.manualFriends, before.groupMembers, firstId, []);
    for k := 0 to members.Length
      invariant db.Valid()
      invariant forall j :: k <= j < members.Length ==> members[j] == inputs[j]
      invariant acc == AttachAll(before.manualFriends, before.groupMembers, firstId, me, gid, inputs[..k], faults)
      invariant db.Snapshot() == before.(manualFriends := acc.manualFriends, groupMembers := acc.groupMembers)
      invariant db.nextId == acc.nextId
      invariant forall j :: 0 <= j < k ==> members[j] == acc.members[j]
    {
      ghost var step := AttachStep(acc.manualFriends, acc.nextId, me, gid, inputs[k], k, faults);
      AttachAllSnoc(before.manualFriends, before.groupMembers, firstId, me, gid, inputs, faults, k);
      AttachOne(db, me, gid, members, k, faults);
      acc := Apply(acc, step);
    }
    assert inputs[..members.Length] == inputs;
    assert members[..] == acc.members;
  }

  /**
   * `createGroup`: with no user logged in it fails before writing anything.
   * Otherwise it inserts the group row (created by `me`), then the creator's
   * own membership, then processes the members; a failure of either of the
   * first two inserts ends it, keeping what was already written.
   */
  method CreateGroup(db: Backend, me: Option<Id>, name: string, members: array<MemberInput>, faults: GroupFaults)
    returns (r: Result<Id, Error>)
    requires db.Valid()
    modifies db, members
    ensures db.Valid()
    ensures me.None? ==> r == Failure(NoUser)
    ensures r.Success? <==> me.Some? && !faults.groupRejected && !faults.creatorRejected
    ensures me.None? || faults.groupRejected ==>
      db.Snapshot() == old(db.Snapshot()) && db.nextId == old(db.nextId) && members[..] == old(members[..])
    ensures me.Some? && !faults.groupRejected && faults.creatorRejected ==>
      && db.Snapshot() == old(db.Snapshot()).(groups := old(db.groups) + [GroupRow(old(db.nextId), name, me.value)])
      && members[..] == old(members[..])
    ensures r.Success? ==>
      var creator := GroupMemberRow(r.value, Some(me.value), None, false);
      var a := AttachAll(old(db.manualFriends), old(db.groupMembers) + [creator], old(db.nextId) + 1, me.value, r.value,
                         old(members[..]), faults);
      && r.value == old(db.nextId)
      && db.groups == old(db.groups) + [GroupRow(r.value, name, me.value)]
      && db.groupMembers == a.groupMembers
      && old(db.groupMembers) + [creator] <= db.groupMembers
      && db.manualFriends == a.manualFriends
      && db.users == old(db.users) && db.friendships == old(db.friendships)
      && db.expenses == old(db.expenses) && db.shares == old(db.shares)
      && db.nextId == a.nextId
      && members[..] == a.members
  {
    if me.None? {
      return Failure(NoUser);
    }
    if faults.groupRejected {
      return Failure(Rejected);
    }
    var gid := InsertGroup(db, name, me.value);
    if faults.creatorRejected {
      return Failure(Rejected);
    }
    InsertMembership(db, GroupMemberRow(gid, Some(me.value), None, false));
    ghost var start := db.Snapshot();
    ghost var firstId := db.nextId;
    ghost var inputs := members[..];
    AttachMembers(db, me.value, gid, members, faults);
    AttachAllBounds(start.manualFriends, start.groupMembers, firstId, me.value, gid, inputs, faults,
                    AttachAll(start.manualFriends, start.groupMembers, firstId, me.value, gid, inputs, faults));
    return Success(gid);
  }

  // ----- addMember -----

  /**
   * `addMember`: the user with that e-mail must be the only one, else the
   * call fails with `UserNotFound`; then a registered membership is inserted.
   * Nothing checks who is asking, or whether the user already is a member.
   */
  method AddMember(db: Backend, groupId: Id, email: string, rejected: bool) returns (r: Result<Id, Error>)
    requires db.Valid()
    modifies db
    ensures db.Valid() && db.nextId == old(db.nextId)
    ensures |Filter(old(db.users), HasEmail(email))| != 1 ==> r == Failure(UserNotFound)
    ensures r.Success? <==> |Filter(old(db.users), HasEmail(email))| == 1 && !rejected
    ensures r.Success? ==>
      && r.value in old(Map(Filter(db.users, HasEmail(email)), UserId))
      && db.Snapshot() == old(db.Snapshot()).(groupMembers := old(db.groupMembers) + [GroupMemberRow(groupId, Some(r.value), None, false)])
    ensures r.Failure? ==> db.Snapshot() == old(db.Snapshot())
  {
    var found := Filter(db.users, HasEmail(email));
    if |found| != 1 {
      return Failure(UserNotFound);
    }
    if rejected {
      return Failure(Rejected);
    }
    assert Map(found, UserId)[0] == found[0].id;
    InsertMembership(db, GroupMemberRow(groupId, Some(found[0].id), None, false));
    return Success(found[0].id);
  }

  /** A user added to a group sees that group afterwards. */
  lemma AddedMemberSeesGroup(t: Tables, groupId: Id, userId: Id)
    ensures Visible(t.(groupMembers := t.groupMembers + [GroupMemberRow(groupId, Some(userId), None, false)]), userId, groupId)
  {
    var row := GroupMemberRow(groupId, Some(userId), None, false);
    assert row in t.groupMembers + [row];
  }

  // ----- removeMember -----

  function NotMembershipOf(groupId: Id, userId: Id): GroupMemberRow -> bool
  {
    (m: GroupMemberRow) => !(m.groupId == groupId && m.registeredUserId == Some(userId))
  }

  /** The membership table after `removeMember(groupId, userId)`. */
  function WithoutMember(rows: seq<GroupMemberRow>, groupId: Id, userId: Id): (r: seq<GroupMemberRow>)
    ensures forall m :: m in r <==> m in rows && !(m.groupId == groupId && m.registeredUserId == Some(userId))
  {
    Filter(rows, NotMembershipOf(groupId, userId))
  }

  method RemoveMember(db: Backend, groupId: Id, userId: Id, rejected: bool) returns (r: Result<(), Error>)
    requires db.Valid()
    modifies db
    ensures db.Valid() && db.nextId == old(db.nextId)
    ensures r.Success? <==> !rejected
    ensures db.Snapshot() == old(db.Snapshot()).(
      groupMembers := if rejected then old(db.groupMembers) else WithoutMember(old(db.groupMembers), groupId, userId))
  {
    if rejected {
      return Failure(Rejected);
    }
    db.groupMembers := WithoutMember(db.groupMembers, groupId, userId);
    return Success(());
  }

  /** Removing a member right after adding them leaves the table as `removeMember` alone would. */
  lemma RemoveUndoesAdd(rows: seq<GroupMemberRow>, groupId: Id, userId: Id)
    ensures WithoutMember(rows + [GroupMemberRow(groupId, Some(userId), None, false)], groupId, userId) ==
            WithoutMember(rows, groupId, userId)
  {
    FilterConcat(rows, [GroupMemberRow(groupId, Some(userId), None, false)], NotMembershipOf(groupId, userId));
  }

  /** After `removeMember` the user sees the group only through a manual friend it owns. */
  lemma RemovedMemberSeesGroupOnlyThroughFriends(t: Tables, groupId: Id, userId: Id)
    requires Visible(t.(groupMembers := WithoutMember(t.groupMembers, groupId, userId)), userId, groupId)
    ensures exists m, f :: m in t.groupMembers && f in t.manualFriends && m.groupId == groupId &&
                           f.ownerId == userId && m.manualFriendId == Some(f.id)
  {
  }

  // ----- deleteGroup -----

  function NotInGroup(groupId: Id): ExpenseRow -> bool
  {
    (e: ExpenseRow) => e.groupId != Some(groupId)
  }

  function GroupIdIsNot(groupId: Id): GroupRow -> bool
  {
    (g: GroupRow) => g.id != groupId
  }

  /**
   * `deleteGroup`: deletes the group's expenses, then the group row. When
   * the first delete fails nothing changes; when the second fails the
   * expenses stay deleted. Membership rows are not deleted and nothing
   * checks that the caller owns the group.
   */
  method DeleteGroup(db: Backend, groupId: Id, expensesRejected: bool, groupRejected: bool) returns (r: Result<(), Error>)
    requires db.Valid()
    modifies db
    ensures db.Valid() && db.nextId == old(db.nextId)
    ensures r.Success? <==> !expensesRejected && !groupRejected
    ensures expensesRejected ==> db.Snapshot() == old(db.Snapshot())
    ensures !expensesRejected ==> db.Snapshot() == old(db.Snapshot()).(
      expenses := Filter(old(db.expenses), NotInGroup(groupId)),
      groups := if groupRejected then old(db.groups) else Filter(old(db.groups), GroupIdIsNot(groupId)))
  {
    if expensesRejected {
      return Failure(Rejected);
    }
    db.expenses := Filter(db.expenses, NotInGroup(groupId));
    if groupRejected {
      return Failure(Rejected);
    }
    db.groups := Filter(db.groups, GroupIdIsNot(groupId));
    return Success(());
  }

  /** After a successful `deleteGroup` no user's group list contains it, though its memberships remain. */
  lemma DeletedGroupNotListed(t: Tables, groupId: Id, me: Id)
    ensures var after := t.(expenses := Filter(t.expenses, NotInGroup(groupId)), groups := Filter(t.groups, GroupIdIsNot(groupId)));
      forall v :: v in FetchGroups(after, Some(me)).value ==> v.id != groupId
  {
    var after := t.(expenses := Filter(t.expenses, NotInGroup(groupId)), groups := Filter(t.groups, GroupIdIsNot(groupId)));
    FetchGroupsListsVisible(after, me);
  }

  /** After `deleteGroup` has deleted the expenses, every expense any user sees comes from a row outside that group. */
  lemma DeletedGroupExpensesNotListed(t: Tables, groupId: Id, me: Id)
    ensures var after := t.(expenses := Filter(t.expenses, NotInGroup(groupId)));
      forall v :: v in Expenses.FetchExpenses(after, Some(me)).value ==>
        exists e :: e in after.expenses && e.id == v.id && e.groupId != Some(groupId)
  {
    var after := t.(expenses := Filter(t.expenses, NotInGroup(groupId)));
    Expenses.FetchExpensesListsVisible(after, me);
  }
}
