/** Membership bookkeeping of app/api/groups.py: which rows belong to a group,
    how many there are, and the uniqueness of (group, user) pairs. */
module Groups {
  import opened Models

  /** Keys of the membership rows of group `g`. */
  function MembershipsOf(ms: map<int, GroupMembership>, g: int): set<int> {
    set id | id in ms && ms[id].groupId == g
  }

  /** The number of members of group `g` as the membership table records it. */
  function MemberCount(ms: map<int, GroupMembership>, g: int): nat {
    |MembershipsOf(ms, g)|
  }

  /** The membership lookup of add_group_member: a row for the pair exists. */
  predicate IsMember(ms: map<int, GroupMembership>, g: int, u: int) {
    exists id | id in ms :: ms[id].groupId == g && ms[id].userId == u
  }

  /** No (group, user) pair has two membership rows. */
  predicate UniqueMemberships(ms: map<int, GroupMembership>) {
    forall a, b | a in ms && b in ms ::
      ms[a].groupId == ms[b].groupId && ms[a].userId == ms[b].userId ==> a == b
  }

  /** Every membership row belongs to a stored group. */
  predicate MembershipsInGroups(ms: map<int, GroupMembership>, groups: map<int, Group>) {
    forall id | id in ms :: ms[id].groupId in groups
  }

  /** Inserting one row under a fresh key adds one to its group's count and
      leaves every other group's count alone. */
  lemma {:induction false} MemberCountInsert(ms: map<int, GroupMembership>, m: GroupMembership, id: int, g: int)
    requires id !in ms
    ensures MemberCount(ms[id := m], g) == MemberCount(ms, g) + (if m.groupId == g then 1 else 0)
  {
    if m.groupId == g {
      assert MembershipsOf(ms[id := m], g) == MembershipsOf(ms, g) + {id};
    } else {
      assert MembershipsOf(ms[id := m], g) == MembershipsOf(ms, g);
    }
  }

  /** A group no row refers to has no members. */
  lemma {:induction false} MemberCountOfUnreferenced(ms: map<int, GroupMembership>, g: int)
    requires forall id | id in ms :: ms[id].groupId != g
    ensures MemberCount(ms, g) == 0
  {
    assert forall id :: id !in MembershipsOf(ms, g);
    assert MembershipsOf(ms, g) == {};
  }

  /** Adding a row for a pair that has none keeps the pairs unique. */
  lemma {:induction false} MembershipInsertKeepsUnique(ms: map<int, GroupMembership>, id: int, m: GroupMembership)
    requires UniqueMemberships(ms) && id !in ms
    requires !IsMember(ms, m.groupId, m.userId)
    ensures UniqueMemberships(ms[id := m])
  {
  }

  /** Every stored group's `total_members` is its membership count, and at least one. */
  predicate CountsTracked(groups: map<int, Group>, ms: map<int, GroupMembership>) {
    forall g | g in groups :: groups[g].totalMembers == MemberCount(ms, g) && groups[g].totalMembers >= 1
  }

  /** The membership invariants taken together. */
  predicate MembershipsConsistent(groups: map<int, Group>, ms: map<int, GroupMembership>) {
    MembershipsInGroups(ms, groups) && UniqueMemberships(ms) && CountsTracked(groups, ms)
  }

  /** create_group: a new group of one member plus the creator's row keeps
      the membership invariants. */
  lemma {:induction false} CreateGroupKeepsMemberships(
    groups: map<int, Group>, ms: map<int, GroupMembership>, grp: Group, m: GroupMembership)
    requires MembershipsConsistent(groups, ms)
    requires grp.groupId !in groups && grp.totalMembers == 1
    requires m.membershipId !in ms && m.groupId == grp.groupId
    ensures MembershipsConsistent(groups[grp.groupId := grp], ms[m.membershipId := m])
    ensures MemberCount(ms[m.membershipId := m], grp.groupId) == 1
  {
    var groups', ms' := groups[grp.groupId := grp], ms[m.membershipId := m];
    MemberCountOfUnreferenced(ms, grp.groupId);
    MemberCountInsert(ms, m, m.membershipId, grp.groupId);
    forall g | g in groups'
      ensures groups'[g].totalMembers == MemberCount(ms', g) && groups'[g].totalMembers >= 1
    {
      MemberCountInsert(ms, m, m.membershipId, g);
    }
    MembershipInsertKeepsUnique(ms, m.membershipId, m);
  }

  /** add_group_member: one more counted member plus the new row keeps the
      membership invariants. */
  lemma {:induction false} AddMemberKeepsMemberships(
    groups: map<int, Group>, ms: map<int, GroupMembership>, m: GroupMembership)
    requires MembershipsConsistent(groups, ms)
    requires m.groupId in groups && m.membershipId !in ms
    requires !IsMember(ms, m.groupId, m.userId)
    ensures MembershipsConsistent(
      groups[m.groupId := groups[m.groupId].(totalMembers := groups[m.groupId].totalMembers + 1)],
      ms[m.membershipId := m])
  {
    var groups' := groups[m.groupId := groups[m.groupId].(totalMembers := groups[m.groupId].totalMembers + 1)];
    var ms' := ms[m.membershipId := m];
    forall g | g in groups'
      ensures groups'[g].totalMembers == MemberCount(ms', g) && groups'[g].totalMembers >= 1
    {
      MemberCountInsert(ms, m, m.membershipId, g);
    }
    MembershipInsertKeepsUnique(ms, m.membershipId, m);
  }
}
