/**
 * Team membership as backend/src/controllers/teamController.js changes it:
 * a team document with an admin id and a list of `{user, role}` members.
 */
module Teams {
  import opened Wrappers
  import opened Events

  /** The role enumeration of the team schema (backend/src/models/Team.js:23). */
  datatype Role = Admin | Moderator | Member

  datatype TeamMember = TeamMember(user: UserId, role: Role)

  datatype TeamError = NameTaken | AlreadyMember | NotAdmin | NotMember

  datatype LeaveOutcome = TeamDeleted | LeftTeam

  predicate IsMember(members: seq<TeamMember>, u: UserId) {
    exists i :: 0 <= i < |members| && members[i].user == u
  }

  predicate NoDuplicateUsers(members: seq<TeamMember>) {
    forall i, j :: 0 <= i < j < |members| ==> members[i].user != members[j].user
  }

  /** `members.findIndex(member => member.user === u)`, with `None` for -1. */
  function IndexOfUser(members: seq<TeamMember>, u: UserId): (r: Option<nat>)
    ensures r.None? <==> !IsMember(members, u)
    ensures r.Some? ==> r.value < |members| && members[r.value].user == u
    ensures r.Some? ==> forall k :: 0 <= k < r.value ==> members[k].user != u
  {
    if members == [] then None
    else if members[0].user == u then Some(0)
    else match IndexOfUser(members[1..], u)
      case None =>
        assert forall k :: 1 <= k < |members| ==> members[k] == members[1..][k - 1];
        None
      case Some(k) => Some(k + 1)
  }

  /** `members.filter(member => member.user !== u)`. */
  function WithoutUser(members: seq<TeamMember>, u: UserId): (r: seq<TeamMember>)
    ensures !IsMember(r, u)
  {
    if members == [] then []
    else if members[0].user == u then WithoutUser(members[1..], u)
    else [members[0]] + WithoutUser(members[1..], u)
  }

  /** The filter keeps exactly the entries of the other users. */
  lemma {:induction false} WithoutUserKeeps(members: seq<TeamMember>, u: UserId, m: TeamMember)
    ensures m in WithoutUser(members, u) <==> m in members && m.user != u
  {
    if members != [] {
      WithoutUserKeeps(members[1..], u, m);
      assert members == [members[0]] + members[1..];
    }
  }

  lemma {:induction false} WithoutAbsentUser(members: seq<TeamMember>, u: UserId)
    requires !IsMember(members, u)
    ensures WithoutUser(members, u) == members
  {
    if members != [] {
      assert !IsMember(members[1..], u) by {
        forall k | 0 <= k < |members[1..]| ensures members[1..][k].user != u {
          assert members[1..][k] == members[k + 1];
        }
      }
      WithoutAbsentUser(members[1..], u);
    }
  }

  lemma NoDuplicatesInTail(members: seq<TeamMember>)
    requires NoDuplicateUsers(members) && members != []
    ensures NoDuplicateUsers(members[1..])
  {
    var tail := members[1..];
    forall i, j | 0 <= i < j < |tail| ensures tail[i].user != tail[j].user {
      assert tail[i] == members[i + 1] && tail[j] == members[j + 1];
    }
  }

  /** In a list without duplicate users, leaving removes exactly the leaver's entry. */
  lemma {:induction false} WithoutUserRemovesEntry(members: seq<TeamMember>, k: nat)
    requires NoDuplicateUsers(members) && k < |members|
    ensures WithoutUser(members, members[k].user) == members[..k] + members[k + 1..]
  {
    var u := members[k].user;
    var tail := members[1..];
    if k == 0 {
      assert !IsMember(tail, u) by {
        forall i | 0 <= i < |tail| ensures tail[i].user != u {
          assert tail[i] == members[i + 1];
        }
      }
      WithoutAbsentUser(tail, u);
      assert WithoutUser(members, u) == WithoutUser(tail, u);
      assert members[..0] + members[1..] == tail;
    } else {
      assert members[0].user != u;
      assert WithoutUser(members, u) == [members[0]] + WithoutUser(tail, u);
      NoDuplicatesInTail(members);
      assert tail[k - 1] == members[k];
      WithoutUserRemovesEntry(tail, k - 1);
      assert members[..k] == [members[0]] + tail[..k - 1];
      assert members[k + 1..] == tail[k..];
    }
  }

  /** Removing entry `k` keeps every other user a member. */
  lemma RemovalKeepsOthers(members: seq<TeamMember>, k: nat, v: UserId)
    requires k < |members| && IsMember(members, v) && v != members[k].user
    ensures IsMember(members[..k] + members[k + 1..], v)
  {
    var i :| 0 <= i < |members| && members[i].user == v;
    var r := members[..k] + members[k + 1..];
    if i < k {
      assert r[i] == members[i];
    } else {
      assert r[i - 1] == members[i];
    }
  }

  lemma NoDuplicatesAfterRemoval(members: seq<TeamMember>, k: nat)
    requires NoDuplicateUsers(members) && k < |members|
    ensures NoDuplicateUsers(members[..k] + members[k + 1..])
  {
    var r := members[..k] + members[k + 1..];
    forall i, j | 0 <= i < j < |r| ensures r[i].user != r[j].user {
      var i' := if i < k then i else i + 1;
      var j' := if j < k then j else j + 1;
      assert r[i] == members[i'] && r[j] == members[j'];
    }
  }

  /**
   * `members.find((member, index) => index !== leaverIndex)`: the first entry
   * at any other position.
   */
  function FirstOtherMember(members: seq<TeamMember>, leaverIndex: nat): (r: TeamMember)
    requires |members| >= 2 && leaverIndex < |members|
    ensures exists i :: 0 <= i <= 1 && i != leaverIndex && r == members[i] && (i == 1 ==> leaverIndex == 0)
  {
    if leaverIndex == 0 then members[1] else members[0]
  }

  class Team {
    const id: TeamId
    const name: string
    var admin: UserId
    var members: seq<TeamMember>

    /** No user is listed twice and the admin is one of the members. */
    ghost predicate Valid()
      reads this
    {
      NoDuplicateUsers(members) && IsMember(members, admin)
    }

    /** A new team: the creator is its admin and its only member, with role admin. */
    constructor (id: TeamId, name: string, creator: UserId)
      ensures Valid()
      ensures this.id == id && this.name == name
      ensures admin == creator && members == [TeamMember(creator, Admin)]
    {
      this.id := id;
      this.name := name;
      admin := creator;
      members := [TeamMember(creator, Admin)];
      new;
      assert members[0].user == creator;
    }

    /** addMember: the membership test comes before the admin test. */
    method AddMember(requester: UserId, userId: UserId) returns (r: Outcome<TeamError>)
      requires Valid()
      modifies this
      ensures Valid()
      ensures IsMember(old(members), userId) ==> r == Fail(AlreadyMember)
      ensures !IsMember(old(members), userId) && old(admin) != requester ==> r == Fail(NotAdmin)
      ensures !IsMember(old(members), userId) && old(admin) == requester ==> r == Pass
      ensures r.Fail? ==> members == old(members) && admin == old(admin)
      ensures r.Pass? ==> members == old(members) + [TeamMember(userId, Member)] && admin == old(admin)
    {
      if IsMember(members, userId) {
        return Fail(AlreadyMember);
      }
      if admin != requester {
        return Fail(NotAdmin);
      }
      ghost var before := members;
      members := members + [TeamMember(userId, Member)];
      r := Pass;
      assert members[..|before|] == before;
      assert IsMember(members, admin) by {
        var i :| 0 <= i < |before| && before[i].user == admin;
        assert members[i] == before[i];
      }
      forall i, j | 0 <= i < j < |members| ensures members[i].user != members[j].user {
        if j == |before| {
          assert members[i] == before[i];
        } else {
          assert members[i] == before[i] && members[j] == before[j];
        }
      }
    }

    /** changeMemberRole: only the admin, and only for a member; only that entry's role changes. */
    method ChangeMemberRole(requester: UserId, userId: UserId, newRole: Role) returns (r: Outcome<TeamError>)
      requires Valid()
      modifies this
      ensures Valid()
      ensures old(admin) != requester ==> r == Fail(NotAdmin)
      ensures old(admin) == requester && !IsMember(old(members), userId) ==> r == Fail(NotMember)
      ensures old(admin) == requester && IsMember(old(members), userId) ==> r == Pass
      ensures admin == old(admin)
      ensures r.Fail? ==> members == old(members)
      ensures r.Pass? ==>
                && IndexOfUser(old(members), userId).Some?
                && members == old(members)[IndexOfUser(old(members), userId).value := TeamMember(userId, newRole)]
    {
      if admin != requester {
        return Fail(NotAdmin);
      }
      match IndexOfUser(members, userId)
      case None =>
        return Fail(NotMember);
      case Some(k) =>
        ghost var before := members;
        members := members[k := TeamMember(userId, newRole)];
        r := Pass;
        assert IsMember(members, admin) by {
          var i :| 0 <= i < |before| && before[i].user == admin;
          assert members[i].user == admin;
        }
        forall i, j | 0 <= i < j < |members| ensures members[i].user != members[j].user {
          assert members[i].user == before[i].user && members[j].user == before[j].user;
        }
    }

    /**
     * leaveTeam: a non-member is rejected; an admin who is the only member
     * deletes the team (the document is removed, its fields are left as they
     * were); otherwise an admin hands over to the first other member, and the
     * leaver's entry is filtered out.
     */
    method LeaveTeam(requester: UserId) returns (r: Result<LeaveOutcome, TeamError>)
      requires Valid()
      modifies this
      ensures Valid()
      ensures !IsMember(old(members), requester) <==> r == Failure(NotMember)
      ensures r == Success(TeamDeleted) <==>
                IsMember(old(members), requester) && requester == old(admin) && |old(members)| == 1
      ensures IsMember(old(members), requester) && !(requester == old(admin) && |old(members)| == 1) ==>
                r == Success(LeftTeam)
      ensures r.Failure? || r == Success(TeamDeleted) ==> members == old(members) && admin == old(admin)
      ensures r == Success(LeftTeam) ==>
                && members == WithoutUser(old(members), requester)
                && members == old(members)[..IndexOfUser(old(members), requester).value] +
                              old(members)[IndexOfUser(old(members), requester).value + 1..]
                && !IsMember(members, requester)
                && admin == (if requester == old(admin)
                             then FirstOtherMember(old(members), IndexOfUser(old(members), requester).value).user
                             else old(admin))
                && admin != requester
    {
      var memberIndex := IndexOfUser(members, requester);
      if memberIndex.None? {
        return Failure(NotMember);
      }
      var k := memberIndex.value;
      var isAdmin := admin == requester;
      ghost var before := members;
      if isAdmin {
        if |members| == 1 {
          return Success(TeamDeleted);
        }
        admin := FirstOtherMember(members, k).user;
      }
      assert admin != requester && IsMember(before, admin) by {
        if isAdmin {
          var i :| 0 <= i <= 1 && i != k && admin == before[i].user;
        }
      }
      WithoutUserRemovesEntry(members, k);
      NoDuplicatesAfterRemoval(members, k);
      RemovalKeepsOthers(members, k, admin);
      members := WithoutUser(members, requester);
      r := Success(LeftTeam);
    }
  }

  /**
   * createTeam: an existing name is rejected; otherwise a team with the
   * creator as admin and sole member, and an empty team calendar for it.
   */
  method CreateTeam(existingNames: set<string>, name: string, creator: UserId, newId: TeamId)
    returns (r: Result<(Team, TeamCalendar), TeamError>)
    ensures name in existingNames <==> r == Failure(NameTaken)
    ensures name !in existingNames <==> r.Success?
    ensures r.Success? ==>
              && fresh(r.value.0) && fresh(r.value.1)
              && r.value.0.Valid()
              && r.value.0.id == newId && r.value.0.name == name
              && r.value.0.admin == creator && r.value.0.members == [TeamMember(creator, Admin)]
              && r.value.1.team == newId && r.value.1.createdBy == creator && r.value.1.events == []
  {
    if name in existingNames {
      return Failure(NameTaken);
    }
    var team := new Team(newId, name, creator);
    var calendar := new TeamCalendar(newId, creator);
    r := Success((team, calendar));
  }

  /** The admin test removeMember makes before anything else: `Pass` means it goes on. */
  function RemoveMemberAdminCheck(admin: UserId, requester: UserId): (r: Outcome<TeamError>)
    ensures r.Pass? <==> admin == requester
    ensures r.Fail? ==> r.error == NotAdmin
  {
    if admin != requester then Fail(NotAdmin) else Pass
  }
}
