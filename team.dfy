/** `TeamService`: creating a team (a shared account of several users) and
    adding a member to one. A team keeps its members as a comma-joined
    string of user ids and their number in `membersNum`; a member user
    points back at the team through `teamId` and `teamName`. The service
    writes both tables, so both are fields here. */
module TeamMembership {
  import opened Common
  import opened Csv
  import Validate

  /** What the client sends to create a team. */
  datatype TeamInput = TeamInput(name: string, owner: int, members: string)

  /** A team's member count agrees with its member list. */
  predicate MembersCounted(t: Team) {
    |Split(t.members, ',')| == t.membersNum
  }

  /** No two teams, active or not, share a name. */
  predicate NamesDistinct(teams: seq<Team>) {
    forall i, j :: 0 <= i < j < |teams| ==> teams[i].name != teams[j].name
  }

  function Named(name: string): Team -> bool {
    (t: Team) => t.name == name
  }

  function HasNickname(nickname: string): User -> bool {
    (u: User) => u.nickname == nickname
  }

  /** The member list after appending `uid`: split on ',', push the id's
      decimal string, join with ','. */
  function Appended(members: string, uid: nat): string
  {
    Join(Split(members, ',') + [DecimalString(uid)], ',')
  }

  /** Reading the new list back gives the old entries, unchanged and in
      order, followed by the new id, whose entry reads back as that id. */
  lemma AppendedReadsBack(members: string, uid: nat)
    ensures Split(Appended(members, uid), ',') == Split(members, ',') + [DecimalString(uid)]
    ensures |Split(Appended(members, uid), ',')| == |Split(members, ',')| + 1
    ensures var p := Split(Appended(members, uid), ','); AllDigits(p[|p| - 1]) && DecimalValue(p[|p| - 1]) == uid
  {
    AppendPiece(members, DecimalString(uid), ',');
    DecimalRoundTrip(uid);
  }

  /** An empty member list splits into one empty entry, so the first id
      added lands after a leading comma. */
  lemma AppendToEmpty(uid: nat)
    ensures Appended("", uid) == [','] + DecimalString(uid)
  {
    var d := DecimalString(uid);
    assert Split("", ',') == [""];
    assert [""] + [d] == [[], d];
    assert Join([[], d], ',') == [] + [','] + Join([d], ',');
  }

  /** The team that gains a member: one more in the count, the user's id at
      the end of the list. */
  function WithMember(t: Team, uid: nat): Team {
    t.(membersNum := t.membersNum + 1, members := Appended(t.members, uid))
  }

  /** Adding a member keeps the count in step with the list, and renames
      no team. */
  lemma WithMemberKeeps(teams: seq<Team>, id: int, uid: nat)
    requires 1 <= id <= |teams|
    ensures var after := teams[id - 1 := WithMember(teams[id - 1], uid)];
      && after[id - 1].membersNum == teams[id - 1].membersNum + 1
      && (MembersCounted(teams[id - 1]) ==> MembersCounted(after[id - 1]))
      && (NamesDistinct(teams) ==> NamesDistinct(after))
  {
    var after := teams[id - 1 := WithMember(teams[id - 1], uid)];
    AppendedReadsBack(teams[id - 1].members, uid);
    assert forall j :: 0 <= j < |teams| ==> after[j].name == teams[j].name;
  }

  /** A team saved under a name no team has keeps the names distinct. */
  lemma NewNameKeepsDistinct(teams: seq<Team>, t: Team)
    requires NamesDistinct(teams)
    requires forall j :: 0 <= j < |teams| ==> teams[j].name != t.name
    ensures NamesDistinct(teams + [t])
  {
    var after := teams + [t];
    forall i, j | 0 <= i < j < |after| ensures after[i].name != after[j].name {
      if j < |teams| {
        assert after[i] == teams[i] && after[j] == teams[j];
      } else {
        assert after[i] == teams[i] && after[j] == t;
      }
    }
  }

  class TeamService {
    var teams: seq<Team>
    var users: seq<User>

    /** Both tables carry auto-increment keys: the row at index i has id i + 1. */
    ghost predicate Valid()
      reads this
    {
      && (forall i :: 0 <= i < |teams| ==> teams[i].id == i + 1)
      && (forall i :: 0 <= i < |users| ==> users[i].id == i + 1)
    }

    constructor(users: seq<User>)
      requires forall i :: 0 <= i < |users| ==> users[i].id == i + 1
      ensures teams == [] && this.users == users && Valid()
    {
      teams := [];
      this.users := users;
    }

    /** `createTeam`, whose checks come in this order: BAD_REQUEST for an
        empty name, CONFLICT when any team (of any status) has the name,
        BAD_REQUEST when the name is not a nickname. Then the team is saved
        active with one member and the fresh `key`, and the owner's row is
        pointed at it; when the owner does not exist that step reads a
        property of `undefined`, a server error that leaves the team saved. */
    method CreateTeam(input: TeamInput, key: string) returns (s: Status)
      requires Valid()
      modifies this
      ensures Valid()
      ensures s == BadRequest <==>
        input.name == "" || (!(exists j :: 0 <= j < |old(teams)| && old(teams)[j].name == input.name)
                             && !Validate.IsNickname(input.name))
      ensures s == Conflict <==> input.name != "" && exists j :: 0 <= j < |old(teams)| && old(teams)[j].name == input.name
      ensures s == BadRequest || s == Conflict ==> teams == old(teams) && users == old(users)
      ensures s == Created || s == ServerError ==>
        teams == old(teams) + [Team(|old(teams)| + 1, input.members, 1, input.name, key, input.owner, 1)]
      ensures s == ServerError <==> s != BadRequest && s != Conflict && UserById(old(users), input.owner).None?
      ensures s == ServerError ==> users == old(users)
      ensures s == Created ==> (1 <= input.owner <= |old(users)|
                                && users == old(users)[input.owner - 1 := old(users)[input.owner - 1].(teamId := |old(teams)| + 1,
                                                                                                      teamName := input.name)])
    {
      if input.name == "" {
        return BadRequest;
      }
      var existing := FindFirst(teams, Named(input.name));
      assert (exists j :: 0 <= j < |teams| && teams[j].name == input.name) ==> existing.Some? by {
        if exists j :: 0 <= j < |teams| && teams[j].name == input.name {
          var j :| 0 <= j < |teams| && teams[j].name == input.name;
          assert Named(input.name)(teams[j]);
        }
      }
      if existing.Some? {
        return Conflict;
      }
      if !Validate.IsNickname(input.name) {
        return BadRequest;
      }
      var newId := |teams| + 1;
      teams := teams + [Team(newId, input.members, 1, input.name, key, input.owner, 1)];
      var owner := UserById(users, input.owner);
      if owner.None? {
        return ServerError;
      }
      var i :| 0 <= i < |users| && users[i] == owner.value;
      users := users[i := owner.value.(teamId := newId, teamName := input.name)];
      s := Created;
    }

    /** `addMember`. The outcomes come in this order: BAD_REQUEST for an
        empty nickname, NOT_FOUND when no user has it, CONFLICT when the
        user is already in a team; none of them writes anything. Otherwise a
        missing team is a property read on `undefined`, a server error before
        any write; an existing team (of any status) gains one member, its
        member list gains the user's id at the end, and the user points at
        the team. */
    method AddMember(id: int, nickname: string) returns (s: Status)
      requires Valid()
      modifies this
      ensures Valid()
      ensures s == BadRequest <==> nickname == ""
      ensures s == NotFound <==> nickname != "" && FindFirst(old(users), HasNickname(nickname)).None?
      ensures s == Conflict <==> nickname != "" && FindFirst(old(users), HasNickname(nickname)).Some?
                                 && old(users)[FindFirst(old(users), HasNickname(nickname)).value].teamId != 0
      ensures s == ServerError <==> (&& nickname != "" && FindFirst(old(users), HasNickname(nickname)).Some?
                                     && old(users)[FindFirst(old(users), HasNickname(nickname)).value].teamId == 0
                                     && !(1 <= id <= |old(teams)|))
      ensures s != Ok ==> teams == old(teams) && users == old(users)
      ensures s == Ok ==>
        var k := FindFirst(old(users), HasNickname(nickname)).value;
        var t := old(teams)[id - 1];
        && teams == old(teams)[id - 1 := WithMember(t, k + 1)]
        && users == old(users)[k := old(users)[k].(teamId := id, teamName := t.name)]
      ensures s == Ok ==> users[FindFirst(old(users), HasNickname(nickname)).value].teamId == teams[id - 1].id
    {
      var found := FindFirst(users, HasNickname(nickname));
      if nickname == "" {
        return BadRequest;
      }
      if found.None? {
        return NotFound;
      }
      var k := found.value;
      var user := users[k];
      if user.teamId != 0 {
        return Conflict;
      }
      if !(1 <= id <= |teams|) {
        return ServerError;
      }
      var team := teams[id - 1];
      teams := teams[id - 1 := WithMember(team, user.id)];
      users := users[k := user.(teamId := team.id, teamName := team.name)];
      s := Ok;
    }
  }
}
