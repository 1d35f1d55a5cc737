/** The charge categories of `PersonalChargeTypeService` and
    `TeamChargeTypeService`. A category is either one of the seeded defaults
    (`createdType == "default"`, creator 0, and team 0 in the team table) or
    a custom one a user adds. `realname` is the key the charge records of a
    personal category carry in their `chargeType` column; it is a fresh UUID
    on creation, given here as the parameter `key`. */
module ChargeTypes {
  import opened Common
  import opened Charges

  const MaxCustomTypes := 20

  /** A row of `personal_charge_type` / `team_charge_type` (`teamId` is 0 in
      the personal table). */
  datatype ChargeType = ChargeType(id: int, name: string, realname: string, icon: string, createdType: string,
                                   createdBy: int, teamId: int, balanceType: int, status: int)

  /** What the client sends to create a category; a number field is `None`
      when it is missing or not a number. */
  datatype TypeInput = TypeInput(name: string, icon: string, createdBy: Option<int>, balanceType: Option<int>,
                                 teamId: Option<int>)

  /** The filters of `findMany`. Each is `None` when the client leaves it out
      or sends a falsy value, in which case the source puts `undefined` in
      the `where` clause, which filters nothing. */
  datatype TypeQuery = TypeQuery(createdBy: Option<int>, balanceType: Option<int>, teamId: Option<int>)

  function NamedBy(name: string, createdBy: int): ChargeType -> bool {
    (t: ChargeType) => t.name == name && t.createdBy == createdBy && t.status == 1
  }

  function NamedInTeam(name: string, teamId: int): ChargeType -> bool {
    (t: ChargeType) => t.name == name && t.teamId == teamId && t.status == 1
  }

  function ActiveOf(createdBy: int): ChargeType -> bool {
    (t: ChargeType) => t.createdBy == createdBy && t.status == 1
  }

  /** `findOneByName(name, created_by) || findOneByName(name, 0)`: the index
      of an active category of that name, looked for first among the
      creator's own and only then among the defaults. */
  function NameLookup(rs: seq<ChargeType>, name: string, createdBy: int): Option<nat>
  {
    var own := FindFirst(rs, NamedBy(name, createdBy));
    if own.Some? then own else FindFirst(rs, NamedBy(name, 0))
  }

  /** Some active category of this name is visible to the creator: one of
      their own or a default. */
  predicate NameTaken(rs: seq<ChargeType>, name: string, createdBy: int) {
    exists j :: 0 <= j < |rs| && rs[j].status == 1 && rs[j].name == name && (rs[j].createdBy == createdBy || rs[j].createdBy == 0)
  }

  /** The two-step lookup misses exactly when the name is free for the
      creator, and what it finds has that name and is visible to them. */
  lemma NameLookupFinds(rs: seq<ChargeType>, name: string, createdBy: int)
    ensures NameLookup(rs, name, createdBy).Some? <==> NameTaken(rs, name, createdBy)
    ensures NameLookup(rs, name, createdBy).Some? ==>
      var j := NameLookup(rs, name, createdBy).value;
      j < |rs| && rs[j].status == 1 && rs[j].name == name && (rs[j].createdBy == createdBy || rs[j].createdBy == 0)
  {
    if NameTaken(rs, name, createdBy) {
      var j :| 0 <= j < |rs| && rs[j].status == 1 && rs[j].name == name && (rs[j].createdBy == createdBy || rs[j].createdBy == 0);
      if rs[j].createdBy == createdBy {
        assert NamedBy(name, createdBy)(rs[j]);
      } else {
        assert NamedBy(name, 0)(rs[j]);
      }
    }
  }

  /** Two active personal categories whose names may not coincide: the same
      creator's, or any category and a default. */
  predicate Clash(a: ChargeType, b: ChargeType) {
    a.status == 1 && b.status == 1 && a.name == b.name
    && (a.createdBy == b.createdBy || a.createdBy == 0 || b.createdBy == 0)
  }

  /** What the name checks of the personal service keep true. */
  predicate NamesUnique(rs: seq<ChargeType>) {
    forall i, j :: 0 <= i < j < |rs| ==> !Clash(rs[i], rs[j])
  }

  /** Two active team categories of the same team with the same name. */
  predicate TeamClash(a: ChargeType, b: ChargeType) {
    a.status == 1 && b.status == 1 && a.name == b.name && a.teamId == b.teamId
  }

  predicate TeamNamesUnique(rs: seq<ChargeType>) {
    forall i, j :: 0 <= i < j < |rs| ==> !TeamClash(rs[i], rs[j])
  }

  /** The active categories of one creator. */
  function ActiveBy(rs: seq<ChargeType>, createdBy: int): (r: seq<ChargeType>)
    ensures forall t :: t in r <==> t in rs && t.createdBy == createdBy && t.status == 1
  {
    forall t | t in rs && ActiveOf(createdBy)(t) ensures t in Filter(rs, ActiveOf(createdBy)) {
      FilterKeeps(rs, ActiveOf(createdBy), t);
    }
    Filter(rs, ActiveOf(createdBy))
  }

  /** Under unique names, the two-step lookup for a rename of row `k`
      reports another row exactly when another active category visible to
      `k`'s creator already has the new name: the `||` never hides a
      default behind the row itself. */
  lemma RenameLookup(rs: seq<ChargeType>, k: nat, name: string)
    requires NamesUnique(rs) && k < |rs| && rs[k].status == 1 && rs[k].createdBy != 0
    ensures var f := NameLookup(rs, name, rs[k].createdBy);
      (f.Some? && f.value != k) <==>
      exists j :: 0 <= j < |rs| && j != k && rs[j].status == 1 && rs[j].name == name
                  && (rs[j].createdBy == rs[k].createdBy || rs[j].createdBy == 0)
  {
    var c := rs[k].createdBy;
    var f := NameLookup(rs, name, c);
    NameLookupFinds(rs, name, c);
    if exists j :: 0 <= j < |rs| && j != k && rs[j].status == 1 && rs[j].name == name && (rs[j].createdBy == c || rs[j].createdBy == 0) {
      var j :| 0 <= j < |rs| && j != k && rs[j].status == 1 && rs[j].name == name && (rs[j].createdBy == c || rs[j].createdBy == 0);
      var lo, hi := if j < k then j else k, if j < k then k else j;
      assert !Clash(rs[lo], rs[hi]);
      if f.value == k {
        assert false;
      }
    }
  }

  /** Renaming row `k` to a name the lookup did not report for another row
      keeps the names unique. */
  lemma RenameKeepsUnique(rs: seq<ChargeType>, k: nat, name: string, icon: string)
    requires NamesUnique(rs) && k < |rs| && rs[k].status == 1 && rs[k].createdBy != 0
    requires var f := NameLookup(rs, name, rs[k].createdBy); f.None? || f.value == k
    ensures NamesUnique(rs[k := rs[k].(name := name, icon := icon)])
  {
    RenameLookup(rs, k, name);
    var t := rs[k := rs[k].(name := name, icon := icon)];
    forall i, j | 0 <= i < j < |t| ensures !Clash(t[i], t[j]) {
      if i != k && j != k {
        assert t[i] == rs[i] && t[j] == rs[j];
      } else if i == k {
        assert t[j] == rs[j];
      } else {
        assert t[i] == rs[i];
      }
    }
  }

  /** Turning a row inactive keeps the names unique. */
  lemma RetireKeepsUnique(rs: seq<ChargeType>, k: nat)
    requires k < |rs|
    ensures NamesUnique(rs) ==> NamesUnique(rs[k := rs[k].(status := 0)])
    ensures TeamNamesUnique(rs) ==> TeamNamesUnique(rs[k := rs[k].(status := 0)])
  {
    var t := rs[k := rs[k].(status := 0)];
    assert forall i :: 0 <= i < |t| && i != k ==> t[i] == rs[i];
  }

  /** The charge records after deleting a personal category: each active
      record of that category and creator is retired, except one with a zero
      amount, which the update it goes through rejects. */
  function CascadeRow(r: Charge, realname: string, createdBy: int): Charge
  {
    if r.chargeType == realname && r.createdBy == createdBy && r.status == 1 && r.chargeNum != 0
    then r.(status := 0) else r
  }

  function Cascade(rs: seq<Charge>, realname: string, createdBy: int): (r: seq<Charge>)
    ensures |r| == |rs|
  {
    seq(|rs|, i requires 0 <= i < |rs| => CascadeRow(rs[i], realname, createdBy))
  }

  /** After the cascade no active record of the deleted category with a
      non-zero amount is left; every other record is untouched, and a
      touched one only changes its status. */
  lemma CascadeEffect(rs: seq<Charge>, realname: string, createdBy: int)
    ensures forall i :: 0 <= i < |rs| ==>
      var c := Cascade(rs, realname, createdBy)[i];
      && ((c.chargeType == realname && c.createdBy == createdBy && c.status == 1) ==> c.chargeNum == 0)
      && c == rs[i].(status := c.status)
      && (!(rs[i].chargeType == realname && rs[i].createdBy == createdBy) ==> c == rs[i])
  {
  }

  /** After the cascade the charge table's search for the category's active
      records finds only zero amounts. */
  lemma CascadeEmptiesSearch(rs: seq<Charge>, realname: string, createdBy: int)
    ensures forall c :: (c in Cascade(rs, realname, createdBy) && c.chargeType == realname
                         && c.createdBy == createdBy && c.status == 1) ==> c.chargeNum == 0
  {
    CascadeEffect(rs, realname, createdBy);
  }

  /** Every element both filters keep appears twice in their concatenation. */
  lemma ConcatRepeats<T>(s: seq<T>, p: T -> bool, q: T -> bool, x: T)
    requires x in s && p(x) && q(x)
    ensures exists i, j :: (0 <= i < j < |Filter(s, p) + Filter(s, q)|
                            && (Filter(s, p) + Filter(s, q))[i] == x && (Filter(s, p) + Filter(s, q))[j] == x)
  {
    FilterKeeps(s, p, x);
    FilterKeeps(s, q, x);
    var a, b := Filter(s, p), Filter(s, q);
    var i :| 0 <= i < |a| && a[i] == x;
    var j :| 0 <= j < |b| && b[j] == x;
    assert (a + b)[i] == x && (a + b)[|a| + j] == x;
  }

  /** The two `where` clauses of the personal `findMany`. */
  function PersonalDefaults(q: TypeQuery): ChargeType -> bool {
    (t: ChargeType) => t.createdBy == 0 && t.status == 1 && FieldMatches(q.balanceType, t.balanceType)
  }

  function PersonalCustom(q: TypeQuery): ChargeType -> bool {
    (t: ChargeType) => FieldMatches(q.createdBy, t.createdBy) && t.status == 1 && FieldMatches(q.balanceType, t.balanceType)
  }

  /** The two `where` clauses of the team `findMany`. */
  function TeamDefaults(q: TypeQuery): ChargeType -> bool {
    (t: ChargeType) => t.createdBy == 0 && t.teamId == 0 && t.status == 1 && FieldMatches(q.balanceType, t.balanceType)
  }

  function TeamCustom(q: TypeQuery): ChargeType -> bool {
    (t: ChargeType) => FieldMatches(q.createdBy, t.createdBy) && FieldMatches(q.teamId, t.teamId)
                       && t.status == 1 && FieldMatches(q.balanceType, t.balanceType)
  }

  class TypeTable {
    var rows: seq<ChargeType>

    /** Rows carry the auto-increment key: the row at index i has id i + 1. */
    ghost predicate Valid()
      reads this
    {
      forall i :: 0 <= i < |rows| ==> rows[i].id == i + 1
    }

    constructor()
      ensures rows == [] && Valid()
    {
      rows := [];
    }

    /** `findOneById`: the category with this id, if it is active. */
    function FindById(id: int): (r: Option<ChargeType>)
      requires Valid()
      reads this
      ensures r.Some? ==> r.value in rows && r.value.id == id && r.value.status == 1
      ensures (exists i :: 0 <= i < |rows| && rows[i].id == id && rows[i].status == 1) ==> r.Some?
    {
      if 1 <= id <= |rows| && rows[id - 1].status == 1 then Some(rows[id - 1]) else None
    }

    /** `createPersonalChargeType`: BAD_REQUEST for an empty name or icon or
        a creator or balance type that is not a number; NOT_FOUND for an
        unknown user; CONFLICT when the name is taken among the creator's
        own or the default categories, or when the creator already has 20
        active categories; otherwise an active custom category is added. */
    method CreatePersonal(users: seq<User>, input: TypeInput, key: string) returns (s: Status)
      requires Valid()
      modifies this
      ensures Valid()
      ensures s == BadRequest <==> input.name == "" || input.icon == "" || input.createdBy.None? || input.balanceType.None?
      ensures s == NotFound <==> s != BadRequest && UserById(users, input.createdBy.value).None?
      ensures s == Conflict <==> (s != BadRequest && s != NotFound
                                  && (NameTaken(old(rows), input.name, input.createdBy.value)
                                      || |ActiveBy(old(rows), input.createdBy.value)| >= MaxCustomTypes))
      ensures s != Created ==> rows == old(rows)
      ensures s == Created ==>
        rows == old(rows) + [ChargeType(|old(rows)| + 1, input.name, key, input.icon, "custom",
                                        input.createdBy.value, 0, input.balanceType.value, 1)]
      ensures s == Created ==> |ActiveBy(rows, input.createdBy.value)| <= MaxCustomTypes
      ensures s == Created && input.createdBy.value != 0 && old(NamesUnique(rows)) ==> NamesUnique(rows)
    {
      if input.name == "" || input.icon == "" || input.createdBy.None? || input.balanceType.None? {
        return BadRequest;
      }
      var creator := input.createdBy.value;
      if UserById(users, creator).None? {
        return NotFound;
      }
      NameLookupFinds(rows, input.name, creator);
      if NameLookup(rows, input.name, creator).Some? {
        return Conflict;
      }
      if |ActiveBy(rows, creator)| >= MaxCustomTypes {
        return Conflict;
      }
      var t := ChargeType(|rows| + 1, input.name, key, input.icon, "custom", creator, 0, input.balanceType.value, 1);
      FilterSnoc(rows, t, ActiveOf(creator));
      rows := rows + [t];
      s := Created;
    }

    /** `createTeamChargeType`: BAD_REQUEST for an empty name or icon or a
        creator, balance type or team that is not a number; NOT_FOUND for a
        missing or inactive user, then for a missing or inactive team;
        CONFLICT when an active category of the team has the name; otherwise
        an active custom category of the team is added. */
    method CreateTeam(users: seq<User>, teams: seq<Team>, input: TypeInput, key: string) returns (s: Status)
      requires Valid()
      modifies this
      ensures Valid()
      ensures s == BadRequest <==>
        input.name == "" || input.icon == "" || input.createdBy.None? || input.balanceType.None? || input.teamId.None?
      ensures s == NotFound <==> (s != BadRequest
                                  && (|| UserById(users, input.createdBy.value).None?
                                      || UserById(users, input.createdBy.value).value.status == 0
                                      || TeamById(teams, input.teamId.value).None?
                                      || TeamById(teams, input.teamId.value).value.status == 0))
      ensures s == Conflict <==> (s != BadRequest && s != NotFound
                                  && exists j :: 0 <= j < |old(rows)| && old(rows)[j].status == 1
                                                 && old(rows)[j].name == input.name && old(rows)[j].teamId == input.teamId.value)
      ensures s != Created ==> rows == old(rows)
      ensures s == Created ==>
        rows == old(rows) + [ChargeType(|old(rows)| + 1, input.name, key, input.icon, "custom",
                                        input.createdBy.value, input.teamId.value, input.balanceType.value, 1)]
      ensures s == Created && old(TeamNamesUnique(rows)) ==> TeamNamesUnique(rows)
    {
      if input.name == "" || input.icon == "" || input.createdBy.None? || input.balanceType.None? || input.teamId.None? {
        return BadRequest;
      }
      var user := UserById(users, input.createdBy.value);
      if user.None? || user.value.status == 0 {
        return NotFound;
      }
      var team := TeamById(teams, input.teamId.value);
      if team.None? || team.value.status == 0 {
        return NotFound;
      }
      var found := FindFirst(rows, NamedInTeam(input.name, input.teamId.value));
      assert (exists j :: 0 <= j < |rows| && rows[j].status == 1 && rows[j].name == input.name
                          && rows[j].teamId == input.teamId.value) ==> found.Some? by {
        if exists j :: 0 <= j < |rows| && rows[j].status == 1 && rows[j].name == input.name && rows[j].teamId == input.teamId.value {
          var j :| 0 <= j < |rows| && rows[j].status == 1 && rows[j].name == input.name && rows[j].teamId == input.teamId.value;
          assert NamedInTeam(input.name, input.teamId.value)(rows[j]);
        }
      }
      if found.Some? {
        return Conflict;
      }
      rows := rows + [ChargeType(|rows| + 1, input.name, key, input.icon, "custom",
                                 input.createdBy.value, input.teamId.value, input.balanceType.value, 1)];
      s := Created;
    }

    /** `deletePersonalCharge` of the category service: NOT_FOUND unless the
        category is active, BAD_REQUEST for a default one. Otherwise every
        active charge record of the category and its creator goes through
        `updatePersonalCharge` with its own amount and remark and status 0,
        and then the category itself becomes inactive. */
    method DeletePersonal(id: int, charges: ChargeTable) returns (s: Status)
      requires Valid() && charges.Valid()
      modifies this, charges
      ensures Valid() && charges.Valid()
      ensures old(FindById(id)).None? ==> s == NotFound && rows == old(rows) && charges.rows == old(charges.rows)
      ensures old(FindById(id)).Some? && old(rows)[id - 1].createdType == "default" ==>
        s == BadRequest && rows == old(rows) && charges.rows == old(charges.rows)
      ensures old(FindById(id)).Some? && old(rows)[id - 1].createdType != "default" ==>
        && s == Ok
        && rows == old(rows)[id - 1 := old(rows)[id - 1].(status := 0)]
        && charges.rows == Cascade(old(charges.rows), old(rows)[id - 1].realname, old(rows)[id - 1].createdBy)
      ensures old(NamesUnique(rows)) ==> NamesUnique(rows)
    {
      if FindById(id).None? {
        return NotFound;
      }
      var t := rows[id - 1];
      if t.createdType == "default" {
        return BadRequest;
      }
      RetireCharges(charges, t.realname, t.createdBy);
      RetireKeepsUnique(rows, id - 1);
      rows := rows[id - 1 := t.(status := 0)];
      s := Ok;
    }

    /** `deleteTeamCharge` of the category service: NOT_FOUND unless the
        category is active, BAD_REQUEST for a default one. Otherwise every
        active charge record of the category's team goes through
        `updateTeamCharge` with its own amount and remark and no status,
        which leaves it as it was, and then the category becomes inactive. */
    method DeleteTeam(id: int, charges: ChargeTable) returns (s: Status)
      requires Valid() && charges.Valid()
      modifies this, charges
      ensures Valid() && charges.Valid()
      ensures charges.rows == old(charges.rows)
      ensures old(FindById(id)).None? ==> s == NotFound && rows == old(rows)
      ensures old(FindById(id)).Some? && old(rows)[id - 1].createdType == "default" ==> s == BadRequest && rows == old(rows)
      ensures old(FindById(id)).Some? && old(rows)[id - 1].createdType != "default" ==>
        s == Ok && rows == old(rows)[id - 1 := old(rows)[id - 1].(status := 0)]
      ensures old(TeamNamesUnique(rows)) ==> TeamNamesUnique(rows)
    {
      if FindById(id).None? {
        return NotFound;
      }
      var t := rows[id - 1];
      if t.createdType == "default" {
        return BadRequest;
      }
      var hits := charges.FindByTeam(t.teamId);
      for k := 0 to |hits|
        invariant rows == old(rows)
        invariant charges.Valid() && charges.rows == old(charges.rows)
      {
        var h := hits[k];
        HitIsRow(charges.rows, h);
        var _ := charges.Update(h.id, Some(h.chargeNum), h.remark, None);
      }
      RetireKeepsUnique(rows, id - 1);
      rows := rows[id - 1 := t.(status := 0)];
      s := Ok;
    }

    /** `updatePersonalChargeType`: NOT_FOUND unless the category is active,
        BAD_REQUEST for an empty name or icon, CONFLICT when the two-step
        name lookup finds another category; otherwise only the name and the
        icon change. */
    method UpdatePersonal(id: int, name: string, icon: string) returns (s: Status)
      requires Valid()
      modifies this
      ensures Valid()
      ensures s != Ok ==> rows == old(rows)
      ensures s == NotFound <==> old(FindById(id)).None?
      ensures s == BadRequest <==> old(FindById(id)).Some? && (name == "" || icon == "")
      ensures s == Conflict <==> && old(FindById(id)).Some? && name != "" && icon != ""
                                  && var f := NameLookup(old(rows), name, old(rows)[id - 1].createdBy);
                                     f.Some? && f.value != id - 1
      ensures s == Ok ==> rows == old(rows)[id - 1 := old(rows)[id - 1].(name := name, icon := icon)]
      ensures s == Ok && old(NamesUnique(rows)) && old(rows)[id - 1].createdBy != 0 ==> NamesUnique(rows)
    {
      if FindById(id).None? {
        return NotFound;
      }
      if name == "" || icon == "" {
        return BadRequest;
      }
      var t := rows[id - 1];
      var found := NameLookup(rows, name, t.createdBy);
      NameLookupFinds(rows, name, t.createdBy);
      if found.Some? && rows[found.value].id != id {
        return Conflict;
      }
      if NamesUnique(rows) && t.createdBy != 0 {
        RenameKeepsUnique(rows, id - 1, name, icon);
      }
      rows := rows[id - 1 := t.(name := name, icon := icon)];
      s := Ok;
    }

    /** `updateTeamChargeType`: NOT_FOUND unless the category is active,
        BAD_REQUEST for an empty name or icon. Otherwise the name lookup is
        made with the category's own current name and team, so it finds the
        category itself and the answer is always CONFLICT; the rename that
        follows in the source is never reached. */
    method UpdateTeam(id: int, name: string, icon: string) returns (s: Status)
      requires Valid()
      ensures s == NotFound <==> FindById(id).None?
      ensures s == BadRequest <==> FindById(id).Some? && (name == "" || icon == "")
      ensures s == Conflict <==> FindById(id).Some? && name != "" && icon != ""
    {
      if FindById(id).None? {
        return NotFound;
      }
      if name == "" || icon == "" {
        return BadRequest;
      }
      var t := rows[id - 1];
      assert NamedInTeam(t.name, t.teamId)(rows[id - 1]);
      var found := FindFirst(rows, NamedInTeam(t.name, t.teamId));
      if found.None? {
        assert false;
      }
      s := Conflict;
    }

    /** `findMany` of the personal service: the matching defaults (creator
        0) followed by the matching categories of the creator filter, each
        part in id order. */
    function FindManyPersonal(q: TypeQuery): (r: seq<ChargeType>)
      requires Valid()
      reads this
      ensures forall t :: t in r <==> t in rows && t.status == 1 && FieldMatches(q.balanceType, t.balanceType)
                                       && (t.createdBy == 0 || FieldMatches(q.createdBy, t.createdBy))
    {
      var d, c := PersonalDefaults(q), PersonalCustom(q);
      forall t | t in rows && (d(t) || c(t)) ensures t in Filter(rows, d) + Filter(rows, c) {
        if d(t) { FilterKeeps(rows, d, t); } else { FilterKeeps(rows, c, t); }
      }
      Filter(rows, d) + Filter(rows, c)
    }

    /** `findMany` of the team service: the matching defaults (creator 0 and
        team 0) followed by the categories matching the creator and team
        filters. */
    function FindManyTeam(q: TypeQuery): (r: seq<ChargeType>)
      requires Valid()
      reads this
      ensures forall t :: t in r <==> t in rows && t.status == 1 && FieldMatches(q.balanceType, t.balanceType)
                                       && ((t.createdBy == 0 && t.teamId == 0)
                                           || (FieldMatches(q.createdBy, t.createdBy) && FieldMatches(q.teamId, t.teamId)))
    {
      var d, c := TeamDefaults(q), TeamCustom(q);
      forall t | t in rows && (d(t) || c(t)) ensures t in Filter(rows, d) + Filter(rows, c) {
        if d(t) { FilterKeeps(rows, d, t); } else { FilterKeeps(rows, c, t); }
      }
      Filter(rows, d) + Filter(rows, c)
    }
  }

  /** A record the charge table's search returned is the table's row under
      its id. */
  /** The cascade of `deletePersonalChargeType`: every active charge record
      of the category and its creator goes through `updatePersonalCharge`
      with its own amount and remark and status 0. */
  method RetireCharges(charges: ChargeTable, realname: string, createdBy: int)
    requires charges.Valid()
    modifies charges
    ensures charges.Valid() && charges.rows == Cascade(old(charges.rows), realname, createdBy)
  {
    var hits := charges.FindByTypeAndCreator(realname, createdBy);
    ghost var before := charges.rows;
    ghost var done: set<int> := {};
    for k := 0 to |hits|
      invariant charges.Valid()
      invariant done == set j | 0 <= j < k :: hits[j].id
      invariant RetiredSoFar(charges.rows, before, done, realname, createdBy)
    {
      var h := hits[k];
      HitIsRow(before, h);
      assert h.id !in done by {
        assert forall j :: 0 <= j < k ==> hits[j].id < h.id;
      }
      ghost var prev := charges.rows;
      assert prev[h.id - 1] == h;
      var _ := charges.Update(h.id, Some(h.chargeNum), h.remark, Some(0));
      assert charges.rows == prev[h.id - 1 := CascadeRow(before[h.id - 1], realname, createdBy)];
      RetireStep(prev, before, done, realname, createdBy, h.id);
      done := done + {h.id};
    }
    forall i | 0 <= i < |before| ensures charges.rows[i] == Cascade(before, realname, createdBy)[i] {
      if CascadeRow(before[i], realname, createdBy) != before[i] {
        assert before[i] in hits;
        var j :| 0 <= j < |hits| && hits[j] == before[i];
      }
    }
  }

  /** The rows whose ids are in `done` have been through the cascade; the
      others are as they were. */
  ghost predicate RetiredSoFar(rows: seq<Charge>, before: seq<Charge>, done: set<int>, realname: string, createdBy: int) {
    && |rows| == |before|
    && forall i :: 0 <= i < |before| ==>
         rows[i] == if i + 1 in done then CascadeRow(before[i], realname, createdBy) else before[i]
  }

  lemma RetireStep(rows: seq<Charge>, before: seq<Charge>, done: set<int>, realname: string, createdBy: int, id: int)
    requires RetiredSoFar(rows, before, done, realname, createdBy) && 1 <= id <= |before|
    ensures RetiredSoFar(rows[id - 1 := CascadeRow(before[id - 1], realname, createdBy)], before, done + {id}, realname, createdBy)
  {
  }

  lemma HitIsRow(rs: seq<Charge>, h: Charge)
    requires forall i :: 0 <= i < |rs| ==> rs[i].id == i + 1
    requires h in rs
    ensures 1 <= h.id <= |rs| && rs[h.id - 1] == h
  {
  }

  /** Without a creator filter every matching default category is listed
      twice, once among the defaults and once among the rest. */
  lemma DefaultsListedTwice(table: TypeTable, q: TypeQuery, t: ChargeType)
    requires table.Valid()
    requires q.createdBy.None? && t in table.rows && t.createdBy == 0 && t.status == 1
    requires FieldMatches(q.balanceType, t.balanceType)
    ensures exists i, j :: (0 <= i < j < |table.FindManyPersonal(q)|
                            && table.FindManyPersonal(q)[i] == t && table.FindManyPersonal(q)[j] == t)
  {
    ConcatRepeats(table.rows, PersonalDefaults(q), PersonalCustom(q), t);
    assert table.FindManyPersonal(q) == Filter(table.rows, PersonalDefaults(q)) + Filter(table.rows, PersonalCustom(q));
  }
  /** With a creator filter the list is the defaults and then the creator's
      own categories, each part in id order, so no category is listed twice. */
  lemma DefaultsThenOwn(table: TypeTable, q: TypeQuery)
    requires table.Valid() && q.createdBy.Some? && q.createdBy.value != 0
    ensures var r := table.FindManyPersonal(q);
      forall i, j :: 0 <= i < j < |r| ==>
        && (r[j].createdBy == 0 ==> r[i].createdBy == 0)
        && (r[i].createdBy == r[j].createdBy ==> r[i].id < r[j].id)
  {
    var d := Filter(table.rows, PersonalDefaults(q));
    var c := Filter(table.rows, PersonalCustom(q));
    assert table.FindManyPersonal(q) == d + c;
    FilterKeepsIncreasing(table.rows, PersonalDefaults(q), (t: ChargeType) => t.id);
    FilterKeepsIncreasing(table.rows, PersonalCustom(q), (t: ChargeType) => t.id);
    var r := d + c;
    forall i, j | 0 <= i < j < |r|
      ensures (r[j].createdBy == 0 ==> r[i].createdBy == 0) && (r[i].createdBy == r[j].createdBy ==> r[i].id < r[j].id)
    {
      if j < |d| {
        assert r[i] == d[i] && r[j] == d[j];
      } else if i >= |d| {
        assert r[i] == c[i - |d|] && r[j] == c[j - |d|];
      } else {
        assert r[i] == d[i] && d[i] in d && r[j] == c[j - |d|] && c[j - |d|] in c;
      }
    }
  }
}
