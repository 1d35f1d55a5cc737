/** The category-order records of `PersonalSortService` and `TeamSortService`.
    The two services are the same code over two tables: a personal record is
    owned by a user (`created_by`), a team record by a team (`team_id`). Here
    `owner` stands for either, and the owner lookup the services make first
    (`usersService.findOneById` or `teamService.findOneById`) is the set
    `owners` of ids for which that lookup returns a row. */
module SortService {
  import opened Common
  import opened Csv
  import opened SortOrder

  /** A row of `personal_sort` / `team_sort`: `typesIdsSort` is the
      comma-joined order of the category ids of one balance type. */
  datatype SortRecord = SortRecord(id: int, owner: int, balanceType: int, typesIdsSort: string, status: int)

  /** The order stored after moving `origin` behind `move` in `stored`. */
  function Reordered(stored: string, origin: string, move: string): string
  {
    Join(MoveAfter(Split(stored, ','), origin, move), ',')
  }

  class SortTable {
    var rows: seq<SortRecord>

    /** Rows carry the auto-increment key: the row at index i has id i + 1. */
    ghost predicate Valid()
      reads this
    {
      forall i :: 0 <= i < |rows| ==> rows[i].id == i + 1
    }

    constructor()
      ensures rows == [] && Valid()
    {
      rows := [];
    }

    /** `findOneById`: the row with this id, if it is active. */
    function FindById(id: int): (r: Option<SortRecord>)
      requires Valid()
      reads this
      ensures r.Some? ==> r.value in rows && r.value.id == id && r.value.status == 1
      ensures (exists i :: 0 <= i < |rows| && rows[i].id == id && rows[i].status == 1) ==> r.Some?
    {
      if 1 <= id <= |rows| && rows[id - 1].status == 1 then Some(rows[id - 1]) else None
    }

    /** `findOneByCreatedByAndBalanceType` / `findOneByTeamIdAndBalanceType`:
        the index of the first active row of this owner and balance type. */
    function FindByOwner(owner: int, balanceType: int): (r: Option<nat>)
      reads this
      ensures r.Some? ==> (r.value < |rows| && rows[r.value].owner == owner
                           && rows[r.value].balanceType == balanceType && rows[r.value].status == 1)
      ensures r.Some? ==> forall j :: 0 <= j < r.value ==> !(rows[j].owner == owner && rows[j].balanceType == balanceType && rows[j].status == 1)
      ensures (exists j :: 0 <= j < |rows| && rows[j].owner == owner && rows[j].balanceType == balanceType && rows[j].status == 1) ==> r.Some?
    {
      FindFirst(rows, (x: SortRecord) => x.owner == owner && x.balanceType == balanceType && x.status == 1)
    }

    /** `createPersonalSort` / `createTeamSort`: an unknown owner is NOT_FOUND;
        otherwise a new active row is saved under the next id, whatever id
        or status the client sent. */
    method Create(owners: set<int>, owner: int, balanceType: int, typesIdsSort: string) returns (s: Status)
      requires Valid()
      modifies this
      ensures Valid()
      ensures owner !in owners ==> s == NotFound && rows == old(rows)
      ensures owner in owners ==>
        s == Created && rows == old(rows) + [SortRecord(|old(rows)| + 1, owner, balanceType, typesIdsSort, 1)]
    {
      if owner !in owners {
        return NotFound;
      }
      rows := rows + [SortRecord(|rows| + 1, owner, balanceType, typesIdsSort, 1)];
      s := Created;
    }

    /** `updatePersonalSortByUser` / `updateTeamSortByUser`. An unknown owner
        is NOT_FOUND; a missing order record makes the source read a property
        of `undefined`, a server error. Otherwise only `typesIdsSort` of that
        record changes, to the edited order joined with ','. The source's
        "no sort record" branch for an empty split is absent: `Split` never
        returns an empty list. */
    method UpdateByOwner(owners: set<int>, owner: int, balanceType: int, origin: string, move: string)
      returns (s: Status)
      requires Valid()
      modifies this
      ensures Valid()
      ensures owner !in owners ==> s == NotFound && rows == old(rows)
      ensures owner in owners && old(FindByOwner(owner, balanceType)).None? ==> s == ServerError && rows == old(rows)
      ensures owner in owners && old(FindByOwner(owner, balanceType)).Some? ==>
        var k := old(FindByOwner(owner, balanceType)).value;
        var rec := old(rows)[k];
        s == Ok && rows == old(rows)[k := rec.(typesIdsSort := Reordered(rec.typesIdsSort, origin, move))]
    {
      if owner !in owners {
        return NotFound;
      }
      var found := FindByOwner(owner, balanceType);
      if found.None? {
        return ServerError;
      }
      var k := found.value;
      var ids := Split(rows[k].typesIdsSort, ',');
      var edited := Reorder(ids, origin, move);
      rows := rows[k := rows[k].(typesIdsSort := Join(edited, ','))];
      s := Ok;
    }

    /** `deletePersonalSort` / `deleteTeamSort`: NOT_FOUND unless the row is
        active; otherwise only its status becomes 0. */
    method Delete(id: int) returns (s: Status)
      requires Valid()
      modifies this
      ensures Valid()
      ensures old(FindById(id)).None? ==> s == NotFound && rows == old(rows)
      ensures old(FindById(id)).Some? ==> s == Ok && rows == old(rows)[id - 1 := old(rows)[id - 1].(status := 0)]
    {
      if FindById(id).None? {
        return NotFound;
      }
      rows := rows[id - 1 := rows[id - 1].(status := 0)];
      s := Ok;
    }

    /** `updatePersonalSort` / `updateTeamSort`: NOT_FOUND before BAD_REQUEST
        for an empty order; otherwise only `typesIdsSort` changes. */
    method Update(id: int, typesIdsSort: string) returns (s: Status)
      requires Valid()
      modifies this
      ensures Valid()
      ensures old(FindById(id)).None? ==> s == NotFound && rows == old(rows)
      ensures old(FindById(id)).Some? && typesIdsSort == "" ==> s == BadRequest && rows == old(rows)
      ensures old(FindById(id)).Some? && typesIdsSort != "" ==>
        s == Ok && rows == old(rows)[id - 1 := old(rows)[id - 1].(typesIdsSort := typesIdsSort)]
    {
      if FindById(id).None? {
        return NotFound;
      }
      if typesIdsSort == "" {
        return BadRequest;
      }
      rows := rows[id - 1 := rows[id - 1].(typesIdsSort := typesIdsSort)];
      s := Ok;
    }
  }

  /** Every id of the edited order was in the old order or is `origin`. */
  lemma MoveAfterElements(ids: seq<string>, origin: string, move: string)
    ensures forall x :: x in MoveAfter(ids, origin, move) ==> x in ids || x == origin
  {
    if IndexOf(ids, origin) >= 0 {
      var i := IndexOf(ids, origin);
      var rest := RemoveAt(ids, i);
      assert forall x :: x in rest ==> x in ids;
      var r := InsertAt(rest, IndexOf(rest, move) + 1, origin);
      assert forall x :: x in r ==> x in rest || x == origin;
    } else {
      var grown := InsertAt(ids, IndexOf(ids, move) + 1, origin);
      assert forall x :: x in grown ==> x in ids || x == origin;
    }
  }

  /** The stored order reads back as the edited list: splitting the new
      `typesIdsSort` gives exactly `MoveAfter` of the old split, as long as
      the moved id has no comma in it. */
  lemma ReorderedReadsBack(stored: string, origin: string, move: string)
    requires ',' !in origin
    ensures Split(Reordered(stored, origin, move), ',') == MoveAfter(Split(stored, ','), origin, move)
  {
    var ids := Split(stored, ',');
    var edited := MoveAfter(ids, origin, move);
    MoveAfterElements(ids, origin, move);
    forall i | 0 <= i < |edited| ensures ',' !in edited[i] {
      assert edited[i] in edited;
      if edited[i] != origin {
        var j :| 0 <= j < |ids| && ids[j] == edited[i];
      }
    }
    SplitJoin(edited, ',');
  }

  /** Moving an id after itself leaves the stored order as it was when that
      id already leads the list and occurs once in it. */
  lemma SelfMoveAtFront(stored: string, origin: string)
    requires Split(stored, ',')[0] == origin
    requires OccursOnce(Split(stored, ','), origin)
    ensures Reordered(stored, origin, origin) == stored
  {
    var ids := Split(stored, ',');
    MoveToFront(ids, origin, origin);
    assert IndexOf(ids, origin) == 0;
    assert [origin] + RemoveAt(ids, 0) == ids;
    JoinSplit(stored, ',');
  }
}
