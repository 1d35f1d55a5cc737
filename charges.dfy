/** The charge records of `PersonalChargeService` and `TeamChargeService`.
    Both services keep the same columns apart from `team_id`, which only the
    team table has (it is 0 here for a personal record), and their delete,
    update, query and summary code is the same; only creation differs. A
    `charge_time` is a number of seconds in local time, so that the string
    order of the column's 'YYYY-MM-DD HH:mm:ss' values is the order of the
    numbers; amounts are integers. */
module Charges {
  import opened Common

  const SecondsPerDay := 86400

  /** A row of `personal_charge_records` / `team_charge_records`. */
  datatype Charge = Charge(id: int, createdBy: int, teamId: int, chargeType: string, balanceType: int,
                           chargeNum: int, chargeTime: int, remark: string, status: int)

  /** What the client sends to create a record. `chargeNum` is `None` when
      the field is missing or not a number, `chargeTime` when it is missing;
      an id of 0 stands for a missing id. */
  datatype ChargeInput = ChargeInput(chargeNum: Option<int>, chargeType: string, createdBy: int, teamId: int,
                                     balanceType: int, chargeTime: Option<int>, remark: string)

  /** `moment(t).format('YYYY-MM-DD') + ' 00:00:00'`: midnight of the day of `t`. */
  function DayStart(t: int): (r: int)
    ensures r <= t < r + SecondsPerDay && r % SecondsPerDay == 0
  {
    t - t % SecondsPerDay
  }

  /** The time condition of `findMany`: a two-element `charge_time_range`
      gives an inclusive range and wins over `charge_time`, which gives an
      exact time; with neither there is no time condition. */
  datatype TimeFilter = AnyTime | At(time: int) | Within(lo: int, hi: int)

  /** The query of `findMany*Charges`. A field is `None` when the client
      leaves it out; `status` overrides the default of 1. */
  datatype ChargeQuery = ChargeQuery(id: Option<int>, createdBy: Option<int>, teamId: Option<int>,
                                     chargeType: Option<string>, balanceType: Option<int>, chargeNum: Option<int>,
                                     remark: Option<string>, status: Option<int>, chargeTime: Option<int>,
                                     chargeTimeRange: Option<seq<int>>)

  /** A query object with no keys at all. */
  predicate NoKeys(q: ChargeQuery) {
    && q.id.None? && q.createdBy.None? && q.teamId.None? && q.chargeType.None? && q.balanceType.None?
    && q.chargeNum.None? && q.remark.None? && q.status.None? && q.chargeTime.None? && q.chargeTimeRange.None?
  }

  function TimeFilterOf(q: ChargeQuery): TimeFilter
  {
    if q.chargeTimeRange.Some? && |q.chargeTimeRange.value| == 2 then
      Within(q.chargeTimeRange.value[0], q.chargeTimeRange.value[1])
    else if q.chargeTime.Some? then At(q.chargeTime.value)
    else AnyTime
  }

  predicate FieldMatches<T(==)>(want: Option<T>, have: T) {
    want.None? || want.value == have
  }

  predicate TimeMatches(f: TimeFilter, t: int) {
    match f
    case AnyTime => true
    case At(x) => t == x
    case Within(lo, hi) => lo <= t <= hi
  }

  /** The `where` clause of `findMany`. */
  predicate Matches(q: ChargeQuery, c: Charge) {
    && c.status == (if q.status.Some? then q.status.value else 1)
    && FieldMatches(q.id, c.id)
    && FieldMatches(q.createdBy, c.createdBy)
    && FieldMatches(q.teamId, c.teamId)
    && FieldMatches(q.chargeType, c.chargeType)
    && FieldMatches(q.balanceType, c.balanceType)
    && FieldMatches(q.chargeNum, c.chargeNum)
    && FieldMatches(q.remark, c.remark)
    && TimeMatches(TimeFilterOf(q), c.chargeTime)
  }

  /** A range of exactly two times decides the time condition whatever
      exact time is also given; a range of any other length is ignored. */
  lemma RangeBeatsExactTime(q: ChargeQuery, c: Charge)
    ensures q.chargeTimeRange.Some? && |q.chargeTimeRange.value| == 2 ==>
      (Matches(q, c) ==> q.chargeTimeRange.value[0] <= c.chargeTime <= q.chargeTimeRange.value[1])
    ensures !(q.chargeTimeRange.Some? && |q.chargeTimeRange.value| == 2) && q.chargeTime.Some? ==>
      (Matches(q, c) ==> c.chargeTime == q.chargeTime.value)
    ensures q.status.None? && Matches(q, c) ==> c.status == 1
  {
  }

  /** One line of the summary: a charge type, the balance type of its first
      record, and the sum of its amounts. */
  datatype SummaryItem = SummaryItem(chargeType: string, balanceType: int, money: int)

  datatype Total = Total(income: int, spend: int)

  /** What `findMany*Charges` returns with a non-empty query. */
  datatype ChargeReport = ChargeReport(result: seq<Charge>, items: seq<SummaryItem>, total: Total)

  function OfType(t: string): Charge -> bool {
    (c: Charge) => c.chargeType == t
  }

  function ItemOfType(t: string): SummaryItem -> bool {
    (it: SummaryItem) => it.chargeType == t
  }

  /** The charge types of `cs` in the order of their first occurrence. */
  function DistinctTypes(cs: seq<Charge>): seq<string>
  {
    if cs == [] then []
    else
      var d := DistinctTypes(cs[..|cs| - 1]);
      var t := cs[|cs| - 1].chargeType;
      if t in d then d else d + [t]
  }

  /** The sum of the amounts of the records of type `t`. */
  function SumOf(cs: seq<Charge>, t: string): int
  {
    if cs == [] then 0
    else SumOf(cs[..|cs| - 1], t) + (if cs[|cs| - 1].chargeType == t then cs[|cs| - 1].chargeNum else 0)
  }

  /** The balance type of the first record of type `t`. */
  function FirstBalance(cs: seq<Charge>, t: string): int
  {
    match FindFirst(cs, OfType(t))
    case Some(i) => cs[i].balanceType
    case None => 0
  }

  /** The summary items: one per distinct type, in first-occurrence order. */
  function SummaryOf(cs: seq<Charge>): (items: seq<SummaryItem>)
    ensures |items| == |DistinctTypes(cs)|
  {
    var d := DistinctTypes(cs);
    seq(|d|, j requires 0 <= j < |d| => SummaryItem(d[j], FirstBalance(cs, d[j]), SumOf(cs, d[j])))
  }

  function TotalNum(cs: seq<Charge>): int
  {
    if cs == [] then 0 else TotalNum(cs[..|cs| - 1]) + cs[|cs| - 1].chargeNum
  }

  function MoneyOf(items: seq<SummaryItem>): int
  {
    if items == [] then 0 else items[0].money + MoneyOf(items[1..])
  }

  predicate IsIncome(it: SummaryItem) { it.balanceType != 0 }
  predicate IsSpend(it: SummaryItem) { it.balanceType == 0 }

  /** `total`: income sums the items with a truthy balance type, spend the
      others; an empty side is 0, which is also the sum of no items. */
  function Totals(items: seq<SummaryItem>): Total
  {
    Total(MoneyOf(Filter(items, IsIncome)), MoneyOf(Filter(items, IsSpend)))
  }

  /** The distinct types are exactly the types that occur, each once. */
  lemma {:induction false} DistinctTypesExact(cs: seq<Charge>)
    ensures forall t :: t in DistinctTypes(cs) <==> exists i :: 0 <= i < |cs| && cs[i].chargeType == t
    ensures forall a, b :: 0 <= a < b < |DistinctTypes(cs)| ==> DistinctTypes(cs)[a] != DistinctTypes(cs)[b]
  {
    if cs != [] {
      var p := cs[..|cs| - 1];
      DistinctTypesExact(p);
      assert forall i :: 0 <= i < |p| ==> cs[i] == p[i];
    }
  }

  /** The first occurrences of the distinct types come in the order of the
      list: an earlier item's type first occurs before a later item's. */
  lemma {:induction false} DistinctTypesOrder(cs: seq<Charge>, a: nat, b: nat)
    requires a < b < |DistinctTypes(cs)|
    ensures FindFirst(cs, OfType(DistinctTypes(cs)[a])).Some?
    ensures FindFirst(cs, OfType(DistinctTypes(cs)[b])).Some?
    ensures FindFirst(cs, OfType(DistinctTypes(cs)[a])).value < FindFirst(cs, OfType(DistinctTypes(cs)[b])).value
  {
    var p := cs[..|cs| - 1];
    var c := cs[|cs| - 1];
    var d := DistinctTypes(p);
    assert cs == p + [c];
    DistinctTypesExact(p);
    DistinctTypesExact(cs);
    var ta, tb := DistinctTypes(cs)[a], DistinctTypes(cs)[b];
    FindFirstSnoc(p, c, OfType(ta));
    FindFirstSnoc(p, c, OfType(tb));
    assert ta in d by {
      assert DistinctTypes(cs)[a] == d[a];
    }
    if b < |d| {
      DistinctTypesOrder(p, a, b);
      assert DistinctTypes(cs)[b] == d[b];
    } else {
      assert tb == c.chargeType && tb !in d;
    }
  }

  lemma SnocPrefix(p: seq<Charge>, c: Charge)
    ensures (p + [c])[..|p + [c]| - 1] == p && (p + [c])[|p + [c]| - 1] == c
  {
  }

  /** A record of a type already present does not change that type's
      first balance type. */
  lemma FirstBalanceSnoc(p: seq<Charge>, c: Charge, t: string)
    requires t in DistinctTypes(p)
    ensures FirstBalance(p + [c], t) == FirstBalance(p, t)
  {
    DistinctTypesExact(p);
    var i :| 0 <= i < |p| && p[i].chargeType == t;
    assert OfType(t)(p[i]);
    FindFirstSnoc(p, c, OfType(t));
  }

  lemma SumSnoc(p: seq<Charge>, c: Charge, t: string)
    ensures SumOf(p + [c], t) == SumOf(p, t) + (if c.chargeType == t then c.chargeNum else 0)
  {
    SnocPrefix(p, c);
  }

  /** Adding a record of a type not seen before appends an item. */
  lemma SummaryAppend(p: seq<Charge>, c: Charge)
    requires c.chargeType !in DistinctTypes(p)
    ensures SummaryOf(p + [c]) == SummaryOf(p) + [SummaryItem(c.chargeType, c.balanceType, c.chargeNum)]
  {
    var q := p + [c];
    SnocPrefix(p, c);
    var d := DistinctTypes(p);
    assert DistinctTypes(q) == d + [c.chargeType];
    var a, b := SummaryOf(q), SummaryOf(p) + [SummaryItem(c.chargeType, c.balanceType, c.chargeNum)];
    forall j | 0 <= j < |d| ensures a[j] == b[j] {
      assert d[j] in d;
      FirstBalanceSnoc(p, c, d[j]);
      SumSnoc(p, c, d[j]);
    }
    FindFirstSnoc(p, c, OfType(c.chargeType));
    DistinctTypesExact(p);
    assert FindFirst(p, OfType(c.chargeType)).None?;
    SumAbsent(p, c.chargeType);
    SumSnoc(p, c, c.chargeType);
    assert a[|d|] == b[|d|];
  }

  /** Adding a record of a type already present adds its amount to that
      type's item and changes nothing else. */
  lemma SummaryBump(p: seq<Charge>, c: Charge, j: nat)
    requires j < |DistinctTypes(p)| && DistinctTypes(p)[j] == c.chargeType
    ensures SummaryOf(p + [c]) == SummaryOf(p)[j := SummaryOf(p)[j].(money := SummaryOf(p)[j].money + c.chargeNum)]
  {
    var q := p + [c];
    SnocPrefix(p, c);
    var d := DistinctTypes(p);
    assert c.chargeType in d;
    assert DistinctTypes(q) == d;
    var a, b := SummaryOf(q), SummaryOf(p)[j := SummaryOf(p)[j].(money := SummaryOf(p)[j].money + c.chargeNum)];
    forall k | 0 <= k < |d| ensures a[k] == b[k] {
      assert d[k] in d;
      FirstBalanceSnoc(p, c, d[k]);
      SumSnoc(p, c, d[k]);
      DistinctTypesExact(p);
    }
  }

  lemma {:induction false} SumAbsent(cs: seq<Charge>, t: string)
    requires t !in DistinctTypes(cs)
    ensures SumOf(cs, t) == 0
  {
    DistinctTypesExact(cs);
    if cs != [] {
      var p := cs[..|cs| - 1];
      DistinctTypesExact(p);
      assert forall i :: 0 <= i < |p| ==> p[i] == cs[i];
      SumAbsent(p, t);
    }
  }

  /** The summary loop of `findMany*Charges`: look the record's type up
      among the items with `find`; add a new item for a new type, otherwise
      add the amount to the item found. */
  method Summarize(cs: seq<Charge>) returns (items: seq<SummaryItem>)
    ensures items == SummaryOf(cs)
  {
    items := [];
    for k := 0 to |cs|
      invariant items == SummaryOf(cs[..k])
    {
      var c := cs[k];
      ghost var p := cs[..k];
      assert cs[..k + 1] == p + [c];
      var found := FindFirst(items, ItemOfType(c.chargeType));
      assert c.chargeType in DistinctTypes(p) ==> found.Some? by {
        if c.chargeType in DistinctTypes(p) {
          var j :| 0 <= j < |DistinctTypes(p)| && DistinctTypes(p)[j] == c.chargeType;
          assert ItemOfType(c.chargeType)(items[j]);
        }
      }
      if found.None? {
        SummaryAppend(p, c);
        items := items + [SummaryItem(c.chargeType, c.balanceType, c.chargeNum)];
      } else {
        var j := found.value;
        SummaryBump(p, c, j);
        items := items[j := items[j].(money := items[j].money + c.chargeNum)];
      }
    }
    assert cs[..|cs|] == cs;
  }

  lemma {:induction false} MoneyAppend(s: seq<SummaryItem>, x: SummaryItem)
    ensures MoneyOf(s + [x]) == MoneyOf(s) + x.money
  {
    if s != [] {
      assert (s + [x])[1..] == s[1..] + [x];
      MoneyAppend(s[1..], x);
    }
  }

  lemma {:induction false} MoneyBump(s: seq<SummaryItem>, j: nat, m: int)
    requires j < |s|
    ensures MoneyOf(s[j := s[j].(money := m)]) == MoneyOf(s) - s[j].money + m
  {
    if j > 0 {
      assert s[j := s[j].(money := m)][1..] == s[1..][j - 1 := s[1..][j - 1].(money := m)];
      MoneyBump(s[1..], j - 1, m);
    }
  }

  /** The items' money adds up to the sum of all amounts. */
  lemma {:induction false} SummaryMoney(cs: seq<Charge>)
    ensures MoneyOf(SummaryOf(cs)) == TotalNum(cs)
  {
    if cs != [] {
      var p := cs[..|cs| - 1];
      var c := cs[|cs| - 1];
      assert TotalNum(cs) == TotalNum(p) + c.chargeNum;
      assert MoneyOf(SummaryOf(cs)) == MoneyOf(SummaryOf(p)) + c.chargeNum by {
        assert cs == p + [c];
        if c.chargeType in DistinctTypes(p) {
          var j :| 0 <= j < |DistinctTypes(p)| && DistinctTypes(p)[j] == c.chargeType;
          SummaryBump(p, c, j);
          MoneyBump(SummaryOf(p), j, SummaryOf(p)[j].money + c.chargeNum);
        } else {
          SummaryAppend(p, c);
          MoneyAppend(SummaryOf(p), SummaryItem(c.chargeType, c.balanceType, c.chargeNum));
        }
      }
      SummaryMoney(p);
    }
  }

  /** Income and spend split the items: together they are all the money. */
  lemma {:induction false} TotalsAddUp(items: seq<SummaryItem>)
    ensures Totals(items).income + Totals(items).spend == MoneyOf(items)
  {
    if items != [] {
      var x, rest := items[0], items[1..];
      TotalsAddUp(rest);
      var inc, spd := Filter(rest, IsIncome), Filter(rest, IsSpend);
      if IsIncome(x) {
        assert Filter(items, IsIncome) == [x] + inc && Filter(items, IsSpend) == spd;
        assert ([x] + inc)[1..] == inc;
      } else {
        assert Filter(items, IsSpend) == [x] + spd && Filter(items, IsIncome) == inc;
        assert ([x] + spd)[1..] == spd;
      }
    }
  }

  /** So income plus spend is the sum of the amounts of the records found. */
  lemma TotalsOfCharges(cs: seq<Charge>)
    ensures Totals(SummaryOf(cs)).income + Totals(SummaryOf(cs)).spend == TotalNum(cs)
  {
    TotalsAddUp(SummaryOf(cs));
    SummaryMoney(cs);
  }

  class ChargeTable {
    var rows: seq<Charge>

    /** Rows carry the auto-increment key: the row at index i has id i + 1. */
    ghost predicate Valid()
      reads this
    {
      forall i :: 0 <= i < |rows| ==> rows[i].id == i + 1
    }

    constructor()
      ensures rows == [] && Valid()
    {
      rows := [];
    }

    /** `findOneById`: the record with this id, if it is active. */
    function FindById(id: int): (r: Option<Charge>)
      requires Valid()
      reads this
      ensures r.Some? ==> r.value in rows && r.value.id == id && r.value.status == 1
      ensures (exists i :: 0 <= i < |rows| && rows[i].id == id && rows[i].status == 1) ==> r.Some?
    {
      if 1 <= id <= |rows| && rows[id - 1].status == 1 then Some(rows[id - 1]) else None
    }

    /** `findMany`: the records the query selects, in table order. */
    function FindMany(q: ChargeQuery): (r: seq<Charge>)
      requires Valid()
      reads this
      ensures forall c :: c in r <==> c in rows && Matches(q, c)
      ensures IncreasingBy(r, (c: Charge) => c.id)
    {
      forall c | c in rows && Matches(q, c) ensures c in Filter(rows, (x: Charge) => Matches(q, x)) {
        FilterKeeps(rows, (x: Charge) => Matches(q, x), c);
      }
      FilterKeepsIncreasing(rows, (x: Charge) => Matches(q, x), (c: Charge) => c.id);
      Filter(rows, (x: Charge) => Matches(q, x))
    }

    /** `findManyByChargeType(charge_type, created_by)`: the active records
        of a type and a creator, in table order. */
    function FindByTypeAndCreator(chargeType: string, createdBy: int): (r: seq<Charge>)
      requires Valid()
      reads this
      ensures forall c :: c in r <==> c in rows && c.chargeType == chargeType && c.createdBy == createdBy && c.status == 1
      ensures IncreasingBy(r, (c: Charge) => c.id)
    {
      var p := (x: Charge) => x.chargeType == chargeType && x.createdBy == createdBy && x.status == 1;
      forall c | c in rows && p(c) ensures c in Filter(rows, p) {
        FilterKeeps(rows, p, c);
      }
      FilterKeepsIncreasing(rows, p, (c: Charge) => c.id);
      Filter(rows, p)
    }

    /** `findManyByTeamId`: the active records of a team, in table order. */
    function FindByTeam(teamId: int): (r: seq<Charge>)
      requires Valid()
      reads this
      ensures forall c :: c in r <==> c in rows && c.teamId == teamId && c.status == 1
    {
      var p := (x: Charge) => x.teamId == teamId && x.status == 1;
      forall c | c in rows && p(c) ensures c in Filter(rows, p) {
        FilterKeeps(rows, p, c);
      }
      Filter(rows, p)
    }

    /** `createPersonalCharge`: BAD_REQUEST for a zero or missing amount, an
        empty type or a missing creator; NOT_FOUND for an unknown user;
        otherwise an active record is added under the next id, dated at
        midnight of `now`, the time the request is served. */
    method CreatePersonal(users: seq<User>, input: ChargeInput, now: int) returns (s: Status)
      requires Valid()
      modifies this
      ensures Valid()
      ensures input.chargeNum.None? || input.chargeNum.value == 0 || input.chargeType == "" || input.createdBy == 0 ==>
        s == BadRequest && rows == old(rows)
      ensures (input.chargeNum.Some? && input.chargeNum.value != 0 && input.chargeType != "" && input.createdBy != 0
               && UserById(users, input.createdBy).None?) ==> s == NotFound && rows == old(rows)
      ensures (input.chargeNum.Some? && input.chargeNum.value != 0 && input.chargeType != "" && input.createdBy != 0
               && UserById(users, input.createdBy).Some?) ==>
        s == Created && rows == old(rows) + [Charge(|old(rows)| + 1, input.createdBy, 0, input.chargeType, input.balanceType,
                                                    input.chargeNum.value, DayStart(now), input.remark, 1)]
    {
      if input.chargeNum.None? || input.chargeNum.value == 0 || input.chargeType == "" || input.createdBy == 0 {
        return BadRequest;
      }
      if UserById(users, input.createdBy).None? {
        return NotFound;
      }
      rows := rows + [Charge(|rows| + 1, input.createdBy, 0, input.chargeType, input.balanceType,
                             input.chargeNum.value, DayStart(now), input.remark, 1)];
      s := Created;
    }

    /** `createTeamCharge`: BAD_REQUEST unless the amount is a non-zero
        number and type, creator, team and time are given; NOT_FOUND for a
        missing or inactive user, then for a missing or inactive team;
        otherwise an active record dated at midnight of the given time. */
    method CreateTeam(users: seq<User>, teams: seq<Team>, input: ChargeInput) returns (s: Status)
      requires Valid()
      modifies this
      ensures Valid()
      ensures (|| input.chargeNum.None? || input.chargeNum.value == 0 || input.chargeType == "" || input.createdBy == 0
               || input.teamId == 0 || input.chargeTime.None?) ==> s == BadRequest && rows == old(rows)
      ensures s == NotFound <==>
        && input.chargeNum.Some? && input.chargeNum.value != 0 && input.chargeType != "" && input.createdBy != 0
        && input.teamId != 0 && input.chargeTime.Some?
        && (|| UserById(users, input.createdBy).None? || UserById(users, input.createdBy).value.status == 0
            || TeamById(teams, input.teamId).None? || TeamById(teams, input.teamId).value.status == 0)
      ensures s == NotFound ==> rows == old(rows)
      ensures s == Created <==> s != BadRequest && s != NotFound
      ensures s == Created ==>
        rows == old(rows) + [Charge(|old(rows)| + 1, input.createdBy, input.teamId, input.chargeType, input.balanceType,
                                    input.chargeNum.value, DayStart(input.chargeTime.value), input.remark, 1)]
    {
      if input.chargeNum.None? || input.chargeNum.value == 0 || input.chargeType == "" || input.createdBy == 0
        || input.teamId == 0 || input.chargeTime.None?
      {
        return BadRequest;
      }
      var user := UserById(users, input.createdBy);
      if user.None? || user.value.status == 0 {
        return NotFound;
      }
      var team := TeamById(teams, input.teamId);
      if team.None? || team.value.status == 0 {
        return NotFound;
      }
      rows := rows + [Charge(|rows| + 1, input.createdBy, input.teamId, input.chargeType, input.balanceType,
                             input.chargeNum.value, DayStart(input.chargeTime.value), input.remark, 1)];
      s := Created;
    }

    /** `deletePersonalCharge` / `deleteTeamCharge`: NOT_FOUND unless the
        record is active; otherwise only its status becomes 0, after which
        `findOneById` no longer finds it. */
    method Delete(id: int) returns (s: Status)
      requires Valid()
      modifies this
      ensures Valid()
      ensures old(FindById(id)).None? ==> s == NotFound && rows == old(rows)
      ensures old(FindById(id)).Some? ==> s == Ok && rows == old(rows)[id - 1 := old(rows)[id - 1].(status := 0)]
      ensures FindById(id).None?
    {
      if FindById(id).None? {
        return NotFound;
      }
      rows := rows[id - 1 := rows[id - 1].(status := 0)];
      s := Ok;
    }

    /** `updatePersonalCharge` / `updateTeamCharge`: NOT_FOUND before
        BAD_REQUEST for a zero or missing amount; otherwise the amount and
        remark are set, and the status when one is given. */
    method Update(id: int, chargeNum: Option<int>, remark: string, status: Option<int>) returns (s: Status)
      requires Valid()
      modifies this
      ensures Valid()
      ensures old(FindById(id)).None? ==> s == NotFound && rows == old(rows)
      ensures old(FindById(id)).Some? && (chargeNum.None? || chargeNum.value == 0) ==> s == BadRequest && rows == old(rows)
      ensures old(FindById(id)).Some? && chargeNum.Some? && chargeNum.value != 0 ==>
        var r := old(rows)[id - 1];
        s == Ok && rows == old(rows)[id - 1 := r.(chargeNum := chargeNum.value, remark := remark,
                                                   status := if status.Some? then status.value else r.status)]
    {
      if FindById(id).None? {
        return NotFound;
      }
      if chargeNum.None? || chargeNum.value == 0 {
        return BadRequest;
      }
      var r := rows[id - 1];
      rows := rows[id - 1 := r.(chargeNum := chargeNum.value, remark := remark,
                                status := if status.Some? then status.value else r.status)];
      s := Ok;
    }

    /** `findManyPersonalCharges` / `findManyTeamCharges`. An absent query or
        one with no keys builds a BAD_REQUEST body that is never returned, so
        the call yields `undefined` (`None`). Otherwise the records found,
        their summary and its totals. */
    method FindManyCharges(query: Option<ChargeQuery>) returns (res: Option<ChargeReport>)
      requires Valid()
      ensures res.None? <==> query.None? || NoKeys(query.value)
      ensures res.Some? ==> res.value.result == FindMany(query.value)
      ensures res.Some? ==> res.value.items == SummaryOf(res.value.result)
      ensures res.Some? ==> res.value.total == Totals(res.value.items)
      ensures res.Some? ==> res.value.total.income + res.value.total.spend == TotalNum(res.value.result)
    {
      if query.None? || NoKeys(query.value) {
        return None;
      }
      var found := FindMany(query.value);
      var items := Summarize(found);
      TotalsOfCharges(found);
      res := Some(ChargeReport(found, items, Totals(items)));
    }
  }
}
