/** Shared vocabulary of the services: optional values, the HTTP outcome of a
    service call, the user and team records that several services look up,
    and the sequence searches that stand in for the repository's
    `findOne`/`find` queries over an in-memory table. */
module Common {

  datatype Option<+T> = None | Some(value: T)

  /** The response code a service returns. `ServerError` is an exception the
      service does not catch (a property read on `undefined`), which the web
      framework answers with status 500. */
  datatype Status = Ok | Created | BadRequest | NotFound | Conflict | ServerError
  {
    function Code(): (c: int)
      ensures 200 <= c < 600
      ensures (c < 300) <==> (this == Ok || this == Created)
    {
      match this
      case Ok => 200
      case Created => 201
      case BadRequest => 400
      case NotFound => 404
      case Conflict => 409
      case ServerError => 500
    }
  }

  /** A row of the `users` table, reduced to the columns the services read or write.
      `teamId == 0` stands for the column being empty (falsy). */
  datatype User = User(id: int, nickname: string, status: int, teamId: int, teamName: string)

  /** A row of the `teams` table. */
  datatype Team = Team(id: int, members: string, membersNum: int, name: string,
                       primaryKey: string, owner: int, status: int)

  /** Index of the first element satisfying `p`, like `Array.prototype.findIndex`
      or a repository `findOne` over rows kept in primary-key order. The
      search misses only when no element qualifies. */
  function FindFirst<T>(s: seq<T>, p: T -> bool): (r: Option<nat>)
    ensures r.Some? ==> r.value < |s| && p(s[r.value])
    ensures r.Some? ==> forall j :: 0 <= j < r.value ==> !p(s[j])
    ensures r.None? ==> forall j :: 0 <= j < |s| ==> !p(s[j])
  {
    if s == [] then None
    else if p(s[0]) then Some(0)
    else match FindFirst(s[1..], p)
      case None => None
      case Some(k) => Some(k + 1)
  }

  /** Searching a sequence with one more element at the end finds the same
      index, or the new element when nothing before it qualifies. */
  lemma FindFirstSnoc<T>(s: seq<T>, x: T, p: T -> bool)
    ensures FindFirst(s + [x], p) ==
      if FindFirst(s, p).Some? then FindFirst(s, p) else if p(x) then Some(|s|) else None
  {
    var t := s + [x];
    var f := FindFirst(s, p);
    var want := if f.Some? then f else if p(x) then Some(|s|) else None;
    forall j | 0 <= j < |s| ensures t[j] == s[j] {
    }
    FindFirstIs(t, p, want);
  }

  /** Only one answer has the first-match properties. */
  lemma FindFirstIs<T>(s: seq<T>, p: T -> bool, r: Option<nat>)
    requires r.Some? ==> r.value < |s| && p(s[r.value]) && forall j :: 0 <= j < r.value ==> !p(s[j])
    requires r.None? ==> forall j :: 0 <= j < |s| ==> !p(s[j])
    ensures FindFirst(s, p) == r
  {
  }

  /** `findOneById` on the users table: the user row with this id. */
  function UserById(users: seq<User>, id: int): (r: Option<User>)
    ensures r.Some? ==> r.value in users && r.value.id == id
    ensures r.None? ==> forall j :: 0 <= j < |users| ==> users[j].id != id
  {
    match FindFirst(users, (u: User) => u.id == id)
    case Some(i) => Some(users[i])
    case None => None
  }

  /** `findOneById` on the teams table, whatever the team's status. */
  function TeamById(teams: seq<Team>, id: int): (r: Option<Team>)
    ensures r.Some? ==> r.value in teams && r.value.id == id
    ensures r.None? ==> forall j :: 0 <= j < |teams| ==> teams[j].id != id
  {
    match FindFirst(teams, (t: Team) => t.id == id)
    case Some(i) => Some(teams[i])
    case None => None
  }

  /** The elements satisfying `p`, in their original order (a repository `find`). */
  function Filter<T>(s: seq<T>, p: T -> bool): (r: seq<T>)
    ensures |r| <= |s|
    ensures forall x :: x in r ==> x in s && p(x)
  {
    if s == [] then []
    else (if p(s[0]) then [s[0]] else []) + Filter(s[1..], p)
  }

  /** Every qualifying element is kept. */
  lemma {:induction false} FilterKeeps<T>(s: seq<T>, p: T -> bool, x: T)
    requires x in s && p(x)
    ensures x in Filter(s, p)
  {
    if s[0] != x {
      FilterKeeps(s[1..], p, x);
    }
  }

  /** Filtering a sequence with one more element at the end. */
  lemma {:induction false} FilterSnoc<T>(s: seq<T>, x: T, p: T -> bool)
    ensures Filter(s + [x], p) == Filter(s, p) + (if p(x) then [x] else [])
  {
    if s == [] {
      assert [x][1..] == [];
    } else {
      assert (s + [x])[1..] == s[1..] + [x];
      FilterSnoc(s[1..], x, p);
    }
  }

  predicate IncreasingBy<T>(s: seq<T>, key: T -> int) {
    forall i, j :: 0 <= i < j < |s| ==> key(s[i]) < key(s[j])
  }

  predicate NondecreasingBy<T>(s: seq<T>, key: T -> int) {
    forall i, j :: 0 <= i < j < |s| ==> key(s[i]) <= key(s[j])
  }

  /** Filtering keeps the relative order: a key that strictly increases along
      `s` strictly increases along the filtered sequence. */
  lemma {:induction false} FilterKeepsIncreasing<T>(s: seq<T>, p: T -> bool, key: T -> int)
    requires IncreasingBy(s, key)
    ensures IncreasingBy(Filter(s, p), key)
  {
    if s != [] {
      FilterKeepsIncreasing(s[1..], p, key);
      var rest := Filter(s[1..], p);
      if p(s[0]) {
        var r := Filter(s, p);
        assert r == [s[0]] + rest;
        forall m | 0 <= m < |rest| ensures key(s[0]) < key(rest[m]) {
          assert rest[m] in s[1..];
          var k :| 0 <= k < |s| - 1 && s[1..][k] == rest[m];
          assert s[k + 1] == rest[m];
        }
        forall i, j | 0 <= i < j < |r| ensures key(r[i]) < key(r[j]) {
          if i == 0 {
            assert r[0] == s[0] && r[j] == rest[j - 1];
          } else {
            assert r[i] == rest[i - 1] && r[j] == rest[j - 1];
          }
        }
      } else {
        assert Filter(s, p) == rest;
      }
    }
  }

  /** The same for a key that never decreases. */
  lemma {:induction false} FilterKeepsNondecreasing<T>(s: seq<T>, p: T -> bool, key: T -> int)
    requires NondecreasingBy(s, key)
    ensures NondecreasingBy(Filter(s, p), key)
  {
    if s != [] {
      FilterKeepsNondecreasing(s[1..], p, key);
      var rest := Filter(s[1..], p);
      if p(s[0]) {
        var r := Filter(s, p);
        assert r == [s[0]] + rest;
        forall m | 0 <= m < |rest| ensures key(s[0]) <= key(rest[m]) {
          assert rest[m] in s[1..];
          var k :| 0 <= k < |s| - 1 && s[1..][k] == rest[m];
          assert s[k + 1] == rest[m];
        }
        forall i, j | 0 <= i < j < |r| ensures key(r[i]) <= key(r[j]) {
          if i == 0 {
            assert r[0] == s[0] && r[j] == rest[j - 1];
          } else {
            assert r[i] == rest[i - 1] && r[j] == rest[j - 1];
          }
        }
      } else {
        assert Filter(s, p) == rest;
      }
    }
  }
}
