# mango-server core, modelled in Dafny

mango-server is the NestJS back end of a bookkeeping app. Users keep personal
accounts and can join a team (a shared account). The core modelled here:

- **week calendar** (`getWeeks`): for each requested year, a map of numbered
  Monday-to-Sunday weeks.
- **category order** (`PersonalSortService`, `TeamSortService`): each owner and
  balance type has one record storing the order of its charge categories as a
  comma-joined id string. A drag-and-drop edit moves one id behind another.
- **charge types** (`PersonalChargeTypeService`, `TeamChargeTypeService`): the
  categories. They are either built-in `default` rows or `custom` ones.
  - Creating a type checks that the name is not already in use and enforces a
    limit of 20 active custom types per user.
  - Deleting a personal type retires every charge booked under it.
- **charges** (`PersonalChargeService`, `TeamChargeService`): the booked income
  and spending. The query operation also returns a per-category summary with
  income and spend totals.
- **teams** (`TeamService`): creating a team and adding a member.
- **validators** (`src/utils/validate.ts`): regular-expression checks for user
  names, nicknames, remarks, passwords, phone numbers, URLs, numbers, port
  lists and IPv4 addresses.

Files:

- `common.dfy` (module `Common`): the user and team records, the service
  outcomes (HTTP status), and the first-match and filter searches the services
  run over their tables.
- `csv.dfy` (module `Csv`): `split`/`join` on one character, plus decimal
  strings.
- `sort_order.dfy` (module `SortOrder`): the "move after" edit. The source's
  step-by-step algorithm (`Reorder`) is proved equal to a reference definition
  (`MoveAfter`).
- `sort_service.dfy` (module `SortService`): the sort record table as a class.
- `weeks.dfy` (module `Weeks`): `getWeeks` as methods with loops, specified by
  week functions on day numbers.
- `validate.dfy` (module `Validate`): each validator, with a lemma stating what
  strings it accepts.
- `charges.dfy` (module `Charges`): the charge table as a class, the query, and
  the summary loop.
- `charge_types.dfy` (module `ChargeTypes`): the charge type table as a class,
  including the delete cascade into the charge table.
- `team.dfy` (module `TeamMembership`): the team service over its team and
  user tables.

Modelling conventions:

- **Tables** are sequences held by a class. The row at index `i` carries the
  auto-increment id `i + 1`.
- **Searches**:
  - a lookup by id reads that index;
  - a `findOne` on other columns returns the first matching row;
  - a `find` returns the matching rows in table order.
- **Outcomes**: each service result is a `Status`.
  - `ServerError` stands for an unhandled exception: a property read on
    `undefined`, which the framework turns into HTTP 500.
- **Personal and team variants**: both variants of a service share one class.
  - A personal charge carries team id 0.
  - Where the two variants differ, there are two methods, e.g.
    `CreatePersonal` and `CreateTeam`.

## Model

| member | source | states |
|---|---|---|
| Common.FindFirst | src/app/personal_sort/personal.sort.service.ts:192-194 | `findOne` returns the first row that matches, or nothing when no row matches |
| Common.UserById | src/app/personal_charge/personal.charge.service.ts:36-41 | the user looked up by id has that id; nothing is found only when no user has it |
| Common.FilterKeepsIncreasing | src/app/personal_charge/personal.charge.service.ts:208-223 | selecting matching rows from a list ordered by id keeps it ordered by id |
| Csv.Split | src/app/personal_sort/personal.sort.service.ts:75 | `split(',')` always gives at least one piece, and no piece contains the separator |
| Csv.JoinSplit | src/app/personal_sort/personal.sort.service.ts:75-91 | splitting the stored order and joining it again with no edit gives back the stored string |
| Csv.SplitJoin | src/app/personal_sort/personal.sort.service.ts:91 | joining separator-free pieces and splitting the result gives back the pieces |
| Csv.DecimalRoundTrip | src/app/team/team.service.ts:95 | a user id written with `toString` reads back as the same number |
| SortOrder.IndexOf | src/app/personal_sort/personal.sort.service.ts:76 | `indexOf` returns the first position of the element, or -1 exactly when the element is absent |
| SortOrder.FindIndex | src/app/personal_sort/personal.sort.service.ts:82-89 | the `findIndex` loop returns the first matching slot, or -1, and agrees with `IndexOf` |
| SortOrder.Reorder | src/app/personal_sort/personal.sort.service.ts:82-89 | the source's sequence of edits equals the reference edit: remove the first `origin`, then insert it right after the first `move`; an absent `origin` drops the last slot |
| SortOrder.PresentCase | src/app/personal_sort/personal.sort.service.ts:82-89 | when `origin` is present, blanking its slot, inserting it after `move` and removing the blank gives `MoveAfter` |
| SortOrder.AbsentCase | src/app/personal_sort/personal.sort.service.ts:82-89 | when `origin` is absent, no blank is found and the last slot is removed (`splice(-1, 1)`), which gives `MoveAfter` |
| SortOrder.MoveKeepsIds | src/app/personal_sort/personal.sort.service.ts:82-89 | with `origin` present, the edit is a permutation of the ids |
| SortOrder.MovePlacesOriginAfterMove | src/app/personal_sort/personal.sort.service.ts:82-89 | for distinct ids that are both present, `origin` ends up directly after `move`; the other ids keep their relative order and the length is unchanged |
| SortOrder.MoveToFront | src/app/personal_sort/personal.sort.service.ts:82-89 | a self-move, or a move after an id that is not in the list, puts `origin` first and keeps the rest in order |
| SortOrder.AbsentOriginDropsLast | src/app/personal_sort/personal.sort.service.ts:82-89 | an `origin` that is not in the list is inserted after `move` and the last id is lost, so the length stays the same |
| SortOrder.AbsentOriginExample | src/app/personal_sort/personal.sort.service.ts:82-89 | moving unknown id 9 after 1 in `1,2,3` gives `1,9,2` |
| SortService.SortTable.constructor | src/app/personal_sort/personal.sort.service.ts:23-49 | the sort table starts empty and well formed |
| SortService.SortTable.FindById | src/app/personal_sort/personal.sort.service.ts:173-175 | finds the active record with that id, and finds one whenever it exists |
| SortService.SortTable.FindByOwner | src/app/team_sort/team.sort.service.ts:192-194 | the first active record with the given owner and balance type, found whenever one exists |
| SortService.SortTable.Create | src/app/personal_sort/personal.sort.service.ts:23-49 | NOT_FOUND for an unknown owner with no write; otherwise CREATED, appending an active record with the next id |
| SortService.SortTable.UpdateByOwner | src/app/personal_sort/personal.sort.service.ts:59-94 | NOT_FOUND for an unknown owner; a server error when the owner has no record; otherwise the record's order becomes `Reordered` of the old order and nothing else changes |
| SortService.SortTable.Delete | src/app/personal_sort/personal.sort.service.ts:101-114 | NOT_FOUND unless an active record has the id; otherwise that record's status becomes 0 |
| SortService.SortTable.Update | src/app/personal_sort/personal.sort.service.ts:122-141 | NOT_FOUND, then BAD_REQUEST for an empty order, then the order is replaced |
| SortService.ReorderedReadsBack | src/app/personal_sort/personal.sort.service.ts:75-91 | the stored string after the edit splits into exactly the moved list |
| SortService.MoveAfterElements | src/app/personal_sort/personal.sort.service.ts:82-89 | every id of the edited order was in the old order or is `origin` |
| SortService.SelfMoveAtFront | src/app/team_sort/team.sort.service.ts:59-94 | moving the first id after itself leaves the stored order unchanged |
| Weeks.FirstMonday | src/utils/getWeeks.ts:7-10 | the first Monday on or after 1 January: within the first seven days, with no Monday before it |
| Weeks.WeekCount | src/utils/getWeeks.ts:14-52 | the number of weeks recorded: the last one starts before the next year and covers the year's last day |
| Weeks.WeeksOfYear | src/utils/getWeeks.ts:7-52 | the loops of one year build exactly the weeks 1..`WeekCount` described by `WeekAt` |
| Weeks.GetWeeks | src/utils/getWeeks.ts:4-57 | the map has one entry per requested year, holding that year's weeks |
| Weeks.YearLength | src/utils/getWeeks.ts:14 | a year has 366 days in leap years and 365 otherwise (the Gregorian rule) |
| Weeks.DayAfter | src/utils/getWeeks.ts:22-25 | stepping days advances `getDay` by the same amount modulo 7 |
| Weeks.WeekShape | src/utils/getWeeks.ts:39-49 | each week lists seven consecutive days starting on a Monday, and `to` is its Sunday |
| Weeks.FirstWeek | src/utils/getWeeks.ts:7-14 | week 1 starts on the first Monday; January days before it belong to no week |
| Weeks.WeekSpacing | src/utils/getWeeks.ts:22-25 | consecutive weeks start seven days apart |
| Weeks.LastWeek | src/utils/getWeeks.ts:29-35 | every week starts inside the year, and the last one contains 31 December |
| Weeks.WeekCountBounds | src/utils/getWeeks.ts:14-52 | a year has 52 or 53 weeks |
| Weeks.WeeksTile | src/utils/getWeeks.ts:39-47 | every day from the first Monday to the end of the last week falls in exactly one week |
| Weeks.WeekCountIsMondays | src/utils/getWeeks.ts:14-52 | the number of weeks equals the number of Mondays in the year |
| Validate.UsernameShape | src/utils/validate.ts:5-7 | `isUsername` accepts exactly an ASCII letter followed by letters, digits or `_`, at most 18 characters in all |
| Validate.NicknameShape | src/utils/validate.ts:13-23 | `isNickname` and `isRemark` accept exactly the strings of letters, digits, `_`, `-` and ideographs U+4E00–U+9FA5, of at most 12 and 20 characters; the empty string is a nickname |
| Validate.NicknameIsRemark | src/utils/validate.ts:13-23 | every valid nickname is a valid remark |
| Validate.IsPassword | src/utils/validate.ts:31-55 | the password check accepts exactly the strings in `PasswordOk`: at least two of digit, special, lower and upper, no character in U+4E00–U+9FFF, and at most 20 UTF-16 units |
| Validate.PasswordExamples | src/utils/validate.ts:25-55 | `abc123` passes and `abcdef` fails; any accepted password has at most 20 characters |
| Validate.PhoneShape | src/utils/validate.ts:78-80 | `isPhone` accepts exactly the strings that split on `-` into the pattern's digit groups |
| Validate.URLShape | src/utils/validate.ts:86-88 | `isURL` accepts exactly the strings that begin with `http://` or `https://` |
| Validate.IntNumberShape | src/utils/validate.ts:102-104 | `isIntNumber` accepts exactly digit strings, the empty one included |
| Validate.FloatNumberShape | src/utils/validate.ts:110-112 | `isFloatNumber` accepts a run of digits in which at most one inner character may be any non-line-terminator code unit |
| Validate.FloatAcceptsAnySeparator | src/utils/validate.ts:110-112 | the unescaped `.` in the pattern lets `1a2` through, while `1.` and the empty string fail |
| Validate.IsPort | src/utils/validate.ts:143-163 | the port check returns exactly `PortOk`: every non-blank piece, split on `,` and then on `-`, is a number no larger than 65535 |
| Validate.CollectPieces | src/utils/validate.ts:145-152 | the splitting loops produce the pieces defined by `PortPieces` |
| Validate.PortNumbers | src/utils/validate.ts:143-163 | a list of numbers joined with `,` or `-` is a valid port string exactly when every number is at most 65535 |
| Validate.PortBlank | src/utils/validate.ts:143-163 | a blank port string is rejected |
| Validate.OctetShape | src/utils/validate.ts:169-171 | one octet of the IPv4 pattern is 1 to 3 digits with a value of at most 255 |
| Validate.Ipv4Accepts | src/utils/validate.ts:169-171 | four numbers of at most 255, joined with `.`, pass `isIpv4` |
| Validate.Ipv4Groups | src/utils/validate.ts:169-171 | an address `isIpv4` accepts splits on `.` into four groups of 1 to 3 digits, each at most 255 |
| Charges.DayStart | src/app/team_charge/team.charge.service.ts:60 | the normalised charge time is midnight of the same day |
| Charges.RangeBeatsExactTime | src/app/personal_charge/personal.charge.service.ts:211-216 | a two-element time range replaces an exact time filter; without a status filter only active charges match |
| Charges.ChargeTable.constructor | src/app/personal_charge/personal.charge.service.ts:22-55 | the charge table starts empty and well formed |
| Charges.ChargeTable.FindById | src/app/personal_charge/personal.charge.service.ts:199-201 | the active charge with that id, found whenever it exists |
| Charges.ChargeTable.FindMany | src/app/personal_charge/personal.charge.service.ts:208-223 | exactly the rows that match every given column and the time filter, active unless another status is asked for, in id order |
| Charges.ChargeTable.FindByTypeAndCreator | src/app/personal_charge/personal.charge.service.ts:240-242 | exactly the active charges of one type by one user, in id order |
| Charges.ChargeTable.FindByTeam | src/app/team_charge/team.charge.service.ts:251-253 | exactly the active charges of one team |
| Charges.ChargeTable.CreatePersonal | src/app/personal_charge/personal.charge.service.ts:22-55 | BAD_REQUEST for a missing or zero amount, an empty type or no creator; NOT_FOUND for an unknown user; otherwise an active charge stamped at the start of today is appended |
| Charges.ChargeTable.CreateTeam | src/app/team_charge/team.charge.service.ts:26-67 | BAD_REQUEST as for personal charges; NOT_FOUND when the user or team is missing or inactive; otherwise an active charge at the start of its given day is appended |
| Charges.ChargeTable.Delete | src/app/personal_charge/personal.charge.service.ts:62-75 | NOT_FOUND unless an active charge has the id; otherwise its status becomes 0, and afterwards no active charge has that id |
| Charges.ChargeTable.Update | src/app/personal_charge/personal.charge.service.ts:85-106 | NOT_FOUND, then BAD_REQUEST for a missing or zero amount; otherwise the amount and remark are set, and the status when one is given |
| Charges.Summarize | src/app/personal_charge/personal.charge.service.ts:159-174 | the summary loop builds `SummaryOf`: one item per charge type in order of first appearance, holding the first charge's balance type and the sum of the amounts |
| Charges.DistinctTypesExact | src/app/team_charge/team.charge.service.ts:171-186 | the summary lists each type that occurs exactly once, and lists no other type |
| Charges.DistinctTypesOrder | src/app/team_charge/team.charge.service.ts:171-186 | summary items appear in the order of their type's first charge |
| Charges.SummaryAppend | src/app/personal_charge/personal.charge.service.ts:161-169 | a charge of a new type appends an item holding its amount |
| Charges.SummaryBump | src/app/personal_charge/personal.charge.service.ts:170-173 | a charge of a known type adds its amount to that type's item and leaves the rest unchanged |
| Charges.SumAbsent | src/app/personal_charge/personal.charge.service.ts:159-174 | a type with no charge sums to 0 |
| Charges.SummaryMoney | src/app/personal_charge/personal.charge.service.ts:159-174 | the summary items' money adds up to the total amount of the charges |
| Charges.TotalsAddUp | src/app/personal_charge/personal.charge.service.ts:176-179 | income (non-zero balance type) plus spend (balance type 0) is the money of all items |
| Charges.TotalsOfCharges | src/app/team_charge/team.charge.service.ts:188-191 | income plus spend equals the total amount of the charges found |
| Charges.ChargeTable.FindManyCharges | src/app/personal_charge/personal.charge.service.ts:141-192 | nothing is returned for an absent or empty query; otherwise the result is `FindMany`, with its summary and totals, and the totals add up to the sum of the amounts |
| ChargeTypes.NameLookupFinds | src/app/personal_charge_type/personal.charge.type.service.ts:215-217 | the name lookup (the user's own row, else a row with creator 0) finds a row exactly when an active row of that user or a default has the name, and what it finds matches |
| ChargeTypes.ActiveBy | src/app/personal_charge_type/personal.charge.type.service.ts:224-232 | exactly one user's active types |
| ChargeTypes.RenameLookup | src/app/personal_charge_type/personal.charge.type.service.ts:127-138 | for a user's own type, the lookup reports another row exactly when another visible active type already has the new name |
| ChargeTypes.RenameKeepsUnique | src/app/personal_charge_type/personal.charge.type.service.ts:140-144 | a rename that passes the check keeps names unique |
| ChargeTypes.RetireKeepsUnique | src/app/personal_charge_type/personal.charge.type.service.ts:108 | setting a type's status to 0 keeps both name-uniqueness invariants |
| ChargeTypes.Cascade | src/app/personal_charge_type/personal.charge.type.service.ts:97-105 | the cascade changes no row count |
| ChargeTypes.CascadeEffect | src/app/personal_charge_type/personal.charge.type.service.ts:97-105 | an active charge with the type's realname, by the type's creator and with a non-zero amount, gets status 0; every other charge is unchanged |
| ChargeTypes.CascadeEmptiesSearch | src/app/personal_charge_type/personal.charge.type.service.ts:97-105 | after the cascade the only active charges left under the type are zero-amount ones |
| ChargeTypes.TypeTable.constructor | src/app/personal_charge_type/personal.charge.type.service.ts:26-77 | the type table starts empty and well formed |
| ChargeTypes.TypeTable.FindById | src/app/personal_charge_type/personal.charge.type.service.ts:205-207 | the active type with that id, found whenever it exists |
| ChargeTypes.TypeTable.CreatePersonal | src/app/personal_charge_type/personal.charge.type.service.ts:26-77 | BAD_REQUEST for a missing field; NOT_FOUND for an unknown user; CONFLICT when the name is taken or the user already has 20 active types; otherwise a custom type with the next id is appended |
| ChargeTypes.TypeTable.CreateTeam | src/app/team_charge_type/team.charge.type.service.ts:26-77 | BAD_REQUEST, then NOT_FOUND for a missing or inactive user or team, then CONFLICT when an active type of the team has the name; otherwise the type is appended and team names stay unique |
| ChargeTypes.TypeTable.DeletePersonal | src/app/personal_charge_type/personal.charge.type.service.ts:84-110 | NOT_FOUND, then BAD_REQUEST for a default type; otherwise the type's status becomes 0 and the charge table becomes `Cascade` of the old one |
| ChargeTypes.RetireCharges | src/app/personal_charge_type/personal.charge.type.service.ts:99-105 | after every active record of the category and creator has gone through the charge update with status 0, the charge table is `Cascade` of the old one: each such record with a non-zero amount is retired and nothing else changes |
| ChargeTypes.TypeTable.DeleteTeam | src/app/team_charge_type/team.charge.type.service.ts:84-110 | NOT_FOUND, then BAD_REQUEST for a default type; otherwise the type's status becomes 0, and the cascade leaves every charge unchanged |
| ChargeTypes.TypeTable.UpdatePersonal | src/app/personal_charge_type/personal.charge.type.service.ts:119-146 | NOT_FOUND, then BAD_REQUEST, then CONFLICT when the name lookup finds a different row; otherwise the name and icon are replaced |
| ChargeTypes.TypeTable.UpdateTeam | src/app/team_charge_type/team.charge.type.service.ts:119-146 | NOT_FOUND, then BAD_REQUEST, and CONFLICT in every other case, since the lookup always finds the type's own current row |
| ChargeTypes.TypeTable.FindManyPersonal | src/app/personal_charge_type/personal.charge.type.service.ts:239-265 | exactly the active types of the balance type that are defaults or belong to the requested creator |
| ChargeTypes.TypeTable.FindManyTeam | src/app/team_charge_type/team.charge.type.service.ts:239-267 | exactly the active types of the balance type that are defaults or belong to the requested team |
| ChargeTypes.DefaultsListedTwice | src/app/personal_charge_type/personal.charge.type.service.ts:239-265 | without a creator filter, every matching default type is listed twice |
| ChargeTypes.DefaultsThenOwn | src/app/personal_charge_type/personal.charge.type.service.ts:239-265 | with a creator filter, defaults come first, then the user's own types, each part in id order |
| TeamMembership.AppendedReadsBack | src/app/team/team.service.ts:94-101 | the new member list splits into the old entries followed by the new id, which reads back as that id |
| TeamMembership.AppendToEmpty | src/app/team/team.service.ts:94-101 | appending to an empty member list leaves a leading comma |
| TeamMembership.TeamService.constructor | src/app/team/team.service.ts:23-72 | the service starts with no teams and the given users |
| TeamMembership.TeamService.CreateTeam | src/app/team/team.service.ts:23-72 | BAD_REQUEST for an empty name; CONFLICT when any team has the name; BAD_REQUEST for an unused name that is not a nickname; otherwise the team is saved and its owner points at it, or, with a missing owner, a server error after the save |
| TeamMembership.NewNameKeepsDistinct | src/app/team/team.service.ts:34-59 | a team saved under a name no team has keeps team names distinct |
| TeamMembership.TeamService.AddMember | src/app/team/team.service.ts:80-104 | BAD_REQUEST, NOT_FOUND, then CONFLICT for a user already in a team; a server error for a missing team; otherwise the team gains one member whose id is appended to its list, and the user points at the team |
| TeamMembership.WithMemberKeeps | src/app/team/team.service.ts:95-100 | the team that gains a member has one more in its count, a count that matched its list still matches, and no team is renamed |

## Left out

- JavaScript `Date` maps the years 0–99 to 1900–1999. `Weeks.WeeksOfYear` therefore requires years of at least 100.
- Dates are whole day numbers counted from 1 January of year 1, a Monday. Time zones and daylight saving are not modelled.
- `moment` formatting is not modelled. The week map is keyed by integers, where the source uses decimal strings.
- Amounts are integers; the source's floating-point numbers are not modelled.
- Time is counted in seconds. The team charge's `moment(...).format('YYYY-MM-DD')` normalisation is `DayStart`.
- The clock and the UUID generator are parameters (`now`, `key`).
- Logging, HTTP messages and the response wrapper are left out. Only the status outcome is modelled.
- The `Promise.all` over cascade updates is modelled as a sequential loop. The updates touch distinct rows, so their order does not matter.
- `findOne` with no ordering is taken to return the first row in table order. `find` results are taken to come back in table order (id order), where the source orders by `created_at`.
- Charge queries filter only on the columns the query type lists. The `charge_time_range` that is spread into `where` as an extra column is not modelled.
- Type queries filter only on `created_by`, `balance_type` and `team_id`.
- The user table belongs to `src/app/user/user.service.ts`. It is modelled as a lookup that returns nothing for an unknown id or nickname.
  - In that file `findOneById` is private and throws an HTTP 500 error.
  - The `findOneByNickname` and `updateUser` that the team service calls are not defined there.
  - The model follows the callers, which test for an absent result.
- The team's `members` string in `createTeam` is stored as the client sent it. Whether it holds the owner is not checked, as in the source.
- Validate.IsPort: `Number()` is modelled only for digit strings and blank pieces. Hexadecimal, exponent and signed forms count as invalid.
- Strings are sequences of Unicode characters; the JavaScript `length` limits are counted in UTF-16 code units (`Validate.Utf16Len`).
- ChargeTypes.TypeTable.CreatePersonal: name uniqueness is preserved only for creators other than 0. Creator 0 owns the defaults, whose names the lookup treats as everyone's.
- ChargeTypes.TypeTable.UpdatePersonal: uniqueness is preserved only for creators other than 0, for the same reason.
- Authentication guards, controllers, mail, Redis and the other services are not part of this model.
