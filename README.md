# Where-is-my-kid backend: a Dafny model of the service layer

The backend tracks kids for their parents. Parents register and log in with a
phone number and password. Parents create kids, and each kid gets a setup token
that the kid's device uses to log in; the token is meant to be one-time, but
`kidLogin` never clears it. A kid's device reports
positions. A parent defines circular safe zones. A kid can report "I am safe".
A parent reads the latest positions, statuses and alerts of their kids.

This project models the service layer of that backend as sequential operations
over in-memory tables:

| module (file) | source service | form |
|---|---|---|
| `Common` (common.dfy) | repository `find` / `findOne` | generic filter and first-match functions, key freshness |
| `Users` (users.dfy) | `UsersService` | class `UsersService` owning the user table; lookups are functions of the rows |
| `ZoneDto` (zone_dto.dfy) | `CreateSafeZoneDto` | validation function over a raw request body |
| `Zones` (zones.dfy) | `ZonesService` | class `ZonesService` owning the zone table; `CheckIfInZone` keeps the source's loop |
| `Locations` (location.dfy) | `LocationService` | class `LocationService` owning the location table; read queries are functions |
| `Status` (status.dfy) | `StatusService` | class `StatusService` owning the status table; `MarkSafe` proved against `MarkedSafe` |
| `Alerts` (alert.dfy) | `AlertService` | class `AlertService` owning the alert table; newest-first query as a sort function |
| `Auth` (auth.dfy) | `AuthService` | `Register` is a method over `UsersService`; `Login` and `KidLogin` are functions of the user rows |

Conventions:

- Each table is a `seq` of rows plus a counter `nextId`. Generated UUID primary keys are modelled as fresh numbers taken from this counter.
- Every class's `Valid()` says that keys are distinct and below `nextId`. For users, `Valid()` also says phone numbers are unique. For statuses, it also says each kid has at most one row.
- A service that uses another service receives it as a method parameter. This is how dependency injection appears in the model.
- The clock is an `int` parameter `now`.
- Coordinates and radii are `real`.
- The geofence distance is a function parameter `distance`.
- Password comparison (`compare`) and token signing (`sign`) are function parameters.
- The password hash and the random setup token are value parameters.
- A repository query without `order` is modelled as returning rows in table order (insertion order). The database does not promise this; see "## Left out".

Where the code and the intended design disagree, the model follows the code:

- The geofence decision tests only the first zone of the parent. Its loop returns during the first iteration, and it yields nothing when the parent has no zones. It does not answer whether the kid is in some zone.
- `saveLocation` writes no alert. The outside-zone verdict is only logged.
- A location report from a kid without a parent is stored first. The error is raised afterwards.
- `kidLogin` does not clear the setup token, so the token keeps working.
- No `ValidationPipe` is installed in `main.ts`. The DTO constraints are declared but not enforced, so `zonesService.create` stores whatever body arrives. `Zones.ZonesService.Create` takes a typed four-field DTO that is not re-checked, so an out-of-range radius is stored as given. The validator is modelled on its own as `ZoneDto.Validate`.
- `!user.passwordHash` and `!dto.setupToken` are JavaScript falsiness tests. An empty string counts as missing, and the model keeps that (`Auth.Falsy`).

## Model

| member | source | states |
|---|---|---|
| `Common.Filter` | backend/src/zones/zones.service.ts:20 | repository `find({ where })`: every row satisfying the condition and only those, each as often as stored, never more rows than the table |
| `Common.FindFirst` | backend/src/zones/zones.service.ts:24 | repository `findOne({ where })`: none iff no row satisfies the condition; otherwise a stored row that satisfies it, with no earlier row satisfying it |
| `Users.GetParentKids` | backend/src/users/users.service.ts:33-37 | exactly the users whose `parentId` is the parent, each as often as stored |
| `Users.IdsOf` | backend/src/status/status.service.ts:26-27 | the kids' keys, one per kid, in order; a key is listed iff some kid has it |
| `Users.FindByPhone` | backend/src/users/users.service.ts:39-43 | none iff no user holds the phone; otherwise a stored user holding it |
| `Users.FindByPhoneIsUnique` | backend/src/users/users.service.ts:39-43 | under the unique-phone constraint, the user found is every user holding that phone (at most one candidate) |
| `Users.FindById` | backend/src/users/users.service.ts:45-47 | none iff no user has that key; otherwise the stored user with it |
| `Users.FindByToken` | backend/src/users/users.service.ts:49-56 | only a stored user that is a kid and holds exactly that token; none iff there is no such kid |
| `Users.FindByTokenSkipsParents` | backend/src/users/users.service.ts:49-56 | a parent is never returned, whatever token it holds |
| `Users.WithTokenCleared` | backend/src/users/users.service.ts:58-60 | the user with the key has its token null and keeps every other field; every other user is unchanged |
| `Users.ClearTokenKeepsInvariant` | backend/src/users/users.service.ts:58-60 | clearing a token keeps keys and phone numbers unique |
| `Users.ClearedUserNotFoundByToken` | backend/src/users/users.service.ts:58-60 | after clearing, no token finds that user |
| `Users.UsersService.CreateParent` | backend/src/users/users.service.ts:15-20 | appends one user with role Parent whatever role the input carries, and the input's other fields; a phone already in use is refused by the unique constraint and nothing is stored |
| `Users.UsersService.CreateKid` | backend/src/users/users.service.ts:22-31 | appends one user with role Kid, the DTO's name and parent, the fresh token, and no phone or password |
| `Users.UsersService.ClearKidToken` | backend/src/users/users.service.ts:58-60 | the table becomes `WithTokenCleared` of the old table; the invariant is kept |
| `ZoneDto.Validate` | backend/src/zones/dto/create-safe-zone.dto.ts:9-33 | accepted iff name is a string, latitude and longitude are numbers, and radius is a number in [10, 10000]; an accepted body yields the DTO of its values; a refused one contains `IsString` for a non-string name, `IsNumber` for each non-number latitude, longitude or radius, and `Min`/`Max` for a radius below 10 / above 10000 (a non-number radius breaks both), each iff broken |
| `ZoneDto.Violations` | backend/src/zones/dto/create-safe-zone.dto.ts:9-33 | the class-validator error set: each of the six (field, constraint) pairs is present iff that decorator fails, and the set holds no other pair |
| `ZoneDto.CoordinatesUnbounded` | backend/src/zones/dto/create-safe-zone.dto.ts:16-24 | any numeric latitude and longitude pass, with no range bound |
| `ZoneDto.RadiusBoundsInclusive` | backend/src/zones/dto/create-safe-zone.dto.ts:30-33 | radius 10 and 10000 are accepted; 9.99 breaks only Min and 10000.01 only Max |
| `ZoneDto.NonNumericRadius` | backend/src/zones/dto/create-safe-zone.dto.ts:30-33 | a radius that is not a number breaks IsNumber, Min and Max |
| `Zones.FindAllForParent` | backend/src/zones/zones.service.ts:19-21 | exactly the zones whose `parentId` is the argument, each as often as stored |
| `Zones.Deleted` | backend/src/zones/zones.service.ts:26 | deletion by primary key: every row without that key is kept, and no row with it |
| `Zones.FirstZoneVerdict` | backend/src/zones/zones.service.ts:32-44 | no zones: no result; inside names the first zone and its distance is at most its radius (boundary inclusive); outside has zone null and the first zone's distance exceeds its radius |
| `Zones.LaterZonesIgnored` | backend/src/zones/zones.service.ts:32-44 | when the first zone does not contain the point, the result is outside with zone null, whatever zones follow |
| `Zones.CreatedZoneListed` | backend/src/zones/zones.service.ts:14-21 | after `create`, the owner's list is the old list followed by the new zone; other parents' lists are unchanged |
| `Zones.FirstCreatedZoneDecides` | backend/src/zones/zones.service.ts:29-45 | for a parent with no zones, the first zone created is the one the decision measures |
| `Zones.ZonesService.Create` | backend/src/zones/zones.service.ts:14-17 | appends exactly one zone with the caller's parent and the DTO's name, latitude, longitude and radius; existing zones are untouched |
| `Zones.ZonesService.Remove` | backend/src/zones/zones.service.ts:23-27 | no zone with that key and owner: returns none and the table is unchanged; otherwise returns that zone and removes exactly it |
| `Zones.ZonesService.CheckIfInZone` | backend/src/zones/zones.service.ts:29-45 | the first-zone verdict on the parent's zones; no result iff the parent has no zones; an inside result names one of the parent's zones; the table is not modified |
| `Locations.GetLatestLocation` | backend/src/location/location.service.ts:23-28 | none iff the kid has no rows; otherwise a row of that kid with the largest `createdAt` |
| `Locations.NewestReportIsLatest` | backend/src/location/location.service.ts:23-28 | a report strictly newer than every stored report of its kid becomes that kid's latest location |
| `Locations.LatestForKid` | backend/src/location/location.service.ts:32-43 | present iff the kid has a location and a user record; then the kid's latest location with the kid's `fullName` |
| `Locations.GetLatestLocationsForParent` | backend/src/location/location.service.ts:30-47 | never longer than the kid list; every entry is some listed kid's latest location with name; every listed kid that has both appears |
| `Locations.LatestLocationsKeepOrder` | backend/src/location/location.service.ts:30-47 | the result for a concatenation of kid lists is the concatenation of the results, so entries keep the input order |
| `Locations.LocationService.SaveLocation` | backend/src/location/location.service.ts:50-73 | unknown kid: error, nothing stored; otherwise exactly one row (kid, DTO coordinates, clock) is appended; then no parent: error, the row stays; with a parent: returns the row, and the outside verdict is only logged; no other table is written |
| `Status.MarkedSafe` | backend/src/status/status.service.ts:15-22 | the table after `markSafe`: at most one row is added; every old row keeps its key and kid; some row of the kid is safe and stamped with the clock |
| `Status.RowOfKid` | backend/src/status/status.service.ts:15 | none iff the kid has no status row; otherwise the position of a row of the kid |
| `Status.MarkSafeSetsRow` | backend/src/status/status.service.ts:14-23 | keeps one row per kid; the kid's row is safe and stamped with the clock; with no prior row exactly one new row is added for the kid; otherwise the row keeps its key and the count is unchanged |
| `Status.MarkSafeOthersUnchanged` | backend/src/status/status.service.ts:14-23 | rows of other kids are unchanged, and no safe row becomes unsafe |
| `Status.MarkSafeTwiceSameCount` | backend/src/status/status.service.ts:14-23 | calling `markSafe` twice for a kid leaves as many rows as calling it once |
| `Status.GetAllStatuses` | backend/src/status/status.service.ts:25-29 | exactly the rows whose kid is one of the parent's kids, each as often as stored |
| `Status.MarkedKidVisibleToParent` | backend/src/status/status.service.ts:14-29 | after `markSafe` of a kid, the parent's statuses show that kid safe at that time |
| `Status.StatusService.MarkSafe` | backend/src/status/status.service.ts:14-23 | the table becomes `MarkedSafe` of the old table; returns the saved row, safe and stamped with the clock |
| `Alerts.SortNewestFirst` | backend/src/alert/alert.service.ts:20 | a permutation of its input, ordered by `createdAt` descending |
| `Alerts.GetAlertsForParent` | backend/src/alert/alert.service.ts:17-22 | all alerts whose kid is in the list, and only those, each as often as stored, newest first |
| `Alerts.NoKidsNoAlerts` | backend/src/alert/alert.service.ts:17-21 | an empty kid list yields no alerts |
| `Alerts.NewAlertVisible` | backend/src/alert/alert.service.ts:12-21 | a newly created alert is returned for a kid list iff the list contains its kid |
| `Alerts.AlertService.CreateAlert` | backend/src/alert/alert.service.ts:12-15 | appends exactly one alert with the kid, the message and the clock; other alerts are unchanged |
| `Auth.Register` | backend/src/auth/auth.service.ts:21-39 | phone in use: Conflict and no user is created; otherwise exactly one parent with the DTO's name and phone and the hash is stored, under the next key, with no parent and no setup token, and it is returned with a token signed for its key and role |
| `Auth.Falsy` | backend/src/auth/auth.service.ts:48 | JavaScript `!x` on an optional string: false exactly when the value is present and has a first character |
| `Auth.Login` | backend/src/auth/auth.service.ts:41-66 | unknown phone: Unauthorized "Phone number not found"; missing or empty hash: Unauthorized "User has no password set", with no comparison; wrong password: Unauthorized "Incorrect password"; otherwise success, returning the found user unchanged with a signed token |
| `Auth.LoginAcceptsHolder` | backend/src/auth/auth.service.ts:41-66 | with unique phones and a matching password, login returns exactly the user holding the phone |
| `Auth.KidLogin` | backend/src/auth/auth.service.ts:69-89 | missing or empty token: Unauthorized whatever the table; no kid holding the token: Unauthorized; a kid holds it: success with that kid and a signed token |
| `Auth.KidLoginAfterCreateKid` | backend/src/auth/auth.service.ts:69-89 | a kid just created with an unused token logs in with it; the token is not cleared, so the same login succeeds again |
| `Auth.KidLoginEndsAfterClear` | backend/src/auth/auth.service.ts:78 | the commented-out clear would end the token: after `clearKidToken`, the same token fails |

## Left out

- Haversine `calculateDistance` (floating-point trigonometry): the distance is a function parameter. Symmetry and zero self-distance are not claimed.
- Floating point in general: coordinates, radii and distances are exact reals.
- `bcrypt.hash` and `bcrypt.compare`, `jwtService.sign`, `randomUUID`: these are foreign calls. They enter as parameters: a hash value, a comparison function, a signing function and a token value.
- Timestamps come from the clock parameter. The `createdAt`/`updatedAt` columns of users and the `createdAt` column of zones are not modelled.
- TypeORM mechanics are not modelled: transactions, database errors other than the unique phone constraint, and the ORM treating an `undefined` where-value as no condition.
- `Zones.ZonesService.Remove`: the ORM clears the key of the entity it returns after removal. The model returns the zone with its key.
- `Users.UsersService.CreateParent`: the object the ORM returns also carries the non-column `password` property of the registration body. The model returns only the stored columns. A key in the partial user (an upsert) is not accepted either.
- Zones.ZonesService.CheckIfInZone and Zones.CreatedZoneListed: the zones of a parent are fetched by a query without `order`. On Postgres that order is whatever the database picks, and it decides which zone `checkIfInZone` measures. The model fixes it to insertion order. The same choice fixes the order of `Users.GetParentKids`, `Status.GetAllStatuses` and `Common.Filter` results.
- Zones.ZonesService.Create: takes a typed four-field DTO. The source spreads the raw, unvalidated body into the new row. A body without `radius` gets the column default 50, and a body carrying an `id` makes `save` update that existing zone instead of appending. Neither is modelled, so the model's "existing zones are untouched" does not hold in the source for a body with an `id`.
- Ties: when several rows share the largest `createdAt`, `Locations.GetLatestLocation` takes the earliest stored one and `Alerts.SortNewestFirst` uses insertion order. The database may choose any order among equal timestamps.
- `Promise.all` in `getLatestLocationsForParent` is a sequential map. Concurrency between requests is not modelled.
- `console.log` calls: only the outside-zone log line is modelled, as the `outsideLogged` result.
- HTTP layer: controllers, guards, roles, Swagger, module wiring, `main.ts` and the frontend apps.
- The DTOs for kid creation, registration and login are taken as already-typed values. Their class-validator decorators are not modelled, and neither is the missing `ValidationPipe` behind them.
- Locations.LocationService.SaveLocation: takes a two-field body (latitude, longitude). The source spreads the raw, unvalidated body into the new row before `save`. A body carrying the `id` of an existing location makes `save` overwrite that row, possibly another kid's, with this kid and the new coordinates instead of appending. The model does not capture this, so its "exactly one row is appended under the next key" does not hold in the source for such a body.
- backend/src/location/dto/create-location.dto.ts is not part of this model. Its body is taken to carry `latitude` and `longitude`.
- backend/src/auth/dto/kid-login.dto.ts is not part of this model. Its body is taken to carry an optional `setupToken` string.
