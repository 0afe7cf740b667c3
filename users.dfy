/** The user table and the users service: parents and kids live in one table,
    told apart by their role. */
module Users {
  import opened Common

  datatype Role = Parent | Kid

  /** A row of the `users` table. `phoneNumber` is unique among the rows that
      have one; `setupToken` is a kid's pairing token, meant to be one-time
      but never cleared by `kidLogin`. The `createdAt`/`updatedAt` columns
      are not modelled. */
  datatype User = User(
    id: Id,
    fullName: string,
    phoneNumber: Option<string>,
    passwordHash: Option<string>,
    role: Role,
    parentId: Option<Id>,
    setupToken: Option<string>)

  /** The partial user handed to `createParent`: any column but the key,
      including a role, which `createParent` overrides. */
  datatype UserFields = UserFields(
    fullName: string,
    phoneNumber: Option<string>,
    passwordHash: Option<string>,
    role: Option<Role>,
    parentId: Option<Id>,
    setupToken: Option<string>)

  datatype CreateKidDto = CreateKidDto(fullName: string, parentId: Id)

  /** What the database refuses: a second row with a phone number in use. */
  datatype DbError = UniquePhoneViolation

  function UserId(u: User): Id { u.id }

  predicate PhoneInUse(rows: seq<User>, phone: string)
  {
    exists i :: 0 <= i < |rows| && rows[i].phoneNumber == Some(phone)
  }

  /** The unique constraint on `phoneNumber` (several rows may have none). */
  predicate UniquePhones(rows: seq<User>)
  {
    forall i, j :: 0 <= i < j < |rows| && rows[i].phoneNumber.Some? ==>
      rows[i].phoneNumber != rows[j].phoneNumber
  }

  /** What the table guarantees at all times: keys unique and fresh, phone
      numbers unique. */
  predicate TableInvariant(rows: seq<User>, nextId: Id)
  {
    KeysFresh(rows, UserId, nextId) && UniquePhones(rows)
  }

  // ---------------------------------------------------------------- queries

  /** `getParentKids`: every user whose `parentId` is the given parent. */
  function GetParentKids(rows: seq<User>, parentId: Id): (r: seq<User>)
    ensures forall u :: u in r <==> u in rows && u.parentId == Some(parentId)
    ensures forall u :: multiset(r)[u] == if u.parentId == Some(parentId) then multiset(rows)[u] else 0
  {
    Filter(rows, (u: User) => u.parentId == Some(parentId))
  }

  /** The keys of some users, in order (`kids.map(k => k.id)`). */
  function IdsOf(users: seq<User>): (r: seq<Id>)
    ensures |r| == |users|
    ensures forall i :: 0 <= i < |users| ==> r[i] == users[i].id
    ensures forall k :: k in r <==> exists u :: u in users && u.id == k
  {
    seq(|users|, i requires 0 <= i < |users| => users[i].id)
  }

  /** `findByPhone`: a user holding that phone number, or none. */
  function FindByPhone(rows: seq<User>, phone: string): (r: Option<User>)
    ensures r.None? <==> !PhoneInUse(rows, phone)
    ensures r.Some? ==> r.value in rows && r.value.phoneNumber == Some(phone)
  {
    FindFirst(rows, (u: User) => u.phoneNumber == Some(phone))
  }

  /** `findById`: the user with that key, or none. */
  function FindById(rows: seq<User>, id: Id): (r: Option<User>)
    ensures r.None? <==> forall u :: u in rows ==> u.id != id
    ensures r.Some? ==> r.value in rows && r.value.id == id
  {
    FindFirst(rows, (u: User) => u.id == id)
  }

  /** `findByToken`: a user that is a kid AND holds exactly that setup token. */
  function FindByToken(rows: seq<User>, token: string): (r: Option<User>)
    ensures r.None? <==> forall u :: u in rows ==> !(u.role == Kid && u.setupToken == Some(token))
    ensures r.Some? ==> r.value in rows && r.value.role == Kid && r.value.setupToken == Some(token)
  {
    FindFirst(rows, (u: User) => u.setupToken == Some(token) && u.role == Kid)
  }

  /** The table after `update({ id }, { setupToken: null })`. */
  function WithTokenCleared(rows: seq<User>, id: Id): (r: seq<User>)
    ensures |r| == |rows|
    ensures forall i :: 0 <= i < |rows| && rows[i].id != id ==> r[i] == rows[i]
    ensures forall i :: 0 <= i < |rows| && rows[i].id == id ==>
              r[i].setupToken == None && r[i] == rows[i].(setupToken := None)
  {
    seq(|rows|, i requires 0 <= i < |rows| =>
      if rows[i].id == id then rows[i].(setupToken := None) else rows[i])
  }

  // ----------------------------------------------------------------- lemmas

  /** Because phone numbers are unique, `findByPhone` has only one candidate:
      the user it returns is every user with that phone. */
  lemma FindByPhoneIsUnique(rows: seq<User>, phone: string, v: User)
    requires UniquePhones(rows)
    requires v in rows && v.phoneNumber == Some(phone)
    ensures FindByPhone(rows, phone) == Some(v)
  {
    var u := FindByPhone(rows, phone).value;
    var i :| 0 <= i < |rows| && rows[i] == u;
    var j :| 0 <= j < |rows| && rows[j] == v;
    assert !(i < j) && !(j < i);
  }

  /** A parent never answers a setup token, whatever token it holds. */
  lemma FindByTokenSkipsParents(rows: seq<User>, token: string, u: User)
    requires u in rows && u.role == Parent
    ensures FindByToken(rows, token) != Some(u)
  {
  }

  /** Clearing the token keeps the table invariant. */
  lemma ClearTokenKeepsInvariant(rows: seq<User>, nextId: Id, id: Id)
    requires TableInvariant(rows, nextId)
    ensures TableInvariant(WithTokenCleared(rows, id), nextId)
  {
    var r := WithTokenCleared(rows, id);
    assert forall i :: 0 <= i < |rows| ==> r[i].id == rows[i].id && r[i].phoneNumber == rows[i].phoneNumber;
  }

  /** After its token is cleared, a user is never found by any token. */
  lemma ClearedUserNotFoundByToken(rows: seq<User>, id: Id, token: string)
    ensures var r := FindByToken(WithTokenCleared(rows, id), token);
            r.Some? ==> r.value.id != id
  {
    var cleared := WithTokenCleared(rows, id);
    var r := FindByToken(cleared, token);
    if r.Some? {
      var i :| 0 <= i < |cleared| && cleared[i] == r.value;
      assert cleared[i].setupToken.Some?;
    }
  }

  // ---------------------------------------------------------------- service

  /** The users service with the table it owns. */
  class UsersService {
    var rows: seq<User>
    var nextId: Id

    ghost predicate Valid()
      reads this
    {
      TableInvariant(rows, nextId)
    }

    constructor ()
      ensures Valid() && rows == []
    {
      rows, nextId := [], 0;
    }

    /** `createParent`: stores the given fields with the role forced to
        Parent, whatever role the input carries. The database refuses a phone
        number that is already in use and then stores nothing. */
    method CreateParent(data: UserFields) returns (r: Result<User, DbError>)
      requires Valid()
      modifies this
      ensures Valid()
      ensures r.Err? <==> data.phoneNumber.Some? && PhoneInUse(old(rows), data.phoneNumber.value)
      ensures r.Err? ==> rows == old(rows) && nextId == old(nextId)
      ensures r.Ok? ==> rows == old(rows) + [r.value] && r.value.id == old(nextId) && nextId == old(nextId) + 1
      ensures r.Ok? ==> && r.value.role == Parent
                        && r.value.fullName == data.fullName
                        && r.value.phoneNumber == data.phoneNumber
                        && r.value.passwordHash == data.passwordHash
                        && r.value.parentId == data.parentId
                        && r.value.setupToken == data.setupToken
    {
      if data.phoneNumber.Some? && FindByPhone(rows, data.phoneNumber.value).Some? {
        return Err(UniquePhoneViolation);
      }
      var parent := User(nextId, data.fullName, data.phoneNumber, data.passwordHash,
                         Parent, data.parentId, data.setupToken);
      AppendKeepsKeysFresh(rows, UserId, nextId, parent);
      rows := rows + [parent];
      nextId := nextId + 1;
      r := Ok(parent);
    }

    /** `createKid`: stores a kid of the given parent, with no phone or
        password and a freshly generated setup token. */
    method CreateKid(dto: CreateKidDto, token: string) returns (kid: User)
      requires Valid()
      modifies this
      ensures Valid()
      ensures rows == old(rows) + [kid] && kid.id == old(nextId) && nextId == old(nextId) + 1
      ensures && kid.role == Kid
              && kid.fullName == dto.fullName
              && kid.parentId == Some(dto.parentId)
              && kid.setupToken == Some(token)
              && kid.phoneNumber == None && kid.passwordHash == None
    {
      kid := User(nextId, dto.fullName, None, None, Kid, Some(dto.parentId), Some(token));
      AppendKeepsKeysFresh(rows, UserId, nextId, kid);
      rows := rows + [kid];
      nextId := nextId + 1;
    }

    /** `clearKidToken`: the user with that key loses its setup token; no
        other column and no other user changes. */
    method ClearKidToken(id: Id)
      requires Valid()
      modifies this
      ensures Valid()
      ensures rows == WithTokenCleared(old(rows), id) && nextId == old(nextId)
    {
      ClearTokenKeepsInvariant(rows, nextId, id);
      rows := WithTokenCleared(rows, id);
    }
  }
}
