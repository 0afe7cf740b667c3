/** The auth service: parent registration, parent login and kid login, as
    chains of guarded early exits over the user table. Password hashing,
    password comparison and token signing are supplied by the caller. */
module Auth {
  import opened Common
  import opened Users

  datatype CreateParentDto = CreateParentDto(fullName: string, phoneNumber: string, password: string)
  datatype LoginDto = LoginDto(phoneNumber: string, password: string)
  /** The setup token may be absent from the request body. */
  datatype KidLoginDto = KidLoginDto(setupToken: Option<string>)

  datatype AuthResponse = AuthResponse(accessToken: string, user: User)

  /** The two exceptions the service throws, with their messages. */
  datatype AuthError = Conflict(message: string) | Unauthorized(message: string)

  const PhoneInUseMessage := "Phone number already in use"
  const PhoneNotFoundMessage := "Phone number not found"
  const NoPasswordMessage := "User has no password set"
  const IncorrectPasswordMessage := "Incorrect password"
  const TokenRequiredMessage := "Setup token is required"
  const InvalidTokenMessage := "Invalid setup token"

  /** Signs the token payload `{ sub: id, role }`. */
  type Signer = (Id, Role) -> string

  /** Whether a plain password matches a stored hash. */
  type Comparer = (string, string) -> bool

  /** JavaScript falsiness of an optional string: absent, null or empty. */
  predicate Falsy(s: Option<string>): (r: bool)
    ensures !r <==> exists c, rest :: s == Some([c] + rest)
  {
    assert s.Some? && s.value != "" ==> s.value == [s.value[0]] + s.value[1..];
    s.None? || s.value == ""
  }

  /** `register`. A phone number already in use is a conflict and nothing is
      stored. Otherwise exactly one parent is stored, carrying the dto's name
      and phone and the given password hash, and is returned with a token
      signed for it. `passwordHash` is what hashing `dto.password` gave. */
  method Register(users: UsersService, dto: CreateParentDto, passwordHash: string, sign: Signer)
    returns (r: Result<AuthResponse, AuthError>)
    requires users.Valid()
    modifies users
    ensures users.Valid()
    ensures PhoneInUse(old(users.rows), dto.phoneNumber) ==>
              r == Err(Conflict(PhoneInUseMessage)) && users.rows == old(users.rows)
              && users.nextId == old(users.nextId)
    ensures !PhoneInUse(old(users.rows), dto.phoneNumber) ==>
              && r.Ok?
              && users.rows == old(users.rows) + [r.value.user]
              && r.value.user.role == Parent
              && r.value.user.fullName == dto.fullName
              && r.value.user.phoneNumber == Some(dto.phoneNumber)
              && r.value.user.passwordHash == Some(passwordHash)
              && r.value.user.parentId == None && r.value.user.setupToken == None
              && r.value.user.id == old(users.nextId) && users.nextId == old(users.nextId) + 1
              && r.value.accessToken == sign(r.value.user.id, Parent)
  {
    var existing := FindByPhone(users.rows, dto.phoneNumber);
    if existing.Some? {
      return Err(Conflict(PhoneInUseMessage));
    }
    var created := users.CreateParent(
      UserFields(dto.fullName, Some(dto.phoneNumber), Some(passwordHash), None, None, None));
    assert created.Ok?;
    var parent := created.value;
    var token := sign(parent.id, parent.role);
    r := Ok(AuthResponse(token, parent));
  }

  /** `login`: unknown phone, missing (or empty) password hash and wrong
      password are each refused as unauthorized, in that order; the hash is
      only compared when it exists. On success the stored user is returned
      unchanged with a token signed for it. */
  function Login(users: seq<User>, dto: LoginDto, compare: Comparer, sign: Signer)
    : (r: Result<AuthResponse, AuthError>)
    ensures !PhoneInUse(users, dto.phoneNumber) ==> r == Err(Unauthorized(PhoneNotFoundMessage))
    ensures PhoneInUse(users, dto.phoneNumber) && Falsy(FindByPhone(users, dto.phoneNumber).value.passwordHash) ==>
              r == Err(Unauthorized(NoPasswordMessage))
    ensures (&& PhoneInUse(users, dto.phoneNumber)
             && var u := FindByPhone(users, dto.phoneNumber).value;
                !Falsy(u.passwordHash) && !compare(dto.password, u.passwordHash.value)) ==>
              r == Err(Unauthorized(IncorrectPasswordMessage))
    ensures r.Ok? <==> && FindByPhone(users, dto.phoneNumber).Some?
                       && var u := FindByPhone(users, dto.phoneNumber).value;
                          !Falsy(u.passwordHash) && compare(dto.password, u.passwordHash.value)
    ensures r.Ok? ==> && r.value.user in users
                      && r.value.user.phoneNumber == Some(dto.phoneNumber)
                      && r.value.accessToken == sign(r.value.user.id, r.value.user.role)
    ensures r.Err? ==> r.error.Unauthorized?
  {
    match FindByPhone(users, dto.phoneNumber)
    case None => Err(Unauthorized(PhoneNotFoundMessage))
    case Some(user) =>
      if Falsy(user.passwordHash) then Err(Unauthorized(NoPasswordMessage))
      else if !compare(dto.password, user.passwordHash.value) then Err(Unauthorized(IncorrectPasswordMessage))
      else Ok(AuthResponse(sign(user.id, user.role), user))
  }

  /** With unique phone numbers, login succeeds exactly for the one user
      holding the phone, when the password matches its hash. */
  lemma LoginAcceptsHolder(users: seq<User>, u: User, dto: LoginDto, compare: Comparer, sign: Signer)
    requires UniquePhones(users)
    requires u in users && u.phoneNumber == Some(dto.phoneNumber)
    requires !Falsy(u.passwordHash) && compare(dto.password, u.passwordHash.value)
    ensures Login(users, dto, compare, sign) == Ok(AuthResponse(sign(u.id, u.role), u))
  {
    FindByPhoneIsUnique(users, dto.phoneNumber, u);
  }

  /** `kidLogin`: a missing or empty token is refused before any lookup; a
      token no kid holds is refused; otherwise the kid holding it is returned
      with a signed token. The kid's token is left in place. */
  function KidLogin(users: seq<User>, dto: KidLoginDto, sign: Signer): (r: Result<AuthResponse, AuthError>)
    ensures Falsy(dto.setupToken) ==> r == Err(Unauthorized(TokenRequiredMessage))
    ensures !Falsy(dto.setupToken) && (forall u :: u in users ==> !(u.role == Kid && u.setupToken == dto.setupToken)) ==>
              r == Err(Unauthorized(InvalidTokenMessage))
    ensures !Falsy(dto.setupToken) && (exists u :: u in users && u.role == Kid && u.setupToken == dto.setupToken) ==>
              r.Ok?
    ensures r.Ok? ==> && r.value.user in users && r.value.user.role == Kid
                      && r.value.user.setupToken == dto.setupToken && !Falsy(dto.setupToken)
                      && r.value.accessToken == sign(r.value.user.id, Kid)
  {
    if Falsy(dto.setupToken) then Err(Unauthorized(TokenRequiredMessage))
    else
      match FindByToken(users, dto.setupToken.value)
      case None => Err(Unauthorized(InvalidTokenMessage))
      case Some(kid) => Ok(AuthResponse(sign(kid.id, kid.role), kid))
  }

  /** A kid just created with a token no other kid holds can log in with it,
      and, since logging in does not clear the token, can do so again. */
  lemma KidLoginAfterCreateKid(rows: seq<User>, kid: User, token: string, sign: Signer)
    requires token != ""
    requires kid.role == Kid && kid.setupToken == Some(token)
    requires forall u :: u in rows ==> !(u.role == Kid && u.setupToken == Some(token))
    ensures KidLogin(rows + [kid], KidLoginDto(Some(token)), sign) == Ok(AuthResponse(sign(kid.id, Kid), kid))
  {
    var t := rows + [kid];
    var found := FindByToken(t, token);
    assert kid in t;
    var i :| 0 <= i < |t| && t[i] == found.value;
    assert forall j :: 0 <= j < |rows| ==> t[j] in rows;
  }

  /** What the commented-out `clearKidToken` call would do: once the kid's
      token is cleared, the same token no longer logs anyone in (when no
      other kid holds it). */
  lemma KidLoginEndsAfterClear(rows: seq<User>, dto: KidLoginDto, sign: Signer)
    requires KidLogin(rows, dto, sign).Ok?
    requires var id := KidLogin(rows, dto, sign).value.user.id;
             forall u :: u in rows && u.role == Kid && u.setupToken == dto.setupToken ==> u.id == id
    ensures KidLogin(WithTokenCleared(rows, KidLogin(rows, dto, sign).value.user.id), dto, sign)
            == Err(Unauthorized(InvalidTokenMessage))
  {
    var id := KidLogin(rows, dto, sign).value.user.id;
    var cleared := WithTokenCleared(rows, id);
    forall u | u in cleared ensures !(u.role == Kid && u.setupToken == dto.setupToken) {
      var i :| 0 <= i < |cleared| && cleared[i] == u;
      assert rows[i] in rows;
    }
  }
}
