/** Registration and username changes: the uniqueness checks on user name
    and email, the mapping of requested role strings onto the two roles,
    and the optional address and payment card captured at sign-up. The
    service is transactional, so a `Failure` leaves the directory as it was. */
module Authentication {
  import opened Wrappers
  import opened Errors
  import opened Accounts
  import AddressBook

  /** The sign-up form. A field the client may leave out is an `Option`. */
  datatype SignupRequest = SignupRequest(
    username: string, email: string, password: string,
    role: Option<set<string>>,
    street: Option<string>, buildingName: string, city: string,
    state: string, country: string, pincode: string,
    cardNumber: Option<string>, cardholderName: string,
    expiryMonth: int, expiryYear: int, cvv: string)

  /** The card handed to the payment card service. */
  datatype CardDto = CardDto(
    cardNumber: string, cardholderName: string,
    expiryMonth: int, expiryYear: int, cvv: string, isDefault: bool)

  /** The role table's rows; a role missing from it cannot be assigned. */
  type RoleTable = set<AppRole>

  /** `existsByUserName`. */
  predicate NameInUse(d: Directory, name: string) {
    exists id | id in d.users :: d.users[id].userName == name
  }

  /** `existsByEmail`. */
  predicate EmailInUse(d: Directory, email: string) {
    exists id | id in d.users :: d.users[id].email == email
  }

  /** No two users share a user name. */
  predicate UniqueNames(d: Directory) {
    forall i, j | i in d.users && j in d.users && d.users[i].userName == d.users[j].userName :: i == j
  }

  /** No two users share an email. */
  predicate UniqueEmails(d: Directory) {
    forall i, j | i in d.users && j in d.users && d.users[i].email == d.users[j].email :: i == j
  }

  /** The role a requested role string names: exactly "admin" is the admin
      role, every other string the user role. */
  function RoleFor(name: string): AppRole {
    if name == "admin" then RoleAdmin else RoleUser
  }

  /** `resolvRoleByName`: look the role up in the role table. */
  function ResolveRoleByName(table: RoleTable, name: string): (r: Result<AppRole, Error>)
    ensures r.Success? <==> RoleFor(name) in table
    ensures r.Success? ==> (r.value == RoleAdmin <==> name == "admin")
    ensures r.Failure? ==> r.error == RoleNotFound
  {
    if RoleFor(name) in table then Success(RoleFor(name)) else Failure(RoleNotFound)
  }

  /** `determineUserRoles`: no requested set means the user role alone;
      otherwise every requested string is resolved, and one that cannot be
      resolved aborts the registration. */
  function DetermineUserRoles(table: RoleTable, requested: Option<set<string>>): (r: Result<set<AppRole>, Error>)
    ensures requested.None? ==> (r.Success? <==> RoleUser in table)
    ensures requested.None? && r.Success? ==> r.value == {RoleUser}
    ensures requested.Some? ==>
              (r.Success? <==> forall n | n in requested.value :: ResolveRoleByName(table, n).Success?)
    ensures r.Failure? ==> r.error == RoleNotFound
    ensures r.Success? ==> r.value <= table
  {
    match requested
    case None => if RoleUser in table then Success({RoleUser}) else Failure(RoleNotFound)
    case Some(names) =>
      if forall n | n in names :: ResolveRoleByName(table, n).Success? then
        Success(set n | n in names :: RoleFor(n))
      else Failure(RoleNotFound)
  }

  /** A successful resolution of a requested set holds the admin role
      exactly when "admin" was requested and the user role exactly when
      some other string was; an empty request therefore yields no role. */
  lemma RequestedRoles(table: RoleTable, names: set<string>)
    requires DetermineUserRoles(table, Some(names)).Success?
    ensures var roles := DetermineUserRoles(table, Some(names)).value;
            && (RoleAdmin in roles <==> "admin" in names)
            && (RoleUser in roles <==> exists n | n in names :: n != "admin")
            && (names == {} ==> roles == {})
  {
  }

  /** `buildAddressDTO`: the six address fields of the form. */
  function AddressOf(req: SignupRequest, street: string): (r: AddressDto)
    ensures r.street == street && r.buildingName == req.buildingName && r.city == req.city
    ensures r.state == req.state && r.country == req.country && r.pincode == req.pincode
  {
    AddressDto(street, req.buildingName, req.city, req.state, req.country, req.pincode)
  }

  /** `buildPaymentCardDTO`: the card fields of the form, always marked as
      the default card. */
  function CardOf(req: SignupRequest, number: string): (r: CardDto)
    ensures r.isDefault
    ensures r.cardNumber == number && r.cardholderName == req.cardholderName && r.cvv == req.cvv
    ensures r.expiryMonth == req.expiryMonth && r.expiryYear == req.expiryYear
  {
    CardDto(number, req.cardholderName, req.expiryMonth, req.expiryYear, req.cvv, true)
  }

  /** Whether an optional form field was supplied with a non-empty value. */
  predicate Supplied(field: Option<string>) {
    field.Some? && |field.value| > 0
  }

  /** `register`: the user name is checked before the email; then the user
      is created with the encoded password and the resolved roles, and the
      optional address is filed for it. The result also carries the card
      handed to the payment card service, if one was supplied. */
  function Register(d: Directory, table: RoleTable, req: SignupRequest, encodedPassword: string)
    : (r: Result<(Directory, Option<CardDto>), Error>)
    ensures NameInUse(d, req.username) ==> r == Failure(BadRequest(UsernameTaken))
    ensures !NameInUse(d, req.username) && EmailInUse(d, req.email) ==> r == Failure(BadRequest(EmailTaken))
    ensures r.Success? <==>
              !NameInUse(d, req.username) && !EmailInUse(d, req.email)
              && DetermineUserRoles(table, req.role).Success?
    ensures r.Success? ==>
              var d' := r.value.0;
              var id := d.nextUserId;
              && id in d'.users
              && d'.users[id].userName == req.username && d'.users[id].email == req.email
              && d'.users[id].password == encodedPassword
              && d'.users[id].roles == DetermineUserRoles(table, req.role).value
              && d'.nextUserId == id + 1
    ensures r.Success? ==>
              var added := r.value.0.users[d.nextUserId].addresses;
              && (|added| == 1 <==> Supplied(req.street))
              && (!Supplied(req.street) ==> added == [] && r.value.0.addresses == d.addresses)
              && (Supplied(req.street) ==>
                    && added[0].id == d.nextAddrId && added[0].street == req.street.value
                    && r.value.0.addresses == d.addresses[d.nextAddrId := added[0]])
    ensures r.Success? ==> (r.value.1.Some? <==> Supplied(req.cardNumber))
    ensures r.Success? && r.value.1.Some? ==> r.value.1.value.isDefault
    ensures Valid(d) && r.Success? ==>
              && Valid(r.value.0) && d.nextUserId !in d.users
              && forall u | u in d.users :: u in r.value.0.users && r.value.0.users[u] == d.users[u]
  {
    if NameInUse(d, req.username) then Failure(BadRequest(UsernameTaken))
    else if EmailInUse(d, req.email) then Failure(BadRequest(EmailTaken))
    else
      var roles :- DetermineUserRoles(table, req.role);
      var user := User(d.nextUserId, req.username, req.email, encodedPassword, roles, []);
      var d1 := d.(users := d.users[user.id := user], nextUserId := d.nextUserId + 1);
      var d2 := if Supplied(req.street) then AddressBook.NewAddr(d1, AddressOf(req, req.street.value), user).0 else d1;
      var card := if Supplied(req.cardNumber) then Some(CardOf(req, req.cardNumber.value)) else None;
      Success((d2, card))
  }

  /** Registration keeps user names and emails unique. */
  lemma RegisterKeepsUniqueness(d: Directory, table: RoleTable, req: SignupRequest, encodedPassword: string)
    requires Valid(d) && UniqueNames(d) && UniqueEmails(d)
    requires Register(d, table, req, encodedPassword).Success?
    ensures var d' := Register(d, table, req, encodedPassword).value.0;
            UniqueNames(d') && UniqueEmails(d')
  {
  }

  /** Two different users carry the name. */
  predicate NameShared(d: Directory, name: string) {
    exists a, b | a in d.users && b in d.users && a != b ::
      d.users[a].userName == name && d.users[b].userName == name
  }

  /** `fetchUserByName`: `findByUserName` is a single-result query, so no
      user with the name is not-found and two of them are a non-unique
      result; otherwise it is the one user with that name. */
  ghost function UserNamed(d: Directory, name: string): (r: Result<UserId, Error>)
    ensures r.Success? <==> NameInUse(d, name) && !NameShared(d, name)
    ensures !NameInUse(d, name) ==> r == Failure(NotFound(UserRes))
    ensures NameShared(d, name) ==> r == Failure(NonUniqueResult)
    ensures UniqueNames(d) && NameInUse(d, name) ==> r.Success?
    ensures r.Success? ==>
              && r.value in d.users && d.users[r.value].userName == name
              && forall id | id in d.users && d.users[id].userName == name :: id == r.value
  {
    if !NameInUse(d, name) then Failure(NotFound(UserRes))
    else if NameShared(d, name) then Failure(NonUniqueResult)
    else
      var id :| id in d.users && d.users[id].userName == name; Success(id)
  }

  /** `updateUsername` for the signed-in user `current`: a different name
      must be free; the same name is accepted and stored again. */
  ghost function UpdateUsername(d: Directory, current: string, newName: string): (r: Result<Directory, Error>)
    ensures !NameInUse(d, current) ==> r == Failure(NotFound(UserRes))
    ensures NameShared(d, current) ==> r == Failure(NonUniqueResult)
    ensures NameInUse(d, current) && !NameShared(d, current) ==>
              (r.Success? <==> newName == current || !NameInUse(d, newName))
    ensures NameInUse(d, current) && !NameShared(d, current) && newName != current && NameInUse(d, newName) ==>
              r == Failure(BadRequest(UsernameTaken))
    ensures r.Success? ==>
              var id := UserNamed(d, current).value;
              && r.value.users == d.users[id := d.users[id].(userName := newName)]
              && r.value.addresses == d.addresses
              && r.value.nextUserId == d.nextUserId && r.value.nextAddrId == d.nextAddrId
  {
    match UserNamed(d, current)
    case Failure(e) => Failure(e)
    case Success(id) =>
      var u := d.users[id];
      if u.userName != newName && NameInUse(d, newName) then Failure(BadRequest(UsernameTaken))
      else Success(d.(users := d.users[id := u.(userName := newName)]))
  }

  /** A username change keeps user names unique and the directory valid. */
  lemma UpdateUsernameKeepsUniqueness(d: Directory, current: string, newName: string)
    requires Valid(d) && UniqueNames(d)
    requires UpdateUsername(d, current, newName).Success?
    ensures UniqueNames(UpdateUsername(d, current, newName).value)
    ensures Valid(UpdateUsername(d, current, newName).value)
  {
  }
}
