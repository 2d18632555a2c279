/** The address service: creating an address for a user, reading it,
    overwriting its fields, and deleting it, while keeping the owner's
    in-memory address list in step with the addresses table. */
module AddressBook {
  import opened Wrappers
  import opened Errors
  import opened Accounts

  /** `newAddr`: the address gets the next id and the given user as owner,
      is stored, and is appended to that user's list. */
  function NewAddr(d: Directory, dto: AddressDto, user: User): (r: (Directory, Address))
    ensures var a := r.1;
            && a.id == d.nextAddrId && a.owner == user.id
            && a.street == dto.street && a.buildingName == dto.buildingName && a.city == dto.city
            && a.state == dto.state && a.country == dto.country && a.pincode == dto.pincode
    ensures r.0.addresses == d.addresses[r.1.id := r.1]
    ensures user.id in r.0.users && r.0.users[user.id] == user.(addresses := user.addresses + [r.1])
    ensures forall id | id in d.users && id != user.id :: id in r.0.users && r.0.users[id] == d.users[id]
    ensures Valid(d) ==> r.1.id !in d.addresses
    ensures Valid(d) && user.id in d.users ==> Valid(r.0)
  {
    var a := Address(d.nextAddrId, user.id, dto.street, dto.buildingName, dto.city,
                     dto.state, dto.country, dto.pincode);
    var owner := user.(addresses := user.addresses + [a]);
    (d.(users := d.users[user.id := owner], addresses := d.addresses[a.id := a], nextAddrId := d.nextAddrId + 1), a)
  }

  /** `getAddr`: every stored address. */
  function GetAddr(d: Directory): (r: set<Address>)
    ensures forall id | id in d.addresses :: d.addresses[id] in r
    ensures forall a | a in r :: exists id | id in d.addresses :: d.addresses[id] == a
  {
    d.addresses.Values
  }

  /** `getAddrById`. */
  function GetAddrById(d: Directory, id: AddrId): (r: Result<Address, Error>)
    ensures r.Success? <==> id in d.addresses
    ensures r.Failure? ==> r.error == NotFound(AddressRes)
    ensures r.Success? ==> r.value == d.addresses[id]
  {
    if id in d.addresses then Success(d.addresses[id]) else Failure(NotFound(AddressRes))
  }

  /** `getAddrByUserId`: the user's own list, or not-found for an unknown user. */
  function GetAddrByUserId(d: Directory, userId: UserId): (r: Result<seq<Address>, Error>)
    ensures r.Success? <==> userId in d.users
    ensures r.Failure? ==> r.error == NotFound(UserRes)
    ensures r.Success? ==> r.value == d.users[userId].addresses
  {
    if userId in d.users then Success(d.users[userId].addresses) else Failure(NotFound(UserRes))
  }

  /** `applyAddressUpdates`: exactly the six client fields are overwritten. */
  function ApplyUpdates(a: Address, dto: AddressDto): (r: Address)
    ensures r.id == a.id && r.owner == a.owner
    ensures r.street == dto.street && r.buildingName == dto.buildingName && r.city == dto.city
    ensures r.state == dto.state && r.country == dto.country && r.pincode == dto.pincode
  {
    a.(city := dto.city, pincode := dto.pincode, state := dto.state,
       country := dto.country, street := dto.street, buildingName := dto.buildingName)
  }

  /** `synchronizeUserAddressList`: drop every entry with the address id,
      then append the updated record. */
  function Resynchronize(list: seq<Address>, id: AddrId, updated: Address): (r: seq<Address>)
    ensures |r| > 0 && r[|r| - 1] == updated
    ensures updated.id == id ==> CountId(r, id) == 1
    ensures forall other | other != id && other != updated.id :: CountId(r, other) == CountId(list, other)
  {
    var kept := WithoutId(list, id);
    CountIdAppend(kept, [updated], id);
    assert [updated][1..] == [];
    var r := kept + [updated];
    forall other | other != id && other != updated.id ensures CountId(r, other) == CountId(list, other) {
      WithoutIdKeepsOthers(list, id, other);
      CountIdAppend(kept, [updated], other);
      assert [updated][1..] == [];
    }
    r
  }

  /** `updateAddr`: overwrite the six fields, store the record, and replace
      it in the owner's list. */
  function UpdateAddr(d: Directory, id: AddrId, dto: AddressDto): (r: Result<(Directory, Address), Error>)
    ensures r.Success? <==> id in d.addresses
    ensures r.Failure? ==> r.error == NotFound(AddressRes)
    ensures r.Success? ==>
              && r.value.1 == ApplyUpdates(d.addresses[id], dto)
              && r.value.0.addresses == d.addresses[id := r.value.1]
              && r.value.0.nextAddrId == d.nextAddrId && r.value.0.nextUserId == d.nextUserId
              && r.value.0.users.Keys == d.users.Keys
    ensures r.Success? && d.addresses[id].owner in d.users ==>
              var owner := d.addresses[id].owner;
              && r.value.0.users[owner].addresses == Resynchronize(d.users[owner].addresses, id, r.value.1)
              && r.value.0.users[owner] == d.users[owner].(addresses := r.value.0.users[owner].addresses)
              && forall u | u in d.users && u != owner :: r.value.0.users[u] == d.users[u]
    ensures Valid(d) && r.Success? ==> Valid(r.value.0)
  {
    if id !in d.addresses then Failure(NotFound(AddressRes))
    else
      var existing := d.addresses[id];
      var updated := ApplyUpdates(existing, dto);
      var users :=
        if existing.owner in d.users then
          var u := d.users[existing.owner];
          d.users[existing.owner := u.(addresses := Resynchronize(u.addresses, id, updated))]
        else d.users;
      Success((d.(addresses := d.addresses[id := updated], users := users), updated))
  }

  /** `delAddr`: drop every entry with the id from the owner's list, then
      delete the record. */
  function DelAddr(d: Directory, id: AddrId): (r: Result<Directory, Error>)
    ensures r.Success? <==> id in d.addresses
    ensures r.Failure? ==> r.error == NotFound(AddressRes)
    ensures r.Success? ==>
              && r.value.addresses == d.addresses - {id}
              && r.value.users.Keys == d.users.Keys
    ensures r.Success? && d.addresses[id].owner in d.users ==>
              var owner := d.addresses[id].owner;
              && r.value.users[owner] == d.users[owner].(addresses := WithoutId(d.users[owner].addresses, id))
              && CountId(r.value.users[owner].addresses, id) == 0
              && forall u | u in d.users && u != owner :: r.value.users[u] == d.users[u]
    ensures Valid(d) && r.Success? ==> Valid(r.value)
  {
    if id !in d.addresses then Failure(NotFound(AddressRes))
    else
      var owner := d.addresses[id].owner;
      var users :=
        if owner in d.users then
          d.users[owner := d.users[owner].(addresses := WithoutId(d.users[owner].addresses, id))]
        else d.users;
      Success(d.(users := users, addresses := d.addresses - {id}))
  }

  /** Deleting an address just created restores the addresses table and
      leaves the owner's list without that id. */
  lemma NewThenDelete(d: Directory, dto: AddressDto, user: User)
    requires Valid(d) && user.id in d.users
    ensures var (d1, a) := NewAddr(d, dto, user);
            var r := DelAddr(d1, a.id);
            && r.Success?
            && r.value.addresses == d.addresses
            && r.value.users[user.id].addresses == WithoutId(user.addresses, a.id)
  {
    var (d1, a) := NewAddr(d, dto, user);
    assert d1.addresses - {a.id} == d.addresses;
    WithoutIdAppendOther(user.addresses, a, a.id);
  }

  /** After an update the owner's list holds the updated record once, last,
      and the entries of every other id exactly as before and in the same
      order. */
  lemma UpdateAddrOwnerList(d: Directory, id: AddrId, dto: AddressDto)
    requires Valid(d) && id in d.addresses
    ensures var r := UpdateAddr(d, id, dto).value;
            var owner := d.addresses[id].owner;
            var list := r.0.users[owner].addresses;
            && CountId(list, id) == 1
            && list[|list| - 1] == r.1
            && WithoutId(list, id) == WithoutId(d.users[owner].addresses, id)
  {
    var r := UpdateAddr(d, id, dto).value;
    var owner := d.addresses[id].owner;
    var old_ := d.users[owner].addresses;
    var kept := WithoutId(old_, id);
    WithoutIdAppendOther(kept, r.1, id);
    WithoutIdIdempotent(old_, id);
  }

  lemma WithoutIdAppendOther(list: seq<Address>, a: Address, id: AddrId)
    requires a.id == id
    ensures WithoutId(list + [a], id) == WithoutId(list, id)
  {
    if |list| == 0 {
      assert list + [a] == [a];
      assert [a][1..] == [];
    } else {
      assert (list + [a])[1..] == list[1..] + [a];
      WithoutIdAppendOther(list[1..], a, id);
    }
  }
}
