/** Users and their addresses, the records shared by the registration and
    address services. A user keeps the list of its address records in the
    order they were added; the addresses table holds the same records by id. */
module Accounts {

  type UserId = nat
  type AddrId = nat

  datatype AppRole = RoleUser | RoleAdmin

  /** The six address fields a client supplies. */
  datatype AddressDto = AddressDto(
    street: string, buildingName: string, city: string,
    state: string, country: string, pincode: string)

  datatype Address = Address(
    id: AddrId, owner: UserId,
    street: string, buildingName: string, city: string,
    state: string, country: string, pincode: string)

  datatype User = User(
    id: UserId, userName: string, email: string, password: string,
    roles: set<AppRole>, addresses: seq<Address>)

  /** The users and addresses tables with their identity counters. */
  datatype Directory = Directory(
    users: map<UserId, User>, addresses: map<AddrId, Address>,
    nextUserId: UserId, nextAddrId: AddrId)

  /** Ids below the identity counters, each record filed under its own id,
      and every address owned by a stored user (the user_id foreign key). */
  predicate Valid(d: Directory) {
    && (forall id | id in d.users :: id < d.nextUserId && d.users[id].id == id)
    && (forall id | id in d.addresses ::
          id < d.nextAddrId && d.addresses[id].id == id && d.addresses[id].owner in d.users)
  }

  /** How many entries of the list carry address id `id`. */
  function CountId(list: seq<Address>, id: AddrId): nat {
    if |list| == 0 then 0 else (if list[0].id == id then 1 else 0) + CountId(list[1..], id)
  }

  /** `removeIf(address -> address.getAddressId().equals(id))`. */
  function WithoutId(list: seq<Address>, id: AddrId): (r: seq<Address>)
    ensures CountId(r, id) == 0
    ensures |r| <= |list|
    ensures forall a | a in list && a.id != id :: a in r
    ensures forall a | a in r :: a in list && a.id != id
  {
    if |list| == 0 then []
    else if list[0].id == id then WithoutId(list[1..], id)
    else [list[0]] + WithoutId(list[1..], id)
  }

  lemma {:induction false} CountIdAppend(a: seq<Address>, b: seq<Address>, id: AddrId)
    ensures CountId(a + b, id) == CountId(a, id) + CountId(b, id)
  {
    if |a| == 0 {
      assert a + b == b;
    } else {
      assert (a + b)[1..] == a[1..] + b;
      CountIdAppend(a[1..], b, id);
    }
  }

  /** Filtering one id keeps the count of every other id, and filters for
      two different ids commute. */
  lemma {:induction false} WithoutIdKeepsOthers(list: seq<Address>, id: AddrId, other: AddrId)
    requires other != id
    ensures CountId(WithoutId(list, id), other) == CountId(list, other)
    ensures WithoutId(WithoutId(list, id), other) == WithoutId(WithoutId(list, other), id)
  {
    if |list| > 0 {
      WithoutIdKeepsOthers(list[1..], id, other);
      if list[0].id != id {
        assert WithoutId(list, id) == [list[0]] + WithoutId(list[1..], id);
        assert ([list[0]] + WithoutId(list[1..], id))[1..] == WithoutId(list[1..], id);
      }
      if list[0].id != other {
        assert WithoutId(list, other) == [list[0]] + WithoutId(list[1..], other);
        assert ([list[0]] + WithoutId(list[1..], other))[1..] == WithoutId(list[1..], other);
      }
    }
  }

  /** Filtering works entry by entry: filtering a concatenation filters
      each part, so the kept entries stay in their order. */
  lemma {:induction false} WithoutIdAppend(a: seq<Address>, b: seq<Address>, id: AddrId)
    ensures WithoutId(a + b, id) == WithoutId(a, id) + WithoutId(b, id)
  {
    if |a| == 0 {
      assert a + b == b;
    } else {
      var ab := a + b;
      assert ab[0] == a[0];
      assert ab[1..] == a[1..] + b;
      WithoutIdAppend(a[1..], b, id);
      if a[0].id == id {
        assert WithoutId(ab, id) == WithoutId(ab[1..], id);
      } else {
        assert WithoutId(ab, id) == [a[0]] + WithoutId(ab[1..], id);
        assert WithoutId(a, id) == [a[0]] + WithoutId(a[1..], id);
      }
    }
  }

  /** Filtering an id twice is filtering it once. */
  lemma {:induction false} WithoutIdIdempotent(list: seq<Address>, id: AddrId)
    ensures WithoutId(WithoutId(list, id), id) == WithoutId(list, id)
  {
    if |list| > 0 {
      WithoutIdIdempotent(list[1..], id);
      if list[0].id != id {
        assert ([list[0]] + WithoutId(list[1..], id))[1..] == WithoutId(list[1..], id);
      }
    }
  }
}
