/** The cart service at the level of the whole carts table: carts by id,
    the one-to-one user-to-cart link by email, and identity generation for
    new carts. Each operation resolves the cart the way the service does
    (by the caller's email or by a cart id) and writes the changed cart
    back. A `Failure` leaves the store as it was, which is also how a cart
    created lazily by a failed add disappears with the rolled-back
    transaction. */
module CartStore {
  import opened Wrappers
  import opened Errors
  import opened Catalog
  import opened Carts

  datatype Store = Store(carts: map<CartId, Cart>, cartOf: map<Email, CartId>, nextCartId: CartId)

  /** Ids below the identity counter, each cart filed under its own id,
      the email link pointing at a cart owned by that email, and every cart
      reachable from its owner's email (the one-to-one user-cart link). */
  predicate Valid(s: Store) {
    && (forall id | id in s.carts :: id < s.nextCartId && s.carts[id].id == id)
    && (forall e | e in s.cartOf :: s.cartOf[e] in s.carts && s.carts[s.cartOf[e]].owner == e)
    && (forall id | id in s.carts :: s.carts[id].owner in s.cartOf && s.cartOf[s.carts[id].owner] == id)
  }

  /** Every cart's cached total agrees with its lines. */
  predicate AllBalanced(s: Store) {
    forall id | id in s.carts :: Balanced(s.carts[id])
  }

  /** `fetchCartByUserEmail`: the cart linked to the email, if any. */
  function CartOf(s: Store, email: Email): (r: Option<Cart>)
    ensures r.Some? <==> email in s.cartOf && s.cartOf[email] in s.carts
    ensures r.Some? ==> r.value == s.carts[s.cartOf[email]]
    ensures Valid(s) && r.Some? ==> r.value.owner == email
  {
    if email in s.cartOf && s.cartOf[email] in s.carts then Some(s.carts[s.cartOf[email]]) else None
  }

  /** Store a changed cart under its own id. */
  function Put(s: Store, c: Cart): Store {
    s.(carts := s.carts[c.id := c])
  }

  /** `createOrFetchUserCart`: the user's cart, or a new empty one with
      total 0 under the next identity value. */
  function FetchOrCreate(s: Store, email: Email): (r: (Store, Cart))
    ensures CartOf(s, email).Some? ==> r == (s, CartOf(s, email).value)
    ensures CartOf(s, email).None? ==>
              && r.1 == Cart(s.nextCartId, email, [], 0)
              && r.0.carts == s.carts[s.nextCartId := r.1]
    ensures CartOf(r.0, email) == Some(r.1)
    ensures Valid(s) ==> Valid(r.0) && r.1.id in s.carts + r.0.carts && r.1.owner == email
    ensures Valid(s) ==> forall id | id in s.carts :: id in r.0.carts && r.0.carts[id] == s.carts[id]
  {
    match CartOf(s, email)
    case Some(c) => (s, c)
    case None =>
      var c := Cart(s.nextCartId, email, [], 0);
      (Store(s.carts[c.id := c], s.cartOf[email := c.id], s.nextCartId + 1), c)
  }

  /** `addProductToCart` for the user with this email. */
  function AddToCart(s: Store, products: Products, email: Email, pid: ProductId, qty: int): (r: Result<Store, Error>)
    ensures r.Success? <==> AddLine(FetchOrCreate(s, email).1, products, pid, qty).Success?
    ensures Valid(s) && r.Success? ==> Valid(r.value)
    ensures Valid(s) && r.Success? ==>
              CartOf(r.value, email) == Some(AddLine(FetchOrCreate(s, email).1, products, pid, qty).value)
    ensures Valid(s) && r.Success? && CartOf(r.value, email).Some? ==>
              var c := CartOf(r.value, email).value;
              && |c.lines| > 0
              && c.lines[|c.lines| - 1] == CartLine(pid, qty, products[pid].price)
              && forall id | id in s.carts && id != c.id :: id in r.value.carts && r.value.carts[id] == s.carts[id]
  {
    var (s1, c) := FetchOrCreate(s, email);
    match AddLine(c, products, pid, qty)
    case Failure(e) => Failure(e)
    case Success(c') =>
      assert Valid(s) ==> (PutKeepsValid(s1, c'); Valid(Put(s1, c')));
      Success(Put(s1, c'))
  }

  /** `updateProductQuantityInCart` for the user with this email; the cart
      must already exist. */
  function AdjustQuantity(s: Store, products: Products, email: Email, pid: ProductId, delta: int): (r: Result<Store, Error>)
    ensures CartOf(s, email).None? ==> r == Failure(NotFound(CartRes))
    ensures CartOf(s, email).Some? ==>
              (r.Success? <==> UpdateQuantity(CartOf(s, email).value, products, pid, delta).Success?)
    ensures Valid(s) && r.Success? ==> Valid(r.value)
    ensures Valid(s) && r.Success? ==>
              var id := s.cartOf[email];
              && r.value.carts.Keys == s.carts.Keys
              && r.value.carts[id] == UpdateQuantity(s.carts[id], products, pid, delta).value
              && forall other | other in s.carts && other != id :: r.value.carts[other] == s.carts[other]
  {
    match CartOf(s, email)
    case None => Failure(NotFound(CartRes))
    case Some(c) =>
      match UpdateQuantity(c, products, pid, delta)
      case Failure(e) => Failure(e)
      case Success(c') => Success(Put(s, c'))
  }

  /** `deleteProductFromCart(cartId, productId)`: the cart by id, then the line. */
  function DeleteFromCart(s: Store, cartId: CartId, pid: ProductId): (r: Result<Store, Error>)
    ensures cartId !in s.carts ==> r == Failure(NotFound(CartRes))
    ensures r.Success? <==> cartId in s.carts && Find(s.carts[cartId].lines, pid).Unique?
    ensures Valid(s) && r.Success? ==> Valid(r.value)
    ensures Valid(s) && r.Success? ==>
              && r.value.carts.Keys == s.carts.Keys
              && !HasProduct(r.value.carts[cartId].lines, pid)
              && |r.value.carts[cartId].lines| == |s.carts[cartId].lines| - 1
              && r.value.carts[cartId] == RemoveLine(s.carts[cartId], pid).value
              && forall other | other in s.carts && other != cartId :: r.value.carts[other] == s.carts[other]
  {
    if cartId !in s.carts then Failure(NotFound(CartRes))
    else
      var c := s.carts[cartId];
      match RemoveLine(c, pid)
      case Failure(e) => Failure(e)
      case Success(c') => Success(Put(s, c'))
  }

  /** `updateProductInCarts(cartId, productId)`: re-price one cart's line
      after a catalog price change. */
  function RepriceInCart(s: Store, products: Products, cartId: CartId, pid: ProductId): (r: Result<Store, Error>)
    ensures cartId !in s.carts ==> r == Failure(NotFound(CartRes))
    ensures r.Success? <==> cartId in s.carts && Reprice(s.carts[cartId], products, pid).Success?
    ensures Valid(s) && r.Success? ==> Valid(r.value)
    ensures Valid(s) && r.Success? ==>
              && r.value.carts.Keys == s.carts.Keys
              && r.value.carts[cartId] == Reprice(s.carts[cartId], products, pid).value
              && forall other | other in s.carts && other != cartId :: r.value.carts[other] == s.carts[other]
  {
    if cartId !in s.carts then Failure(NotFound(CartRes))
    else
      var c := s.carts[cartId];
      match Reprice(c, products, pid)
      case Failure(e) => Failure(e)
      case Success(c') => Success(Put(s, c'))
  }

  /** `createOrUpdateCartWithItems` for the user with this email: fetch or
      create the cart, then replace all of its lines. */
  method SyncCart(s: Store, products: Products, email: Email, items: seq<SyncItem>) returns (r: Result<Store, Error>)
    ensures r.Success? <==> forall k | 0 <= k < |items| :: items[k].product in products
    ensures r.Failure? ==> r.error == NotFound(ProductRes)
    ensures Valid(s) && r.Success? ==> Valid(r.value)
    ensures Valid(s) && AllBalanced(s) && r.Success? ==> AllBalanced(r.value)
    ensures Valid(s) && r.Success? ==>
              && CartOf(r.value, email).Some?
              && |CartOf(r.value, email).value.lines| == |items|
              && (forall k | 0 <= k < |items| ::
                    CartOf(r.value, email).value.lines[k]
                      == CartLine(items[k].product, items[k].quantity, products[items[k].product].price))
              && Balanced(CartOf(r.value, email).value)
              && forall id | id in s.carts && id != CartOf(r.value, email).value.id ::
                   id in r.value.carts && r.value.carts[id] == s.carts[id]
  {
    var (s1, c) := FetchOrCreate(s, email);
    var synced := Resync(c, products, items);
    match synced
    case Failure(e) => return Failure(e);
    case Success(c') =>
      r := Success(Put(s1, c'));
      if Valid(s) {
        PutKeepsValid(s1, c');
      }
  }

  /** Writing a changed cart back under its own id, with the same owner,
      keeps the store valid, and the owner's email then finds it. */
  lemma PutKeepsValid(s: Store, c: Cart)
    requires Valid(s) && c.id in s.carts && s.carts[c.id].owner == c.owner
    ensures Valid(Put(s, c))
    ensures CartOf(Put(s, c), c.owner) == Some(c)
  {
  }

  /** `getAllCarts`: an empty carts table is an error, not an empty list. */
  function AllCarts(s: Store): (r: Result<set<Cart>, Error>)
    ensures r.Failure? <==> |s.carts| == 0
    ensures r.Failure? ==> r.error == Api(NoCarts)
    ensures r.Success? ==> forall id | id in s.carts :: s.carts[id] in r.value
    ensures r.Success? ==> forall c | c in r.value :: exists id | id in s.carts :: s.carts[id] == c
  {
    if |s.carts| == 0 then Failure(Api(NoCarts)) else Success(s.carts.Values)
  }

  /** `getCart(email, cartId)`: the cart with that id, provided it belongs
      to that email. */
  function GetCart(s: Store, email: Email, cartId: CartId): (r: Result<Cart, Error>)
    ensures r.Success? <==> cartId in s.carts && s.carts[cartId].owner == email
    ensures r.Failure? ==> r.error == NotFound(CartRes)
    ensures Valid(s) && r.Success? ==> r.value.id == cartId
  {
    if cartId in s.carts && s.carts[cartId].owner == email then Success(s.carts[cartId])
    else Failure(NotFound(CartRes))
  }

  /** Adding a product keeps every cart balanced. */
  lemma AddToCartKeepsBalance(s: Store, products: Products, email: Email, pid: ProductId, qty: int)
    requires Valid(s) && AllBalanced(s)
    requires AddToCart(s, products, email, pid, qty).Success?
    ensures AllBalanced(AddToCart(s, products, email, pid, qty).value)
  {
    var (s1, c) := FetchOrCreate(s, email);
    assert Balanced(c) by {
      if CartOf(s, email).None? {
        assert c.lines == [];
      }
    }
    AddLineKeepsBalance(c, products, pid, qty);
  }

  /** Deleting a line keeps every cart balanced. */
  lemma DeleteFromCartKeepsBalance(s: Store, cartId: CartId, pid: ProductId)
    requires Valid(s) && AllBalanced(s)
    requires DeleteFromCart(s, cartId, pid).Success?
    ensures AllBalanced(DeleteFromCart(s, cartId, pid).value)
  {
    RemoveLineKeepsBalance(s.carts[cartId], pid);
  }

  /** Re-pricing a line keeps every cart balanced. */
  lemma RepriceInCartKeepsBalance(s: Store, products: Products, cartId: CartId, pid: ProductId)
    requires Valid(s) && AllBalanced(s)
    requires RepriceInCart(s, products, cartId, pid).Success?
    ensures AllBalanced(RepriceInCart(s, products, cartId, pid).value)
  {
    RepriceKeepsBalance(s.carts[cartId], products, pid);
  }

  /** The user's cart has exactly one line for `pid`, and its snapshot
      still equals the catalog price. */
  predicate SnapshotCurrent(s: Store, products: Products, email: Email, pid: ProductId) {
    && CartOf(s, email).Some?
    && pid in products
    && Find(CartOf(s, email).value.lines, pid).Unique?
    && CartOf(s, email).value.lines[Find(CartOf(s, email).value.lines, pid).index].price == products[pid].price
  }

  /** A quantity update keeps every cart balanced when the catalog price
      of the product still equals the snapshot in the user's cart. */
  lemma AdjustQuantityKeepsBalanceAtSnapshotPrice(s: Store, products: Products, email: Email, pid: ProductId, delta: int)
    requires Valid(s) && AllBalanced(s)
    ensures var r := AdjustQuantity(s, products, email, pid, delta);
            r.Success? && SnapshotCurrent(s, products, email, pid) ==> AllBalanced(r.value)
  {
    var r := AdjustQuantity(s, products, email, pid, delta);
    if r.Success? && SnapshotCurrent(s, products, email, pid) {
      UpdateQuantityBalancedIff(CartOf(s, email).value, products, pid, delta);
    }
  }
}
