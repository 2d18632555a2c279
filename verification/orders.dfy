/** The order service: checkout turns the caller's cart into an order with
    a payment record, draws the products' stock down and empties the cart
    through the cart service's delete path; an administrator can set an
    order's status. The service is transactional, so a `Failure` leaves the
    whole shop as it was. */
module Orders {
  import opened Wrappers
  import opened Errors
  import opened Catalog
  import opened Carts
  import opened CartStore
  import opened Paging
  import Accounts

  type OrderId = nat

  /** The status every new order starts in. */
  const Accepted: string := "Accepted"

  /** The five payment strings the client reports from the gateway. */
  datatype Gateway = Gateway(
    paymentMethod: string, pgName: string, pgPaymentId: string,
    pgStatus: string, pgResponseMessage: string)

  datatype Payment = Payment(
    paymentMethod: string, pgPaymentId: string, pgStatus: string,
    pgResponseMessage: string, pgName: string, order: OrderId)

  /** One order_items row: product, quantity and the unit price paid. */
  datatype OrderItem = OrderItem(product: ProductId, qty: int, price: int)

  datatype Order = Order(
    id: OrderId, email: Email, date: int, items: seq<OrderItem>,
    total: int, status: string, address: Accounts.AddrId, payment: Payment)

  /** The tables checkout reads and writes. */
  datatype Shop = Shop(
    carts: Store, products: Products,
    addresses: map<Accounts.AddrId, Accounts.Address>,
    orders: map<OrderId, Order>, nextOrderId: OrderId)

  predicate Valid(s: Shop) {
    && CartStore.Valid(s.carts)
    && forall id | id in s.orders :: id < s.nextOrderId && s.orders[id].id == id
  }

  /** The sum of unit price times quantity over order items. */
  function ItemSum(items: seq<OrderItem>): int {
    if |items| == 0 then 0 else items[0].price * items[0].qty + ItemSum(items[1..])
  }

  /** `convertCartItemsToOrderItems`: one item per cart line, in cart order,
      carrying the line's snapshot price. */
  function ToOrderItems(lines: seq<CartLine>): (r: seq<OrderItem>)
    ensures |r| == |lines|
    ensures forall k | 0 <= k < |lines| ::
              r[k].product == lines[k].product && r[k].qty == lines[k].qty && r[k].price == lines[k].price
    ensures ItemSum(r) == LineSum(lines)
  {
    if |lines| == 0 then []
    else [OrderItem(lines[0].product, lines[0].qty, lines[0].price)] + ToOrderItems(lines[1..])
  }

  /** How many units of `pid` the lines ask for. */
  function Demand(lines: seq<CartLine>, pid: ProductId): int {
    if |lines| == 0 then 0
    else (if lines[0].product == pid then lines[0].qty else 0) + Demand(lines[1..], pid)
  }

  /** `reduceProductInventory`: no lower bound is enforced. */
  function ReduceStock(products: Products, pid: ProductId, qty: int): (r: Products)
    ensures r.Keys == products.Keys
    ensures pid in products ==> r[pid] == products[pid].(stock := products[pid].stock - qty)
    ensures forall other | other in products && other != pid :: r[other] == products[other]
  {
    if pid in products then products[pid := products[pid].(stock := products[pid].stock - qty)]
    else products
  }

  /** The product table after `lines` have been drawn from stock. */
  predicate StockDrawn(before: Products, after: Products, lines: seq<CartLine>) {
    && after.Keys == before.Keys
    && forall pid | pid in before :: after[pid] == before[pid].(stock := before[pid].stock - Demand(lines, pid))
  }

  /** `processInventoryAndClearCart`: for each line of the cart as it was
      read, in order, reduce the product's stock and delete the product
      from the cart through the cart service, which looks the line up
      again by (cart, product). */
  function Drain(c: Cart, products: Products, lines: seq<CartLine>): (r: Result<(Cart, Products), Error>)
    ensures r.Success? ==> StockDrawn(products, r.value.1, lines)
    ensures r.Success? ==> r.value.0.id == c.id && r.value.0.owner == c.owner
    ensures r.Success? && c.lines == lines ==>
              r.value.0.lines == [] && r.value.0.total == c.total - LineSum(lines)
    decreases |lines|
  {
    if |lines| == 0 then Success((c, products))
    else
      var l := lines[0];
      var reduced := ReduceStock(products, l.product, l.qty);
      match RemoveLine(c, l.product)
      case Failure(e) => Failure(e)
      case Success(c') =>
        match Drain(c', reduced, lines[1..])
        case Failure(e) => Failure(e)
        case Success(done) =>
          StockDrawnStep(products, lines, done.1);
          if c.lines == lines then
            RemoveHead(c);
            Success(done)
          else Success(done)
  }

  /** When the lines being drained are the cart's own, a successful delete
      of the first line's product removes exactly the first line. */
  lemma RemoveHead(c: Cart)
    requires |c.lines| > 0 && RemoveLine(c, c.lines[0].product).Success?
    ensures RemoveLine(c, c.lines[0].product).value.lines == c.lines[1..]
    ensures RemoveLine(c, c.lines[0].product).value.total == c.total - Amount(c.lines[0])
  {
  }

  /** Drawing the first line and then the rest draws all the lines. */
  lemma StockDrawnStep(products: Products, lines: seq<CartLine>, after: Products)
    requires |lines| > 0
    requires StockDrawn(ReduceStock(products, lines[0].product, lines[0].qty), after, lines[1..])
    ensures StockDrawn(products, after, lines)
  {
  }

  /** Draining a cart's own lines, when no product appears twice, always
      succeeds and leaves the cart without lines. */
  lemma {:induction false} DrainDistinct(c: Cart, products: Products, lines: seq<CartLine>)
    requires c.lines == lines && DistinctProducts(lines)
    ensures Drain(c, products, lines).Success?
    decreases |lines|
  {
    if |lines| > 0 {
      DistinctFindsUnique(lines, lines[0].product);
      RemoveHead(c);
      var c' := RemoveLine(c, lines[0].product).value;
      DrainDistinct(c', ReduceStock(products, lines[0].product, lines[0].qty), lines[1..]);
    }
  }

  /** Draining a cart's own lines fails as soon as a product appears twice:
      the delete path's lookup then finds two rows. */
  lemma {:induction false} DrainDuplicateFails(c: Cart, products: Products, lines: seq<CartLine>)
    requires c.lines == lines && !DistinctProducts(lines)
    ensures Drain(c, products, lines) == Failure(NonUniqueResult)
    decreases |lines|
  {
    var i, j :| 0 <= i < j < |lines| && lines[i].product == lines[j].product;
    var pid := lines[0].product;
    if Find(lines, pid).Unique? {
      RemoveHead(c);
      var c' := RemoveLine(c, pid).value;
      assert lines[1..][i - 1].product == lines[1..][j - 1].product;
      DrainDuplicateFails(c', ReduceStock(products, pid, lines[0].qty), lines[1..]);
    } else {
      assert Find(lines, pid) == Ambiguous;
    }
  }

  /** The cart of the caller, or not-found. */
  function FetchCart(s: Shop, email: Email): (r: Result<Cart, Error>)
    ensures r.Success? <==> CartOf(s.carts, email).Some?
    ensures r.Failure? ==> r.error == NotFound(CartRes)
    ensures r.Success? ==> r.value == CartOf(s.carts, email).value
  {
    match CartOf(s.carts, email)
    case None => Failure(NotFound(CartRes))
    case Some(c) => Success(c)
  }

  /** `placeOrder`: the cart is resolved first, the delivery address next,
      then an order is built with the cart's cached total, status
      "Accepted" and a payment carrying the gateway strings; an empty cart
      aborts; each cart line becomes an order item at its snapshot price;
      finally stock is drawn down and every line deleted. */
  function PlaceOrder(s: Shop, email: Email, addressId: Accounts.AddrId, gateway: Gateway, today: int)
    : (r: Result<(Shop, Order), Error>)
    ensures CartOf(s.carts, email).None? ==> r == Failure(NotFound(CartRes))
    ensures CartOf(s.carts, email).Some? && addressId !in s.addresses ==> r == Failure(NotFound(AddressRes))
    ensures (CartOf(s.carts, email).Some? && addressId in s.addresses
             && CartOf(s.carts, email).value.lines == []) ==> r == Failure(Api(EmptyCart))
    ensures r.Success? <==>
              && CartOf(s.carts, email).Some? && addressId in s.addresses
              && |CartOf(s.carts, email).value.lines| > 0
              && DistinctProducts(CartOf(s.carts, email).value.lines)
    ensures r.Success? ==>
              var c := CartOf(s.carts, email).value;
              var o := r.value.1;
              && o.id == s.nextOrderId && o.email == email && o.date == today
              && o.total == c.total && o.status == Accepted && o.address == addressId
              && o.items == ToOrderItems(c.lines)
              && o.payment == Payment(gateway.paymentMethod, gateway.pgPaymentId, gateway.pgStatus,
                                      gateway.pgResponseMessage, gateway.pgName, o.id)
    ensures r.Success? ==>
              var c := CartOf(s.carts, email).value;
              var s' := r.value.0;
              && s'.orders == s.orders[s.nextOrderId := r.value.1]
              && s'.nextOrderId == s.nextOrderId + 1
              && s'.addresses == s.addresses
              && StockDrawn(s.products, s'.products, c.lines)
              && s'.carts == Put(s.carts, c.(lines := [], total := c.total - LineSum(c.lines)))
  {
    var c :- FetchCart(s, email);
    if addressId !in s.addresses then Failure(NotFound(AddressRes))
    else if |c.lines| == 0 then Failure(Api(EmptyCart))
    else if DistinctProducts(c.lines) then Success(Commit(s, c, email, addressId, gateway, today))
    else
      DrainDuplicateFails(c, s.products, c.lines);
      Failure(NonUniqueResult)
  }

  /** The successful end of `placeOrder`: the order and its payment are
      saved under the next id, and the cart's lines are drained. */
  function Commit(s: Shop, c: Cart, email: Email, addressId: Accounts.AddrId, gateway: Gateway, today: int)
    : (r: (Shop, Order))
    requires DistinctProducts(c.lines)
    ensures var o := r.1;
            && o.id == s.nextOrderId && o.email == email && o.date == today
            && o.total == c.total && o.status == Accepted && o.address == addressId
            && o.items == ToOrderItems(c.lines)
            && o.payment == Payment(gateway.paymentMethod, gateway.pgPaymentId, gateway.pgStatus,
                                    gateway.pgResponseMessage, gateway.pgName, o.id)
    ensures var s' := r.0;
            && s'.orders == s.orders[s.nextOrderId := r.1]
            && s'.nextOrderId == s.nextOrderId + 1
            && s'.addresses == s.addresses
            && StockDrawn(s.products, s'.products, c.lines)
            && s'.carts == Put(s.carts, c.(lines := [], total := c.total - LineSum(c.lines)))
  {
    DrainOwnLines(c, s.products);
    var drained := Drain(c, s.products, c.lines).value;
    var order := NewOrder(s.nextOrderId, c, email, addressId, gateway, today);
    (s.(carts := Put(s.carts, drained.0), products := drained.1,
        orders := s.orders[order.id := order], nextOrderId := order.id + 1), order)
  }

  /** The order row checkout saves, with its payment linked to it. */
  function NewOrder(id: OrderId, c: Cart, email: Email, addressId: Accounts.AddrId, gateway: Gateway, today: int)
    : (o: Order)
    ensures && o.id == id && o.email == email && o.date == today
            && o.total == c.total && o.status == Accepted && o.address == addressId
            && o.items == ToOrderItems(c.lines)
            && o.payment == Payment(gateway.paymentMethod, gateway.pgPaymentId, gateway.pgStatus,
                                    gateway.pgResponseMessage, gateway.pgName, id)
  {
    var payment := Payment(gateway.paymentMethod, gateway.pgPaymentId, gateway.pgStatus,
                           gateway.pgResponseMessage, gateway.pgName, id);
    Order(id, email, today, ToOrderItems(c.lines), c.total, Accepted, addressId, payment)
  }

  /** Draining a cart's own distinct lines empties exactly that cart. */
  lemma DrainOwnLines(c: Cart, products: Products)
    requires DistinctProducts(c.lines)
    ensures Drain(c, products, c.lines).Success?
    ensures Drain(c, products, c.lines).value.0 == c.(lines := [], total := c.total - LineSum(c.lines))
    ensures StockDrawn(products, Drain(c, products, c.lines).value.1, c.lines)
  {
    DrainDistinct(c, products, c.lines);
  }

  /** After a checkout the caller's cart is empty and, if it was balanced,
      its total is zero; the order's total equals the sum of its items; no
      other cart changes and the shop stays valid. */
  lemma PlaceOrderPostState(s: Shop, email: Email, addressId: Accounts.AddrId, gateway: Gateway, today: int)
    requires Valid(s)
    requires PlaceOrder(s, email, addressId, gateway, today).Success?
    ensures var (s', o) := PlaceOrder(s, email, addressId, gateway, today).value;
            var c := CartOf(s.carts, email).value;
            && s.nextOrderId !in s.orders
            && Valid(s')
            && CartOf(s'.carts, email).Some? && CartOf(s'.carts, email).value.lines == []
            && (Balanced(c) ==> CartOf(s'.carts, email).value.total == 0 && o.total == ItemSum(o.items))
            && (forall id | id in s.carts.carts && id != c.id :: s'.carts.carts[id] == s.carts.carts[id])
            && |o.items| == |c.lines|
  {
  }

  /** Nothing bounds stock from below: a line that outgrew the stock (a
      bulk sync does not check it) still checks out, leaving negative stock. */
  lemma StockMayGoNegative()
    ensures var cart := Cart(1, "a@shop", [CartLine(7, 3, 10)], 30);
            var s := Shop(Store(map[1 := cart], map["a@shop" := 1], 2),
                          map[7 := Product("Pen", 10, 1)],
                          map[4 := Accounts.Address(4, 0, "Main St", "", "Town", "", "", "")],
                          map[], 0);
            var r := PlaceOrder(s, "a@shop", 4, Gateway("card", "stripe", "p1", "ok", "paid"), 0);
            && r.Success?
            && r.value.0.products[7].stock == -2
  {
  }

  /** `orderUpdate`: any status string is stored; nothing else changes. */
  function UpdateStatus(s: Shop, orderId: OrderId, status: string): (r: Result<(Shop, Order), Error>)
    ensures r.Success? <==> orderId in s.orders
    ensures r.Failure? ==> r.error == NotFound(OrderRes)
    ensures r.Success? ==>
              && r.value.1 == s.orders[orderId].(status := status)
              && r.value.0 == s.(orders := s.orders[orderId := r.value.1])
    ensures Valid(s) && r.Success? ==> Valid(r.value.0)
  {
    if orderId !in s.orders then Failure(NotFound(OrderRes))
    else
      var o := s.orders[orderId].(status := status);
      Success((s.(orders := s.orders[orderId := o]), o))
  }

  /** A status change is undone by setting the old status back. */
  lemma UpdateStatusUndo(s: Shop, orderId: OrderId, status: string)
    requires orderId in s.orders
    ensures var s1 := UpdateStatus(s, orderId, status).value.0;
            UpdateStatus(s1, orderId, s.orders[orderId].status).value.0 == s
  {
  }

  /** `getAllOrders`: a page of all orders, in the order the repository
      returns them (`order`). An empty page is not an error here. */
  function GetAllOrders(s: Shop, order: seq<OrderId>, pageNumber: int, pageSize: int, sortBy: string, sortOrder: string)
    : (r: Result<(seq<Order>, Direction), Error>)
    requires IsOrdering(s.orders, order)
    ensures r.Success? <==> HasText(sortBy) && pageNumber >= 0 && pageSize >= 1
    ensures r.Failure? ==> r.error == IllegalArgument
    ensures r.Success? ==>
              && |r.value.0| <= pageSize
              && (|r.value.0| == 0 <==> pageNumber * pageSize >= |s.orders|)
              && (forall k | 0 <= k < |r.value.0| ::
                    pageNumber * pageSize + k < |order| && r.value.0[k] == s.orders[order[pageNumber * pageSize + k]])
              && (r.value.1 == Ascending <==> EqualsIgnoreCase(sortOrder, "asc"))
  {
    var direction :- SortCriteria(sortBy, sortOrder);
    var page :- PageOf(Arrange(s.orders, order), pageNumber, pageSize);
    Success((page, direction))
  }

  /** The orders placed under `email`, keeping the listing's order. */
  function PlacedBy(listing: seq<Order>, email: Email): (r: seq<Order>)
    ensures forall o | o in r :: o in listing && o.email == email
    ensures forall o | o in listing && o.email == email :: o in r
  {
    if |listing| == 0 then []
    else
      var rest := PlacedBy(listing[1..], email);
      assert forall o | o in listing && o != listing[0] :: o in listing[1..];
      if listing[0].email == email then [listing[0]] + rest else rest
  }

  /** Selecting by email works order by order: a single order is kept iff
      it is the caller's, and a concatenation is selected part by part, so
      the caller's orders keep their relative order and multiplicity. */
  lemma {:induction false} PlacedByAppend(a: seq<Order>, b: seq<Order>, email: Email)
    ensures PlacedBy(a + b, email) == PlacedBy(a, email) + PlacedBy(b, email)
    ensures forall o: Order :: PlacedBy([o], email) == (if o.email == email then [o] else [])
  {
    if |a| > 0 {
      assert (a + b)[0] == a[0];
      assert (a + b)[1..] == a[1..] + b;
      PlacedByAppend(a[1..], b, email);
    } else {
      assert a + b == b;
    }
    forall o: Order ensures PlacedBy([o], email) == (if o.email == email then [o] else []) {
      assert [o][1..] == [];
    }
  }

  /** `getUserOrders`: a page of the caller's own orders, in the order the
      repository returns all orders. An empty page is an empty list here,
      unlike the category listing. */
  function GetUserOrders(s: Shop, order: seq<OrderId>, email: Email, pageNumber: int, pageSize: int, sortBy: string, sortOrder: string)
    : (r: Result<(seq<Order>, Direction), Error>)
    requires IsOrdering(s.orders, order)
    ensures r.Success? <==> HasText(sortBy) && pageNumber >= 0 && pageSize >= 1
    ensures r.Failure? ==> r.error == IllegalArgument
    ensures r.Success? ==>
              && r.value.0 == PageOf(PlacedBy(Arrange(s.orders, order), email), pageNumber, pageSize).value
              && (r.value.1 == Ascending <==> EqualsIgnoreCase(sortOrder, "asc"))
    ensures r.Success? ==> |r.value.0| <= pageSize && forall o | o in r.value.0 :: o.email == email
  {
    var direction :- SortCriteria(sortBy, sortOrder);
    var page :- PageOf(PlacedBy(Arrange(s.orders, order), email), pageNumber, pageSize);
    Success((page, direction))
  }

  /** Every order the caller placed is in the listing the caller's pages
      are cut from. */
  lemma UserOrdersListEveryOrder(s: Shop, order: seq<OrderId>, email: Email)
    requires IsOrdering(s.orders, order)
    ensures forall id | id in s.orders && s.orders[id].email == email ::
              s.orders[id] in PlacedBy(Arrange(s.orders, order), email)
  {
    OrderingCoversRows(s.orders, order);
    var listing := Arrange(s.orders, order);
    forall id | id in s.orders && s.orders[id].email == email
      ensures s.orders[id] in PlacedBy(listing, email)
    {
      var i := IndexOf(order, id);
      assert listing[i] == s.orders[id];
    }
  }
}
