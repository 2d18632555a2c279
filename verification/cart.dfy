/** The shopping-cart ledger of the cart service: one cart holds its rows of
    the cart_items table in insertion order, each with a quantity and the
    unit price captured when the row was written, plus a cached total that
    every operation adjusts incrementally instead of re-summing.

    Lines are a sequence rather than a map because checkout copies them in
    cart order and because a bulk sync may write two rows for one product.
    A lookup by (cart, product) is a single-result repository query: no row
    is "not in your cart", two rows make the query itself fail. */
module Carts {
  import opened Wrappers
  import opened Errors
  import opened Catalog
  import opened Text

  type CartId = nat
  type Email = string

  /** One cart_items row: product, quantity, unit price snapshot. */
  datatype CartLine = CartLine(product: ProductId, qty: int, price: int)

  datatype Cart = Cart(id: CartId, owner: Email, lines: seq<CartLine>, total: int)

  /** One entry of a bulk sync request. */
  datatype SyncItem = SyncItem(product: ProductId, quantity: int)

  /** What a single-result lookup by product finds among the lines. */
  datatype Lookup = Absent | Unique(index: nat) | Ambiguous

  /** A line's contribution to the cart total. */
  function Amount(l: CartLine): int {
    l.price * l.qty
  }

  /** The sum of snapshot price times quantity over the lines. */
  function LineSum(lines: seq<CartLine>): int {
    if |lines| == 0 then 0 else Amount(lines[0]) + LineSum(lines[1..])
  }

  /** The cached total agrees with the lines. */
  predicate Balanced(c: Cart) {
    c.total == LineSum(c.lines)
  }

  /** At most one line per product. */
  predicate DistinctProducts(lines: seq<CartLine>) {
    forall i, j | 0 <= i < j < |lines| :: lines[i].product != lines[j].product
  }

  /** Some line is for product `pid`. */
  predicate HasProduct(lines: seq<CartLine>, pid: ProductId) {
    exists i | 0 <= i < |lines| :: lines[i].product == pid
  }

  /** The single-result query `retrieveCartItemByProductAndCart`. */
  function Find(lines: seq<CartLine>, pid: ProductId): (r: Lookup)
    ensures r.Absent? <==> !HasProduct(lines, pid)
    ensures r.Unique? ==> r.index < |lines| && lines[r.index].product == pid
    ensures r.Unique? ==> forall j | 0 <= j < |lines| && j != r.index :: lines[j].product != pid
    ensures r.Ambiguous? <==>
              exists i, j | 0 <= i < j < |lines| :: lines[i].product == pid && lines[j].product == pid
  {
    if |lines| == 0 then Absent
    else
      var rest := Find(lines[1..], pid);
      assert forall j | 1 <= j < |lines| :: lines[j] == lines[1..][j - 1];
      match rest
      case Absent =>
        if lines[0].product == pid then Unique(0) else Absent
      case Unique(k) =>
        if lines[0].product == pid then
          assert lines[k + 1].product == pid;
          Ambiguous
        else Unique(k + 1)
      case Ambiguous =>
        var i, j :| 0 <= i < j < |lines[1..]| && lines[1..][i].product == pid && lines[1..][j].product == pid;
        assert lines[i + 1].product == pid && lines[j + 1].product == pid;
        Ambiguous
  }

  /** The bulk delete `removeCartItemByProductAndCart`: every row of `pid` goes. */
  function Without(lines: seq<CartLine>, pid: ProductId): (r: seq<CartLine>)
    ensures !HasProduct(r, pid)
    ensures forall l | l in lines && l.product != pid :: l in r
    ensures forall l | l in r :: l in lines
  {
    if |lines| == 0 then []
    else
      var rest := Without(lines[1..], pid);
      assert forall l | l in lines && l != lines[0] :: l in lines[1..];
      if lines[0].product == pid then rest else [lines[0]] + rest
  }

  /** `validateProductAvailability`: None when the check passes. */
  function CheckAvailability(p: Product, requested: int): (r: Option<Error>)
    ensures r.None? <==> p.stock != 0 && requested <= p.stock
    ensures p.stock == 0 ==> r == Some(Api(Unavailable))
    ensures p.stock != 0 && p.stock < requested ==> r == Some(Api(OnlyUnitsAvailable(p.stock)))
  {
    if p.stock == 0 then Some(Api(Unavailable))
    else if p.stock < requested then Some(Api(OnlyUnitsAvailable(p.stock)))
    else None
  }

  /** `addProductToCart` on an already resolved cart: product lookup, then
      the duplicate check, then the stock check; on success one line is
      appended with the current catalog price as its snapshot. The requested
      quantity itself is not validated. */
  function AddLine(c: Cart, products: Products, pid: ProductId, qty: int): (r: Result<Cart, Error>)
    ensures pid !in products ==> r == Failure(NotFound(ProductRes))
    ensures pid in products && Find(c.lines, pid).Unique? ==> r == Failure(Api(AlreadyInCart))
    ensures r.Success? <==>
              pid in products && !HasProduct(c.lines, pid)
              && products[pid].stock != 0 && qty <= products[pid].stock
    ensures r.Success? ==>
              && r.value.id == c.id && r.value.owner == c.owner
              && r.value.lines == c.lines + [CartLine(pid, qty, products[pid].price)]
              && r.value.total == c.total + products[pid].price * qty
  {
    if pid !in products then Failure(NotFound(ProductRes))
    else
      var p := products[pid];
      match Find(c.lines, pid)
      case Unique(_) => Failure(Api(AlreadyInCart))
      case Ambiguous => Failure(NonUniqueResult)
      case Absent =>
        match CheckAvailability(p, qty)
        case Some(e) => Failure(e)
        case None =>
          Success(c.(lines := c.lines + [CartLine(pid, qty, p.price)], total := c.total + p.price * qty))
  }

  /** `deleteProductFromCart` on a resolved cart: the line must be found;
      the total drops by that line's snapshot price times its quantity and
      the line is removed. */
  function RemoveLine(c: Cart, pid: ProductId): (r: Result<Cart, Error>)
    ensures r.Success? <==> Find(c.lines, pid).Unique?
    ensures !HasProduct(c.lines, pid) ==> r == Failure(Api(NotInCart))
    ensures r.Success? ==>
              var i := Find(c.lines, pid).index;
              && r.value.id == c.id && r.value.owner == c.owner
              && r.value.lines == c.lines[..i] + c.lines[i + 1..]
              && r.value.total == c.total - Amount(c.lines[i])
              && !HasProduct(r.value.lines, pid)
  {
    match Find(c.lines, pid)
    case Absent => Failure(Api(NotInCart))
    case Ambiguous => Failure(NonUniqueResult)
    case Unique(i) =>
      WithoutUnique(c.lines, pid, i);
      Success(c.(lines := Without(c.lines, pid), total := c.total - Amount(c.lines[i])))
  }

  /** `updateProductQuantityInCart` on a resolved cart. The stock check is
      made against `delta`, not against the resulting quantity; a result of
      zero takes the delete path; otherwise the line's snapshot is
      overwritten with the current catalog price and the total moves by
      that new price times `delta`. */
  function UpdateQuantity(c: Cart, products: Products, pid: ProductId, delta: int): (r: Result<Cart, Error>)
    ensures pid !in products ==> r == Failure(NotFound(ProductRes))
    ensures pid in products && products[pid].stock == 0 ==> r == Failure(Api(Unavailable))
    ensures r.Success? ==>
              && pid in products && products[pid].stock != 0 && delta <= products[pid].stock
              && Find(c.lines, pid).Unique?
              && c.lines[Find(c.lines, pid).index].qty + delta >= 0
    ensures pid in products && CheckAvailability(products[pid], delta).None? && !HasProduct(c.lines, pid)
            ==> r == Failure(Api(NotInCart))
    ensures pid in products && CheckAvailability(products[pid], delta).None? && Find(c.lines, pid).Unique?
            && c.lines[Find(c.lines, pid).index].qty + delta < 0
            ==> r == Failure(Api(NegativeQuantity))
    ensures pid in products && CheckAvailability(products[pid], delta).None? && Find(c.lines, pid).Unique?
            && c.lines[Find(c.lines, pid).index].qty + delta == 0
            ==> r == RemoveLine(c, pid)
    ensures r.Success? && c.lines[Find(c.lines, pid).index].qty + delta != 0 ==>
              var i := Find(c.lines, pid).index;
              && r.value.id == c.id && r.value.owner == c.owner
              && |r.value.lines| == |c.lines|
              && r.value.lines[i] == CartLine(pid, c.lines[i].qty + delta, products[pid].price)
              && (forall j | 0 <= j < |c.lines| && j != i :: r.value.lines[j] == c.lines[j])
              && r.value.total == c.total + products[pid].price * delta
  {
    if pid !in products then Failure(NotFound(ProductRes))
    else
      var p := products[pid];
      match CheckAvailability(p, delta)
      case Some(e) => Failure(e)
      case None =>
        match Find(c.lines, pid)
        case Absent => Failure(Api(NotInCart))
        case Ambiguous => Failure(NonUniqueResult)
        case Unique(i) =>
          var newQty := c.lines[i].qty + delta;
          if newQty < 0 then Failure(Api(NegativeQuantity))
          else if newQty == 0 then RemoveLine(c, pid)
          else Success(c.(lines := c.lines[i := CartLine(pid, newQty, p.price)],
                          total := c.total + p.price * delta))
  }

  /** `updateProductInCarts`: after a catalog price change, the line takes
      the new price, keeps its quantity, and the total swaps the old line
      amount for the new one. */
  function Reprice(c: Cart, products: Products, pid: ProductId): (r: Result<Cart, Error>)
    ensures pid !in products ==> r == Failure(NotFound(ProductRes))
    ensures pid in products && !HasProduct(c.lines, pid) ==> r == Failure(Api(NotInCart))
    ensures r.Success? <==> pid in products && Find(c.lines, pid).Unique?
    ensures r.Success? ==>
              var i := Find(c.lines, pid).index;
              && r.value.id == c.id && r.value.owner == c.owner
              && |r.value.lines| == |c.lines|
              && r.value.lines[i] == c.lines[i].(price := products[pid].price)
              && (forall j | 0 <= j < |c.lines| && j != i :: r.value.lines[j] == c.lines[j])
              && r.value.total == c.total - Amount(c.lines[i]) + Amount(r.value.lines[i])
  {
    if pid !in products then Failure(NotFound(ProductRes))
    else
      var p := products[pid];
      match Find(c.lines, pid)
      case Absent => Failure(Api(NotInCart))
      case Ambiguous => Failure(NonUniqueResult)
      case Unique(i) =>
        var l := c.lines[i];
        Success(c.(lines := c.lines[i := l.(price := p.price)],
                   total := c.total - Amount(l) + p.price * l.qty))
  }

  /** `createOrUpdateCartWithItems` on a resolved cart: existing lines are
      dropped, one line per request item is written with the current catalog
      price, and the total is the running sum of price times quantity. Only
      an unknown product stops it; there is no stock or duplicate check. */
  method Resync(c: Cart, products: Products, items: seq<SyncItem>) returns (r: Result<Cart, Error>)
    ensures r.Success? <==> forall k | 0 <= k < |items| :: items[k].product in products
    ensures r.Failure? ==> r.error == NotFound(ProductRes)
    ensures r.Success? ==>
              && r.value.id == c.id && r.value.owner == c.owner
              && |r.value.lines| == |items|
              && (forall k | 0 <= k < |items| ::
                    r.value.lines[k] == CartLine(items[k].product, items[k].quantity, products[items[k].product].price))
              && Balanced(r.value)
  {
    var lines: seq<CartLine> := [];
    var cumulative := 0;
    var k := 0;
    while k < |items|
      invariant 0 <= k <= |items|
      invariant forall j | 0 <= j < k :: items[j].product in products
      invariant |lines| == k
      invariant forall j | 0 <= j < k ::
                  lines[j] == CartLine(items[j].product, items[j].quantity, products[items[j].product].price)
      invariant cumulative == LineSum(lines)
    {
      var item := items[k];
      if item.product !in products {
        return Failure(NotFound(ProductRes));
      }
      var line := CartLine(item.product, item.quantity, products[item.product].price);
      LineSumAppend(lines, [line]);
      cumulative := cumulative + products[item.product].price * item.quantity;
      lines := lines + [line];
      k := k + 1;
    }
    return Success(c.(lines := lines, total := cumulative));
  }

  /** `constructImageUrl`: an absolute http(s) name is kept as is; anything
      else, a missing name included (Java renders it as "null"), is joined
      to the base path, with a slash inserted unless the base already ends
      in one. The name itself is not inspected, so a name that starts with
      a slash still yields a doubled slash. */
  function ImageUrl(base: string, image: Option<string>): (r: string)
    ensures image.Some? && IsAbsoluteUrl(image.value) ==> r == image.value
    ensures !(image.Some? && IsAbsoluteUrl(image.value)) ==>
              var name := if image.Some? then image.value else "null";
              && (EndsInSlash(base) ==> r == base + name)
              && (!EndsInSlash(base) ==> r == base + "/" + name)
  {
    if image.Some? && IsAbsoluteUrl(image.value) then image.value
    else
      var name := if image.Some? then image.value else "null";
      if EndsInSlash(base) then base + name else base + "/" + name
  }

  predicate EndsInSlash(s: string) {
    |s| > 0 && s[|s| - 1] == '/'
  }

  /** A relative name always ends the URL, right after a slash, and the
      base path always starts it: the join never loses a character. */
  lemma ImageUrlJoinsAtSlash(base: string, name: string)
    requires !IsAbsoluteUrl(name)
    ensures var r := ImageUrl(base, Some(name));
            && |r| == |base| + |name| + (if EndsInSlash(base) then 0 else 1)
            && r[..|base|] == base
            && r[|r| - |name|..] == name
            && r[|r| - |name| - 1] == '/'
  {
    var r := ImageUrl(base, Some(name));
    if EndsInSlash(base) {
      assert r == base + name;
      assert r[|r| - |name| - 1] == base[|base| - 1];
    } else {
      assert r == base + "/" + name;
    }
  }

  /** The join on concrete paths: one slash is inserted when the base lacks
      one, none when it has one, and a missing name becomes "null"; a name
      with its own leading slash keeps it, doubling the slash. */
  lemma ImageUrlExamples()
    ensures ImageUrl("images", Some("a.png")) == "images/a.png"
    ensures ImageUrl("images/", Some("a.png")) == "images/a.png"
    ensures ImageUrl("images", None) == "images/null"
    ensures ImageUrl("images", Some("/a.png")) == "images//a.png"
    ensures ImageUrl("images", Some("https://cdn/a.png")) == "https://cdn/a.png"
  {
    assert StartsWith("https://cdn/a.png", "https://");
  }

  predicate IsAbsoluteUrl(s: string) {
    StartsWith(s, "http://") || StartsWith(s, "https://")
  }

  // ---------------------------------------------------------------------
  // Lemmas about the line sum

  lemma {:induction false} LineSumAppend(a: seq<CartLine>, b: seq<CartLine>)
    ensures LineSum(a + b) == LineSum(a) + LineSum(b)
  {
    if |a| == 0 {
      assert a + b == b;
    } else {
      assert (a + b)[1..] == a[1..] + b;
      LineSumAppend(a[1..], b);
    }
  }

  lemma LineSumSingle(l: CartLine)
    ensures LineSum([l]) == Amount(l)
  {
  }

  /** Removing the line at `i` takes exactly its amount off the sum. */
  lemma {:induction false} LineSumRemove(lines: seq<CartLine>, i: nat)
    requires i < |lines|
    ensures LineSum(lines[..i] + lines[i + 1..]) == LineSum(lines) - Amount(lines[i])
  {
    var before, after := lines[..i], lines[i + 1..];
    assert lines == (before + [lines[i]]) + after;
    LineSumAppend(before + [lines[i]], after);
    LineSumAppend(before, [lines[i]]);
    LineSumAppend(before, after);
    LineSumSingle(lines[i]);
  }

  /** Replacing the line at `i` swaps its amount for the new line's. */
  lemma {:induction false} LineSumReplace(lines: seq<CartLine>, i: nat, l: CartLine)
    requires i < |lines|
    ensures LineSum(lines[i := l]) == LineSum(lines) - Amount(lines[i]) + Amount(l)
  {
    var before, after := lines[..i], lines[i + 1..];
    assert lines[i := l] == (before + [l]) + after;
    assert lines == (before + [lines[i]]) + after;
    LineSumAppend(before + [l], after);
    LineSumAppend(before, [l]);
    LineSumAppend(before + [lines[i]], after);
    LineSumAppend(before, [lines[i]]);
    LineSumSingle(l);
    LineSumSingle(lines[i]);
  }

  /** When the lookup is unique, the bulk delete removes exactly that row
      and keeps the others in order. */
  lemma WithoutUnique(lines: seq<CartLine>, pid: ProductId, i: nat)
    requires Find(lines, pid) == Unique(i)
    ensures Without(lines, pid) == lines[..i] + lines[i + 1..]
  {
    WithoutOnly(lines, pid, i);
  }

  lemma {:induction false} WithoutOnly(lines: seq<CartLine>, pid: ProductId, i: nat)
    requires i < |lines| && lines[i].product == pid
    requires forall j | 0 <= j < |lines| && j != i :: lines[j].product != pid
    ensures Without(lines, pid) == lines[..i] + lines[i + 1..]
  {
    var tail := lines[1..];
    if i == 0 {
      assert !HasProduct(tail, pid) by {
        forall j | 0 <= j < |tail| ensures tail[j].product != pid {
          assert tail[j] == lines[j + 1];
        }
      }
      WithoutAbsent(tail, pid);
    } else {
      forall j | 0 <= j < |tail| && j != i - 1 ensures tail[j].product != pid {
        assert tail[j] == lines[j + 1];
      }
      WithoutOnly(tail, pid, i - 1);
      assert lines[..i] == [lines[0]] + tail[..i - 1];
      assert lines[i + 1..] == tail[i..];
    }
  }

  lemma {:induction false} WithoutAbsent(lines: seq<CartLine>, pid: ProductId)
    requires !HasProduct(lines, pid)
    ensures Without(lines, pid) == lines
  {
    if |lines| > 0 {
      assert lines[0].product != pid;
      assert !HasProduct(lines[1..], pid) by {
        forall j | 0 <= j < |lines[1..]| ensures lines[1..][j].product != pid {
          assert lines[1..][j] == lines[j + 1];
        }
      }
      WithoutAbsent(lines[1..], pid);
      assert lines == [lines[0]] + lines[1..];
    }
  }

  // ---------------------------------------------------------------------
  // The total-price invariant, operation by operation

  /** Adding a line keeps the cached total equal to the line sum. */
  lemma AddLineKeepsBalance(c: Cart, products: Products, pid: ProductId, qty: int)
    requires Balanced(c)
    requires AddLine(c, products, pid, qty).Success?
    ensures Balanced(AddLine(c, products, pid, qty).value)
  {
    LineSumAppend(c.lines, [CartLine(pid, qty, products[pid].price)]);
    assert LineSum([CartLine(pid, qty, products[pid].price)]) == products[pid].price * qty by {
      assert [CartLine(pid, qty, products[pid].price)][1..] == [];
    }
  }

  /** Adding a line keeps one line per product. */
  lemma AddLineKeepsDistinct(c: Cart, products: Products, pid: ProductId, qty: int)
    requires DistinctProducts(c.lines)
    requires AddLine(c, products, pid, qty).Success?
    ensures DistinctProducts(AddLine(c, products, pid, qty).value.lines)
  {
  }

  /** Deleting a product just added undoes the add exactly. */
  lemma AddThenRemove(c: Cart, products: Products, pid: ProductId, qty: int)
    requires AddLine(c, products, pid, qty).Success?
    ensures RemoveLine(AddLine(c, products, pid, qty).value, pid) == Success(c)
  {
    var l := CartLine(pid, qty, products[pid].price);
    FindAppended(c.lines, l);
    assert (c.lines + [l])[..|c.lines|] + (c.lines + [l])[|c.lines| + 1..] == c.lines;
  }

  /** A line appended for a product the lines lacked is found uniquely, last. */
  lemma FindAppended(lines: seq<CartLine>, l: CartLine)
    requires !HasProduct(lines, l.product)
    ensures Find(lines + [l], l.product) == Unique(|lines|)
  {
    var all := lines + [l];
    assert all[|lines|].product == l.product;
    assert forall j | 0 <= j < |lines| :: all[j] == lines[j];
  }

  /** Removing a line keeps the cached total equal to the line sum. */
  lemma RemoveLineKeepsBalance(c: Cart, pid: ProductId)
    requires Balanced(c)
    requires RemoveLine(c, pid).Success?
    ensures Balanced(RemoveLine(c, pid).value)
  {
    LineSumRemove(c.lines, Find(c.lines, pid).index);
  }

  /** Repricing a line keeps the cached total equal to the line sum. */
  lemma RepriceKeepsBalance(c: Cart, products: Products, pid: ProductId)
    requires Balanced(c)
    requires Reprice(c, products, pid).Success?
    ensures Balanced(Reprice(c, products, pid).value)
  {
    var i := Find(c.lines, pid).index;
    LineSumReplace(c.lines, i, c.lines[i].(price := products[pid].price));
  }

  /** A quantity update opens a gap between the cached total and the line
      sum of exactly (old snapshot - current price) * old quantity: it moves
      the total by the new price times the delta but re-prices the whole
      line. */
  lemma UpdateQuantityDrift(c: Cart, products: Products, pid: ProductId, delta: int)
    requires Balanced(c)
    requires UpdateQuantity(c, products, pid, delta).Success?
    ensures var old_ := c.lines[Find(c.lines, pid).index];
            var r := UpdateQuantity(c, products, pid, delta).value;
            r.total - LineSum(r.lines)
              == if old_.qty + delta == 0 then 0 else (old_.price - products[pid].price) * old_.qty
  {
    var i := Find(c.lines, pid).index;
    var l := c.lines[i];
    if l.qty + delta == 0 {
      RemoveLineKeepsBalance(c, pid);
    } else {
      var l' := CartLine(pid, l.qty + delta, products[pid].price);
      LineSumReplace(c.lines, i, l');
      var r := UpdateQuantity(c, products, pid, delta).value;
      assert r.lines == c.lines[i := l'];
    }
  }

  /** Hence a quantity update keeps the total balanced exactly when the
      catalog price still equals the line's snapshot (or the line held no
      units). */
  lemma UpdateQuantityBalancedIff(c: Cart, products: Products, pid: ProductId, delta: int)
    requires Balanced(c)
    requires UpdateQuantity(c, products, pid, delta).Success?
    ensures var old_ := c.lines[Find(c.lines, pid).index];
            var balanced := Balanced(UpdateQuantity(c, products, pid, delta).value);
            balanced <==> old_.qty + delta == 0 || old_.price == products[pid].price || old_.qty == 0
  {
    UpdateQuantityDrift(c, products, pid, delta);
    var l := c.lines[Find(c.lines, pid).index];
    if l.qty + delta != 0 && l.price != products[pid].price && l.qty != 0 {
      MulNonZero(l.price - products[pid].price, l.qty);
    }
  }

  lemma MulNonZero(a: int, b: int)
    requires a != 0 && b != 0
    ensures a * b != 0
  {
  }

  /** A concrete drift: two units at 10, the price rises to 15, one more
      unit is added; the lines are worth 45 but the total says 35. */
  lemma UpdateQuantityDriftExample()
    ensures var c := Cart(1, "a@shop", [CartLine(7, 2, 10)], 20);
            var products := map[7 := Product("pen", 15, 5)];
            && Balanced(c)
            && UpdateQuantity(c, products, 7, 1) == Success(Cart(1, "a@shop", [CartLine(7, 3, 15)], 35))
            && LineSum([CartLine(7, 3, 15)]) == 45
  {
    var c := Cart(1, "a@shop", [CartLine(7, 2, 10)], 20);
    assert Find(c.lines, 7) == Unique(0) by {
      assert Find(c.lines[1..], 7) == Absent;
    }
    assert c.lines[0 := CartLine(7, 3, 15)] == [CartLine(7, 3, 15)];
    assert LineSum([CartLine(7, 3, 15)]) == 45 by {
      assert [CartLine(7, 3, 15)][1..] == [];
    }
    assert LineSum(c.lines) == 20 by {
      assert c.lines[1..] == [];
    }
  }

  /** Because the stock is compared with the delta, a sold-out product
      cannot even be decremented, and an increment can push the line past
      the stock level. */
  lemma UpdateQuantityChecksDeltaNotTotal()
    ensures var c := Cart(1, "a@shop", [CartLine(7, 2, 10)], 20);
            && UpdateQuantity(c, map[7 := Product("pen", 10, 0)], 7, -1) == Failure(Api(Unavailable))
            && UpdateQuantity(c, map[7 := Product("pen", 10, 2)], 7, 1) == Success(Cart(1, "a@shop", [CartLine(7, 3, 10)], 30))
  {
    var c := Cart(1, "a@shop", [CartLine(7, 2, 10)], 20);
    assert Find(c.lines, 7) == Unique(0) by {
      assert Find(c.lines[1..], 7) == Absent;
    }
    assert c.lines[0 := CartLine(7, 3, 10)] == [CartLine(7, 3, 10)];
  }

  /** The quantity update never leaves a line with a zero or negative
      quantity behind and keeps one line per product. */
  lemma UpdateQuantityKeepsDistinct(c: Cart, products: Products, pid: ProductId, delta: int)
    requires DistinctProducts(c.lines)
    requires UpdateQuantity(c, products, pid, delta).Success?
    ensures DistinctProducts(UpdateQuantity(c, products, pid, delta).value.lines)
    ensures !HasProduct(UpdateQuantity(c, products, pid, delta).value.lines, pid)
            || Line(UpdateQuantity(c, products, pid, delta).value.lines, pid).qty > 0
  {
  }

  /** The line of `pid`, when the lookup is unique. */
  function Line(lines: seq<CartLine>, pid: ProductId): (l: CartLine)
    requires HasProduct(lines, pid)
    requires Find(lines, pid).Unique?
    ensures l in lines && l.product == pid
  {
    lines[Find(lines, pid).index]
  }

  lemma RemoveLineKeepsDistinct(c: Cart, pid: ProductId)
    requires DistinctProducts(c.lines)
    requires RemoveLine(c, pid).Success?
    ensures DistinctProducts(RemoveLine(c, pid).value.lines)
  {
  }

  /** Dropping one line keeps the products distinct. */
  lemma DistinctWithoutIndex(lines: seq<CartLine>, i: nat)
    requires DistinctProducts(lines) && i < |lines|
    ensures DistinctProducts(lines[..i] + lines[i + 1..])
  {
  }

  /** In a cart with one line per product, a product that has a line is
      found uniquely, so every cart operation reaches its main branch. */
  lemma DistinctFindsUnique(lines: seq<CartLine>, pid: ProductId)
    requires DistinctProducts(lines)
    requires HasProduct(lines, pid)
    ensures Find(lines, pid).Unique?
  {
  }

  /** A bulk sync may write two lines for one product; the cart then
      rejects every later lookup of that product. */
  lemma SyncedDuplicateIsAmbiguous(c: Cart, pid: ProductId)
    requires |c.lines| == 2 && c.lines[0].product == pid && c.lines[1].product == pid
    ensures Find(c.lines, pid) == Ambiguous
    ensures RemoveLine(c, pid) == Failure(NonUniqueResult)
  {
  }
}
