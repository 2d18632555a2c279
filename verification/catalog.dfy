/** The slice of the product catalog the cart and checkout read and write:
    a product's price and its stock counter (`quantity` in the source). The
    catalog service itself is not part of this model. */
module Catalog {
  import opened Wrappers
  import opened Errors

  type ProductId = nat

  /** `stock` is an unbounded int: checkout decrements it without a lower bound. */
  datatype Product = Product(name: string, price: int, stock: int)

  type Products = map<ProductId, Product>

  /** Repository lookup by id that raises not-found for an unknown id. */
  function FetchProduct(products: Products, id: ProductId): (r: Result<Product, Error>)
    ensures r.Success? <==> id in products
    ensures r.Success? ==> r.value == products[id]
    ensures r.Failure? ==> r.error == NotFound(ProductRes)
  {
    if id in products then Success(products[id]) else Failure(NotFound(ProductRes))
  }
}
