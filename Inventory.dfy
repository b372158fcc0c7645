/** Stock bookkeeping shared by both sale paths: the stock a product shows
    (its first record, as `find` and `SELECT ... WHERE id` return it), the
    units recorded as sold, and the conservation of their sum by a sale. */
module Inventory {
  import opened Domain
  import opened Keyed

  function StockOf(products: seq<Product>, productId: string): int
  {
    match Find(products, ProductKey, productId)
    case Some(p) => p.stockQuantity
    case None => 0
  }

  /** Units of `productId` recorded in `sales`. */
  function SoldUnits(sales: seq<ProductSale>, productId: string): int
  {
    if |sales| == 0 then 0
    else
      var last := sales[|sales| - 1];
      SoldUnits(sales[..|sales| - 1], productId) + (if last.productId == productId then last.quantity else 0)
  }

  /** The product list after a sale: the found record has its stock lowered
      by `quantity`, records of other products are as they were, and every
      position keeps its key. */
  predicate StockLowered(products: seq<Product>, products': seq<Product>, productId: string, quantity: int)
  {
    && |products'| == |products|
    && (forall j :: 0 <= j < |products| ==> products'[j].id == products[j].id)
    && (forall j :: 0 <= j < |products| && products[j].id != productId ==> products'[j] == products[j])
    && FirstIndex(products, ProductKey, productId).Some?
    && products'[FirstIndex(products, ProductKey, productId).value].stockQuantity ==
       products[FirstIndex(products, ProductKey, productId).value].stockQuantity - quantity
  }

  /** A sale moves exactly `quantity` units of its product from stock to the
      sales record: for every product, stock plus units sold is unchanged. */
  lemma SaleConservesUnits(products: seq<Product>, products': seq<Product>, sales: seq<ProductSale>,
                           sale: ProductSale, k: string)
    requires StockLowered(products, products', sale.productId, sale.quantity)
    ensures StockOf(products', k) + SoldUnits(sales + [sale], k) == StockOf(products, k) + SoldUnits(sales, k)
    ensures k != sale.productId ==> StockOf(products', k) == StockOf(products, k)
    ensures StockOf(products', sale.productId) == StockOf(products, sale.productId) - sale.quantity
  {
    assert (sales + [sale])[..|sales|] == sales;
    SameKeysSameFirstIndex(products', products, ProductKey, k);
    SameKeysSameFirstIndex(products', products, ProductKey, sale.productId);
  }
}
