/** The customer app's one piece of shared state: the current product held
    by the product context. The optional fields are the ones the assessment
    screen fills in. */
module ProductContext {
  import opened Base

  datatype Product = Product(
    name: string,
    id: string,
    price: real,
    ordered: string,
    received: string,
    condition: Option<string>,
    estimatedRefundValue: Option<real>,
    eligibleForResale: Option<bool>,
    repairsNeeded: Option<bool>,
    recommendedAction: Option<string>)

  /** A record carrying only the five base fields. */
  function BaseProduct(name: string, id: string, price: real, ordered: string, received: string): Product
  {
    Product(name, id, price, ordered, received, None, None, None, None, None)
  }

  /** No enrichment field is set. */
  predicate IsBase(p: Product)
  {
    p.condition.None? && p.estimatedRefundValue.None? && p.eligibleForResale.None?
    && p.repairsNeeded.None? && p.recommendedAction.None?
  }

  /** The context starts without a product. */
  const InitialContext: Option<Product> := None
}
