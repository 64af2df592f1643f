/** The association table BiereCommande (backend/models/biere_commande.js). */
module BiereCommandeModel {
  import opened Common

  /** The composite primary key (biere_id, commande_id). A table keyed by it holds at
      most one quantity per beer/order pair. */
  datatype LineKey = LineKey(biereId: int, commandeId: int)

  /** `defaultValue: 1` of the quantity column. */
  const DefaultQuantity: int := 1

  /** `const { quantity = 1 } = req.body`: an absent quantity becomes 1. */
  function QuantityOrDefault(q: Option<int>): (r: int)
    ensures q.None? ==> r == DefaultQuantity
    ensures q.Some? ==> r == q.value
  {
    q.GetOr(DefaultQuantity)
  }
}
