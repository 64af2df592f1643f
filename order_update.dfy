/** `updateCommande` (controllers/commandeController.js): the completed-order guard that
    reads the stored status before anything is assigned, the merge of the supplied fields,
    and the validation `save()` runs. */
module OrderUpdate {
  import opened Common
  import opened CommandeModel

  /** The body of an update request; `None` is `undefined`. */
  datatype CommandePatch = CommandePatch(
    name: Option<string>,
    prix: Option<real>,
    date: Option<int>,
    status: Option<string>)

  const NoChange: CommandePatch := CommandePatch(None, None, None, None)

  /** `commande.f = (f !== undefined) ? f : commande.f` for the four fields. */
  function Merge(c: Commande, p: CommandePatch): Commande {
    c.(name := p.name.GetOr(c.name),
       prix := p.prix.GetOr(c.prix),
       date := p.date.GetOr(c.date),
       status := p.status.GetOr(c.status))
  }

  /** `save()` validates the attributes that changed. */
  predicate ChangedFieldsValid(before: Commande, after: Commande, now: int) {
    && (after.prix != before.prix ==> PrixValid(after.prix))
    && (after.date != before.date ==> DateValid(after.date, now))
    && (after.status != before.status ==> StatusValid(after.status))
  }

  /** The outcome of `updateCommande(id, patch)` at instant `now`: look the order up,
      refuse a completed one (the controller's check), merge, validate, then the model's
      `beforeUpdate` hook on the previously stored row. */
  function Update(table: map<int, Commande>, id: int, p: CommandePatch, now: int): Result<Commande> {
    if id !in table then NotFound
    else if table[id].status == Terminee then Rejected(OrderCompleted)
    else
      var merged := Merge(table[id], p);
      if !ChangedFieldsValid(table[id], merged, now) then Rejected(InvalidField)
      else BeforeUpdate(table[id], merged)
  }

  /** Each supplied field replaces the stored one; each absent field keeps it; the owner
      bar never changes. */
  lemma MergeFields(c: Commande, p: CommandePatch)
    ensures Merge(c, p).name == (if p.name.Some? then p.name.value else c.name)
    ensures Merge(c, p).prix == (if p.prix.Some? then p.prix.value else c.prix)
    ensures Merge(c, p).date == (if p.date.Some? then p.date.value else c.date)
    ensures Merge(c, p).status == (if p.status.Some? then p.status.value else c.status)
    ensures Merge(c, p).barsId == c.barsId
    ensures Merge(c, NoChange) == c
    ensures Merge(Merge(c, p), p) == Merge(c, p)
  {
  }

  lemma UpdateMissing(table: map<int, Commande>, id: int, p: CommandePatch, now: int)
    requires id !in table
    ensures Update(table, id, p, now) == NotFound
  {
  }

  /** A completed order refuses every update, whatever the patch and the instant. */
  lemma CompletedOrderIsFrozen(table: map<int, Commande>, id: int, p: CommandePatch, now: int)
    requires id in table && table[id].status == Terminee
    ensures Update(table, id, p, now) == Rejected(OrderCompleted)
  {
  }

  /** An open order accepts any patch whose changed fields pass the validators, and the
      result is exactly the merge; this includes moving it into 'terminée'. */
  lemma {:induction false} OpenOrderUpdates(table: map<int, Commande>, id: int, p: CommandePatch, now: int)
    requires id in table && table[id].status != Terminee
    ensures ChangedFieldsValid(table[id], Merge(table[id], p), now) <==> Update(table, id, p, now).Ok?
    ensures Update(table, id, p, now).Ok? ==> Update(table, id, p, now).value == Merge(table[id], p)
    ensures !Update(table, id, p, now).Ok? ==> Update(table, id, p, now) == Rejected(InvalidField)
  {
    GuardReadsOnlyPreviousStatus(table[id], Merge(table[id], p));
  }

  /** A successful update keeps the stored row within the validators. */
  lemma {:induction false} UpdateKeepsRowValid(table: map<int, Commande>, id: int, p: CommandePatch, now: int)
    requires id in table && StoredCommandeValid(table[id])
    requires Update(table, id, p, now).Ok?
    ensures StoredCommandeValid(Update(table, id, p, now).value)
    ensures Update(table, id, p, now).value.barsId == table[id].barsId
  {
    OpenOrderUpdates(table, id, p, now);
  }

  /** Once an update has stored 'terminée', the next update of that order is refused:
      the guard reads the value the first update wrote. */
  lemma {:induction false} CompletionIsFinal(table: map<int, Commande>, id: int, p: CommandePatch, q: CommandePatch, now: int, later: int)
    requires Update(table, id, p, now).Ok? && Update(table, id, p, now).value.status == Terminee
    ensures Update(table[id := Update(table, id, p, now).value], id, q, later) == Rejected(OrderCompleted)
  {
  }

  /** The controller's check and the model's hook refuse the same updates, so the hook
      never fires after the controller has let an update through. */
  lemma {:induction false} ControllerGuardSubsumesHook(table: map<int, Commande>, id: int, p: CommandePatch, now: int)
    requires id in table
    ensures BeforeUpdate(table[id], Merge(table[id], p)).Rejected? ==> Update(table, id, p, now) == Rejected(OrderCompleted)
  {
  }
}
