/** The Commande table (backend/models/commande.js): required columns, the validators on
    prix, date and status, and the `beforeUpdate` guard. */
module CommandeModel {
  import opened Common

  const Brouillon: string := "brouillon"
  const EnCours: string := "en cours"
  const Terminee: string := "terminée"

  /** A stored order; `barsId` refers to Bars.id; dates are instants as ints. */
  datatype Commande = Commande(
    name: string,
    prix: real,
    barsId: int,
    date: int,
    status: string)

  /** The fields of a create request; `None` is `undefined`. */
  datatype CommandeInput = CommandeInput(
    name: Option<string>,
    prix: Option<real>,
    date: Option<int>,
    status: Option<string>)

  /** `isIn: [['brouillon', 'en cours', 'terminée']]`. */
  predicate StatusValid(s: string) {
    s == Brouillon || s == EnCours || s == Terminee
  }

  /** `min: 0`. */
  predicate PrixValid(p: real) {
    p >= 0.0
  }

  /** The date validator as written: `isBefore: new Date().toISOString()` is evaluated
      once, when the module is loaded, so every date is compared with that load instant. */
  predicate DateValidAsWritten(date: int, loadedAt: int) {
    date < loadedAt
  }

  /** The evidently intended rule: an order may not be dated after the present moment
      of the request. */
  predicate DateValid(date: int, now: int) {
    date <= now
  }

  /** A date in the past but later than the module's load instant is refused as written
      and accepted by the intended rule. */
  lemma {:induction false} RecentPastDateRefusedAsWritten(loadedAt: int, date: int, now: int)
    requires loadedAt <= date <= now
    ensures !DateValidAsWritten(date, loadedAt)
    ensures DateValid(date, now)
  {
  }

  /** What the validators admit into the table (the date is checked against the time of
      the request that writes it, so it is not part of the stored invariant). */
  predicate StoredCommandeValid(c: Commande) {
    PrixValid(c.prix) && StatusValid(c.status)
  }

  /** Fields of a row that pass the model's validators at instant `now`. */
  predicate FieldsValid(c: Commande, now: int) {
    PrixValid(c.prix) && DateValid(c.date, now) && StatusValid(c.status)
  }

  /** `Commande.create(...)`: name, prix, date and status are NOT NULL and each must pass
      its validator; `bars_id` is the route's bar. */
  function BuildCommande(input: CommandeInput, barsId: int, now: int): (r: Result<Commande>)
    ensures r.Ok? <==> && input.name.Some? && input.prix.Some? && input.date.Some? && input.status.Some?
                       && PrixValid(input.prix.value) && DateValid(input.date.value, now)
                       && StatusValid(input.status.value)
    ensures r.Ok? ==> && r.value.name == input.name.value && r.value.prix == input.prix.value
                      && r.value.date == input.date.value && r.value.status == input.status.value
                      && r.value.barsId == barsId && StoredCommandeValid(r.value)
    ensures r.Rejected? ==> r.reason == InvalidField
  {
    if input.name.Some? && input.prix.Some? && input.date.Some? && input.status.Some? then
      var c := Commande(input.name.value, input.prix.value, barsId, input.date.value, input.status.value);
      if FieldsValid(c, now) then Ok(c) else Rejected(InvalidField)
    else Rejected(InvalidField)
  }

  /** An order without name, with a negative prix or with an unknown status never
      reaches the table. */
  lemma CreateRefusals(input: CommandeInput, barsId: int, now: int)
    ensures input.name.None? ==> BuildCommande(input, barsId, now) == Rejected(InvalidField)
    ensures input.prix.Some? && input.prix.value < 0.0 ==> BuildCommande(input, barsId, now).Rejected?
    ensures input.status.Some? && !StatusValid(input.status.value) ==> BuildCommande(input, barsId, now).Rejected?
    ensures input.date.Some? && input.date.value > now ==> BuildCommande(input, barsId, now).Rejected?
  {
  }

  /** The `beforeUpdate` hook: it looks at the previously stored status only, and throws
      when that status is 'terminée'. */
  function BeforeUpdate(previous: Commande, next: Commande): (r: Result<Commande>)
    ensures r.Ok? <==> previous.status != Terminee
    ensures r.Ok? ==> r.value == next
    ensures r.Rejected? ==> r.reason == OrderCompleted
  {
    if previous.status == Terminee then Rejected(OrderCompleted) else Ok(next)
  }

  /** The hook refuses every write to a completed order, and lets an open order move
      into any status, 'terminée' included. */
  lemma GuardReadsOnlyPreviousStatus(previous: Commande, next: Commande)
    ensures previous.status == Terminee ==> BeforeUpdate(previous, next).Rejected?
    ensures previous.status != Terminee && next.status == Terminee ==> BeforeUpdate(previous, next) == Ok(next)
  {
  }
}
