/** The Biere table (models/biere.js): required columns, the `prix >= 0` validator and
    the foreign key to the owning bar. */
module BiereModel {
  import opened Common

  /** A stored beer; `barsId` refers to Bars.id. Degrees and prices are reals. */
  datatype Biere = Biere(
    name: string,
    description: Option<string>,
    degree: real,
    prix: real,
    barsId: int)

  /** The fields a request body may carry for a new beer; `None` is `undefined`. */
  datatype BiereInput = BiereInput(
    name: Option<string>,
    description: Option<string>,
    degree: Option<real>,
    prix: Option<real>)

  /** What the model's validators let into the table as a stored beer. */
  predicate StoredBiereValid(b: Biere) {
    b.prix >= 0.0
  }

  /** `Biere.create(...)`: name, degree and prix are NOT NULL and prix has `min: 0`;
      description is optional. */
  function BuildBiere(input: BiereInput, barsId: int): (r: Result<Biere>)
    ensures r.Ok? <==> input.name.Some? && input.degree.Some? && input.prix.Some? && input.prix.value >= 0.0
    ensures r.Ok? ==> && r.value.name == input.name.value
                      && r.value.description == input.description
                      && r.value.degree == input.degree.value
                      && r.value.prix == input.prix.value
                      && r.value.barsId == barsId
                      && StoredBiereValid(r.value)
    ensures r.Rejected? ==> r.reason == InvalidField
  {
    if input.name.Some? && input.degree.Some? && input.prix.Some? && input.prix.value >= 0.0 then
      Ok(Biere(input.name.value, input.description, input.degree.value, input.prix.value, barsId))
    else Rejected(InvalidField)
  }

  /** The body of an update request. `style` and `alcoholContent` are read by the
      controller, but the table has no such columns. */
  datatype BiereUpdate = BiereUpdate(
    name: Option<string>,
    style: Option<string>,
    alcoholContent: Option<real>)

  /** `biere.name = name || biere.name` and the two assignments to non-columns, then
      `save()`: only the name can reach the stored row. */
  function UpdateBiereRow(b: Biere, u: BiereUpdate): (r: Biere)
  {
    b.(name := OrElse(u.name, b.name))
  }

  /** A truthy name replaces the stored one, a falsy one keeps it, and every other
      column is untouched whatever style and alcoholContent say. */
  lemma UpdateBiereRowFields(b: Biere, u: BiereUpdate, style: Option<string>, alc: Option<real>)
    ensures Truthy(u.name) ==> UpdateBiereRow(b, u).name == u.name.value
    ensures !Truthy(u.name) ==> UpdateBiereRow(b, u) == b
    ensures UpdateBiereRow(b, u) == UpdateBiereRow(b, u.(style := style, alcoholContent := alc))
    ensures UpdateBiereRow(b, u).(name := b.name) == b
  {
  }
}
