/** The request validators of middleware/form.js. Each chain becomes a predicate over
    the request; a request is accepted when every chain of the array passes. */
module Forms {
  import opened Common
  import BiereModel
  import CommandeModel
  import BiereQuery

  /** A JSON value of a request body: a string, or any other value together with the
      text the validator library reads from it (`5` reads as "5"). */
  datatype Json = JStr(s: string) | JOther(text: string)

  type Body = map<string, Json>

  /** Route parameters and query-string values are always strings. */
  type Params = map<string, string>

  /** The text a validator checks: an absent field reads as "". */
  function FieldText(body: Body, key: string): string {
    if key !in body then "" else match body[key]
      case JStr(s) => s
      case JOther(t) => t
  }

  function ParamText(params: Params, key: string): string {
    if key in params then params[key] else ""
  }

  /** `isString()`: present and a JSON string. */
  predicate IsStringField(body: Body, key: string) {
    key in body && body[key].JStr?
  }

  /** `isString().notEmpty()`. */
  predicate NonEmptyString(body: Body, key: string) {
    IsStringField(body, key) && FieldText(body, key) != ""
  }

  /** `optional().isString()`: skipped when absent. */
  predicate OptionalString(body: Body, key: string) {
    key !in body || body[key].JStr?
  }

  /** The parsing predicates the validator library supplies: e-mail syntax, ISO 8601
      dates (read as instants), and decimal numbers (`isFloat` accepts exactly the texts
      this parser reads). */
  datatype Library = Library(
    isEmail: string -> bool,
    dateOf: string -> Option<int>,
    floatOf: string -> Option<real>)

  /** `isFloat({ min })`. */
  predicate IsFloatMin(lib: Library, text: string, min: real) {
    lib.floatOf(text).Some? && lib.floatOf(text).value >= min
  }

  /** `isISO8601()`. */
  predicate IsIso8601(lib: Library, text: string) {
    lib.dateOf(text).Some?
  }

  // ---------------------------------------------------------------------------
  // `isInt`: the library's default pattern, an optional sign and one or more decimal
  // digits (leading zeroes allowed), and its value for the `min` option.

  predicate IsDigit(c: char) {
    '0' <= c <= '9'
  }

  predicate IsDigits(s: string) {
    |s| >= 1 && forall i :: 0 <= i < |s| ==> IsDigit(s[i])
  }

  predicate IsIntString(s: string) {
    IsDigits(s) || (|s| >= 2 && (s[0] == '-' || s[0] == '+') && IsDigits(s[1..]))
  }

  function DigitValue(c: char): nat
    requires IsDigit(c)
  {
    (c as int) - ('0' as int)
  }

  /** The value of a digit string, most significant digit first. */
  function DigitsValue(s: string): nat
    requires forall i :: 0 <= i < |s| ==> IsDigit(s[i])
  {
    if s == [] then 0 else DigitsValue(s[..|s| - 1]) * 10 + DigitValue(s[|s| - 1])
  }

  function IntValue(s: string): int
    requires IsIntString(s)
  {
    if s[0] == '-' then -(DigitsValue(s[1..]) as int)
    else if s[0] == '+' then DigitsValue(s[1..])
    else DigitsValue(s)
  }

  /** `isInt({ min })`. */
  predicate IsIntMin(s: string, min: int) {
    IsIntString(s) && IntValue(s) >= min
  }

  function Digit(d: nat): (c: char)
    requires d < 10
    ensures IsDigit(c) && DigitValue(c) == d
  {
    ('0' as int + d) as char
  }

  /** The decimal rendering of a natural number reads back as that number. */
  function NatString(n: nat): (r: string)
    ensures IsDigits(r) && DigitsValue(r) == n
  {
    if n < 10 then [Digit(n)]
    else
      var r := NatString(n / 10) + [Digit(n % 10)];
      assert r[..|r| - 1] == NatString(n / 10);
      r
  }

  /** The decimal rendering of an integer, with a minus sign when negative. */
  function IntString(n: int): string {
    if n < 0 then "-" + NatString(-n) else NatString(n)
  }

  /** Every integer written out in decimal passes `isInt` and reads back unchanged. */
  lemma {:induction false} IntStringRoundTrip(n: int)
    ensures IsIntString(IntString(n)) && IntValue(IntString(n)) == n
  {
    var r := IntString(n);
    if n < 0 {
      assert r[1..] == NatString(-n);
    }
  }

  /** Leading zeroes are accepted and do not change the value. */
  lemma {:induction false} LeadingZeroIgnored(s: string)
    requires IsDigits(s)
    ensures IsIntString("0" + s) && IntValue("0" + s) == IntValue(s)
    decreases |s|
  {
    var t := "0" + s;
    assert t[..|t| - 1] == "0" + s[..|s| - 1];
    if |s| > 1 {
      LeadingZeroIgnored(s[..|s| - 1]);
    } else {
      assert t[..|t| - 1] == "0";
      assert DigitsValue("0") == 0 by { assert "0"[..0] == []; }
    }
  }

  // ---------------------------------------------------------------------------
  // The five validator arrays.

  /** `validateBar`. */
  predicate ValidateBar(lib: Library, body: Body) {
    && NonEmptyString(body, "name")
    && NonEmptyString(body, "adresse")
    && lib.isEmail(FieldText(body, "email"))
    && OptionalString(body, "tel")
    && OptionalString(body, "description")
  }

  /** `validateBiere`. */
  predicate ValidateBiere(lib: Library, body: Body) {
    && NonEmptyString(body, "name")
    && IsFloatMin(lib, FieldText(body, "degree"), 0.0)
    && IsFloatMin(lib, FieldText(body, "prix"), 0.0)
    && OptionalString(body, "description")
  }

  const StatusValues: set<string> := {CommandeModel.Brouillon, CommandeModel.EnCours, CommandeModel.Terminee}

  /** `validateCommande`. */
  predicate ValidateCommande(lib: Library, body: Body) {
    && NonEmptyString(body, "name")
    && IsFloatMin(lib, FieldText(body, "prix"), 0.0)
    && IsIso8601(lib, FieldText(body, "date"))
    && FieldText(body, "status") in StatusValues
  }

  /** `validateBiereCommande` as written: it checks a parameter named `id`. */
  predicate ValidateBiereCommandeAsWritten(params: Params) {
    IsIntString(ParamText(params, "id")) && IsIntString(ParamText(params, "id_biere"))
  }

  /** The evidently intended check: both ids of the beer/order routes are integers. */
  predicate ValidateBiereCommande(params: Params) {
    IsIntString(ParamText(params, "id_commande")) && IsIntString(ParamText(params, "id_biere"))
  }

  /** `validateQueryParams`: every chain is optional, so only present values are checked. */
  predicate ValidateQueryParams(lib: Library, q: Params) {
    && ("date" in q ==> IsIso8601(lib, q["date"]))
    && ("prix_min" in q ==> IsFloatMin(lib, q["prix_min"], 0.0))
    && ("prix_max" in q ==> IsFloatMin(lib, q["prix_max"], 0.0))
    && ("degree_min" in q ==> IsFloatMin(lib, q["degree_min"], 0.0))
    && ("degree_max" in q ==> IsFloatMin(lib, q["degree_max"], 0.0))
    && ("sort" in q ==> q["sort"] == "asc" || q["sort"] == "desc")
    && ("limit" in q ==> IsIntMin(q["limit"], 1))
    && ("offset" in q ==> IsIntMin(q["offset"], 0))
  }

  // ---------------------------------------------------------------------------
  // What a validated request means for the model.

  /** The string value of a body field, as a destructuring controller receives it. */
  function StringOf(body: Body, key: string): Option<string> {
    if IsStringField(body, key) then Some(FieldText(body, key)) else None
  }

  /** The beer fields a create request carries, numbers read as the validator reads them. */
  function BiereInputOf(lib: Library, body: Body): BiereModel.BiereInput {
    BiereModel.BiereInput(StringOf(body, "name"), StringOf(body, "description"),
                          lib.floatOf(FieldText(body, "degree")), lib.floatOf(FieldText(body, "prix")))
  }

  /** A body that passes `validateBiere` is accepted by the Biere table, with a
      non-empty name and a non-negative degree, which the table alone does not demand. */
  lemma {:induction false} ValidBiereIsStorable(lib: Library, body: Body, barsId: int)
    requires ValidateBiere(lib, body)
    ensures var r := BiereModel.BuildBiere(BiereInputOf(lib, body), barsId);
      r.Ok? && r.value.name != "" && r.value.degree >= 0.0 && r.value.barsId == barsId
  {
  }

  /** The order fields a create request carries. */
  function CommandeInputOf(lib: Library, body: Body): CommandeModel.CommandeInput {
    CommandeModel.CommandeInput(StringOf(body, "name"), lib.floatOf(FieldText(body, "prix")),
                                lib.dateOf(FieldText(body, "date")),
                                if "status" in body then Some(FieldText(body, "status")) else None)
  }

  /** A body that passes `validateCommande` is accepted by the Commande table exactly
      when its date is not in the future: the date rule is the only one the middleware
      leaves to the model. */
  lemma {:induction false} ValidCommandeIsStorable(lib: Library, body: Body, barsId: int, now: int)
    requires ValidateCommande(lib, body)
    ensures var input := CommandeInputOf(lib, body);
      CommandeModel.BuildCommande(input, barsId, now).Ok? <==> CommandeModel.DateValid(input.date.value, now)
  {
    assert "" !in StatusValues;
  }

  /** The beer/order routes name their parameters `id_commande` and `id_biere`. */
  lemma {:induction false} LineRoutesFailAsWritten(params: Params)
    requires "id" !in params
    ensures !ValidateBiereCommandeAsWritten(params)
  {
    assert !IsIntString("") by { assert !IsDigits(""); }
  }

  /** The intended check accepts the routes' integer ids and reads them back. */
  lemma {:induction false} LineRoutesPassCorrected(commandeId: int, biereId: int)
    ensures var params := map["id_commande" := IntString(commandeId), "id_biere" := IntString(biereId)];
      && ValidateBiereCommande(params)
      && IntValue(params["id_commande"]) == commandeId
      && IntValue(params["id_biere"]) == biereId
  {
    IntStringRoundTrip(commandeId);
    IntStringRoundTrip(biereId);
  }

  /** An optional integer parameter that passed `isInt({ min })`, read with `parseInt`. */
  function OptionalInt(q: Params, key: string, min: nat): (r: Option<nat>)
    requires key in q ==> IsIntMin(q[key], min)
    ensures r.Some? <==> key in q
    ensures r.Some? ==> r.value >= min && r.value == IntValue(q[key])
  {
    if key in q then Some(IntValue(q[key]) as nat) else None
  }

  /** An optional decimal parameter that passed `isFloat({ min: 0 })`, read with
      `parseFloat`. */
  function OptionalFloat(lib: Library, q: Params, key: string): (r: Option<real>)
    requires key in q ==> IsFloatMin(lib, q[key], 0.0)
    ensures r.Some? <==> key in q
    ensures r.Some? ==> r.value >= 0.0 && lib.floatOf(q[key]) == r
  {
    if key in q then lib.floatOf(q[key]) else None
  }

  /** The list parameters a validated query string gives the beer list: every bound
      that is present is non-negative, and a present limit is at least 1. */
  function ListParamsOf(lib: Library, q: Params): (p: BiereQuery.ListParams)
    requires ValidateQueryParams(lib, q)
    ensures p.limit.Some? ==> p.limit.value >= 1
    ensures p.degreeMin.Some? ==> p.degreeMin.value >= 0.0
    ensures p.degreeMax.Some? ==> p.degreeMax.value >= 0.0
    ensures p.prixMin.Some? ==> p.prixMin.value >= 0.0
    ensures p.prixMax.Some? ==> p.prixMax.value >= 0.0
  {
    BiereQuery.ListParams(
      if "sort" in q then Some(q["sort"]) else None,
      OptionalInt(q, "limit", 1),
      OptionalInt(q, "offset", 0),
      OptionalFloat(lib, q, "degree_min"),
      OptionalFloat(lib, q, "degree_max"),
      OptionalFloat(lib, q, "prix_min"),
      OptionalFloat(lib, q, "prix_max"))
  }

  /** A validated sort parameter orders descending exactly when it is "desc", and
      ascending when it is "asc" or absent. */
  lemma {:induction false} ValidatedSortDirection(lib: Library, q: Params)
    requires ValidateQueryParams(lib, q)
    ensures BiereQuery.DirectionOf(ListParamsOf(lib, q).sort) == BiereQuery.Desc <==> "sort" in q && q["sort"] == "desc"
  {
    var sort := ListParamsOf(lib, q).sort;
    BiereQuery.DirectionCases(sort);
    if "sort" in q && q["sort"] == "asc" {
      assert q["sort"][0] == 'a';
    }
  }

  /** The middleware accepts only lower-case sort values, while the list controller
      lower-cases its parameter: "DESC" is refused here yet would sort descending there. */
  lemma {:induction false} SortCaseStricterThanController(lib: Library, q: Params)
    requires "sort" in q && q["sort"] == "DESC"
    ensures !ValidateQueryParams(lib, q)
    ensures BiereQuery.DirectionOf(Some(q["sort"])) == BiereQuery.Desc
  {
    BiereQuery.DirectionCases(Some(q["sort"]));
  }
}
