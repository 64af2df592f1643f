/** The attribute objects that controllers/barsController.js builds for `createBar` and
    `updateBar`, as written and as evidently intended. */
module BarsController {
  import opened Common
  import opened BarModel
  import Forms

  /** The properties of a request body; every value is a JSON string (a number or a
      boolean sent by a client is not modelled), so truthiness is non-emptiness. */
  type Body = map<string, string>

  /** One destructured property; an absent one is `undefined`. */
  function Get(body: Body, key: string): Option<string> {
    if key in body then Some(body[key]) else None
  }

  /** `createBar` as written: `name`, `address` and `email` are read from the body and
      passed to `Bars.create` under those names. */
  function CreateAttrsAsWritten(body: Body): Attributes {
    Put(Put(Put(map[], "name", Get(body, "name")), "address", Get(body, "address")), "email", Get(body, "email"))
  }

  /** The intended attributes: the address goes to the `addresse` column, and is read
      from the body property of that name, which `validateBar` checks. */
  function CreateAttrs(body: Body): Attributes {
    Put(Put(Put(map[], "name", Get(body, "name")), "addresse", Get(body, "adresse")), "email", Get(body, "email"))
  }

  /** As written, no request creates a bar: `address` is no column, so the NOT NULL
      column `addresse` never receives a value. */
  lemma {:induction false} CreateAsWrittenAlwaysRejected(body: Body)
    ensures BuildBar(CreateAttrsAsWritten(body)) == Rejected(InvalidField)
  {
    assert "addresse" !in CreateAttrsAsWritten(body);
  }

  /** With the intended attributes a bar is built exactly when the body carries a name,
      an address and an email, and it stores those three values. */
  lemma {:induction false} CreateStoresFields(body: Body)
    ensures BuildBar(CreateAttrs(body)).Ok? <==> "name" in body && "adresse" in body && "email" in body
    ensures BuildBar(CreateAttrs(body)).Ok? ==>
      BuildBar(CreateAttrs(body)).value == Bar(body["name"], body["adresse"], None, body["email"], None, None)
  {
    var attrs := CreateAttrs(body);
    assert "description" !in attrs;
  }

  /** The text of every property of a JSON body. */
  function TextsOf(body: Forms.Body): Body {
    map k | k in body :: Forms.FieldText(body, k)
  }

  /** A body that passes `validateBar` yields a bar with the intended attributes, while
      the create as written refuses even that body. (The library's e-mail check refuses
      the empty text, which is what an absent field reads as.) */
  lemma {:induction false} ValidBarBodyIsStorable(lib: Forms.Library, body: Forms.Body)
    requires !lib.isEmail("")
    requires Forms.ValidateBar(lib, body)
    ensures var r := BuildBar(CreateAttrs(TextsOf(body)));
      r.Ok? && r.value.name != "" && r.value.addresse != "" && lib.isEmail(r.value.email)
    ensures BuildBar(CreateAttrsAsWritten(TextsOf(body))).Rejected?
  {
    var texts := TextsOf(body);
    assert "email" in body;
    CreateStoresFields(texts);
    CreateAsWrittenAlwaysRejected(texts);
  }

  /** `updateBar` as written: `bar.name = name || bar.name`, then the same for `address`
      and `city`, which are properties of the instance and no columns, so `save()` never
      writes them. The fallback of those two is the instance's own unset property. */
  function UpdateRowAsWritten(b: Bar, body: Body): Bar {
    var named := SetColumn(b, "name", OrElse(Get(body, "name"), b.name));
    var addressed := SetColumn(named, "address", OrElse(Get(body, "address"), ""));
    SetColumn(addressed, "city", OrElse(Get(body, "city"), ""))
  }

  /** As written, only the name can change: a supplied address is lost. */
  lemma {:induction false} UpdateAsWrittenLosesAddress(b: Bar, body: Body)
    ensures UpdateRowAsWritten(b, body) == b.(name := OrElse(Get(body, "name"), b.name))
    ensures UpdateRowAsWritten(b, body).addresse == b.addresse
  {
    assert "address" !in TextColumns && "city" !in TextColumns;
  }

  /** The intended update: a truthy name or address replaces the stored one; `city`
      still has no column to go to. */
  function UpdateRow(b: Bar, body: Body): Bar {
    var named := SetColumn(b, "name", OrElse(Get(body, "name"), b.name));
    SetColumn(named, "addresse", OrElse(Get(body, "adresse"), b.addresse))
  }

  /** Each truthy field replaces the stored one, each falsy or absent one keeps it, and
      the other columns are untouched. */
  lemma {:induction false} UpdateRowFields(b: Bar, body: Body)
    ensures UpdateRow(b, body).name == if Truthy(Get(body, "name")) then body["name"] else b.name
    ensures UpdateRow(b, body).addresse == if Truthy(Get(body, "adresse")) then body["adresse"] else b.addresse
    ensures UpdateRow(b, body).(name := b.name, addresse := b.addresse) == b
    ensures !Truthy(Get(body, "name")) && !Truthy(Get(body, "adresse")) ==> UpdateRow(b, body) == b
  {
  }
}
