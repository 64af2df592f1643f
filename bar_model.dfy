/** The Bars table (backend/models/bars.js): its columns, the NOT NULL and UNIQUE
    constraints, and how the ORM turns an attribute object into a row. */
module BarModel {
  import opened Common

  /** A stored bar. `tel` is an INTEGER column; `userId` refers to Users.id. */
  datatype Bar = Bar(
    name: string,
    addresse: string,
    tel: Option<int>,
    email: string,
    description: Option<string>,
    userId: Option<int>)

  /** The string-valued columns a controller can set; `id` is assigned by the table. */
  const TextColumns: set<string> := {"name", "addresse", "email", "description"}

  /** The attribute object a controller hands to `create` / assigns on an instance. */
  type Attributes = map<string, string>

  /** Adds `key` when the request supplied a value; an `undefined` value is no attribute. */
  function Put(attrs: Attributes, key: string, v: Option<string>): (r: Attributes)
    ensures v.Some? ==> key in r && r[key] == v.value
    ensures v.None? ==> r == attrs
    ensures forall k :: k != key ==> (k in r <==> k in attrs)
    ensures forall k :: k != key && k in attrs ==> r[k] == attrs[k]
  {
    if v.Some? then attrs[key := v.value] else attrs
  }

  /** `Bars.create(attrs)`: attributes that are not columns are dropped, and the row is
      refused when a NOT NULL column (name, addresse, email) has no value. The nullable
      columns tel and userId are left empty. */
  function BuildBar(attrs: Attributes): (r: Result<Bar>)
    ensures r.Ok? <==> "name" in attrs && "addresse" in attrs && "email" in attrs
    ensures r.Ok? ==> && r.value.name == attrs["name"]
                      && r.value.addresse == attrs["addresse"]
                      && r.value.email == attrs["email"]
                      && r.value.tel == None && r.value.userId == None
                      && r.value.description == (if "description" in attrs then Some(attrs["description"]) else None)
    ensures r.Rejected? ==> r.reason == InvalidField
  {
    if "name" in attrs && "addresse" in attrs && "email" in attrs then
      Ok(Bar(attrs["name"], attrs["addresse"], None, attrs["email"],
             if "description" in attrs then Some(attrs["description"]) else None, None))
    else Rejected(InvalidField)
  }

  /** Keys that are not text columns never influence the row that `create` builds
      (tel and userId are columns, but `create` leaves them empty here). */
  lemma NonColumnsIgnored(attrs: Attributes, key: string, v: string)
    requires key !in TextColumns
    ensures BuildBar(attrs[key := v]) == BuildBar(attrs)
  {
  }

  /** `bar[key] = v` on a loaded instance: only a column reaches the stored row;
      any other property lives on the JavaScript object and `save()` ignores it. */
  function SetColumn(b: Bar, key: string, v: string): (r: Bar)
    ensures key !in TextColumns ==> r == b
    ensures key == "name" ==> r == b.(name := v)
    ensures key == "addresse" ==> r == b.(addresse := v)
  {
    if key == "name" then b.(name := v)
    else if key == "addresse" then b.(addresse := v)
    else if key == "email" then b.(email := v)
    else if key == "description" then b.(description := Some(v))
    else b
  }

  /** UNIQUE on name and on email: no two distinct bars share either. */
  predicate UniqueNamesAndEmails(bars: map<int, Bar>) {
    forall i, j :: i in bars && j in bars && i != j ==>
      bars[i].name != bars[j].name && bars[i].email != bars[j].email
  }

  /** Whether some bar other than `self` already uses `name` or `email`. */
  predicate Clashes(bars: map<int, Bar>, self: int, name: string, email: string) {
    exists j :: j in bars && j != self && (bars[j].name == name || bars[j].email == email)
  }

  /** Storing a bar under a fresh id, or over `self`, keeps both constraints exactly when
      the new values clash with no other bar. */
  lemma {:induction false} StoreKeepsUnique(bars: map<int, Bar>, self: int, b: Bar)
    requires UniqueNamesAndEmails(bars)
    ensures UniqueNamesAndEmails(bars[self := b]) <==> !Clashes(bars, self, b.name, b.email)
  {
    var m := bars[self := b];
    if Clashes(bars, self, b.name, b.email) {
      var j :| j in bars && j != self && (bars[j].name == b.name || bars[j].email == b.email);
      assert m[j] == bars[j] && m[self] == b;
    } else {
      forall i, j | i in m && j in m && i != j
        ensures m[i].name != m[j].name && m[i].email != m[j].email
      {
        if i == self {
          assert j in bars && j != self;
        } else if j == self {
          assert i in bars && i != self;
        } else {
          assert m[i] == bars[i] && m[j] == bars[j];
        }
      }
    }
  }
}
