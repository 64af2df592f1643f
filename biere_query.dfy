/** `getBiereListByBar` (backend/controllers/biereController.js): the optional query
    parameters become a filter on the bar, the degree and the price, an order on the
    name and a page; the read then returns the matching rows in that order. */
module BiereQuery {
  import opened Common
  import opened BiereModel
  import Tables

  /** The query string, already parsed (`parseFloat`, `parseInt`); `None` is `undefined`. */
  datatype ListParams = ListParams(
    sort: Option<string>,
    limit: Option<nat>,
    offset: Option<nat>,
    degreeMin: Option<real>,
    degreeMax: Option<real>,
    prixMin: Option<real>,
    prixMax: Option<real>)

  /** One entry of the where clause: no constraint, `Op.gte`, `Op.lte` or `Op.between`. */
  datatype Bound = Any | AtLeast(lo: real) | AtMost(hi: real) | Between(lo: real, hi: real)

  datatype Direction = Asc | Desc

  /** The `options` object handed to `Biere.findAll`. */
  datatype Query = Query(
    barsId: int,
    degree: Bound,
    prix: Bound,
    order: Direction,
    limit: Option<nat>,
    offset: Option<nat>)

  /** SQL comparison of a column with a bound; BETWEEN includes both ends. */
  predicate InBound(x: real, b: Bound) {
    match b
    case Any => true
    case AtLeast(lo) => lo <= x
    case AtMost(hi) => x <= hi
    case Between(lo, hi) => lo <= x <= hi
  }

  /** The if / else-if chain on a (min, max) pair of parameters. */
  function BuildBound(lo: Option<real>, hi: Option<real>): (b: Bound)
    ensures forall x :: InBound(x, b) <==> (lo.Some? ==> lo.value <= x) && (hi.Some? ==> x <= hi.value)
  {
    if lo.Some? && hi.Some? then Between(lo.value, hi.value)
    else if lo.Some? then AtLeast(lo.value)
    else if hi.Some? then AtMost(hi.value)
    else Any
  }

  /** The four shapes of the range filter: both bounds, only a minimum, only a maximum,
      neither. */
  lemma BoundShapes(lo: Option<real>, hi: Option<real>)
    ensures lo.Some? && hi.Some? ==> BuildBound(lo, hi) == Between(lo.value, hi.value)
    ensures lo.Some? && hi.None? ==> BuildBound(lo, hi) == AtLeast(lo.value)
    ensures lo.None? && hi.Some? ==> BuildBound(lo, hi) == AtMost(hi.value)
    ensures lo.None? && hi.None? ==> BuildBound(lo, hi) == Any
  {
  }

  /** `String.prototype.toLowerCase` on ASCII letters. Other characters are kept as they
      are; no character outside ASCII lower-cases to one of the letters of "desc". */
  function LowerAscii(s: string): (r: string)
    ensures |r| == |s|
    ensures forall i :: 0 <= i < |s| ==> r[i] == if 'A' <= s[i] <= 'Z' then (s[i] - 'A' + 'a') as char else s[i]
  {
    if s == [] then [] else [if 'A' <= s[0] <= 'Z' then (s[0] - 'A' + 'a') as char else s[0]] + LowerAscii(s[1..])
  }

  /** `(sort && sort.toLowerCase() === 'desc') ? 'DESC' : 'ASC'`. */
  function DirectionOf(sort: Option<string>): Direction {
    if sort.Some? && sort.value != "" && LowerAscii(sort.value) == "desc" then Desc else Asc
  }

  /** Which strings lower-case to "desc": the four letters, each in either case. */
  lemma {:induction false} DescSpelling(s: string)
    ensures LowerAscii(s) == "desc" <==>
      |s| == 4 && (s[0] == 'd' || s[0] == 'D') && (s[1] == 'e' || s[1] == 'E') &&
      (s[2] == 's' || s[2] == 'S') && (s[3] == 'c' || s[3] == 'C')
  {
    var l := LowerAscii(s);
    if |s| == 4 {
      assert l == "desc" <==> l[0] == 'd' && l[1] == 'e' && l[2] == 's' && l[3] == 'c';
    } else {
      assert |l| != |"desc"|;
    }
  }

  /** Descending exactly for "desc" in any mix of cases; ascending when the parameter is
      absent, empty or anything else. */
  lemma DirectionCases(sort: Option<string>)
    ensures DirectionOf(sort) == Desc <==>
      sort.Some? && |sort.value| == 4 &&
      (sort.value[0] == 'd' || sort.value[0] == 'D') && (sort.value[1] == 'e' || sort.value[1] == 'E') &&
      (sort.value[2] == 's' || sort.value[2] == 'S') && (sort.value[3] == 'c' || sort.value[3] == 'C')
  {
    if sort.Some? {
      DescSpelling(sort.value);
    }
  }

  /** The whole options object, built from the route's bar and the query string. */
  function BuildQuery(barId: int, p: ListParams): Query {
    Query(barId,
          BuildBound(p.degreeMin, p.degreeMax),
          BuildBound(p.prixMin, p.prixMax),
          DirectionOf(p.sort),
          p.limit,
          p.offset)
  }

  /** The where clause: the bar, the degree range and the price range, ANDed. */
  predicate Matches(b: Biere, q: Query) {
    b.barsId == q.barsId && InBound(b.degree, q.degree) && InBound(b.prix, q.prix)
  }

  /** The where clause built from the parameters, stated through the parameters alone:
      an absent bound constrains nothing. */
  lemma {:induction false} MatchesParams(b: Biere, barId: int, p: ListParams)
    ensures Matches(b, BuildQuery(barId, p)) <==>
      && b.barsId == barId
      && (p.degreeMin.Some? ==> p.degreeMin.value <= b.degree)
      && (p.degreeMax.Some? ==> b.degree <= p.degreeMax.value)
      && (p.prixMin.Some? ==> p.prixMin.value <= b.prix)
      && (p.prixMax.Some? ==> b.prix <= p.prixMax.value)
  {
    var q := BuildQuery(barId, p);
    assert InBound(b.degree, q.degree) <==> (p.degreeMin.Some? ==> p.degreeMin.value <= b.degree) && (p.degreeMax.Some? ==> b.degree <= p.degreeMax.value);
    assert InBound(b.prix, q.prix) <==> (p.prixMin.Some? ==> p.prixMin.value <= b.prix) && (p.prixMax.Some? ==> b.prix <= p.prixMax.value);
  }

  // ---------------------------------------------------------------------------
  // ORDER BY name: code-point order on strings, like the store's binary collation.

  predicate NameLe(a: string, b: string)
    decreases |a|
  {
    if |a| == 0 then true
    else if |b| == 0 then false
    else if a[0] != b[0] then a[0] < b[0]
    else NameLe(a[1..], b[1..])
  }

  lemma {:induction false} NameLeTotal(a: string, b: string)
    ensures NameLe(a, b) || NameLe(b, a)
    decreases |a|
  {
    if |a| > 0 && |b| > 0 && a[0] == b[0] {
      NameLeTotal(a[1..], b[1..]);
    }
  }

  lemma {:induction false} NameLeTransitive(a: string, b: string, c: string)
    requires NameLe(a, b) && NameLe(b, c)
    ensures NameLe(a, c)
    decreases |a|
  {
    if |a| > 0 && |b| > 0 && |c| > 0 && a[0] == b[0] && b[0] == c[0] {
      NameLeTransitive(a[1..], b[1..], c[1..]);
    }
  }

  type BiereRow = Tables.Row<Biere>

  /** `a` may come before `b` in the requested direction. */
  predicate InOrder(a: BiereRow, b: BiereRow, dir: Direction) {
    if dir == Asc then NameLe(a.val.name, b.val.name) else NameLe(b.val.name, a.val.name)
  }

  predicate SortedBy(s: seq<BiereRow>, dir: Direction) {
    forall i, j :: 0 <= i < j < |s| ==> InOrder(s[i], s[j], dir)
  }

  lemma InOrderTotal(a: BiereRow, b: BiereRow, dir: Direction)
    ensures InOrder(a, b, dir) || InOrder(b, a, dir)
  {
    NameLeTotal(a.val.name, b.val.name);
  }

  lemma InOrderTransitive(a: BiereRow, b: BiereRow, c: BiereRow, dir: Direction)
    requires InOrder(a, b, dir) && InOrder(b, c, dir)
    ensures InOrder(a, c, dir)
  {
    if dir == Asc {
      NameLeTransitive(a.val.name, b.val.name, c.val.name);
    } else {
      NameLeTransitive(c.val.name, b.val.name, a.val.name);
    }
  }

  /** Puts `x` before the first row it may precede, which is before any rows with an
      equal name; since `Sort` inserts each head into its sorted tail, equal names keep
      their table order. */
  function Insert(x: BiereRow, s: seq<BiereRow>, dir: Direction): (r: seq<BiereRow>)
    ensures multiset(r) == multiset(s) + multiset{x}
  {
    if s == [] then [x]
    else if InOrder(x, s[0], dir) then [x] + s
    else
      assert s == [s[0]] + s[1..];
      [s[0]] + Insert(x, s[1..], dir)
  }

  /** The rows `Insert` returns are `x` and the rows it was given. */
  lemma InsertMembers(x: BiereRow, s: seq<BiereRow>, dir: Direction)
    ensures forall y :: y in Insert(x, s, dir) ==> y == x || y in s
  {
    forall y | y in Insert(x, s, dir) ensures y == x || y in s {
      assert y in multiset(Insert(x, s, dir));
    }
  }

  /** The first row of a sorted sequence may precede every later one. */
  lemma HeadPrecedes(s: seq<BiereRow>, dir: Direction)
    requires |s| > 0 && SortedBy(s, dir)
    ensures forall y :: y in s[1..] ==> InOrder(s[0], y, dir)
  {
    forall y | y in s[1..] ensures InOrder(s[0], y, dir) {
      var k :| 0 <= k < |s[1..]| && s[1..][k] == y;
      assert s[k + 1] == y;
    }
  }

  /** A row that may precede every row of a sorted sequence can head it. */
  lemma ConsSorted(a: BiereRow, s: seq<BiereRow>, dir: Direction)
    requires SortedBy(s, dir)
    requires forall y :: y in s ==> InOrder(a, y, dir)
    ensures SortedBy([a] + s, dir)
  {
    var r := [a] + s;
    forall i, j | 0 <= i < j < |r| ensures InOrder(r[i], r[j], dir) {
      assert r[j] == s[j - 1];
      if i > 0 { assert r[i] == s[i - 1]; } else { assert r[j] in s; }
    }
  }

  /** Inserting into a sorted sequence keeps it sorted. */
  lemma {:induction false} InsertSorted(x: BiereRow, s: seq<BiereRow>, dir: Direction)
    requires SortedBy(s, dir)
    ensures SortedBy(Insert(x, s, dir), dir)
  {
    if s == [] {
    } else if InOrder(x, s[0], dir) {
      HeadPrecedes(s, dir);
      forall y | y in s ensures InOrder(x, y, dir) {
        if y != s[0] {
          assert y in s[1..] by { assert s == [s[0]] + s[1..]; }
          InOrderTransitive(x, s[0], y, dir);
        }
      }
      ConsSorted(x, s, dir);
    } else {
      InsertSorted(x, s[1..], dir);
      InOrderTotal(x, s[0], dir);
      HeadPrecedes(s, dir);
      InsertMembers(x, s[1..], dir);
      ConsSorted(s[0], Insert(x, s[1..], dir), dir);
    }
  }

  /** Insertion sort: a sorted permutation of its input. */
  function Sort(s: seq<BiereRow>, dir: Direction): (r: seq<BiereRow>)
    ensures multiset(r) == multiset(s)
    ensures SortedBy(r, dir)
  {
    if s == [] then []
    else
      assert s == [s[0]] + s[1..];
      var rest := Sort(s[1..], dir);
      InsertSorted(s[0], rest, dir);
      Insert(s[0], rest, dir)
  }

  /** Where a page starts: `offset` rows are skipped, or none when it is absent. */
  function PageStart(n: nat, offset: Option<nat>): (start: nat)
    ensures start <= n
  {
    if offset.Some? && offset.value < n then offset.value
    else if offset.Some? then n
    else 0
  }

  /** OFFSET then LIMIT, each only when given. */
  function Page(s: seq<BiereRow>, offset: Option<nat>, limit: Option<nat>): (r: seq<BiereRow>)
    ensures var start := PageStart(|s|, offset);
      && |r| <= |s| - start
      && r == s[start..start + |r|]
      && (limit.Some? ==> |r| == if limit.value < |s| - start then limit.value else |s| - start)
      && (limit.None? ==> |r| == |s| - start)
  {
    var rest := s[PageStart(|s|, offset)..];
    if limit.Some? && limit.value < |rest| then rest[..limit.value] else rest
  }

  /** `Biere.findAll(options)`: the matching rows of the table, ordered, then paged. */
  function Find(bieres: map<int, Biere>, q: Query): seq<BiereRow> {
    var matching := Tables.Select(Tables.Rows(bieres), (r: BiereRow) => Matches(r.val, q));
    Page(Sort(matching, q.order), q.offset, q.limit)
  }

  /** Every row returned is a row of the table that satisfies the where clause, hence
      belongs to the requested bar. */
  lemma {:induction false} FindSound(bieres: map<int, Biere>, q: Query)
    ensures forall i :: 0 <= i < |Find(bieres, q)| ==>
      var row := Find(bieres, q)[i];
      row.id in bieres && bieres[row.id] == row.val && Matches(row.val, q) && row.val.barsId == q.barsId
  {
    var rows := Tables.Rows(bieres);
    var matching := Tables.Select(rows, (r: BiereRow) => Matches(r.val, q));
    var sorted := Sort(matching, q.order);
    var r := Find(bieres, q);
    var start := PageStart(|sorted|, q.offset);
    forall i | 0 <= i < |r|
      ensures r[i].id in bieres && bieres[r[i].id] == r[i].val && Matches(r[i].val, q)
    {
      assert r[i] == sorted[start + i];
      assert r[i] in multiset(sorted);
      assert r[i] in matching;
      var k :| 0 <= k < |rows| && rows[k] == r[i];
    }
  }

  /** The rows come out in name order, descending when requested. */
  lemma {:induction false} FindSorted(bieres: map<int, Biere>, q: Query)
    ensures SortedBy(Find(bieres, q), q.order)
  {
    var matching := Tables.Select(Tables.Rows(bieres), (r: BiereRow) => Matches(r.val, q));
    var sorted := Sort(matching, q.order);
    var r := Find(bieres, q);
    var start := PageStart(|sorted|, q.offset);
    forall i, j | 0 <= i < j < |r| ensures InOrder(r[i], r[j], q.order) {
      assert r[i] == sorted[start + i] && r[j] == sorted[start + j];
    }
  }

  /** Without limit and offset every matching beer of the table is returned, once. */
  lemma {:induction false} FindComplete(bieres: map<int, Biere>, q: Query, id: int)
    requires q.limit.None? && q.offset.None?
    requires id in bieres && Matches(bieres[id], q)
    ensures Tables.Row(id, bieres[id]) in Find(bieres, q)
    ensures multiset(Find(bieres, q))[Tables.Row(id, bieres[id])] == 1
  {
    var rows := Tables.Rows(bieres);
    var p := (r: BiereRow) => Matches(r.val, q);
    var matching := Tables.Select(rows, p);
    var sorted := Sort(matching, q.order);
    assert Find(bieres, q) == sorted;
    var row := Tables.Row(id, bieres[id]);
    assert id in Tables.Ids(rows);
    Tables.IdsMember(rows, id);
    var k :| 0 <= k < |rows| && rows[k].id == id;
    assert rows[k] == row;
    assert row in matching;
    CountInIncreasing(matching, row);
  }

  /** In a sequence of rows with increasing ids a row occurs once. */
  lemma {:induction false} CountInIncreasing(s: seq<BiereRow>, row: BiereRow)
    requires Tables.Increasing(s)
    requires row in s
    ensures multiset(s)[row] == 1
    decreases |s|
  {
    assert s == [s[0]] + s[1..];
    if s[0] == row {
      assert forall j :: 0 <= j < |s[1..]| ==> s[1..][j].id > row.id by {
        forall j | 0 <= j < |s[1..]| ensures s[1..][j].id > row.id { assert s[1..][j] == s[j + 1]; }
      }
      assert row !in s[1..];
    } else {
      assert row in s[1..];
      CountInIncreasing(s[1..], row);
    }
  }

  /** A limit bounds the length of the answer. */
  lemma FindBounded(bieres: map<int, Biere>, q: Query)
    requires q.limit.Some?
    ensures |Find(bieres, q)| <= q.limit.value
  {
  }
}
