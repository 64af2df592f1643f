/** The four tables together, referential integrity, and the delete cascades of the
    `beforeDestroy` hooks (backend/models/bars.js, models/biere.js,
    backend/models/commande.js). */
module Database {
  import opened BarModel
  import opened BiereModel
  import opened CommandeModel
  import opened BiereCommandeModel
  import Tables

  datatype Db = Db(
    bars: map<int, Bar>,
    bieres: map<int, Biere>,
    commandes: map<int, Commande>,
    lignes: map<LineKey, int>)

  /** Every foreign key names an existing row: a beer's and an order's bar, a line's beer
      and order. */
  predicate Integrity(db: Db) {
    && (forall k :: k in db.bieres ==> db.bieres[k].barsId in db.bars)
    && (forall k :: k in db.commandes ==> db.commandes[k].barsId in db.bars)
    && (forall l :: l in db.lignes ==> l.biereId in db.bieres && l.commandeId in db.commandes)
  }

  /** The constraints and validators every stored row satisfies. */
  predicate RowsValid(db: Db) {
    && UniqueNamesAndEmails(db.bars)
    && (forall k :: k in db.bieres ==> StoredBiereValid(db.bieres[k]))
    && (forall k :: k in db.commandes ==> StoredCommandeValid(db.commandes[k]))
  }

  // ---------------------------------------------------------------------------
  // Beer: the hook first removes the beer's lines, then the row goes.

  /** `biere.destroy()`: `BiereCommande.destroy({ where: { biere_id } })`, then the row. */
  function DeleteBiere(db: Db, id: int): Db {
    db.(lignes := map l | l in db.lignes && l.biereId != id :: db.lignes[l],
        bieres := db.bieres - {id})
  }

  /** After a beer is destroyed no line names it, the lines of other beers are intact,
      and the other tables are unchanged. */
  lemma DeleteBiereEffect(db: Db, id: int)
    ensures id !in DeleteBiere(db, id).bieres
    ensures forall l :: l in DeleteBiere(db, id).lignes ==> l.biereId != id
    ensures forall l :: l in db.lignes && l.biereId != id ==>
              l in DeleteBiere(db, id).lignes && DeleteBiere(db, id).lignes[l] == db.lignes[l]
    ensures forall k :: k in db.bieres && k != id ==> k in DeleteBiere(db, id).bieres && DeleteBiere(db, id).bieres[k] == db.bieres[k]
    ensures DeleteBiere(db, id).bars == db.bars && DeleteBiere(db, id).commandes == db.commandes
  {
  }

  lemma DeleteBiereKeepsIntegrity(db: Db, id: int)
    requires Integrity(db) && RowsValid(db)
    ensures Integrity(DeleteBiere(db, id)) && RowsValid(DeleteBiere(db, id))
  {
  }

  // ---------------------------------------------------------------------------
  // Order: the hook deletes the order's own row (`Commande.destroy({ where: { id } })`);
  // its lines go through the database's cascade on the join table's foreign key.

  function DeleteCommande(db: Db, id: int): Db {
    db.(lignes := map l | l in db.lignes && l.commandeId != id :: db.lignes[l],
        commandes := db.commandes - {id})
  }

  /** Only the order with that id leaves the table, and no line names it afterwards. */
  lemma DeleteCommandeEffect(db: Db, id: int)
    ensures id !in DeleteCommande(db, id).commandes
    ensures forall k :: k in db.commandes && k != id ==>
              k in DeleteCommande(db, id).commandes && DeleteCommande(db, id).commandes[k] == db.commandes[k]
    ensures forall l :: l in DeleteCommande(db, id).lignes ==> l.commandeId != id
    ensures forall l :: l in db.lignes && l.commandeId != id ==>
              l in DeleteCommande(db, id).lignes && DeleteCommande(db, id).lignes[l] == db.lignes[l]
    ensures DeleteCommande(db, id).bars == db.bars && DeleteCommande(db, id).bieres == db.bieres
  {
  }

  lemma DeleteCommandeKeepsIntegrity(db: Db, id: int)
    requires Integrity(db) && RowsValid(db)
    ensures Integrity(DeleteCommande(db, id)) && RowsValid(DeleteCommande(db, id))
  {
  }

  // ---------------------------------------------------------------------------
  // Reading an order's beers through the join table.

  /** A beer of an order, annotated with the quantity of its line. */
  datatype OrderLine = OrderLine(biereId: int, biere: Biere, quantity: int)

  function Annotate(rows: seq<Tables.Row<Biere>>, lignes: map<LineKey, int>, commandeId: int): (r: seq<OrderLine>)
    requires forall i :: 0 <= i < |rows| ==> LineKey(rows[i].id, commandeId) in lignes
    ensures |r| == |rows|
    ensures forall i :: 0 <= i < |r| ==>
      r[i] == OrderLine(rows[i].id, rows[i].val, lignes[LineKey(rows[i].id, commandeId)])
  {
    if rows == [] then []
    else [OrderLine(rows[0].id, rows[0].val, lignes[LineKey(rows[0].id, commandeId)])] + Annotate(rows[1..], lignes, commandeId)
  }

  /** `Commande.findByPk(id, { include: Biere through BiereCommande(quantity) })`: the
      beers that have a line for the order, in table order. */
  function BeersOfOrder(db: Db, commandeId: int): seq<OrderLine> {
    var joined := Tables.Select(Tables.Rows(db.bieres), (r: Tables.Row<Biere>) => LineKey(r.id, commandeId) in db.lignes);
    assert forall i :: 0 <= i < |joined| ==> joined[i] in joined;
    Annotate(joined, db.lignes, commandeId)
  }

  /** The listed beers are exactly the beers joined to the order, each with the
      quantity of its own line. */
  lemma {:induction false} BeersOfOrderExact(db: Db, commandeId: int)
    ensures forall x :: x in BeersOfOrder(db, commandeId) <==>
      && x.biereId in db.bieres && db.bieres[x.biereId] == x.biere
      && LineKey(x.biereId, commandeId) in db.lignes
      && db.lignes[LineKey(x.biereId, commandeId)] == x.quantity
  {
    var p := (r: Tables.Row<Biere>) => LineKey(r.id, commandeId) in db.lignes;
    var joined := Tables.Select(Tables.Rows(db.bieres), p);
    Tables.SelectRowsExact(db.bieres, p);
    var r := BeersOfOrder(db, commandeId);
    forall x | x in r
      ensures && x.biereId in db.bieres && db.bieres[x.biereId] == x.biere
              && LineKey(x.biereId, commandeId) in db.lignes
              && db.lignes[LineKey(x.biereId, commandeId)] == x.quantity
    {
      var i :| 0 <= i < |r| && r[i] == x;
      assert joined[i] in joined;
    }
    forall x: OrderLine | && x.biereId in db.bieres && db.bieres[x.biereId] == x.biere
               && LineKey(x.biereId, commandeId) in db.lignes
               && db.lignes[LineKey(x.biereId, commandeId)] == x.quantity
      ensures x in r
    {
      var row := Tables.Row(x.biereId, x.biere);
      assert row in joined;
      var i :| 0 <= i < |joined| && joined[i] == row;
      assert r[i] == x;
    }
  }

  /** An existing order with no lines lists no beers, which is an empty answer rather
      than an error. */
  lemma {:induction false} BeersOfOrderEmpty(db: Db, commandeId: int)
    requires forall l :: l in db.lignes ==> l.commandeId != commandeId
    ensures BeersOfOrder(db, commandeId) == []
  {
    BeersOfOrderExact(db, commandeId);
  }

  // ---------------------------------------------------------------------------
  // Bar: `individualHooks: true` runs the beer hook for each of the bar's beers, then the
  // order hook for each of its orders; the bar row goes last.

  /** The ids of the bar's beers, in table order. */
  function BeersOf(bieres: map<int, Biere>, barId: int): seq<int> {
    IdsOf(Tables.Select(Tables.Rows(bieres), (r: Tables.Row<Biere>) => r.val.barsId == barId))
  }

  /** The ids of the bar's orders, in table order. */
  function OrdersOf(commandes: map<int, Commande>, barId: int): seq<int> {
    IdsOf(Tables.Select(Tables.Rows(commandes), (r: Tables.Row<Commande>) => r.val.barsId == barId))
  }

  function IdsOf<T>(rows: seq<Tables.Row<T>>): (r: seq<int>)
    ensures |r| == |rows| && forall i :: 0 <= i < |r| ==> r[i] == rows[i].id
  {
    if rows == [] then [] else [rows[0].id] + IdsOf(rows[1..])
  }

  /** An id selected from a whole table is the id of one of its rows that satisfies
      the predicate. */
  lemma {:induction false} IdsOfSelectSound<T(!new)>(m: map<int, T>, p: Tables.Row<T> -> bool, k: int)
    requires k in IdsOf(Tables.Select(Tables.Rows(m), p))
    ensures k in m && p(Tables.Row(k, m[k]))
  {
    var sel := Tables.Select(Tables.Rows(m), p);
    var ids := IdsOf(sel);
    Tables.SelectRowsExact(m, p);
    var i :| 0 <= i < |ids| && ids[i] == k;
    assert sel[i] in sel;
  }

  /** Every row of the table that satisfies the predicate has its id selected. */
  lemma {:induction false} IdsOfSelectComplete<T(!new)>(m: map<int, T>, p: Tables.Row<T> -> bool, k: int)
    requires k in m && p(Tables.Row(k, m[k]))
    ensures k in IdsOf(Tables.Select(Tables.Rows(m), p))
  {
    var sel := Tables.Select(Tables.Rows(m), p);
    Tables.SelectRowsExact(m, p);
    assert Tables.Row(k, m[k]) in sel;
    var i :| 0 <= i < |sel| && sel[i] == Tables.Row(k, m[k]);
    assert IdsOf(sel)[i] == k;
  }

  /** The ids selected from a whole table are exactly the ids of its rows that satisfy
      the predicate. */
  lemma IdsOfSelectExact<T(!new)>(m: map<int, T>, p: Tables.Row<T> -> bool)
    ensures forall k :: k in IdsOf(Tables.Select(Tables.Rows(m), p)) <==> k in m && p(Tables.Row(k, m[k]))
  {
    forall k ensures k in IdsOf(Tables.Select(Tables.Rows(m), p)) <==> k in m && p(Tables.Row(k, m[k])) {
      if k in IdsOf(Tables.Select(Tables.Rows(m), p)) {
        IdsOfSelectSound(m, p, k);
      }
      if k in m && p(Tables.Row(k, m[k])) {
        IdsOfSelectComplete(m, p, k);
      }
    }
  }

  /** The bar's beers are exactly the beers whose `bars_id` is that bar. */
  lemma BeersOfExact(bieres: map<int, Biere>, barId: int)
    ensures forall k :: k in BeersOf(bieres, barId) <==> k in bieres && bieres[k].barsId == barId
  {
    IdsOfSelectExact(bieres, (r: Tables.Row<Biere>) => r.val.barsId == barId);
  }

  /** The bar's orders are exactly the orders whose `bars_id` is that bar. */
  lemma OrdersOfExact(commandes: map<int, Commande>, barId: int)
    ensures forall k :: k in OrdersOf(commandes, barId) <==> k in commandes && commandes[k].barsId == barId
  {
    IdsOfSelectExact(commandes, (r: Tables.Row<Commande>) => r.val.barsId == barId);
  }

  /** The beer hook run on each id of `ids` in turn. */
  function DeleteEachBiere(db: Db, ids: seq<int>): Db
    decreases |ids|
  {
    if ids == [] then db
    else DeleteBiere(DeleteEachBiere(db, ids[..|ids| - 1]), ids[|ids| - 1])
  }

  /** Running the beer hook on a list of ids removes exactly those beers and exactly
      their lines, and touches nothing else. */
  lemma {:induction false} DeleteEachBiereEffect(db: Db, ids: seq<int>)
    ensures var r := DeleteEachBiere(db, ids);
      && r.bars == db.bars && r.commandes == db.commandes
      && (forall k :: k in r.bieres <==> k in db.bieres && k !in ids)
      && (forall k :: k in r.bieres ==> r.bieres[k] == db.bieres[k])
      && (forall l :: l in r.lignes <==> l in db.lignes && l.biereId !in ids)
      && (forall l :: l in r.lignes ==> r.lignes[l] == db.lignes[l])
    decreases |ids|
  {
    if ids != [] {
      DeleteEachBiereEffect(db, ids[..|ids| - 1]);
      assert forall k :: k in ids <==> k in ids[..|ids| - 1] || k == ids[|ids| - 1];
    }
  }

  /** The order hook run on each id of `ids` in turn. */
  function DeleteEachCommande(db: Db, ids: seq<int>): Db
    decreases |ids|
  {
    if ids == [] then db
    else DeleteCommande(DeleteEachCommande(db, ids[..|ids| - 1]), ids[|ids| - 1])
  }

  /** Running the order hook on a list of ids removes exactly those orders and exactly
      their lines, and touches nothing else. */
  lemma {:induction false} DeleteEachCommandeEffect(db: Db, ids: seq<int>)
    ensures var r := DeleteEachCommande(db, ids);
      && r.bars == db.bars && r.bieres == db.bieres
      && (forall k :: k in r.commandes <==> k in db.commandes && k !in ids)
      && (forall k :: k in r.commandes ==> r.commandes[k] == db.commandes[k])
      && (forall l :: l in r.lignes <==> l in db.lignes && l.commandeId !in ids)
      && (forall l :: l in r.lignes ==> r.lignes[l] == db.lignes[l])
    decreases |ids|
  {
    if ids != [] {
      DeleteEachCommandeEffect(db, ids[..|ids| - 1]);
      assert forall k :: k in ids <==> k in ids[..|ids| - 1] || k == ids[|ids| - 1];
    }
  }

  /** The beers' stage of the bar cascade. */
  function DeleteBarBeers(db: Db, id: int): Db {
    DeleteEachBiere(db, BeersOf(db.bieres, id))
  }

  /** The orders' stage, which runs on what the beers' stage left. */
  function DeleteBarOrders(db: Db, id: int): Db {
    DeleteEachCommande(db, OrdersOf(db.commandes, id))
  }

  /** `bar.destroy()`: beers, then orders, then the bar row. */
  function DeleteBar(db: Db, id: int): Db {
    var withoutOrders := DeleteBarOrders(DeleteBarBeers(db, id), id);
    withoutOrders.(bars := withoutOrders.bars - {id})
  }

  /** After a bar is destroyed: the bar is gone, the other bars intact; exactly the
      beers and orders that referred to it are gone, the others intact. */
  lemma {:induction false} DeleteBarRows(db: Db, id: int)
    ensures var r := DeleteBar(db, id);
      && id !in r.bars
      && (forall k :: k in r.bars <==> k in db.bars && k != id)
      && (forall k :: k in r.bars ==> r.bars[k] == db.bars[k])
      && (forall k :: k in r.bieres <==> k in db.bieres && db.bieres[k].barsId != id)
      && (forall k :: k in r.bieres ==> r.bieres[k] == db.bieres[k])
      && (forall k :: k in r.commandes <==> k in db.commandes && db.commandes[k].barsId != id)
      && (forall k :: k in r.commandes ==> r.commandes[k] == db.commandes[k])
  {
    BeersOfExact(db.bieres, id);
    DeleteEachBiereEffect(db, BeersOf(db.bieres, id));
    var afterBeers := DeleteBarBeers(db, id);
    OrdersOfExact(afterBeers.commandes, id);
    DeleteEachCommandeEffect(afterBeers, OrdersOf(afterBeers.commandes, id));
  }

  /** After a bar is destroyed: exactly the lines of its beers and orders are gone,
      the others intact. */
  lemma {:induction false} DeleteBarLines(db: Db, id: int)
    ensures var r := DeleteBar(db, id);
      && (forall l :: l in r.lignes <==>
            && l in db.lignes
            && !(l.biereId in db.bieres && db.bieres[l.biereId].barsId == id)
            && !(l.commandeId in db.commandes && db.commandes[l.commandeId].barsId == id))
      && (forall l :: l in r.lignes ==> r.lignes[l] == db.lignes[l])
  {
    BeersOfExact(db.bieres, id);
    DeleteEachBiereEffect(db, BeersOf(db.bieres, id));
    var afterBeers := DeleteBarBeers(db, id);
    OrdersOfExact(afterBeers.commandes, id);
    DeleteEachCommandeEffect(afterBeers, OrdersOf(afterBeers.commandes, id));
  }

  /** The whole effect of destroying a bar, on every table. */
  lemma DeleteBarEffect(db: Db, id: int)
    ensures var r := DeleteBar(db, id);
      && id !in r.bars
      && (forall k :: k in r.bars <==> k in db.bars && k != id)
      && (forall k :: k in r.bars ==> r.bars[k] == db.bars[k])
      && (forall k :: k in r.bieres <==> k in db.bieres && db.bieres[k].barsId != id)
      && (forall k :: k in r.bieres ==> r.bieres[k] == db.bieres[k])
      && (forall k :: k in r.commandes <==> k in db.commandes && db.commandes[k].barsId != id)
      && (forall k :: k in r.commandes ==> r.commandes[k] == db.commandes[k])
      && (forall l :: l in r.lignes <==>
            && l in db.lignes
            && !(l.biereId in db.bieres && db.bieres[l.biereId].barsId == id)
            && !(l.commandeId in db.commandes && db.commandes[l.commandeId].barsId == id))
      && (forall l :: l in r.lignes ==> r.lignes[l] == db.lignes[l])
  {
    DeleteBarRows(db, id);
    DeleteBarLines(db, id);
  }

  /** The cascade only removes rows. */
  lemma {:induction false} DeleteBarShrinks(db: Db, id: int)
    ensures DeleteBar(db, id).bars.Keys <= db.bars.Keys
    ensures DeleteBar(db, id).bieres.Keys <= db.bieres.Keys
    ensures DeleteBar(db, id).commandes.Keys <= db.commandes.Keys
  {
    DeleteBarEffect(db, id);
    var r := DeleteBar(db, id);
    assert forall k :: k in r.bars ==> k in db.bars;
    assert forall k :: k in r.bieres ==> k in db.bieres;
    assert forall k :: k in r.commandes ==> k in db.commandes;
  }

  /** Destroying the only bar empties all four tables: with integrity, every beer and
      order belongs to it and every line hangs off one of them. */
  lemma {:induction false} DeleteOnlyBar(db: Db, id: int)
    requires Integrity(db)
    requires db.bars.Keys == {id}
    ensures DeleteBar(db, id).bars == map[]
    ensures DeleteBar(db, id).bieres == map[] && DeleteBar(db, id).commandes == map[]
    ensures DeleteBar(db, id).lignes == map[]
  {
    DeleteBarEffect(db, id);
    var r := DeleteBar(db, id);
    assert forall k :: k !in r.bars;
    assert forall k :: k !in r.bieres;
    assert forall k :: k !in r.commandes;
    assert forall l :: l !in r.lignes;
  }

  /** No beer and no order refers to a destroyed bar. */
  lemma {:induction false} DeleteBarLeavesNoChildren(db: Db, id: int)
    ensures forall k :: k in DeleteBar(db, id).bieres ==> DeleteBar(db, id).bieres[k].barsId != id
    ensures forall k :: k in DeleteBar(db, id).commandes ==> DeleteBar(db, id).commandes[k].barsId != id
  {
    DeleteBarEffect(db, id);
  }

  /** Children go first: when the orders' stage starts, the bar's beers and their lines
      are gone while the bar and its orders still exist; the bar row goes last. */
  lemma {:induction false} DeleteBarStages(db: Db, id: int)
    requires id in db.bars
    ensures var afterBeers := DeleteBarBeers(db, id);
      && id in afterBeers.bars
      && afterBeers.commandes == db.commandes
      && (forall k :: k in afterBeers.bieres ==> afterBeers.bieres[k].barsId != id)
      && (forall l :: l in afterBeers.lignes ==> l.biereId in afterBeers.bieres || l.biereId !in db.bieres)
    ensures id in DeleteBarOrders(DeleteBarBeers(db, id), id).bars
  {
    BeersOfExact(db.bieres, id);
    DeleteEachBiereEffect(db, BeersOf(db.bieres, id));
    var afterBeers := DeleteBarBeers(db, id);
    DeleteEachCommandeEffect(afterBeers, OrdersOf(afterBeers.commandes, id));
  }

  /** The bar cascade also keeps every foreign key and constraint intact. */
  lemma {:induction false} DeleteBarKeepsIntegrity(db: Db, id: int)
    requires Integrity(db) && RowsValid(db)
    ensures Integrity(DeleteBar(db, id)) && RowsValid(DeleteBar(db, id))
  {
    DeleteBarEffect(db, id);
    var r := DeleteBar(db, id);
    forall i, j | i in r.bars && j in r.bars && i != j
      ensures r.bars[i].name != r.bars[j].name && r.bars[i].email != r.bars[j].email
    {
      assert r.bars[i] == db.bars[i] && r.bars[j] == db.bars[j];
    }
  }
}
