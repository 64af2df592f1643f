/** The running application's data and the controller actions that read and change it
    (controllers/barsController.js, backend/controllers/biereController.js,
    controllers/commandeController.js, backend/controllers/biere_commandeController.js).
    Each action returns `Ok`, `NotFound` or `Rejected`; a refused write changes nothing. */
module Store {
  import opened Common
  import opened BarModel
  import opened BiereModel
  import opened CommandeModel
  import opened BiereCommandeModel
  import opened Database
  import Tables
  import OrderUpdate
  import BiereQuery
  import BarsController

  /** The invariant of the store: foreign keys, constraints and validators hold, and
      every id is below its table's counter. */
  predicate Consistent(db: Db, nextBarId: int, nextBiereId: int, nextCommandeId: int) {
    && Integrity(db)
    && RowsValid(db)
    && (forall k :: k in db.bars ==> k < nextBarId)
    && (forall k :: k in db.bieres ==> k < nextBiereId)
    && (forall k :: k in db.commandes ==> k < nextCommandeId)
  }

  lemma {:induction false} DeleteBarConsistent(db: Db, id: int, nextBarId: int, nextBiereId: int, nextCommandeId: int)
    requires Consistent(db, nextBarId, nextBiereId, nextCommandeId)
    ensures Consistent(Database.DeleteBar(db, id), nextBarId, nextBiereId, nextCommandeId)
  {
    DeleteBarKeepsIntegrity(db, id);
    DeleteBarShrinks(db, id);
  }

  class Store {
    var bars: map<int, Bar>
    var bieres: map<int, Biere>
    var commandes: map<int, Commande>
    var lignes: map<LineKey, int>
    /** The autoincrement counters: the id the next row of each table receives. */
    var nextBarId: int
    var nextBiereId: int
    var nextCommandeId: int

    function Snapshot(): Db
      reads this
    {
      Db(bars, bieres, commandes, lignes)
    }

    /** Foreign keys, constraints and validators hold, and every id is below its
        table's counter, so a new row never reuses an id. */
    predicate Valid()
      reads this
    {
      Consistent(Snapshot(), nextBarId, nextBiereId, nextCommandeId)
    }

    constructor ()
      ensures Valid()
      ensures Snapshot() == Db(map[], map[], map[], map[])
      ensures nextBarId == 1 && nextBiereId == 1 && nextCommandeId == 1
    {
      bars, bieres, commandes, lignes := map[], map[], map[], map[];
      nextBarId, nextBiereId, nextCommandeId := 1, 1, 1;
    }

    // -------------------------------------------------------------------------
    // Bars

    /** `createBar`, with the address read into the `addresse` column. */
    method CreateBar(body: BarsController.Body) returns (r: Result<int>)
      requires Valid()
      modifies this
      ensures Valid()
      ensures BuildBar(BarsController.CreateAttrs(body)).Rejected? ==> r == Rejected(InvalidField)
      ensures BuildBar(BarsController.CreateAttrs(body)).Ok? ==>
        var b := BuildBar(BarsController.CreateAttrs(body)).value;
        if Clashes(old(bars), old(nextBarId), b.name, b.email) then r == Rejected(DuplicateKey)
        else r == Ok(old(nextBarId)) && bars == old(bars)[old(nextBarId) := b] && nextBarId == old(nextBarId) + 1
      ensures !r.Ok? ==> Snapshot() == old(Snapshot()) && nextBarId == old(nextBarId)
      ensures bieres == old(bieres) && commandes == old(commandes) && lignes == old(lignes)
      ensures nextBiereId == old(nextBiereId) && nextCommandeId == old(nextCommandeId)
    {
      var built := BuildBar(BarsController.CreateAttrs(body));
      if built.Rejected? {
        return Rejected(InvalidField);
      }
      var b := built.value;
      if Clashes(bars, nextBarId, b.name, b.email) {
        return Rejected(DuplicateKey);
      }
      StoreKeepsUnique(bars, nextBarId, b);
      bars := bars[nextBarId := b];
      r := Ok(nextBarId);
      nextBarId := nextBarId + 1;
    }

    /** `updateBar`, with the address written to the `addresse` column. */
    method UpdateBar(id: int, body: BarsController.Body) returns (r: Result<Bar>)
      requires Valid()
      modifies this`bars
      ensures Valid()
      ensures id !in old(bars) ==> r == NotFound
      ensures id in old(bars) ==>
        var b := BarsController.UpdateRow(old(bars)[id], body);
        if Clashes(old(bars), id, b.name, b.email) then r == Rejected(DuplicateKey)
        else r == Ok(b) && bars == old(bars)[id := b]
      ensures !r.Ok? ==> bars == old(bars)
    {
      if id !in bars {
        return NotFound;
      }
      var b := BarsController.UpdateRow(bars[id], body);
      if Clashes(bars, id, b.name, b.email) {
        return Rejected(DuplicateKey);
      }
      StoreKeepsUnique(bars, id, b);
      bars := bars[id := b];
      r := Ok(b);
    }

    /** `deleteBar`: the bar's `beforeDestroy` hook destroys its beers, then its orders,
        then the bar row goes. */
    method DeleteBar(id: int) returns (r: Result<()>)
      requires Valid()
      modifies this`bieres, this`commandes, this`lignes, this`bars
      ensures Valid()
      ensures id !in old(bars) ==> r == NotFound && Snapshot() == old(Snapshot())
      ensures id in old(bars) ==> r == Ok(()) && Snapshot() == Database.DeleteBar(old(Snapshot()), id)
    {
      if id !in bars {
        return NotFound;
      }
      DeleteBarConsistent(Snapshot(), id, nextBarId, nextBiereId, nextCommandeId);
      DestroyBar(id);
      r := Ok(());
    }

    /** The three steps of the cascade, in order. */
    method DestroyBar(id: int)
      modifies this`bieres, this`commandes, this`lignes, this`bars
      ensures Snapshot() == Database.DeleteBar(old(Snapshot()), id)
    {
      DestroyEachBiere(BeersOf(bieres, id));
      assert Snapshot() == DeleteBarBeers(old(Snapshot()), id);
      ghost var afterBeers := Snapshot();
      DestroyEachCommande(OrdersOf(commandes, id));
      assert Snapshot() == DeleteBarOrders(afterBeers, id);
      bars := bars - {id};
    }

    /** `Biere.destroy({ where: { bars_id }, individualHooks: true })`: each of the
        bar's beers in turn, with its own hook. */
    method DestroyEachBiere(ids: seq<int>)
      modifies this`bieres, this`lignes
      ensures Snapshot() == DeleteEachBiere(old(Snapshot()), ids)
    {
      var i := 0;
      while i < |ids|
        invariant 0 <= i <= |ids|
        invariant Snapshot() == DeleteEachBiere(old(Snapshot()), ids[..i])
      {
        assert ids[..i + 1][..i] == ids[..i];
        DestroyBiere(ids[i]);
        i := i + 1;
      }
      assert ids[..i] == ids;
    }

    /** `Commande.destroy({ where: { bars_id }, individualHooks: true })`. */
    method DestroyEachCommande(ids: seq<int>)
      modifies this`commandes, this`lignes
      ensures Snapshot() == DeleteEachCommande(old(Snapshot()), ids)
    {
      var j := 0;
      while j < |ids|
        invariant 0 <= j <= |ids|
        invariant Snapshot() == DeleteEachCommande(old(Snapshot()), ids[..j])
      {
        assert ids[..j + 1][..j] == ids[..j];
        DestroyCommande(ids[j]);
        j := j + 1;
      }
      assert ids[..j] == ids;
    }

    /** `getAllBars`: every stored bar, in table order. */
    method GetAllBars() returns (r: seq<Tables.Row<Bar>>)
      ensures forall x :: x in r <==> x.id in bars && bars[x.id] == x.val
      ensures Tables.Increasing(r)
    {
      r := Tables.Rows(bars);
      Tables.SelectRowsExact(bars, (x: Tables.Row<Bar>) => true);
      Tables.SelectAll(r);
    }

    /** `getBarById`. */
    method GetBarById(id: int) returns (r: Result<Bar>)
      ensures r.NotFound? <==> id !in bars
      ensures r.Ok? ==> r.value == bars[id]
      ensures !r.Rejected?
    {
      if id !in bars {
        return NotFound;
      }
      r := Ok(bars[id]);
    }

    // -------------------------------------------------------------------------
    // Beers

    /** `addBiereToBar`: the new beer belongs to the route's bar. */
    method AddBiereToBar(barId: int, input: BiereInput) returns (r: Result<int>)
      requires Valid()
      modifies this`bieres, this`nextBiereId
      ensures Valid()
      ensures barId !in bars ==> r == NotFound
      ensures barId in bars && BuildBiere(input, barId).Rejected? ==> r == Rejected(InvalidField)
      ensures barId in bars && BuildBiere(input, barId).Ok? ==>
        && r == Ok(old(nextBiereId))
        && bieres == old(bieres)[old(nextBiereId) := BuildBiere(input, barId).value]
        && bieres[r.value].barsId == barId
        && nextBiereId == old(nextBiereId) + 1
      ensures !r.Ok? ==> bieres == old(bieres) && nextBiereId == old(nextBiereId)
    {
      if barId !in bars {
        return NotFound;
      }
      var built := BuildBiere(input, barId);
      if built.Rejected? {
        return Rejected(InvalidField);
      }
      bieres := bieres[nextBiereId := built.value];
      r := Ok(nextBiereId);
      nextBiereId := nextBiereId + 1;
    }

    /** `updateBiere`: only a truthy name reaches the row. */
    method UpdateBiere(id: int, u: BiereUpdate) returns (r: Result<Biere>)
      requires Valid()
      modifies this`bieres
      ensures Valid()
      ensures id !in old(bieres) ==> r == NotFound && bieres == old(bieres)
      ensures id in old(bieres) ==>
        r == Ok(UpdateBiereRow(old(bieres)[id], u)) && bieres == old(bieres)[id := r.value]
    {
      if id !in bieres {
        return NotFound;
      }
      var b := UpdateBiereRow(bieres[id], u);
      bieres := bieres[id := b];
      r := Ok(b);
    }

    /** The beer's `beforeDestroy` hook and then its row. */
    method DestroyBiere(id: int)
      modifies this`bieres, this`lignes
      ensures Snapshot() == Database.DeleteBiere(old(Snapshot()), id)
    {
      lignes := map l | l in lignes && l.biereId != id :: lignes[l];
      bieres := bieres - {id};
    }

    /** `deleteBiere`. */
    method DeleteBiere(id: int) returns (r: Result<()>)
      requires Valid()
      modifies this`bieres, this`lignes
      ensures Valid()
      ensures id !in old(bieres) ==> r == NotFound && Snapshot() == old(Snapshot())
      ensures id in old(bieres) ==> r == Ok(()) && Snapshot() == Database.DeleteBiere(old(Snapshot()), id)
    {
      if id !in bieres {
        return NotFound;
      }
      DeleteBiereKeepsIntegrity(Snapshot(), id);
      DestroyBiere(id);
      r := Ok(());
    }

    /** `getBiereById`. */
    method GetBiereById(id: int) returns (r: Result<Biere>)
      ensures r.NotFound? <==> id !in bieres
      ensures r.Ok? ==> r.value == bieres[id]
      ensures !r.Rejected?
    {
      if id !in bieres {
        return NotFound;
      }
      r := Ok(bieres[id]);
    }

    /** `getBiereListByBar`: NotFound for a missing bar; otherwise the bar's beers that
        pass the range filters, ordered by name, then paged. */
    method GetBiereListByBar(barId: int, p: BiereQuery.ListParams) returns (r: Result<seq<Tables.Row<Biere>>>)
      ensures r.NotFound? <==> barId !in bars
      ensures !r.Rejected?
      ensures r.Ok? ==> r.value == BiereQuery.Find(bieres, BiereQuery.BuildQuery(barId, p))
      ensures r.Ok? ==> forall i :: 0 <= i < |r.value| ==>
        r.value[i].id in bieres && bieres[r.value[i].id] == r.value[i].val && r.value[i].val.barsId == barId
      ensures r.Ok? ==> BiereQuery.SortedBy(r.value, BiereQuery.DirectionOf(p.sort))
      ensures r.Ok? && p.limit.Some? ==> |r.value| <= p.limit.value
    {
      if barId !in bars {
        return NotFound;
      }
      var q := BiereQuery.BuildQuery(barId, p);
      BiereQuery.FindSound(bieres, q);
      BiereQuery.FindSorted(bieres, q);
      r := Ok(BiereQuery.Find(bieres, q));
    }

    // -------------------------------------------------------------------------
    // Orders

    /** `createCommandeForBar` at instant `now`. */
    method CreateCommandeForBar(barId: int, input: CommandeInput, now: int) returns (r: Result<int>)
      requires Valid()
      modifies this`commandes, this`nextCommandeId
      ensures Valid()
      ensures barId !in bars ==> r == NotFound
      ensures barId in bars && BuildCommande(input, barId, now).Rejected? ==> r == Rejected(InvalidField)
      ensures barId in bars && BuildCommande(input, barId, now).Ok? ==>
        && r == Ok(old(nextCommandeId))
        && commandes == old(commandes)[old(nextCommandeId) := BuildCommande(input, barId, now).value]
        && nextCommandeId == old(nextCommandeId) + 1
      ensures !r.Ok? ==> commandes == old(commandes) && nextCommandeId == old(nextCommandeId)
    {
      if barId !in bars {
        return NotFound;
      }
      var built := BuildCommande(input, barId, now);
      if built.Rejected? {
        return Rejected(InvalidField);
      }
      commandes := commandes[nextCommandeId := built.value];
      r := Ok(nextCommandeId);
      nextCommandeId := nextCommandeId + 1;
    }

    /** `updateCommande` at instant `now`: the row changes exactly when the update
        succeeds, and then becomes the merged order. */
    method UpdateCommande(id: int, p: OrderUpdate.CommandePatch, now: int) returns (r: Result<Commande>)
      requires Valid()
      modifies this`commandes
      ensures Valid()
      ensures r == OrderUpdate.Update(old(commandes), id, p, now)
      ensures r.Ok? ==> commandes == old(commandes)[id := r.value]
      ensures !r.Ok? ==> commandes == old(commandes)
    {
      r := OrderUpdate.Update(commandes, id, p, now);
      if r.Ok? {
        OrderUpdate.UpdateKeepsRowValid(commandes, id, p, now);
        commandes := commandes[id := r.value];
      }
    }

    /** The order's `beforeDestroy` hook (its own row) with the join table's cascade. */
    method DestroyCommande(id: int)
      modifies this`commandes, this`lignes
      ensures Snapshot() == Database.DeleteCommande(old(Snapshot()), id)
    {
      lignes := map l | l in lignes && l.commandeId != id :: lignes[l];
      commandes := commandes - {id};
    }

    /** `deleteCommande`. */
    method DeleteCommande(id: int) returns (r: Result<()>)
      requires Valid()
      modifies this`commandes, this`lignes
      ensures Valid()
      ensures id !in old(commandes) ==> r == NotFound && Snapshot() == old(Snapshot())
      ensures id in old(commandes) ==> r == Ok(()) && Snapshot() == Database.DeleteCommande(old(Snapshot()), id)
    {
      if id !in commandes {
        return NotFound;
      }
      DeleteCommandeKeepsIntegrity(Snapshot(), id);
      DestroyCommande(id);
      r := Ok(());
    }

    /** `getCommandesByBar`: exactly the orders of the bar. */
    method GetCommandesByBar(barId: int) returns (r: Result<seq<Tables.Row<Commande>>>)
      ensures r.NotFound? <==> barId !in bars
      ensures !r.Rejected?
      ensures r.Ok? ==> forall x :: x in r.value <==>
        x.id in commandes && commandes[x.id] == x.val && x.val.barsId == barId
      ensures r.Ok? ==> Tables.Increasing(r.value)
    {
      if barId !in bars {
        return NotFound;
      }
      var p := (x: Tables.Row<Commande>) => x.val.barsId == barId;
      Tables.SelectRowsExact(commandes, p);
      r := Ok(Tables.Select(Tables.Rows(commandes), p));
    }

    /** `getCommandeById`. */
    method GetCommandeById(id: int) returns (r: Result<Commande>)
      ensures r.NotFound? <==> id !in commandes
      ensures r.Ok? ==> r.value == commandes[id]
      ensures !r.Rejected?
    {
      if id !in commandes {
        return NotFound;
      }
      r := Ok(commandes[id]);
    }

    // -------------------------------------------------------------------------
    // Lines of an order

    /** `getBieresFromCommande`: NotFound for a missing order, otherwise its beers with
        their quantities (an empty list when it has none). */
    method GetBieresFromCommande(commandeId: int) returns (r: Result<seq<OrderLine>>)
      ensures r.NotFound? <==> commandeId !in commandes
      ensures !r.Rejected?
      ensures r.Ok? ==> forall x :: x in r.value <==>
        && x.biereId in bieres && bieres[x.biereId] == x.biere
        && LineKey(x.biereId, commandeId) in lignes
        && lignes[LineKey(x.biereId, commandeId)] == x.quantity
    {
      if commandeId !in commandes {
        return NotFound;
      }
      BeersOfOrderExact(Snapshot(), commandeId);
      r := Ok(BeersOfOrder(Snapshot(), commandeId));
    }

    /** `addBiereToCommande`: the order is checked first, then the beer; the composite
        key refuses a second line for the same pair. */
    method AddBiereToCommande(commandeId: int, biereId: int, quantity: Option<int>) returns (r: Result<LineKey>)
      requires Valid()
      modifies this`lignes
      ensures Valid()
      ensures commandeId !in commandes ==> r == NotFound
      ensures commandeId in commandes && biereId !in bieres ==> r == NotFound
      ensures commandeId in commandes && biereId in bieres ==>
        if LineKey(biereId, commandeId) in old(lignes) then r == Rejected(DuplicateKey)
        else r == Ok(LineKey(biereId, commandeId))
             && lignes == old(lignes)[LineKey(biereId, commandeId) := QuantityOrDefault(quantity)]
      ensures !r.Ok? ==> lignes == old(lignes)
    {
      if commandeId !in commandes {
        return NotFound;
      }
      if biereId !in bieres {
        return NotFound;
      }
      var key := LineKey(biereId, commandeId);
      if key in lignes {
        return Rejected(DuplicateKey);
      }
      lignes := lignes[key := QuantityOrDefault(quantity)];
      r := Ok(key);
    }

    /** `deleteBiereFromCommande`: exactly that line goes. */
    method DeleteBiereFromCommande(commandeId: int, biereId: int) returns (r: Result<()>)
      requires Valid()
      modifies this`lignes
      ensures Valid()
      ensures LineKey(biereId, commandeId) !in old(lignes) ==> r == NotFound && lignes == old(lignes)
      ensures LineKey(biereId, commandeId) in old(lignes) ==>
        r == Ok(()) && lignes == old(lignes) - {LineKey(biereId, commandeId)}
    {
      var key := LineKey(biereId, commandeId);
      if key !in lignes {
        return NotFound;
      }
      lignes := lignes - {key};
      r := Ok(());
    }
  }

  /** A new store holding one bar (id 1) and nothing else. */
  method WithBar() returns (store: Store)
    ensures fresh(store) && store.Valid()
    ensures 1 in store.bars
    ensures store.bieres == map[] && store.commandes == map[] && store.lignes == map[]
    ensures store.nextBiereId == 1 && store.nextCommandeId == 1
  {
    store := new Store();
    var bar := store.CreateBar(map["name" := "Joe's", "adresse" := "1 Main St", "email" := "joe@x.com"]);
    assert bar == Ok(1);
  }

  /** A new store holding one bar (id 1) with one beer (id 1) and one open order
      (id 1) and no line yet; `today` is the instant of every request. */
  method Opened(today: int) returns (store: Store)
    ensures fresh(store) && store.Valid()
    ensures 1 in store.bars && 1 in store.bieres && 1 in store.commandes
    ensures store.bieres[1].barsId == 1 && store.commandes[1].barsId == 1
    ensures store.commandes[1].name == "Order-A" && store.commandes[1].status == EnCours
    ensures store.lignes == map[]
  {
    store := WithBar();
    var beer := store.AddBiereToBar(1, BiereInput(Some("IPA"), None, Some(6.0), Some(5.0)));
    assert beer == Ok(1);
    var order := store.CreateCommandeForBar(1, CommandeInput(Some("Order-A"), Some(5.0), Some(today), Some(EnCours)), today);
    assert order == Ok(1);
  }

  /** The beer and the order are linked by a line of two units; a second link of the
      same pair is refused by the composite key and changes nothing. */
  method LinkScenario(today: int)
  {
    var store := Opened(today);
    var line := store.AddBiereToCommande(1, 1, Some(2));
    assert line == Ok(LineKey(1, 1)) && store.lignes == map[LineKey(1, 1) := 2];
    var twice := store.AddBiereToCommande(1, 1, None);
    assert twice == Rejected(DuplicateKey) && store.lignes == map[LineKey(1, 1) := 2];
  }

  /** An order is completed, and a later change to it is refused and changes nothing. */
  method CompletionScenario(today: int)
  {
    var store := Opened(today);
    var done := store.UpdateCommande(1, OrderUpdate.CommandePatch(None, None, None, Some(Terminee)), today);
    assert done.Ok? && store.commandes[1].status == Terminee;
    var again := store.UpdateCommande(1, OrderUpdate.CommandePatch(Some("x"), None, None, None), today);
    assert again == Rejected(OrderCompleted);
    assert store.commandes[1].name == "Order-A";
  }

  /** Deleting a bar takes its beer, its order and the line between them along. */
  method DeletionScenario(today: int)
  {
    var store := Opened(today);
    var line := store.AddBiereToCommande(1, 1, None);
    ghost var before := store.Snapshot();
    var gone := store.DeleteBar(1);
    assert gone == Ok(());
    DeleteBarEffect(before, 1);
    assert 1 !in store.bieres && 1 !in store.commandes && LineKey(1, 1) !in store.lignes;
  }
}
