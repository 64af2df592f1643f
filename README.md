# Bars, beers and orders: a verified model of the rule layer

The repository is a CRUD backend for bars, their beers (`Biere`), their orders
(`Commande`) and the lines that put a quantity of a beer in an order (`BiereCommande`).
This project models what its data layer and controllers do to those four tables:

- the columns, the NOT NULL, UNIQUE and range constraints and the foreign keys;
- the `beforeDestroy` cascades: bar to beers, then orders, then the bar row; beer to its lines;
  order to its own row, with its lines removed by the join table's cascade;
- the completed-order guard of `beforeUpdate` and of `updateCommande`, and the merge of
  the supplied fields;
- the composite key of the join table and its default quantity;
- the beer list query: range filters, name order, offset and limit;
- the request validators of the middleware, as predicates over the request.

## Modules

- `Common` holds `Option`, `Result` (`Ok` / `NotFound` / `Rejected(reason)`) and JavaScript truthiness.
- `Tables` reads a map as rows in ascending id order and selects rows in that order.
- `BarModel`, `BiereModel`, `CommandeModel` and `BiereCommandeModel` hold one table each.
- `OrderUpdate` is the update of an order.
- `Database` is the four tables as one value (`Db`): integrity, and each cascade as a
  function with lemmas about its effect.
- `BiereQuery` is the beer list.
- `Forms` holds the validators.
- `BarsController` holds the attribute objects that `createBar` and `updateBar` build.
- `Store` is a class that holds the four tables and the autoincrement counters.
  - Its methods are the controller actions.
  - Every writing method keeps `Valid()`: integrity, constraints, and ids below the counters.
  - Every writing method states its new state through the `Database`, `OrderUpdate` and
    model functions.

## Model

| member | source | states |
|---|---|---|
| `Tables.Rows` | controllers/barsController.js:121 | a table scan yields every row of the map, each with its stored value, in strictly increasing id order, with exactly the table's ids |
| `Tables.Select` | controllers/commandeController.js:162 | a `where` read keeps exactly the rows that satisfy the predicate, keeps their order and never lengthens the result |
| `Tables.SelectRowsExact` | controllers/commandeController.js:162 | a selection over a whole table contains a row exactly when the table stores that value under that id and the row satisfies the predicate |
| `BarModel.Put` | controllers/barsController.js:27-31 | an `undefined` property adds no attribute; a supplied one is set; every other key keeps its presence and its value |
| `BarModel.BuildBar` | backend/models/bars.js:12-41 | `Bars.create` succeeds exactly when name, addresse and email have values; the row carries them, with tel and userId empty; otherwise InvalidField |
| `BarModel.NonColumnsIgnored` | backend/models/bars.js:6-41 | an attribute that is not a text column never changes the row built |
| `BarModel.SetColumn` | controllers/barsController.js:64-66 | assigning a non-column property leaves the stored bar unchanged; assigning name or addresse changes only that column |
| `BarModel.StoreKeepsUnique` | backend/models/bars.js:12-29 | storing a bar keeps name and email unique exactly when its values clash with no other bar |
| `BiereModel.BuildBiere` | models/biere.js:7-32 | `Biere.create` succeeds exactly when name, degree and prix are given and prix >= 0; the row carries the given fields and the route's bar |
| `BiereModel.UpdateBiereRowFields` | backend/controllers/biereController.js:74-76 | a truthy name replaces the stored one, a falsy one keeps the row; style and alcoholContent never reach the row; no other column changes |
| `CommandeModel.RecentPastDateRefusedAsWritten` | backend/models/commande.js:29-35 | a past date later than the module's load instant is refused by the validator as written and accepted by the intended one |
| `CommandeModel.BuildCommande` | backend/models/commande.js:11-42 | create succeeds exactly when all four fields are given, prix >= 0, the date is not after now and the status is one of the three; the row carries the fields and the bar |
| `CommandeModel.CreateRefusals` | backend/models/commande.js:11-42 | a missing name, a negative prix, an unknown status or a future date is refused |
| `CommandeModel.BeforeUpdate` | backend/models/commande.js:45-49 | the hook throws exactly when the previously stored status is 'terminée', and otherwise lets the new row through unchanged |
| `CommandeModel.GuardReadsOnlyPreviousStatus` | backend/models/commande.js:45-49 | every write to a completed order is refused; an open order may move into 'terminée' |
| `BiereCommandeModel.QuantityOrDefault` | backend/models/biere_commande.js:23-26 | an absent quantity becomes 1, a given one is kept |
| `OrderUpdate.MergeFields` | controllers/commandeController.js:91-94 | each supplied field replaces the stored one and each absent one keeps it; the bar never changes; an empty patch is the identity; merging twice is merging once |
| `OrderUpdate.UpdateMissing` | controllers/commandeController.js:80-83 | an unknown order gives NotFound |
| `OrderUpdate.CompletedOrderIsFrozen` | controllers/commandeController.js:85-88 | a stored 'terminée' order refuses every patch at every instant |
| `OrderUpdate.OpenOrderUpdates` | controllers/commandeController.js:85-96 | an open order accepts exactly the patches whose changed fields pass the validators; the result is the merge; otherwise InvalidField |
| `OrderUpdate.UpdateKeepsRowValid` | controllers/commandeController.js:91-96 | an accepted update leaves a row within the validators and with its bar |
| `OrderUpdate.CompletionIsFinal` | backend/models/commande.js:45-49 | after an update has stored 'terminée', every later update of that order is refused |
| `OrderUpdate.ControllerGuardSubsumesHook` | controllers/commandeController.js:85-88 | whenever the model's hook would refuse, the controller has already refused with OrderCompleted |
| `Database.DeleteBiereEffect` | models/biere.js:35-37 | after a beer is destroyed no line names it; all other lines, beers, bars and orders are intact |
| `Database.DeleteBiereKeepsIntegrity` | models/biere.js:26-37 | destroying a beer keeps every foreign key and constraint |
| `Database.DeleteCommandeEffect` | backend/models/commande.js:50-52 | only the order with that id leaves its table, no line names it afterwards, the other lines and tables are intact |
| `Database.DeleteCommandeKeepsIntegrity` | backend/models/commande.js:50-52 | destroying an order keeps every foreign key and constraint |
| `Database.BeersOfOrderExact` | backend/controllers/biere_commandeController.js:37-51 | an order's listing holds exactly the beers joined to it, each with its stored value and the quantity of its own line |
| `Database.BeersOfOrderEmpty` | backend/controllers/biere_commandeController.js:47-49 | an order without lines lists the empty sequence |
| `Database.BeersOfExact` | backend/models/bars.js:45 | the ids the bar's beer stage visits are exactly the beers whose bars_id is the bar |
| `Database.OrdersOfExact` | backend/models/bars.js:46 | the ids the bar's order stage visits are exactly the orders whose bars_id is the bar |
| `Database.DeleteEachBiereEffect` | backend/models/bars.js:45 | running the beer hook on each id of a list removes exactly those beers and exactly their lines, and leaves everything else intact |
| `Database.DeleteEachCommandeEffect` | backend/models/bars.js:46 | running the order hook on each id of a list removes exactly those orders and exactly their lines, and leaves everything else intact |
| `Database.DeleteBarRows` | backend/models/bars.js:44-47 | after a bar is destroyed, the bar is gone and exactly the beers and orders that referred to it are gone; all other rows are intact |
| `Database.DeleteBarLines` | backend/models/bars.js:44-47 | after a bar is destroyed, exactly the lines of its beers and of its orders are gone; the others keep their quantity |
| `Database.DeleteBarEffect` | backend/models/bars.js:44-47 | both of the above, for every table |
| `Database.DeleteBarShrinks` | backend/models/bars.js:44-47 | the bar cascade only removes rows |
| `Database.DeleteOnlyBar` | backend/models/bars.js:44-47 | with integrity, destroying the only bar empties all four tables |
| `Database.DeleteBarLeavesNoChildren` | backend/models/bars.js:45-46 | no beer and no order refers to a destroyed bar |
| `Database.DeleteBarStages` | backend/models/bars.js:44-47 | children go first: after the beer stage the bar and its orders still exist, no beer refers to the bar, and only lines of surviving beers remain; the bar is still there after the order stage |
| `Database.DeleteBarKeepsIntegrity` | backend/models/bars.js:44-47 | the bar cascade keeps every foreign key, the uniqueness of names and emails and the row validators |
| `BiereQuery.BuildBound` | backend/controllers/biereController.js:158-164 | the bound built from an optional minimum and maximum admits a value exactly when it is no less than the minimum and no more than the maximum that are present |
| `BiereQuery.BoundShapes` | backend/controllers/biereController.js:158-173 | both bounds give an inclusive BETWEEN, only a minimum `>=`, only a maximum `<=`, neither no constraint |
| `BiereQuery.LowerAscii` | backend/controllers/biereController.js:176 | lower-casing keeps the length and maps each ASCII capital to its small letter, any other character to itself |
| `BiereQuery.DescSpelling` | backend/controllers/biereController.js:176 | a string lower-cases to "desc" exactly when it is those four letters, each in either case |
| `BiereQuery.DirectionCases` | backend/controllers/biereController.js:176 | the order is descending exactly for "desc" in any mix of cases; absent, empty or any other value sorts ascending |
| `BiereQuery.MatchesParams` | backend/controllers/biereController.js:155-173 | the where clause holds exactly for a beer of the route's bar that satisfies every bound present in the parameters |
| `BiereQuery.Insert` | backend/controllers/biereController.js:176 | inserting a row adds exactly that row to the multiset of rows |
| `BiereQuery.InsertSorted` | backend/controllers/biereController.js:176 | inserting into a name-sorted sequence keeps it sorted |
| `BiereQuery.Sort` | backend/controllers/biereController.js:176 | the result is a permutation of its input, sorted by name in the requested direction |
| `BiereQuery.Page` | backend/controllers/biereController.js:180-185 | the page is the contiguous run that starts after `offset` rows (or at the start) and holds `limit` rows, or all that remain when fewer remain or no limit is given |
| `BiereQuery.FindSound` | backend/controllers/biereController.js:149-188 | every listed beer is a stored beer of the route's bar that satisfies the degree and price filters |
| `BiereQuery.FindSorted` | backend/controllers/biereController.js:176-188 | the listed beers come out in name order, descending when requested |
| `BiereQuery.FindComplete` | backend/controllers/biereController.js:155-188 | without limit and offset every matching beer is listed, exactly once |
| `BiereQuery.FindBounded` | backend/controllers/biereController.js:180-182 | a limit bounds the number of listed beers |
| `Forms.IntStringRoundTrip` | middleware/form.js:25-28 | every integer written in decimal passes `isInt` and reads back as itself |
| `Forms.LeadingZeroIgnored` | middleware/form.js:37-38 | `isInt` accepts a leading zero, and the zero does not change the value |
| `Forms.ValidBiereIsStorable` | middleware/form.js:11-16 | a body that passes `validateBiere` is accepted by the Biere table, with a non-empty name and a non-negative degree |
| `Forms.ValidCommandeIsStorable` | middleware/form.js:18-23 | a body that passes `validateCommande` is accepted by the Commande table exactly when its date is not in the future |
| `Forms.LineRoutesFailAsWritten` | middleware/form.js:25-28 | on a route without an `id` parameter the validator as written refuses every request |
| `Forms.LineRoutesPassCorrected` | middleware/form.js:25-28 | the intended validator accepts integer `id_commande` and `id_biere` parameters, which read back as those integers |
| `Forms.OptionalInt` | middleware/form.js:37-38 | a present limit or offset that passed `isInt({ min })` reads as a value no less than the minimum; an absent one stays absent |
| `Forms.OptionalFloat` | middleware/form.js:32-35 | a present bound that passed `isFloat({ min: 0 })` reads as a non-negative value; an absent one stays absent |
| `Forms.ListParamsOf` | middleware/form.js:30-39 | a validated query gives list parameters whose present bounds are non-negative and whose present limit is at least 1 |
| `Forms.ValidatedSortDirection` | middleware/form.js:36 | after validation, the list sorts descending exactly when `sort` is "desc" |
| `Forms.SortCaseStricterThanController` | middleware/form.js:36 | "DESC" is refused by the validator although the list controller would sort descending for it |
| `BarsController.CreateAsWrittenAlwaysRejected` | controllers/barsController.js:24-31 | as written, every `createBar` is refused: the NOT NULL column addresse never gets a value |
| `BarsController.CreateStoresFields` | controllers/barsController.js:24-31 | with the address passed as addresse, a bar is created exactly when name, adresse and email are in the body, and stores those three values |
| `BarsController.ValidBarBodyIsStorable` | middleware/form.js:3-9 | a body that passes `validateBar` yields a bar with a non-empty name and address and a valid email under the intended create, and is refused by the create as written |
| `BarsController.UpdateAsWrittenLosesAddress` | controllers/barsController.js:64-66 | as written, `updateBar` changes at most the name; a supplied address is lost |
| `BarsController.UpdateRowFields` | controllers/barsController.js:64-66 | in the intended update a truthy name or address replaces the stored one, a falsy or absent one keeps it, no other column changes |
| `Store.DeleteBarConsistent` | backend/models/bars.js:44-47 | the bar cascade keeps the store's invariant |
| `Store.Store.constructor` | backend/models/bars.js:6-11 | the store starts with four empty tables and every counter at 1 |
| `Store.Store.CreateBar` | controllers/barsController.js:22-44 | a bar missing a required field is refused; a duplicate name or email is refused; otherwise the bar is stored under the next id; a refusal changes nothing |
| `Store.Store.UpdateBar` | controllers/barsController.js:58-68 | an unknown bar gives NotFound; otherwise the intended update is stored unless it clashes with another bar's name or email |
| `Store.Store.DeleteBar` | controllers/barsController.js:94-99 | an unknown bar gives NotFound and changes nothing; otherwise the store becomes the bar cascade of its old state |
| `Store.Store.DestroyBar` | backend/models/bars.js:44-47 | the three stages in order (beer hooks, order hooks, bar row) give the bar cascade |
| `Store.Store.DestroyEachBiere` | backend/models/bars.js:45 | the loop over the bar's beers runs the beer hook on each in turn |
| `Store.Store.DestroyEachCommande` | backend/models/bars.js:46 | the loop over the bar's orders runs the order hook on each in turn |
| `Store.Store.GetAllBars` | controllers/barsController.js:121 | the answer holds exactly the stored bars, in id order |
| `Store.Store.GetBarById` | controllers/barsController.js:143-146 | NotFound exactly for an unknown id, otherwise the stored bar |
| `Store.Store.AddBiereToBar` | backend/controllers/biereController.js:29-41 | an unknown bar gives NotFound; invalid fields are refused; otherwise a beer of that bar is stored under the next id |
| `Store.Store.UpdateBiere` | backend/controllers/biereController.js:68-78 | an unknown beer gives NotFound; otherwise only a truthy name changes the row |
| `Store.Store.DestroyBiere` | models/biere.js:35-37 | the beer's lines go, then its row |
| `Store.Store.DeleteBiere` | backend/controllers/biereController.js:104-109 | an unknown beer gives NotFound and changes nothing; otherwise the beer and its lines go |
| `Store.Store.GetBiereById` | backend/controllers/biereController.js:212-215 | NotFound exactly for an unknown id, otherwise the stored beer |
| `Store.Store.GetBiereListByBar` | backend/controllers/biereController.js:149-188 | NotFound exactly for an unknown bar; otherwise stored beers of that bar, in name order and no more than the limit |
| `Store.Store.CreateCommandeForBar` | controllers/commandeController.js:36-49 | an unknown bar gives NotFound; invalid fields are refused; otherwise the order is stored for that bar under the next id |
| `Store.Store.UpdateCommande` | controllers/commandeController.js:80-96 | the outcome is the guarded merge; the table changes exactly when it is Ok, and then holds the merged order |
| `Store.Store.DestroyCommande` | backend/models/commande.js:50-52 | the order's row goes, and with it its lines |
| `Store.Store.DeleteCommande` | controllers/commandeController.js:126-133 | an unknown order gives NotFound and changes nothing; otherwise the order and its lines go |
| `Store.Store.GetCommandesByBar` | controllers/commandeController.js:155-164 | NotFound exactly for an unknown bar; otherwise exactly the orders of that bar, in id order |
| `Store.Store.GetCommandeById` | controllers/commandeController.js:187-190 | NotFound exactly for an unknown id, otherwise the stored order |
| `Store.Store.GetBieresFromCommande` | backend/controllers/biere_commandeController.js:31-51 | NotFound exactly for an unknown order; otherwise exactly its joined beers with their quantities |
| `Store.Store.AddBiereToCommande` | backend/controllers/biere_commandeController.js:73-93 | the order is checked first, then the beer; an existing pair is refused by the composite key; otherwise the line is stored with the given quantity or 1 |
| `Store.Store.DeleteBiereFromCommande` | backend/controllers/biere_commandeController.js:121-133 | a missing line gives NotFound and changes nothing; otherwise exactly that line goes |

The module-level methods `Store.LinkScenario`, `Store.CompletionScenario` and
`Store.DeletionScenario` walk through one bar, one beer and one order. They link the two
and show that a second link is refused. They complete the order and show that a later
change is refused. They delete the bar and show that the beer, the order and the line go
with it.

### Behaviour worth noting

- `addBiereToCommande` calls `BiereCommande.create` (backend/controllers/biere_commandeController.js:89-93).
  When the pair already has a line, the composite key refuses the insert, so the model
  gives `Rejected(DuplicateKey)` and leaves the existing line as it was.
- Deleting an order also removes its lines, as the comment at
  controllers/commandeController.js:115 says. The order hook itself deletes only its own
  row (backend/models/commande.js:50-52). The lines go through the cascade of the join
  table's foreign key, which the association declares (models/models.js:12-13).
- Nothing in the code bounds a line's quantity, so the model accepts any integer.

## Left out

- HTTP routing, the mapping of result kinds to status codes, JSON response shapes and
  logging.
- Authentication and users: JWT checks, password hashing and the User table.
  - The User table's `beforeDestroy` is empty, so it has no cascade to model.
- Routes to controllers that are not in the repository (bar search, average degree, order PDF).
- The earlier, superseded variants: controllers/biereController.js, models/commande.js,
  models/bars.js, and the root routers.
- `Store.Store.UpdateBar`, `Store.Store.DeleteBar`, `Store.Store.GetAllBars`,
  `Store.Store.GetBarById`, `Store.Store.CreateCommandeForBar` and
  `Store.Store.GetCommandesByBar` model the path the code evidently intends, not a failure.
  - As written, controllers/barsController.js:14 and controllers/commandeController.js:21
    take `Bars` from models/models.js, which exports `Bar` (models/models.js:15-20). So
    every `Bars.` call there throws a TypeError, on every request; the model reads
    `Bars` as the Bars table.
  - The same file wires in the root models (models/bars.js without the cascade hook,
    models/commande.js without hooks or a date check and with two statuses). The model
    pairs the root controllers with backend/models/bars.js and backend/models/commande.js
    instead.
- `parseFloat` and `parseInt` are not modelled: query values reach the list already parsed.
  - `NaN` and IEEE floating point are not modelled; degrees and prices are reals.
- The validator library's e-mail, ISO 8601 and decimal parsing are parameters (`Forms.Library`).
  - The clock is a parameter too (`now`).
- ORM mechanics: SQL generation, transactions and atomicity of a cascade, concurrent
  requests, and the SQLite configuration.
- Exceptions thrown by the database for other reasons (I/O, a lost connection); an
  `Ok` result is the success path.
- `Store.Store.GetBieresFromCommande`, `Store.Store.GetCommandesByBar` and
  `Store.Store.GetAllBars` return rows in id order; the database guarantees no order there.
- `BiereQuery.FindSorted`: beers with equal names keep their id order; SQL leaves their
  order unspecified, so the model fixes one.
- `BiereQuery.FindComplete` is stated for a query without limit and offset.
  - A paged query is covered by `BiereQuery.Page`, which gives the slice of the sorted
    matches.
- String order is by code point, as a binary collation would give; locale collation is
  not modelled.
- The order list reads take no filter parameters: `getCommandesByBar` selects on the bar
  id alone (controllers/commandeController.js:151-164), and the model does the same.
- `BiereQuery.ListParams`: `limit` and `offset` are `Option<nat>`. The code passes
  `parseInt` of the query straight to `findAll` (backend/controllers/biereController.js:180-185),
  and no route attaches `validateQueryParams`, so a
  negative or non-numeric value can reach the database; the model cannot express one.
- Bar request bodies (`BarsController.Body`) hold JSON strings only. A number or a
  boolean such as `0` or `false` is falsy for `||` in the code, but the model has no such
  value; its `Truthy` is non-emptiness of a string.
- `OrderUpdate.Merge`: a patch field is an `Option`, so JSON `null` cannot be expressed.
  The code would assign a `null` (it tests only `!== undefined`,
  controllers/commandeController.js:91-94), and the NOT NULL
  constraint would then refuse the save; the model has no such path.
- No route attaches the validators; backend/router/commandeRouter.js:4 imports
  `validateCommande` and never uses it.
  - The model relates the validators to the tables through lemmas, not through a request
    pipeline.

## Findings

| source | as written | input that shows it | evidently intended | confidence | as-written member | corrected member |
|---|---|---|---|---|---|---|
| controllers/barsController.js:24-31 | `createBar` passes `address`, but the NOT NULL column is `addresse`, so every create fails; before that, controllers/barsController.js:14 takes `Bars` from models/models.js, which exports `Bar` (models/models.js:15-20), so `Bars.create` throws a TypeError, and the model looks past that to the attributes | body `{name: "Joe's", address: "1 Main St", email: "joe@x.com"}` | store the address in `addresse`, read from the `adresse` property that `validateBar` checks | high, not executed | `BarsController.CreateAsWrittenAlwaysRejected` | `BarsController.CreateStoresFields` |
| controllers/barsController.js:64-66 | `updateBar` assigns `address` and `city`, which are no columns, so only the name is saved | body `{adresse: "2 High St"}` on an existing bar; `updateBar` reads `address` (controllers/barsController.js:55), so the supplied address is never seen | write an address supplied under `adresse` to the `addresse` column; `adresse` is the key that `validateBar` checks (middleware/form.js:5) and that __tests__/bars.test.js sends | high, not executed | `BarsController.UpdateAsWrittenLosesAddress` | `BarsController.UpdateRowFields` |
| backend/models/commande.js:29-35 | the date bound `isBefore: new Date()` is computed once, when the module loads | an order dated one hour ago, on a server that started two hours ago, is refused | compare the date with the time of the request; the corrected rule also accepts a date equal to that time (not strictly before), since the comment at controllers/commandeController.js:18 only forbids a date later than today | medium, not executed | `CommandeModel.RecentPastDateRefusedAsWritten` | `CommandeModel.BuildCommande` |
| middleware/form.js:25-28 | `validateBiereCommande` checks a parameter `id`, but the line routes name it `id_commande` | params `{id_commande: "1", id_biere: "1"}` | check `id_commande` and `id_biere` | medium (the validator is not attached to those routes), not executed | `Forms.LineRoutesFailAsWritten` | `Forms.LineRoutesPassCorrected` |
