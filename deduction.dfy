/** One deduction request as a whole (lines 12-145 of the endpoint): input check, requirement
    aggregation, the guarded decrements, FIFO consumption per material, and commit or
    rollback. `Transaction` states the outcome as a function of the state before the request. */
module Deduction {
  import opened Journal
  import opened Fifo
  import opened Ledger
  import opened Recipes

  /** The decoded request payload. */
  datatype Request = Request(menuId: int, quantity: real, addonIds: seq<int>, userId: int)

  /** The recipe tables the requirement queries read. */
  datatype Tables = Tables(ingredients: seq<IngredientRow>, addons: seq<AddonRow>)

  /** Why a request failed: the three messages the endpoint can report. */
  datatype Error =
    | InvalidInput           // "Invalid menu ID or quantity"
    | RawShortage(material: int)  // "Not enough stock in raw_materials for material ID …"
    | LogShortage(material: int)  // "Not enough stock for material ID … in inventory_log"

  /** A committed request reports its deductions and leaves the new stock and journal; a
      rolled-back one leaves nothing but the error. */
  datatype Outcome =
    | Committed(deductions: map<int, real>, stock: map<int, real>, log: seq<LotEntry>)
    | RolledBack(error: Error)

  /** Line 17: the request is refused unless the menu id and the quantity are positive. */
  predicate ValidRequest(req: Request)
  {
    req.menuId > 0 && req.quantity > 0.0
  }

  /** The requirement map the request accumulates. */
  function Needs(req: Request, t: Tables): map<int, real>
  {
    Requirements(Contribs(req.menuId, req.quantity, req.addonIds, t.ingredients, t.addons))
  }

  /** The key order of that map. */
  function KeyOrder(req: Request, t: Tables): seq<int>
  {
    FirstSeen(Contribs(req.menuId, req.quantity, req.addonIds, t.ingredients, t.addons))
  }

  /** The key order lists each material of the requirement map once. */
  lemma KeyOrderLists(req: Request, t: Tables)
    ensures forall x :: x in KeyOrder(req, t) <==> x in Needs(req, t)
    ensures forall i, j :: 0 <= i < j < |KeyOrder(req, t)| ==> KeyOrder(req, t)[i] != KeyOrder(req, t)[j]
  {
    FirstSeenLists(Contribs(req.menuId, req.quantity, req.addonIds, t.ingredients, t.addons));
  }

  /** Lines 130-132: the FIFO loop run for each material in key order; the first material
      whose lots run out stops it. */
  function DrainAll(log: seq<LotEntry>, order: seq<int>, need: map<int, real>, user: int): Result<seq<LotEntry>>
    requires forall x :: x in order ==> x in need
  {
    if |order| == 0 then Ok(log)
    else
      match DrainAll(log, order[..|order| - 1], need, user)
      case Short(x) => Short(x)
      case Ok(l) =>
        var x := order[|order| - 1];
        match Drain(l, x, need[x], user)
        case None => Short(x)
        case Some(l2) => Ok(l2)
  }

  /** The exception thrown at line 90 ends the loop over materials: once a prefix of the key
      order stops at a material, the whole loop stops there. */
  lemma {:induction false} DrainShortPersists(log: seq<LotEntry>, order: seq<int>, need: map<int, real>, user: int, n: nat)
    requires forall x :: x in order ==> x in need
    requires n <= |order|
    requires DrainAll(log, order[..n], need, user).Short?
    ensures DrainAll(log, order, need, user) == DrainAll(log, order[..n], need, user)
    decreases |order|
  {
    if n < |order| {
      var init := order[..|order| - 1];
      assert init[..n] == order[..n];
      DrainShortPersists(log, init, need, user, n);
    } else {
      assert order[..n] == order;
    }
  }

  function Listed(order: seq<int>): set<int>
  {
    set x | x in order
  }

  /** The FIFO loops over distinct materials succeed exactly when each material's lots hold its
      requirement; a failure names a listed material whose lots held less. */
  lemma {:induction false} DrainAllSucceedsIff(log: seq<LotEntry>, order: seq<int>, need: map<int, real>, user: int)
    requires forall x :: x in order ==> x in need
    requires forall i, j :: 0 <= i < j < |order| ==> order[i] != order[j]
    ensures DrainAll(log, order, need, user).Ok? <==> forall x :: x in order ==> need[x] <= Available(log, x)
    ensures DrainAll(log, order, need, user).Short? ==>
              var x := DrainAll(log, order, need, user).material;
              x in order && Available(log, x) < need[x]
    decreases |order|
  {
    if |order| > 0 {
      var init := order[..|order| - 1];
      var y := order[|order| - 1];
      assert forall x :: x in order <==> x in init || x == y;
      assert y !in init;
      DrainAllSucceedsIff(log, init, need, user);
      if DrainAll(log, init, need, user).Ok? {
        var l := DrainAll(log, init, need, user).value;
        DrainAllEffect(log, init, need, user);
        DrainSucceedsIff(l, y, need[y], user);
      }
    }
  }

  /** After successful FIFO loops over distinct materials, each listed material's lots have
      lost exactly its requirement, every other material's lots are as they were, the journal
      is a consumption of the listed materials, and the new records of each material add up
      to minus its requirement. */
  lemma {:induction false} DrainAllEffect(log: seq<LotEntry>, order: seq<int>, need: map<int, real>, user: int)
    requires forall x :: x in order ==> x in need
    requires forall i, j :: 0 <= i < j < |order| ==> order[i] != order[j]
    requires DrainAll(log, order, need, user).Ok?
    ensures var r := DrainAll(log, order, need, user).value;
              && Consumed(log, r, Listed(order), user)
              && (forall x :: Available(r, x) == Available(log, x) - (if x in order then Owed(need[x]) else 0.0))
              && (forall x :: Moved(r[|log|..], x) == -(if x in order then Owed(need[x]) else 0.0))
    decreases |order|
  {
    if |order| == 0 {
      assert log[|log|..] == [];
      assert Consumed(log, log, {}, user);
    } else {
      var init := order[..|order| - 1];
      var y := order[|order| - 1];
      assert forall x :: x in order <==> x in init || x == y;
      assert y !in init;
      DrainAllEffect(log, init, need, user);
      var l := DrainAll(log, init, need, user).value;
      assert order == init + [y];
      DrainAllStep(log, l, init, y, need, user);
    }
  }

  /** The last round of DrainAll: what holds of the journal `l` after the earlier materials
      carries over to the journal after material y. */
  lemma DrainAllStep(log: seq<LotEntry>, l: seq<LotEntry>, init: seq<int>, y: int, need: map<int, real>, user: int)
    requires y in need && y !in init
    requires forall x :: x in init ==> x in need
    requires Drain(l, y, need[y], user).Some?
    requires Consumed(log, l, Listed(init), user)
    requires forall x :: Available(l, x) == Available(log, x) - (if x in init then Owed(need[x]) else 0.0)
    requires forall x :: Moved(l[|log|..], x) == -(if x in init then Owed(need[x]) else 0.0)
    ensures var r := Drain(l, y, need[y], user).value;
              && Consumed(log, r, Listed(init + [y]), user)
              && (forall x :: Available(r, x) == Available(log, x) - (if x in init + [y] then Owed(need[x]) else 0.0))
              && (forall x :: Moved(r[|log|..], x) == -(if x in init + [y] then Owed(need[x]) else 0.0))
  {
    var r := Drain(l, y, need[y], user).value;
    assert forall x :: x in init + [y] <==> x in init || x == y;
    StepConsumed(log, l, r, init, y, need, user);
    StepAvailable(log, l, r, init, y, need, user);
    StepMoved(log, l, r, init, y, need, user);
  }

  lemma StepConsumed(log: seq<LotEntry>, l: seq<LotEntry>, r: seq<LotEntry>, init: seq<int>, y: int, need: map<int, real>, user: int)
    requires y in need
    requires Drain(l, y, need[y], user) == Some(r)
    requires Consumed(log, l, Listed(init), user)
    ensures Consumed(log, r, Listed(init + [y]), user)
  {
    DrainFrame(l, y, need[y], user);
    assert Listed(init + [y]) == Listed(init) + {y};
    ConsumedTrans(log, l, r, Listed(init), {y}, user);
  }

  lemma StepAvailable(log: seq<LotEntry>, l: seq<LotEntry>, r: seq<LotEntry>, init: seq<int>, y: int, need: map<int, real>, user: int)
    requires y in need && y !in init
    requires forall x :: x in init ==> x in need
    requires Drain(l, y, need[y], user) == Some(r)
    requires forall x :: Available(l, x) == Available(log, x) - (if x in init then Owed(need[x]) else 0.0)
    ensures forall x :: Available(r, x) == Available(log, x) - (if x in init || x == y then Owed(need[x]) else 0.0)
  {
    DrainEffect(l, y, need[y], user);
  }

  lemma StepMoved(log: seq<LotEntry>, l: seq<LotEntry>, r: seq<LotEntry>, init: seq<int>, y: int, need: map<int, real>, user: int)
    requires y in need && y !in init
    requires forall x :: x in init ==> x in need
    requires Consumed(log, l, Listed(init), user)
    requires Drain(l, y, need[y], user) == Some(r)
    requires forall x :: Moved(l[|log|..], x) == -(if x in init then Owed(need[x]) else 0.0)
    ensures |log| <= |r|
    ensures forall x :: Moved(r[|log|..], x) == -(if x in init || x == y then Owed(need[x]) else 0.0)
  {
    DrainEffect(l, y, need[y], user);
    DrainFrame(l, y, need[y], user);
    forall k | |log| <= k < |l|
      ensures l[k].quantity <= 0.0
    {
      assert IsOutRecord(l[k], user);
    }
    RecordsKept(l, r, {y}, user, |log|);
    assert r[|log|..] == l[|log|..] + r[|l|..];
    forall x
      ensures Moved(r[|log|..], x) == -(if x in init || x == y then Owed(need[x]) else 0.0)
    {
      MovedConcat(l[|log|..], r[|l|..], x);
    }
  }

  /** The whole request. Every failure after line 22 rolls back, so only the error remains. */
  function Transaction(stock: map<int, real>, log: seq<LotEntry>, req: Request, t: Tables): Outcome
  {
    if !ValidRequest(req) then RolledBack(InvalidInput)
    else
      var need := Needs(req, t);
      var order := KeyOrder(req, t);
      KeyOrderLists(req, t);
      match GuardAll(stock, order, need)
      case Short(x) => RolledBack(RawShortage(x))
      case Ok(s) =>
        match DrainAll(log, order, need, req.userId)
        case Short(x) => RolledBack(LogShortage(x))
        case Ok(l) => Committed(need, s, l)
  }

  /** A request is refused as invalid exactly when its menu id or quantity is not positive. */
  lemma RejectsInvalid(stock: map<int, real>, log: seq<LotEntry>, req: Request, t: Tables)
    ensures Transaction(stock, log, req, t) == RolledBack(InvalidInput) <==> !ValidRequest(req)
  {
  }

  /** A request commits exactly when it is valid and every material it needs is in stock with
      enough on hand and enough left in its lots. */
  lemma CommitsIff(stock: map<int, real>, log: seq<LotEntry>, req: Request, t: Tables)
    ensures Transaction(stock, log, req, t).Committed? <==>
              && ValidRequest(req)
              && forall x :: x in Needs(req, t) ==>
                   Sufficient(stock, x, Needs(req, t)[x]) && Needs(req, t)[x] <= Available(log, x)
  {
    if ValidRequest(req) {
      var need := Needs(req, t);
      var order := KeyOrder(req, t);
      KeyOrderLists(req, t);
      GuardAllIff(stock, order, need);
      DrainAllSucceedsIff(log, order, need, req.userId);
    }
  }

  /** A failed request names the material it failed on: one short in `raw_materials`, or, with
      every guard passed, one whose lots hold less than its requirement. */
  lemma RollbackNamesMaterial(stock: map<int, real>, log: seq<LotEntry>, req: Request, t: Tables)
    ensures Transaction(stock, log, req, t).RolledBack? && Transaction(stock, log, req, t).error.RawShortage?
            ==> var x := Transaction(stock, log, req, t).error.material;
                ValidRequest(req) && x in Needs(req, t) && !Sufficient(stock, x, Needs(req, t)[x])
    ensures Transaction(stock, log, req, t).RolledBack? && Transaction(stock, log, req, t).error.LogShortage?
            ==> var x := Transaction(stock, log, req, t).error.material;
                && ValidRequest(req) && x in Needs(req, t) && Available(log, x) < Needs(req, t)[x]
                && forall y :: y in Needs(req, t) ==> Sufficient(stock, y, Needs(req, t)[y])
  {
    if ValidRequest(req) {
      var need := Needs(req, t);
      var order := KeyOrder(req, t);
      KeyOrderLists(req, t);
      GuardAllIff(stock, order, need);
      DrainAllSucceedsIff(log, order, need, req.userId);
    }
  }

  /** On commit the reported deductions are the requirement map of the recipe: one entry for
      each material of the base recipe or of a selected add-on, holding the order quantity
      times the summed per-serving quantities of its rows. */
  lemma CommittedReport(stock: map<int, real>, log: seq<LotEntry>, req: Request, t: Tables)
    requires Transaction(stock, log, req, t).Committed?
    ensures var d := Transaction(stock, log, req, t).deductions;
      && d.Keys == RecipeMaterials(t.ingredients, t.addons, req.menuId, req.addonIds)
      && forall x :: x in d ==>
           d[x] == Scale(RecipeQty(t.ingredients, req.menuId, x) + AddonQty(t.addons, req.menuId, req.addonIds, x), req.quantity)
  {
    assert Transaction(stock, log, req, t).deductions == Needs(req, t);
    RequirementsFromRecipe(req.menuId, req.quantity, req.addonIds, t.ingredients, t.addons);
  }

  /** On commit the stock of each material in the report has dropped by its requirement, and
      every other row of `raw_materials` is unchanged. */
  lemma CommittedStock(stock: map<int, real>, log: seq<LotEntry>, req: Request, t: Tables)
    requires Transaction(stock, log, req, t).Committed?
    ensures var o := Transaction(stock, log, req, t);
      && o.stock.Keys == stock.Keys
      && forall x :: x in stock ==> o.stock[x] == if x in o.deductions then stock[x] - o.deductions[x] else stock[x]
  {
    var need := Needs(req, t);
    var order := KeyOrder(req, t);
    KeyOrderLists(req, t);
    GuardAllIff(stock, order, need);
    assert Transaction(stock, log, req, t).stock == GuardAll(stock, order, need).value;
    assert Transaction(stock, log, req, t).deductions == need;
  }

  /** On commit the journal is a consumption of the required materials for the requesting user:
      each required material's lots have lost exactly its (positive) requirement, other
      materials' lots are untouched, and the new records of each material sum to minus its
      requirement. */
  lemma CommittedJournal(stock: map<int, real>, log: seq<LotEntry>, req: Request, t: Tables)
    requires Transaction(stock, log, req, t).Committed?
    ensures var o := Transaction(stock, log, req, t);
      && Consumed(log, o.log, o.deductions.Keys, req.userId)
      && (forall x :: Available(o.log, x) == Available(log, x) - (if x in o.deductions then Owed(o.deductions[x]) else 0.0))
      && (forall x :: Moved(o.log[|log|..], x) == -(if x in o.deductions then Owed(o.deductions[x]) else 0.0))
  {
    var need := Needs(req, t);
    var order := KeyOrder(req, t);
    KeyOrderLists(req, t);
    DrainAllEffect(log, order, need, req.userId);
    assert Listed(order) == need.Keys;
  }

  /** When every stock row agrees with what its lots hold and no requirement is negative, a
      committed request keeps them in agreement. */
  lemma ConsistencyPreserved(stock: map<int, real>, log: seq<LotEntry>, req: Request, t: Tables)
    requires forall x :: x in stock ==> stock[x] == Available(log, x)
    requires forall x :: x in Needs(req, t) ==> Needs(req, t)[x] >= 0.0
    requires Transaction(stock, log, req, t).Committed?
    ensures var o := Transaction(stock, log, req, t);
      forall x :: x in o.stock ==> o.stock[x] == Available(o.log, x)
  {
    CommittedStock(stock, log, req, t);
    CommittedJournal(stock, log, req, t);
  }

  /** The request is not idempotent: when it commits and then commits again from the state it
      left, it reports the same deductions and each material's stock has dropped twice. */
  lemma ReplayDeductsTwice(stock: map<int, real>, log: seq<LotEntry>, req: Request, t: Tables)
    requires Transaction(stock, log, req, t).Committed?
    requires var o := Transaction(stock, log, req, t); Transaction(o.stock, o.log, req, t).Committed?
    ensures var o := Transaction(stock, log, req, t);
      var o2 := Transaction(o.stock, o.log, req, t);
      && o2.deductions == o.deductions
      && o2.stock.Keys == stock.Keys
      && forall x :: x in o.deductions && x in stock ==> o2.stock[x] == stock[x] - o.deductions[x] - o.deductions[x]
  {
    var o := Transaction(stock, log, req, t);
    CommittedStock(stock, log, req, t);
    CommittedStock(o.stock, o.log, req, t);
    assert o.deductions == Needs(req, t);
    assert Transaction(o.stock, o.log, req, t).deductions == Needs(req, t);
  }

  // ----- A worked order -----

  const Lot1: LotEntry := LotEntry(1, 4.0, "kg", 20240101, "Restock", 0, 1.0, 4.0)
  const Lot2: LotEntry := LotEntry(1, 4.0, "kg", 20240201, "Restock", 0, 1.5, 6.0)

  /** Menu 10 needs 2 units of material 1 per serving; three servings with 6 units on hand and
      two lots of 4 units consume all of the earlier lot (cost 4.0) and 2 units of the later one
      (cost 3.0), and report the deductions {1: 6}. */
  lemma WorkedOrder()
    ensures var o := Transaction(map[1 := 6.0], [Lot1, Lot2], Request(10, 3.0, [], 7),
                                 Tables([IngredientRow(10, 1, 2.0)], []));
      && o.Committed?
      && o.deductions == map[1 := 6.0]
      && o.stock == map[1 := 0.0]
      && o.log == [Lot1.(quantity := 0.0), Lot2.(quantity := 2.0),
                   LotEntry(1, -4.0, "kg", 20240101, AutoReason, 7, 1.0, 4.0),
                   LotEntry(1, -2.0, "kg", 20240201, AutoReason, 7, 1.5, 3.0)]
  {
    var req := Request(10, 3.0, [], 7);
    var t := Tables([IngredientRow(10, 1, 2.0)], []);
    var c := Contribs(10, 3.0, [], t.ingredients, t.addons);
    assert [IngredientRow(10, 1, 2.0)][..0] == [];
    assert c == [Contribution(1, 6.0)];
    assert Materials(c) == {1} by { SingleMaterial(Contribution(1, 6.0)); }
    assert [Contribution(1, 6.0)][..0] == [];
    assert Needs(req, t) == map[1 := 6.0];
    assert KeyOrder(req, t) == [1];
    var need := map[1 := 6.0];
    assert [1][..0] == [];
    assert GuardAll(map[1 := 6.0], [], need) == Ok(map[1 := 6.0]);
    assert map[1 := 6.0][1 := 6.0 - 6.0] == map[1 := 0.0];
    assert GuardAll(map[1 := 6.0], [1], need) == Ok(map[1 := 0.0]);

    var log := [Lot1, Lot2];
    assert EarliestLot(log, 1) == Some(0) by {
      assert EarliestBelow(log, 1, 0) == None;
      assert EarliestBelow(log, 1, 1) == Some(0);
      assert EarliestBelow(log, 1, 2) == Some(0);
    }
    var l1 := Take(log, 0, 4.0, 7);
    assert l1 == [Lot1.(quantity := 0.0), Lot2, LotEntry(1, -4.0, "kg", 20240101, AutoReason, 7, 1.0, 4.0)];
    assert EarliestLot(l1, 1) == Some(1) by {
      assert EarliestBelow(l1, 1, 1) == None;
      assert EarliestBelow(l1, 1, 2) == Some(1);
    }
    var l2 := Take(l1, 1, 2.0, 7);
    assert Drain(l2, 1, 0.0, 7) == Some(l2);
    assert Drain(l1, 1, 2.0, 7) == Some(l2);
    assert Drain(log, 1, 6.0, 7) == Some(l2);
    assert DrainAll(log, [1], need, 7) == Ok(l2);
  }
}
