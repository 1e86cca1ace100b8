/** The two tables the endpoint writes, `raw_materials` and `inventory_log`, as one object whose
    methods perform the endpoint's statements in place. Each method is proved against the
    functions of the other modules. */
module Database {
  import opened Journal
  import opened Fifo
  import opened Ledger
  import opened Recipes
  import opened Deduction

  /** The JSON response: the deductions map on success, the error on failure. */
  datatype Response = Success(deductions: map<int, real>) | Failure(error: Error)

  class Store {
    /** `raw_materials`: on-hand quantity per material id. */
    var stock: map<int, real>
    /** `inventory_log`, in id order. */
    var log: seq<LotEntry>

    constructor(stock0: map<int, real>, log0: seq<LotEntry>)
      ensures stock == stock0 && log == log0
    {
      stock := stock0;
      log := log0;
    }

    /** Every material's on-hand quantity agrees with what its lots still hold. */
    predicate Consistent()
      reads this
    {
      forall x :: x in stock ==> stock[x] == Available(log, x)
    }

    /** Lines 61-63: `UPDATE raw_materials SET quantity = quantity - q WHERE id = m AND
        quantity >= q`; `ok` reports that a row matched (the corrected reading of line 65). */
    method DecrementIfSufficient(m: int, q: real) returns (ok: bool)
      modifies this
      ensures ok == Sufficient(old(stock), m, q)
      ensures stock == if ok then old(stock)[m := old(stock)[m] - q] else old(stock)
      ensures log == old(log)
    {
      ok := m in stock && stock[m] >= q;
      if ok {
        stock := stock[m := stock[m] - q];
      }
    }

    /** Lines 72-127, `deduct_inventory_log`: while something is still owed, select the earliest
        lot of m holding stock, lower it by min(owed, lot quantity) and append the consumption
        record. Reports false when the lots run out (the exception of line 90); what it leaves
        behind then is discarded by the rollback. */
    method ConsumeLots(m: int, qty: real, user: int) returns (ok: bool)
      modifies this
      ensures ok == Drain(old(log), m, qty, user).Some?
      ensures ok ==> log == Drain(old(log), m, qty, user).value
      ensures stock == old(stock)
    {
      var remaining := qty;
      while remaining > 0.0
        invariant Drain(log, m, remaining, user) == Drain(old(log), m, qty, user)
        invariant stock == old(stock)
        decreases LotCount(log, m), if remaining > 0.0 then 1 else 0
      {
        var found := EarliestLot(log, m);
        if found.None? {
          return false;
        }
        var i := found.value;
        var lot := log[i];
        var d := Min(remaining, lot.quantity);
        TakeEffect(log, m, i, d, user);
        DrainRound(log, m, remaining, user, i);
        ghost var next := Take(log, i, d, user);
        var out := LotEntry(m, -d, lot.unit, lot.expiration, AutoReason, user, lot.cost, Cost(d, lot.cost));
        assert out == OutRecord(lot, d, user);
        var lowered := log[i := lot.(quantity := lot.quantity - d)];
        assert lowered + [out] == next;
        log := lowered;
        log := log + [out];
        remaining := remaining - d;
      }
      return true;
    }

    /** Lines 60-69: the guarded decrement for each material in key order, stopping at the
        first one whose update matches no row (the exception of line 66). On success the stock
        is what GuardAll computes; after a failure it is discarded by the rollback. */
    method ApplyGuards(order: seq<int>, need: map<int, real>) returns (failed: Option<int>)
      requires forall x :: x in order ==> x in need
      modifies this
      ensures GuardAll(old(stock), order, need).Ok? ==> failed.None? && stock == GuardAll(old(stock), order, need).value
      ensures GuardAll(old(stock), order, need).Short? ==> failed == Some(GuardAll(old(stock), order, need).material)
      ensures log == old(log)
    {
      var i := 0;
      while i < |order|
        invariant 0 <= i <= |order|
        invariant GuardAll(old(stock), order[..i], need) == Ok(stock)
        invariant log == old(log)
      {
        var x := order[i];
        assert order[..i + 1][..i] == order[..i];
        var ok := DecrementIfSufficient(x, need[x]);
        if !ok {
          GuardShortPersists(old(stock), order, need, i + 1);
          return Some(x);
        }
        i := i + 1;
      }
      assert order[..i] == order;
      return None;
    }

    /** Lines 130-132: the FIFO loop for each material in key order, stopping at the first one
        whose lots run out (the exception of line 90). On success the journal is what DrainAll
        computes; after a failure it is discarded by the rollback. */
    method ConsumeAll(order: seq<int>, need: map<int, real>, user: int) returns (failed: Option<int>)
      requires forall x :: x in order ==> x in need
      modifies this
      ensures DrainAll(old(log), order, need, user).Ok? ==> failed.None? && log == DrainAll(old(log), order, need, user).value
      ensures DrainAll(old(log), order, need, user).Short? ==> failed == Some(DrainAll(old(log), order, need, user).material)
      ensures stock == old(stock)
    {
      var j := 0;
      while j < |order|
        invariant 0 <= j <= |order|
        invariant DrainAll(old(log), order[..j], need, user) == Ok(log)
        invariant stock == old(stock)
      {
        var x := order[j];
        assert order[..j + 1][..j] == order[..j];
        var ok := ConsumeLots(x, need[x], user);
        if !ok {
          DrainShortPersists(old(log), order, need, user, j + 1);
          return Some(x);
        }
        j := j + 1;
      }
      assert order[..j] == order;
      return None;
    }

    /** Lines 12-145: check the request, resolve the requirement map, apply the guarded
        decrements, run the FIFO loops, and commit; on any failure roll both tables back to
        their state before the request. The response and the new state are those
        `Transaction` describes, and a consistent store stays consistent when no requirement
        is negative. */
    method DeductForOrder(req: Request, t: Tables) returns (resp: Response)
      modifies this
      ensures var o := Transaction(old(stock), old(log), req, t);
        match o
        case Committed(d, s, l) => resp == Success(d) && stock == s && log == l
        case RolledBack(e) => resp == Failure(e) && stock == old(stock) && log == old(log)
      ensures old(Consistent()) && (forall x :: x in Needs(req, t) ==> Needs(req, t)[x] >= 0.0) ==> Consistent()
    {
      if req.menuId <= 0 || req.quantity <= 0.0 {
        return Failure(InvalidInput);
      }
      // begin_transaction: what a rollback restores
      var stock0, log0 := stock, log;
      var need, order := Resolve(req.menuId, req.quantity, req.addonIds, t.ingredients, t.addons);
      assert need == Needs(req, t) && order == KeyOrder(req, t);
      KeyOrderLists(req, t);

      var failed := ApplyGuards(order, need);
      if failed.Some? {
        stock, log := stock0, log0;
        return Failure(RawShortage(failed.value));
      }
      failed := ConsumeAll(order, need, req.userId);
      if failed.Some? {
        stock, log := stock0, log0;
        return Failure(LogShortage(failed.value));
      }
      ghost var consistent := (forall x :: x in stock0 ==> stock0[x] == Available(log0, x))
                              && (forall x :: x in need ==> need[x] >= 0.0);
      if consistent {
        ConsistencyPreserved(stock0, log0, req, t);
      }
      return Success(need);
    }
  }
}
