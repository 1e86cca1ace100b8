/** The `inventory_log` table (the lot journal): its rows, the quantities they hold per
    material, the FIFO selection query and one consumption step. */
module Journal {

  datatype Option<+T> = None | Some(value: T)

  /** The reason written on every consumption record. */
  const AutoReason: string := "Auto Deduction from Customer Order"

  /** One row of `inventory_log`. A positive quantity is a lot still holding stock, a negative
      one a consumption record. The row's position in the journal stands for its
      auto-increment id, so "id ascending" is "position ascending". */
  datatype LotEntry = LotEntry(
    material: int,
    quantity: real,
    unit: string,
    expiration: int,
    reason: string,
    userId: int,
    cost: real,
    totalCost: real)

  /** Entry e is a lot of material m that still holds stock. */
  predicate Holds(e: LotEntry, m: int)
  {
    e.material == m && e.quantity > 0.0
  }

  /** Row i is one of the rows the selection query `material_id = m AND quantity > 0` matches. */
  predicate IsLot(log: seq<LotEntry>, m: int, i: int)
  {
    0 <= i < |log| && Holds(log[i], m)
  }

  /** Row i comes no later than row j in the order `expiration_date ASC, id ASC`. */
  predicate NoLaterThan(log: seq<LotEntry>, i: int, j: int)
    requires 0 <= i < |log| && 0 <= j < |log|
  {
    log[i].expiration < log[j].expiration || (log[i].expiration == log[j].expiration && i <= j)
  }

  /** The first row below position n that the selection query returns. */
  function EarliestBelow(log: seq<LotEntry>, m: int, n: nat): (r: Option<nat>)
    requires n <= |log|
    ensures r.Some? ==> r.value < n && IsLot(log, m, r.value)
    ensures r.Some? ==> forall j :: 0 <= j < n && IsLot(log, m, j) ==> NoLaterThan(log, r.value, j)
    ensures r.None? ==> forall j :: 0 <= j < n ==> !IsLot(log, m, j)
  {
    if n == 0 then None
    else
      var best := EarliestBelow(log, m, n - 1);
      if !IsLot(log, m, n - 1) then best
      else if best.None? || log[n - 1].expiration < log[best.value].expiration then Some(n - 1)
      else best
  }

  /** `SELECT … WHERE material_id = m AND quantity > 0 ORDER BY expiration_date ASC, id ASC LIMIT 1`:
      a lot of m holding stock that no other such lot precedes, or nothing when m has none. */
  function EarliestLot(log: seq<LotEntry>, m: int): (r: Option<nat>)
    ensures r.Some? ==> IsLot(log, m, r.value)
    ensures r.Some? ==> forall j :: IsLot(log, m, j) ==> NoLaterThan(log, r.value, j)
    ensures r.None? <==> forall j :: !IsLot(log, m, j)
  {
    EarliestBelow(log, m, |log|)
  }

  function Min(a: real, b: real): real
  {
    if a <= b then a else b
  }

  /** The total cost of taking d units at unit cost `unitCost` (line 96). */
  function Cost(d: real, unitCost: real): real
  {
    d * unitCost
  }

  /** The consumption record written when `d` is taken from `lot`. */
  function OutRecord(lot: LotEntry, d: real, user: int): LotEntry
  {
    LotEntry(lot.material, -d, lot.unit, lot.expiration, AutoReason, user, lot.cost, Cost(d, lot.cost))
  }

  /** One consumption step: lower row i by d, then append the consumption record. */
  function Take(log: seq<LotEntry>, i: nat, d: real, user: int): seq<LotEntry>
    requires i < |log|
  {
    log[i := log[i].(quantity := log[i].quantity - d)] + [OutRecord(log[i], d, user)]
  }

  /** A consumption record written for `user`: negative quantity, fixed reason and
      a total cost equal to the amount taken times the unit cost. */
  predicate IsOutRecord(e: LotEntry, user: int)
  {
    e.quantity < 0.0 && e.reason == AutoReason && e.userId == user && e.totalCost == Cost(-e.quantity, e.cost)
  }

  /** Record `rec` copies the material, unit, expiration and unit cost of `lot`. */
  predicate Copies(rec: LotEntry, lot: LotEntry)
  {
    rec.material == lot.material && rec.unit == lot.unit && rec.expiration == lot.expiration && rec.cost == lot.cost
  }

  // ----- Quantities per material -----

  /** What entry e still holds of material m. */
  function OnHand(e: LotEntry, m: int): real
  {
    if Holds(e, m) then e.quantity else 0.0
  }

  /** Total stock of m left in its lots. */
  function Available(log: seq<LotEntry>, m: int): (r: real)
    ensures r >= 0.0
  {
    if |log| == 0 then 0.0 else Available(log[..|log| - 1], m) + OnHand(log[|log| - 1], m)
  }

  /** Number of lots of m that still hold stock: what the FIFO loop can still select. */
  function LotCount(log: seq<LotEntry>, m: int): nat
  {
    if |log| == 0 then 0 else LotCount(log[..|log| - 1], m) + (if Holds(log[|log| - 1], m) then 1 else 0)
  }

  /** Signed sum of the quantities of the entries of m. */
  function Moved(log: seq<LotEntry>, m: int): real
  {
    if |log| == 0 then 0.0
    else Moved(log[..|log| - 1], m) + (if log[|log| - 1].material == m then log[|log| - 1].quantity else 0.0)
  }

  lemma {:induction false} AvailableConcat(a: seq<LotEntry>, b: seq<LotEntry>, m: int)
    ensures Available(a + b, m) == Available(a, m) + Available(b, m)
    decreases |b|
  {
    if |b| > 0 {
      assert (a + b)[..|a + b| - 1] == a + b[..|b| - 1];
      AvailableConcat(a, b[..|b| - 1], m);
    } else {
      assert a + b == a;
    }
  }

  lemma {:induction false} MovedConcat(a: seq<LotEntry>, b: seq<LotEntry>, m: int)
    ensures Moved(a + b, m) == Moved(a, m) + Moved(b, m)
    decreases |b|
  {
    if |b| > 0 {
      assert (a + b)[..|a + b| - 1] == a + b[..|b| - 1];
      MovedConcat(a, b[..|b| - 1], m);
    } else {
      assert a + b == a;
    }
  }

  lemma {:induction false} AvailableUpdate(s: seq<LotEntry>, i: nat, e: LotEntry, m: int)
    requires i < |s|
    ensures Available(s[i := e], m) == Available(s, m) - OnHand(s[i], m) + OnHand(e, m)
    decreases |s|
  {
    var n := |s| - 1;
    if i < n {
      assert s[i := e][..n] == s[..n][i := e];
      AvailableUpdate(s[..n], i, e, m);
    } else {
      assert s[i := e][..n] == s[..n];
    }
  }

  lemma {:induction false} LotCountUpdate(s: seq<LotEntry>, i: nat, e: LotEntry, m: int)
    requires i < |s|
    ensures LotCount(s[i := e], m) + (if Holds(s[i], m) then 1 else 0)
         == LotCount(s, m) + (if Holds(e, m) then 1 else 0)
    decreases |s|
  {
    var n := |s| - 1;
    if i < n {
      assert s[i := e][..n] == s[..n][i := e];
      LotCountUpdate(s[..n], i, e, m);
    } else {
      assert s[i := e][..n] == s[..n];
    }
  }

  /** A single lot never holds more than all lots of its material together. */
  lemma {:induction false} LotWithinAvailable(log: seq<LotEntry>, m: int, i: nat)
    requires IsLot(log, m, i)
    ensures log[i].quantity <= Available(log, m)
    decreases |log|
  {
    if i < |log| - 1 {
      LotWithinAvailable(log[..|log| - 1], m, i);
    }
  }

  /** A material without lots holding stock has nothing available. */
  lemma {:induction false} NoLotNothingAvailable(log: seq<LotEntry>, m: int)
    requires forall j :: !IsLot(log, m, j)
    ensures Available(log, m) == 0.0
    decreases |log|
  {
    if |log| > 0 {
      var n := |log| - 1;
      assert !IsLot(log, m, n);
      forall j ensures !IsLot(log[..n], m, j) {
        assert IsLot(log[..n], m, j) ==> IsLot(log, m, j);
      }
      NoLotNothingAvailable(log[..n], m);
    }
  }

  /** One consumption step taking 0 < d <= quantity from a lot of m lowers what m has available
      by exactly d, leaves every other material's stock alone and never adds a lot; it removes
      one when the lot is emptied. */
  lemma TakeEffect(log: seq<LotEntry>, m: int, i: nat, d: real, user: int)
    requires IsLot(log, m, i) && 0.0 < d <= log[i].quantity
    ensures Available(Take(log, i, d, user), m) == Available(log, m) - d
    ensures forall x :: x != m ==> Available(Take(log, i, d, user), x) == Available(log, x)
    ensures LotCount(Take(log, i, d, user), m) == LotCount(log, m) - (if d == log[i].quantity then 1 else 0)
  {
    var lowered := log[i].(quantity := log[i].quantity - d);
    var out := OutRecord(log[i], d, user);
    var t := log[i := lowered];
    assert Take(log, i, d, user) == t + [out];
    assert t + [out] == (t + [out])[..|t|] + [out];
    assert (t + [out])[..|t|] == t;
    AvailableUpdate(log, i, lowered, m);
    LotCountUpdate(log, i, lowered, m);
    forall x | x != m
      ensures Available(Take(log, i, d, user), x) == Available(log, x)
    {
      AvailableUpdate(log, i, lowered, x);
    }
  }
}
