/** The `raw_materials` table: on-hand quantity per material and its guarded decrement. */
module Ledger {

  /** A step that either succeeds with a value or stops at a material that ran short. */
  datatype Result<+T> = Ok(value: T) | Short(material: int)

  /** `UPDATE raw_materials SET quantity = quantity - q WHERE id = m AND quantity >= q`
      matches a row: material m exists and holds at least q. */
  predicate Sufficient(stock: map<int, real>, m: int, q: real)
  {
    m in stock && stock[m] >= q
  }

  /** Lines 60-69: the guarded decrement applied to each material in key order; the first
      material whose update matches no row stops the loop. */
  function GuardAll(stock: map<int, real>, order: seq<int>, need: map<int, real>): Result<map<int, real>>
    requires forall x :: x in order ==> x in need
  {
    if |order| == 0 then Ok(stock)
    else
      match GuardAll(stock, order[..|order| - 1], need)
      case Short(x) => Short(x)
      case Ok(s) =>
        var x := order[|order| - 1];
        if Sufficient(s, x, need[x]) then Ok(s[x := s[x] - need[x]]) else Short(x)
  }

  /** The guards pass exactly when every listed material is in stock with enough on hand; then
      each listed material has dropped by its requirement and every other row is unchanged.
      A failure names a listed material that was short. */
  lemma {:induction false} GuardAllIff(stock: map<int, real>, order: seq<int>, need: map<int, real>)
    requires forall x :: x in order ==> x in need
    requires forall i, j :: 0 <= i < j < |order| ==> order[i] != order[j]
    ensures GuardAll(stock, order, need).Ok? <==> forall x :: x in order ==> Sufficient(stock, x, need[x])
    ensures GuardAll(stock, order, need).Ok? ==>
              && GuardAll(stock, order, need).value.Keys == stock.Keys
              && forall x :: x in stock ==>
                   GuardAll(stock, order, need).value[x] == if x in order then stock[x] - need[x] else stock[x]
    ensures GuardAll(stock, order, need).Short? ==>
              var x := GuardAll(stock, order, need).material;
              x in order && !Sufficient(stock, x, need[x])
    decreases |order|
  {
    if |order| > 0 {
      var init := order[..|order| - 1];
      var y := order[|order| - 1];
      assert forall x :: x in order <==> x in init || x == y;
      assert y !in init;
      GuardAllIff(stock, init, need);
    }
  }

  /** The exception thrown at line 66 ends the loop: once a prefix of the key order stops at a
      material, the whole loop stops there. */
  lemma {:induction false} GuardShortPersists(stock: map<int, real>, order: seq<int>, need: map<int, real>, n: nat)
    requires forall x :: x in order ==> x in need
    requires n <= |order|
    requires GuardAll(stock, order[..n], need).Short?
    ensures GuardAll(stock, order, need) == GuardAll(stock, order[..n], need)
    decreases |order|
  {
    if n < |order| {
      var init := order[..|order| - 1];
      assert init[..n] == order[..n];
      GuardShortPersists(stock, init, need, n);
    } else {
      assert order[..n] == order;
    }
  }

  // ----- The guard as written -----

  /** What the endpoint reads as success: `affected_rows`, which for an UPDATE counts the rows
      whose value actually changed (the connection does not ask for matched rows). */
  predicate ChangedRowAsWritten(stock: map<int, real>, m: int, q: real)
  {
    Sufficient(stock, m, q) && stock[m] - q != stock[m]
  }

  /** As written, the guard refuses exactly the sufficient decrements by zero as well. */
  lemma AffectedRowsAsWritten(stock: map<int, real>, m: int, q: real)
    ensures ChangedRowAsWritten(stock, m, q) <==> Sufficient(stock, m, q) && q != 0.0
  {
  }

  /** A requirement of zero for material 1 holding 5 units: the row matches, yet no value
      changes, so the endpoint reports "Not enough stock in raw_materials for material ID 1". */
  lemma ZeroNeedRefusedAsWritten()
    ensures Sufficient(map[1 := 5.0], 1, 0.0)
    ensures !ChangedRowAsWritten(map[1 := 5.0], 1, 0.0)
  {
  }
}
