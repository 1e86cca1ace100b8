/** Requirement aggregation: which raw materials an order needs, and how much of each.
    The recipe tables `menu_ingredients` and `menu_addons` are given as sequences of rows in
    the order the queries return them. */
module Recipes {

  /** A row of `menu_ingredients`: `quantity` of `material` per serving of `menu`. */
  datatype IngredientRow = IngredientRow(menu: int, material: int, quantity: real)

  /** A row of `menu_addons`: `quantity` of `material` per serving of add-on `addon` of `menu`. */
  datatype AddonRow = AddonRow(menu: int, addon: int, material: int, quantity: real)

  /** What one fetched row adds to the requirement map: its quantity times the order quantity. */
  datatype Contribution = Contribution(material: int, amount: real)

  /** A row's quantity times the order quantity (PHP `floatval($row['quantity']) * $quantity`). */
  function Scale(rowQty: real, quantity: real): real
  {
    rowQty * quantity
  }

  /** The contributions of the rows `SELECT material_id, quantity FROM menu_ingredients
      WHERE menu_id = menu` returns, in order. */
  function BaseContribs(rows: seq<IngredientRow>, menu: int, quantity: real): seq<Contribution>
  {
    if |rows| == 0 then []
    else
      var r := rows[|rows| - 1];
      BaseContribs(rows[..|rows| - 1], menu, quantity)
        + (if r.menu == menu then [Contribution(r.material, Scale(r.quantity, quantity))] else [])
  }

  /** The contributions of the rows `SELECT material_id, quantity FROM menu_addons
      WHERE menu_id = menu AND addon_id IN (ids)` returns, in order. Each row matches at most
      once, however often its add-on id is listed. */
  function AddonContribs(rows: seq<AddonRow>, menu: int, ids: seq<int>, quantity: real): seq<Contribution>
  {
    if |rows| == 0 then []
    else
      var r := rows[|rows| - 1];
      AddonContribs(rows[..|rows| - 1], menu, ids, quantity)
        + (if r.menu == menu && r.addon in ids then [Contribution(r.material, Scale(r.quantity, quantity))] else [])
  }

  /** Everything the two queries contribute; the add-on query runs only for a non-empty list. */
  function Contribs(menu: int, quantity: real, ids: seq<int>,
                    ingredients: seq<IngredientRow>, addons: seq<AddonRow>): seq<Contribution>
  {
    BaseContribs(ingredients, menu, quantity) + (if |ids| > 0 then AddonContribs(addons, menu, ids, quantity) else [])
  }

  /** Sum of the contributions to material m. */
  function Sum(c: seq<Contribution>, m: int): real
  {
    if |c| == 0 then 0.0
    else Sum(c[..|c| - 1], m) + (if c[|c| - 1].material == m then c[|c| - 1].amount else 0.0)
  }

  function Materials(c: seq<Contribution>): set<int>
  {
    set k | 0 <= k < |c| :: c[k].material
  }

  /** The materials of c in order of first appearance: the key order of the PHP array that
      accumulates the requirement. */
  function FirstSeen(c: seq<Contribution>): seq<int>
  {
    if |c| == 0 then []
    else
      var x := c[|c| - 1].material;
      if x in Materials(c[..|c| - 1]) then FirstSeen(c[..|c| - 1]) else FirstSeen(c[..|c| - 1]) + [x]
  }

  /** The requirement map: one entry per material, holding the sum of its contributions. */
  function Requirements(c: seq<Contribution>): map<int, real>
  {
    map x | x in Materials(c) :: Sum(c, x)
  }

  // ----- Reference definitions, stated directly over the recipe tables -----

  /** Per-serving quantity of m in the base recipe of menu. */
  function RecipeQty(rows: seq<IngredientRow>, menu: int, m: int): real
  {
    if |rows| == 0 then 0.0
    else
      var r := rows[|rows| - 1];
      RecipeQty(rows[..|rows| - 1], menu, m) + (if r.menu == menu && r.material == m then r.quantity else 0.0)
  }

  /** Per-serving quantity of m in the selected add-ons of menu. */
  function AddonQty(rows: seq<AddonRow>, menu: int, ids: seq<int>, m: int): real
  {
    if |rows| == 0 then 0.0
    else
      var r := rows[|rows| - 1];
      AddonQty(rows[..|rows| - 1], menu, ids, m)
        + (if r.menu == menu && r.addon in ids && r.material == m then r.quantity else 0.0)
  }

  /** The materials named by the base recipe of menu or by one of its selected add-ons. */
  function RecipeMaterials(ingredients: seq<IngredientRow>, addons: seq<AddonRow>, menu: int, ids: seq<int>): set<int>
  {
    (set r | r in ingredients && r.menu == menu :: r.material)
      + (set r | r in addons && r.menu == menu && r.addon in ids :: r.material)
  }

  // ----- Lemmas -----

  lemma {:induction false} SumConcat(a: seq<Contribution>, b: seq<Contribution>, m: int)
    ensures Sum(a + b, m) == Sum(a, m) + Sum(b, m)
    decreases |b|
  {
    if |b| > 0 {
      assert (a + b)[..|a + b| - 1] == a + b[..|b| - 1];
      SumConcat(a, b[..|b| - 1], m);
    } else {
      assert a + b == a;
    }
  }

  lemma MaterialsConcat(a: seq<Contribution>, b: seq<Contribution>)
    ensures Materials(a + b) == Materials(a) + Materials(b)
  {
    forall x | x in Materials(a + b)
      ensures x in Materials(a) + Materials(b)
    {
      var k :| 0 <= k < |a + b| && (a + b)[k].material == x;
      if k >= |a| {
        assert b[k - |a|].material == x;
      }
    }
    forall x | x in Materials(a)
      ensures x in Materials(a + b)
    {
      var k :| 0 <= k < |a| && a[k].material == x;
      assert (a + b)[k].material == x;
    }
    forall x | x in Materials(b)
      ensures x in Materials(a + b)
    {
      var k :| 0 <= k < |b| && b[k].material == x;
      assert (a + b)[|a| + k].material == x;
    }
  }

  lemma SingleMaterial(e: Contribution)
    ensures Materials([e]) == {e.material}
  {
    assert [e][0].material == e.material;
  }

  lemma Distribute(q: real, a: real, b: real)
    ensures Scale(a, q) + Scale(b, q) == Scale(a + b, q)
  {
  }

  /** The base recipe scaled: each material's contribution sum is the order quantity times
      its per-serving recipe quantity. */
  lemma {:induction false} BaseScaled(rows: seq<IngredientRow>, menu: int, quantity: real, m: int)
    ensures Sum(BaseContribs(rows, menu, quantity), m) == Scale(RecipeQty(rows, menu, m), quantity)
    decreases |rows|
  {
    if |rows| > 0 {
      var init := rows[..|rows| - 1];
      var r := rows[|rows| - 1];
      var tail := if r.menu == menu then [Contribution(r.material, Scale(r.quantity, quantity))] else [];
      var own := if r.menu == menu && r.material == m then r.quantity else 0.0;
      assert BaseContribs(rows, menu, quantity) == BaseContribs(init, menu, quantity) + tail;
      assert RecipeQty(rows, menu, m) == RecipeQty(init, menu, m) + own;
      BaseScaled(init, menu, quantity, m);
      SumConcat(BaseContribs(init, menu, quantity), tail, m);
      assert Sum(tail, m) == Scale(own, quantity) by {
        if r.menu == menu { assert tail[..0] == []; }
      }
      Distribute(quantity, RecipeQty(init, menu, m), own);
    }
  }

  /** The materials the base recipe contributes are those of its rows. */
  lemma {:induction false} BaseMaterials(rows: seq<IngredientRow>, menu: int, quantity: real)
    ensures Materials(BaseContribs(rows, menu, quantity)) == set r | r in rows && r.menu == menu :: r.material
    decreases |rows|
  {
    if |rows| > 0 {
      var init := rows[..|rows| - 1];
      var r := rows[|rows| - 1];
      var tail := if r.menu == menu then [Contribution(r.material, Scale(r.quantity, quantity))] else [];
      var lhs := Materials(BaseContribs(rows, menu, quantity));
      var rhs := set x | x in rows && x.menu == menu :: x.material;
      var prior := set x | x in init && x.menu == menu :: x.material;
      assert BaseContribs(rows, menu, quantity) == BaseContribs(init, menu, quantity) + tail;
      BaseMaterials(init, menu, quantity);
      MaterialsConcat(BaseContribs(init, menu, quantity), tail);
      if r.menu == menu { SingleMaterial(tail[0]); assert tail == [tail[0]]; }
      assert Materials(tail) == if r.menu == menu then {r.material} else {};
      assert lhs == prior + Materials(tail);
      assert rows == init + [r];
      forall y | y in rhs ensures y in lhs {
        var x :| x in rows && x.menu == menu && x.material == y;
        if x != r { assert x in init; }
      }
      forall y | y in lhs ensures y in rhs {
        if y in prior {
          var x :| x in init && x.menu == menu && x.material == y;
          assert x in rows;
        }
      }
    }
  }

  /** The selected add-ons scaled, as for the base recipe. */
  lemma {:induction false} AddonScaled(rows: seq<AddonRow>, menu: int, ids: seq<int>, quantity: real, m: int)
    ensures Sum(AddonContribs(rows, menu, ids, quantity), m) == Scale(AddonQty(rows, menu, ids, m), quantity)
    decreases |rows|
  {
    if |rows| > 0 {
      var init := rows[..|rows| - 1];
      var r := rows[|rows| - 1];
      var tail := if r.menu == menu && r.addon in ids then [Contribution(r.material, Scale(r.quantity, quantity))] else [];
      var own := if r.menu == menu && r.addon in ids && r.material == m then r.quantity else 0.0;
      assert AddonContribs(rows, menu, ids, quantity) == AddonContribs(init, menu, ids, quantity) + tail;
      assert AddonQty(rows, menu, ids, m) == AddonQty(init, menu, ids, m) + own;
      AddonScaled(init, menu, ids, quantity, m);
      SumConcat(AddonContribs(init, menu, ids, quantity), tail, m);
      assert Sum(tail, m) == Scale(own, quantity) by {
        if r.menu == menu && r.addon in ids { assert tail[..0] == []; }
      }
      Distribute(quantity, AddonQty(init, menu, ids, m), own);
    }
  }

  /** The materials the selected add-ons contribute are those of their rows. */
  lemma {:induction false} AddonMaterials(rows: seq<AddonRow>, menu: int, ids: seq<int>, quantity: real)
    ensures Materials(AddonContribs(rows, menu, ids, quantity))
         == set r | r in rows && r.menu == menu && r.addon in ids :: r.material
    decreases |rows|
  {
    if |rows| > 0 {
      var init := rows[..|rows| - 1];
      var r := rows[|rows| - 1];
      var tail := if r.menu == menu && r.addon in ids then [Contribution(r.material, Scale(r.quantity, quantity))] else [];
      var lhs := Materials(AddonContribs(rows, menu, ids, quantity));
      var rhs := set x | x in rows && x.menu == menu && x.addon in ids :: x.material;
      var prior := set x | x in init && x.menu == menu && x.addon in ids :: x.material;
      assert AddonContribs(rows, menu, ids, quantity) == AddonContribs(init, menu, ids, quantity) + tail;
      AddonMaterials(init, menu, ids, quantity);
      MaterialsConcat(AddonContribs(init, menu, ids, quantity), tail);
      if r.menu == menu && r.addon in ids { SingleMaterial(tail[0]); assert tail == [tail[0]]; }
      assert Materials(tail) == if r.menu == menu && r.addon in ids then {r.material} else {};
      assert lhs == prior + Materials(tail);
      assert rows == init + [r];
      forall y | y in rhs ensures y in lhs {
        var x :| x in rows && x.menu == menu && x.addon in ids && x.material == y;
        if x != r { assert x in init; }
      }
      forall y | y in lhs ensures y in rhs {
        if y in prior {
          var x :| x in init && x.menu == menu && x.addon in ids && x.material == y;
          assert x in rows;
        }
      }
    }
  }

  /** An empty add-on list selects no add-on row, so skipping the add-on query when the
      list is empty changes nothing. */
  lemma {:induction false} NoAddonsSelectNothing(rows: seq<AddonRow>, menu: int, quantity: real)
    ensures AddonContribs(rows, menu, [], quantity) == []
    decreases |rows|
  {
    if |rows| > 0 {
      NoAddonsSelectNothing(rows[..|rows| - 1], menu, quantity);
    }
  }

  /** The requirement map of an order: one entry for each material of the base recipe or of a
      selected add-on, holding the order quantity times the summed per-serving quantities of
      every matching row. */
  lemma RequirementsFromRecipe(menu: int, quantity: real, ids: seq<int>,
                               ingredients: seq<IngredientRow>, addons: seq<AddonRow>)
    ensures Requirements(Contribs(menu, quantity, ids, ingredients, addons)).Keys
         == RecipeMaterials(ingredients, addons, menu, ids)
    ensures forall m :: m in Requirements(Contribs(menu, quantity, ids, ingredients, addons)) ==>
              Requirements(Contribs(menu, quantity, ids, ingredients, addons))[m]
              == Scale(RecipeQty(ingredients, menu, m) + AddonQty(addons, menu, ids, m), quantity)
  {
    var base := BaseContribs(ingredients, menu, quantity);
    var extra := AddonContribs(addons, menu, ids, quantity);
    var c := Contribs(menu, quantity, ids, ingredients, addons);
    assert c == base + extra by {
      if |ids| == 0 {
        assert ids == [];
        NoAddonsSelectNothing(addons, menu, quantity);
        assert base + [] == base;
      }
    }
    MaterialsConcat(base, extra);
    BaseMaterials(ingredients, menu, quantity);
    AddonMaterials(addons, menu, ids, quantity);
    assert Requirements(c).Keys == Materials(c);
    forall m | m in Requirements(c)
      ensures Requirements(c)[m] == Scale(RecipeQty(ingredients, menu, m) + AddonQty(addons, menu, ids, m), quantity)
    {
      BaseScaled(ingredients, menu, quantity, m);
      AddonScaled(addons, menu, ids, quantity, m);
      SumConcat(base, extra, m);
      Distribute(quantity, RecipeQty(ingredients, menu, m), AddonQty(addons, menu, ids, m));
      assert Requirements(c)[m] == Sum(base, m) + Sum(extra, m);
    }
  }

  /** `addon_id IN (…)` tests membership only: listing an add-on twice, or in another order,
      yields the same contributions. */
  lemma {:induction false} AddonListAsSet(rows: seq<AddonRow>, menu: int, ids: seq<int>, ids2: seq<int>, quantity: real)
    requires forall a :: a in ids <==> a in ids2
    ensures AddonContribs(rows, menu, ids, quantity) == AddonContribs(rows, menu, ids2, quantity)
    decreases |rows|
  {
    if |rows| > 0 {
      AddonListAsSet(rows[..|rows| - 1], menu, ids, ids2, quantity);
    }
  }

  /** The key order lists every material of the requirement map exactly once. */
  lemma {:induction false} FirstSeenLists(c: seq<Contribution>)
    ensures forall i, j :: 0 <= i < j < |FirstSeen(c)| ==> FirstSeen(c)[i] != FirstSeen(c)[j]
    ensures forall x :: x in FirstSeen(c) <==> x in Materials(c)
    decreases |c|
  {
    if |c| > 0 {
      var init := c[..|c| - 1];
      FirstSeenLists(init);
      MaterialsConcat(init, [c[|c| - 1]]);
      assert c == init + [c[|c| - 1]];
    }
  }

  /** A material nothing contributes to sums to zero. */
  lemma {:induction false} SumAbsent(c: seq<Contribution>, m: int)
    requires m !in Materials(c)
    ensures Sum(c, m) == 0.0
    decreases |c|
  {
    if |c| > 0 {
      MaterialsConcat(c[..|c| - 1], [c[|c| - 1]]);
      assert c == c[..|c| - 1] + [c[|c| - 1]];
      SumAbsent(c[..|c| - 1], m);
    }
  }

  /** Adding one contribution to the accumulated map: the step `$deductions[$m] = ($deductions[$m] ?? 0) + $qty`. */
  lemma Accumulate(c: seq<Contribution>, e: Contribution)
    ensures Requirements(c + [e]) == Requirements(c)[e.material :=
              (if e.material in Requirements(c) then Requirements(c)[e.material] else 0.0) + e.amount]
    ensures FirstSeen(c + [e]) == if e.material in Requirements(c) then FirstSeen(c) else FirstSeen(c) + [e.material]
  {
    var c2 := c + [e];
    assert c2[..|c|] == c;
    MaterialsConcat(c, [e]);
    SingleMaterial(e);
    var updated := Requirements(c)[e.material :=
              (if e.material in Requirements(c) then Requirements(c)[e.material] else 0.0) + e.amount];
    assert Requirements(c2).Keys == updated.Keys;
    forall x | x in Materials(c2)
      ensures Requirements(c2)[x] == updated[x]
    {
      assert Sum(c2, x) == Sum(c, x) + (if e.material == x then e.amount else 0.0);
      if x !in Materials(c) { SumAbsent(c, x); }
    }
  }

  /** Lines 34 and 55: add one fetched row's contribution to the accumulated map, appending
      its material to the key order when the map had no entry for it. */
  method AddContribution(need: map<int, real>, order: seq<int>, ghost c: seq<Contribution>, e: Contribution)
    returns (need': map<int, real>, order': seq<int>)
    requires need == Requirements(c) && order == FirstSeen(c)
    ensures need' == Requirements(c + [e]) && order' == FirstSeen(c + [e])
  {
    Accumulate(c, e);
    order' := if e.material in need then order else order + [e.material];
    need' := need[e.material := (if e.material in need then need[e.material] else 0.0) + e.amount];
  }

  /** Lines 26-57 of the endpoint: fetch the base-recipe rows of the menu, then (for a
      non-empty add-on list) the rows of the selected add-ons, adding each row's quantity times
      the order quantity to the entry of its material. `order` is the key order of the
      accumulated map. */
  method Resolve(menu: int, quantity: real, ids: seq<int>,
                 ingredients: seq<IngredientRow>, addons: seq<AddonRow>)
    returns (need: map<int, real>, order: seq<int>)
    ensures need == Requirements(Contribs(menu, quantity, ids, ingredients, addons))
    ensures order == FirstSeen(Contribs(menu, quantity, ids, ingredients, addons))
  {
    need, order := map[], [];
    ghost var c: seq<Contribution> := [];
    var i := 0;
    while i < |ingredients|
      invariant 0 <= i <= |ingredients|
      invariant c == BaseContribs(ingredients[..i], menu, quantity)
      invariant need == Requirements(c) && order == FirstSeen(c)
    {
      var row := ingredients[i];
      assert ingredients[..i + 1][..i] == ingredients[..i];
      if row.menu == menu {
        var e := Contribution(row.material, Scale(row.quantity, quantity));
        need, order := AddContribution(need, order, c, e);
        c := c + [e];
      } else {
        assert c + [] == c;
      }
      i := i + 1;
    }
    assert ingredients[..i] == ingredients;
    if |ids| > 0 {
      ghost var base := c;
      i := 0;
      while i < |addons|
        invariant 0 <= i <= |addons|
        invariant c == base + AddonContribs(addons[..i], menu, ids, quantity)
        invariant need == Requirements(c) && order == FirstSeen(c)
      {
        var row := addons[i];
        assert addons[..i + 1][..i] == addons[..i];
        if row.menu == menu && row.addon in ids {
          var e := Contribution(row.material, Scale(row.quantity, quantity));
          need, order := AddContribution(need, order, c, e);
          c := c + [e];
        } else {
          assert c + [] == c;
        }
        i := i + 1;
      }
      assert addons[..i] == addons;
    } else {
      assert c + [] == c;
    }
  }
}
