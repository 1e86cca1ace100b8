/** FIFO consumption of one material's lots (`deduct_inventory_log`): the loop as a recursive
    specification, and what it does to the journal. */
module Fifo {
  import opened Journal

  /** The part of a requirement the FIFO loop consumes: `while (qty > 0)` does nothing for
      a requirement that is zero or negative. */
  function Owed(q: real): real
  {
    if q > 0.0 then q else 0.0
  }

  /** The journal after consuming `remaining` units of m, earliest lot first, or None when
      the lots run out first. Each round selects the earliest lot holding stock, takes
      min(remaining, lot quantity) from it and appends the consumption record. The measure:
      every round either empties a lot or ends the loop. */
  function Drain(log: seq<LotEntry>, m: int, remaining: real, user: int): Option<seq<LotEntry>>
    decreases LotCount(log, m), if remaining > 0.0 then 1 else 0
  {
    if remaining <= 0.0 then Some(log)
    else
      match EarliestLot(log, m)
      case None => None
      case Some(i) =>
        var d := Min(remaining, log[i].quantity);
        TakeEffect(log, m, i, d, user);
        Drain(Take(log, i, d, user), m, remaining - d, user)
  }

  /** A consumption leaves a row that held no stock as it was. */
  lemma UnheldKept(before: seq<LotEntry>, after: seq<LotEntry>, ms: set<int>, user: int, j: nat)
    requires Consumed(before, after, ms, user)
    requires j < |before| && before[j].quantity <= 0.0
    ensures after[j] == before[j]
  {
    assert Retains(before[j], after[j], ms);
  }

  /** The record a step appends stays in place through a later consumption. */
  lemma StepRecordKept(log: seq<LotEntry>, r: seq<LotEntry>, m: int, i: nat, d: real, user: int)
    requires i < |log| && 0.0 < d
    requires Consumed(Take(log, i, d, user), r, {m}, user)
    ensures |log| < |r| && r[|log|] == OutRecord(log[i], d, user)
  {
    assert Take(log, i, d, user)[|log|] == OutRecord(log[i], d, user);
    UnheldKept(Take(log, i, d, user), r, {m}, user, |log|);
  }

  /** One round of the loop (lines 94-125): with something owed and a lot selected, the amount
      taken is positive, at most what is owed and at most what the lot holds, so the lot does
      not go below zero; the loop goes on from the journal after the consumption step. */
  lemma DrainRound(log: seq<LotEntry>, m: int, q: real, user: int, i: nat)
    requires q > 0.0 && EarliestLot(log, m) == Some(i)
    ensures IsLot(log, m, i)
    ensures var d := Min(q, log[i].quantity); 0.0 < d <= q && d <= log[i].quantity
    ensures Take(log, i, Min(q, log[i].quantity), user)[i].quantity >= 0.0
    ensures Drain(log, m, q, user) == Drain(Take(log, i, Min(q, log[i].quantity), user), m, q - Min(q, log[i].quantity), user)
  {
  }

  /** The lots the loop selects, in the order it selects them. */
  ghost function Drained(log: seq<LotEntry>, m: int, remaining: real, user: int): seq<nat>
    decreases LotCount(log, m), if remaining > 0.0 then 1 else 0
  {
    if remaining <= 0.0 then []
    else
      match EarliestLot(log, m)
      case None => []
      case Some(i) =>
        var d := Min(remaining, log[i].quantity);
        TakeEffect(log, m, i, d, user);
        [i] + Drained(Take(log, i, d, user), m, remaining - d, user)
  }

  /** Entry e became e2: only its quantity may have changed, and only downwards; entries of
      materials outside ms and entries holding no stock are untouched; a lot never goes
      below zero. */
  predicate Retains(e: LotEntry, e2: LotEntry, ms: set<int>)
  {
    && e2 == e.(quantity := e2.quantity)
    && e2.quantity <= e.quantity
    && (e.material !in ms || e.quantity <= 0.0 ==> e2 == e)
    && (e.quantity > 0.0 ==> e2.quantity >= 0.0)
  }

  /** Record rec copies a lot that held stock in `before`. */
  ghost predicate SourcedFrom(rec: LotEntry, before: seq<LotEntry>)
  {
    exists k :: 0 <= k < |before| && before[k].quantity > 0.0 && Copies(rec, before[k])
  }

  /** `after` arises from `before` by consuming lots of the materials in ms for `user`: the
      old rows are retained as above, and every new row is a consumption record of one of
      those materials copying a lot that held stock. */
  ghost predicate Consumed(before: seq<LotEntry>, after: seq<LotEntry>, ms: set<int>, user: int)
  {
    && |before| <= |after|
    && (forall j :: 0 <= j < |before| ==> Retains(before[j], after[j], ms))
    && (forall j :: |before| <= j < |after| ==>
          IsOutRecord(after[j], user) && after[j].material in ms && SourcedFrom(after[j], before))
  }

  lemma ConsumedTrans(a: seq<LotEntry>, b: seq<LotEntry>, c: seq<LotEntry>, s: set<int>, t: set<int>, user: int)
    requires Consumed(a, b, s, user) && Consumed(b, c, t, user)
    ensures Consumed(a, c, s + t, user)
  {
    forall j | |b| <= j < |c|
      ensures SourcedFrom(c[j], a)
    {
      assert SourcedFrom(c[j], b);
      var k :| 0 <= k < |b| && b[k].quantity > 0.0 && Copies(c[j], b[k]);
      assert k < |a|;
      assert Retains(a[k], b[k], s);
    }
    forall j | 0 <= j < |a|
      ensures Retains(a[j], c[j], s + t)
    {
      assert Retains(a[j], b[j], s) && Retains(b[j], c[j], t);
    }
    forall j | |a| <= j < |b|
      ensures c[j] == b[j]
    {
      assert IsOutRecord(b[j], user) && Retains(b[j], c[j], t);
    }
  }

  /** A consumption leaves rows that held no stock as they were, so a tail of such rows is
      still in place, followed by the new records. */
  lemma RecordsKept(before: seq<LotEntry>, after: seq<LotEntry>, ms: set<int>, user: int, n: nat)
    requires Consumed(before, after, ms, user)
    requires n <= |before|
    requires forall k :: n <= k < |before| ==> before[k].quantity <= 0.0
    ensures after[n..] == before[n..] + after[|before|..]
  {
    forall k | n <= k < |before|
      ensures after[k] == before[k]
    {
      assert Retains(before[k], after[k], ms);
    }
  }

  /** One step of the loop is a consumption of m. */
  lemma TakeConsumed(log: seq<LotEntry>, m: int, i: nat, d: real, user: int)
    requires IsLot(log, m, i) && 0.0 < d <= log[i].quantity
    ensures Consumed(log, Take(log, i, d, user), {m}, user)
  {
    var next := Take(log, i, d, user);
    assert next[|log|] == OutRecord(log[i], d, user);
    assert Copies(next[|log|], log[i]);
    assert SourcedFrom(next[|log|], log);
  }

  /** The loop succeeds exactly when the lots of m hold at least the requirement (a
      requirement of zero or less always succeeds, as nothing is available below zero). */
  lemma {:induction false} DrainSucceedsIff(log: seq<LotEntry>, m: int, q: real, user: int)
    ensures Drain(log, m, q, user).Some? <==> q <= Available(log, m)
    decreases LotCount(log, m), if q > 0.0 then 1 else 0
  {
    if q > 0.0 {
      match EarliestLot(log, m)
      case None =>
        NoLotNothingAvailable(log, m);
      case Some(i) =>
        var d := Min(q, log[i].quantity);
        TakeEffect(log, m, i, d, user);
        LotWithinAvailable(log, m, i);
        DrainSucceedsIff(Take(log, i, d, user), m, q - d, user);
    }
  }

  /** What a successful loop leaves behind is a consumption of m alone. */
  lemma {:induction false} DrainFrame(log: seq<LotEntry>, m: int, q: real, user: int)
    requires Drain(log, m, q, user).Some?
    ensures Consumed(log, Drain(log, m, q, user).value, {m}, user)
    decreases LotCount(log, m), if q > 0.0 then 1 else 0
  {
    if q > 0.0 {
      var i := EarliestLot(log, m).value;
      var d := Min(q, log[i].quantity);
      TakeEffect(log, m, i, d, user);
      TakeConsumed(log, m, i, d, user);
      DrainFrame(Take(log, i, d, user), m, q - d, user);
      ConsumedTrans(log, Take(log, i, d, user), Drain(log, m, q, user).value, {m}, {m}, user);
    } else {
      assert Drain(log, m, q, user).value == log;
    }
  }

  /** The records a successful loop appends hold negative quantities, so no later selection
      query returns them, for any material. */
  lemma DrainRecordsNotLots(log: seq<LotEntry>, m: int, q: real, user: int)
    requires Drain(log, m, q, user).Some?
    ensures var r := Drain(log, m, q, user).value;
      |log| <= |r| && forall x, k :: |log| <= k < |r| ==> !IsLot(r, x, k) && r[k].quantity < 0.0
  {
    DrainFrame(log, m, q, user);
  }

  /** Conservation: a successful loop lowers the stock held by m's lots by exactly the
      requirement, leaves every other material's stock as it was, and its consumption
      records of m add up to minus the requirement. */
  lemma {:induction false} DrainEffect(log: seq<LotEntry>, m: int, q: real, user: int)
    requires Drain(log, m, q, user).Some?
    ensures |log| <= |Drain(log, m, q, user).value|
    ensures Available(Drain(log, m, q, user).value, m) == Available(log, m) - Owed(q)
    ensures forall x :: x != m ==> Available(Drain(log, m, q, user).value, x) == Available(log, x)
    ensures forall x :: Moved(Drain(log, m, q, user).value[|log|..], x) == if x == m then -Owed(q) else 0.0
    decreases LotCount(log, m), if q > 0.0 then 1 else 0
  {
    var r := Drain(log, m, q, user).value;
    if q > 0.0 {
      var i := EarliestLot(log, m).value;
      var d := Min(q, log[i].quantity);
      DrainRound(log, m, q, user, i);
      var next := Take(log, i, d, user);
      TakeEffect(log, m, i, d, user);
      DrainEffect(next, m, q - d, user);
      DrainFrame(next, m, q - d, user);
      StepRecordKept(log, r, m, i, d, user);
      EffectRound(log, r, m, OutRecord(log[i], d, user), d, q, |next|);
    } else {
      assert r == log;
      assert r[|log|..] == [];
    }
  }

  /** DrainEffect for one round that took d from lot i, turning `log` into `next`, followed by
      the rounds that turned `next` into `r`. */
  lemma EffectRound(log: seq<LotEntry>, r: seq<LotEntry>, m: int, rec: LotEntry, d: real, q: real, n: nat)
    requires 0.0 < d <= q && rec.material == m && rec.quantity == -d
    requires n == |log| + 1 && n <= |r| && r[|log|] == rec
    requires forall x :: Moved(r[n..], x) == if x == m then -Owed(q - d) else 0.0
    ensures forall x :: Moved(r[|log|..], x) == if x == m then -Owed(q) else 0.0
  {
    assert r[|log|..] == [rec] + r[n..];
    forall x
      ensures Moved(r[|log|..], x) == if x == m then -Owed(q) else 0.0
    {
      MovedConcat([rec], r[n..], x);
      assert [rec][..0] == [];
    }
  }

  /** The FIFO argument for one round that selected lot i, the earliest lot of m, and
      turned `log` into `next`; `r` is what the remaining rounds made of `next`. */
  lemma FifoRound(log: seq<LotEntry>, next: seq<LotEntry>, r: seq<LotEntry>, m: int, i: int, j: int, k: int)
    requires |log| <= |next| <= |r|
    requires IsLot(log, m, i) && IsLot(log, m, j) && IsLot(log, m, k)
    requires k != j && NoLaterThan(log, k, j) && NoLaterThan(log, i, k)
    requires next[i] == log[i].(quantity := next[i].quantity) && next[i].quantity >= 0.0
    requires j != i ==> next[j] == log[j]
    requires k != i ==> next[k] == log[k]
    requires Retains(next[j], r[j], {m}) && Retains(next[k], r[k], {m})
    requires forall x, y ::
               (IsLot(next, m, x) && IsLot(next, m, y) && y != x && NoLaterThan(next, y, x)
                && r[x].quantity < next[x].quantity) ==> r[y].quantity == 0.0
    requires r[j].quantity < log[j].quantity
    ensures r[k].quantity == 0.0
  {
    if r[j].quantity < next[j].quantity {
      assert IsLot(next, m, j);
      if !IsLot(next, m, k) {
        assert k == i;
      } else {
        assert NoLaterThan(next, k, j);
      }
    } else {
      // then j is the selected lot i, yet lot k precedes it
      assert false;
    }
  }

  /** FIFO order: when the loop took anything from a lot of m, every lot of m that comes
      earlier in (expiration_date, id) order was emptied. */
  lemma {:induction false} DrainFifo(log: seq<LotEntry>, m: int, q: real, user: int)
    requires Drain(log, m, q, user).Some?
    ensures var r := Drain(log, m, q, user).value;
      && |log| <= |r|
      && forall j, k ::
           (IsLot(log, m, j) && IsLot(log, m, k) && k != j && NoLaterThan(log, k, j)
            && r[j].quantity < log[j].quantity) ==> r[k].quantity == 0.0
    decreases LotCount(log, m), if q > 0.0 then 1 else 0
  {
    var r := Drain(log, m, q, user).value;
    DrainFrame(log, m, q, user);
    if q > 0.0 {
      var i := EarliestLot(log, m).value;
      var d := Min(q, log[i].quantity);
      var next := Take(log, i, d, user);
      TakeEffect(log, m, i, d, user);
      DrainFifo(next, m, q - d, user);
      DrainFrame(next, m, q - d, user);
      forall j, k | IsLot(log, m, j) && IsLot(log, m, k) && k != j && NoLaterThan(log, k, j)
          && r[j].quantity < log[j].quantity
        ensures r[k].quantity == 0.0
      {
        FifoRound(log, next, r, m, i, j, k);
      }
    } else {
      assert r == log;
    }
  }

  /** One round of the selection list: the lot selected first, then those of the later rounds. */
  lemma DrainedRound(log: seq<LotEntry>, m: int, q: real, user: int, i: nat)
    requires q > 0.0 && EarliestLot(log, m) == Some(i)
    ensures IsLot(log, m, i)
    ensures Drained(log, m, q, user) == [i] + Drained(Take(log, i, Min(q, log[i].quantity), user), m, q - Min(q, log[i].quantity), user)
  {
  }

  /** `r` is `log` after consuming lots of m for `user` with one record per lot in `lots`: the
      lots are distinct lots of m in (expiration_date, id) order, the k-th appended record copies
      the k-th lot and carries the amount it lost (so its total cost is that amount times the
      lot's unit cost), and every row that changed is one of them. */
  ghost predicate Attributed(log: seq<LotEntry>, r: seq<LotEntry>, lots: seq<nat>, m: int, user: int)
  {
    && |r| == |log| + |lots|
    && (forall k :: 0 <= k < |lots| ==> IsLot(log, m, lots[k]))
    && (forall k, k' :: 0 <= k < k' < |lots| ==> lots[k] != lots[k'] && NoLaterThan(log, lots[k], lots[k']))
    && (forall k :: 0 <= k < |lots| ==>
          r[|log| + k] == OutRecord(log[lots[k]], log[lots[k]].quantity - r[lots[k]].quantity, user))
    && (forall j :: 0 <= j < |log| && r[j] != log[j] ==> j in lots)
  }

  /** The audit trail: the records a successful loop appends are attributed, one per selected
      lot and in selection order, to the lots it drained. */
  lemma {:induction false} DrainRecords(log: seq<LotEntry>, m: int, q: real, user: int)
    requires Drain(log, m, q, user).Some?
    ensures Attributed(log, Drain(log, m, q, user).value, Drained(log, m, q, user), m, user)
    decreases LotCount(log, m), if q > 0.0 then 1 else 0
  {
    var r := Drain(log, m, q, user).value;
    if q > 0.0 {
      var i := EarliestLot(log, m).value;
      var d := Min(q, log[i].quantity);
      var next := Take(log, i, d, user);
      TakeEffect(log, m, i, d, user);
      DrainRound(log, m, q, user, i);
      DrainedRound(log, m, q, user, i);
      var rest := Drained(next, m, q - d, user);
      if d < log[i].quantity {
        assert r == next && rest == [];
        PartialRoundAttributed(log, m, i, d, user);
      } else {
        DrainRecords(next, m, q - d, user);
        EmptyingCase(log, r, rest, m, i, q - d, user);
      }
    } else {
      assert r == log;
    }
  }

  /** A round that only lowers lot i ends the loop: the one record is attributed to i. */
  lemma PartialRoundAttributed(log: seq<LotEntry>, m: int, i: nat, d: real, user: int)
    requires IsLot(log, m, i) && 0.0 < d <= log[i].quantity
    ensures Attributed(log, Take(log, i, d, user), [i], m, user)
  {
    var next := Take(log, i, d, user);
    assert next[|log|] == OutRecord(log[i], d, user);
    assert log[i].quantity - next[i].quantity == d;
  }

  /** After lot i is emptied, the lots of the new journal are the other lots of `log`, unchanged. */
  lemma EmptiedLotGone(log: seq<LotEntry>, m: int, i: nat, user: int, j: int)
    requires IsLot(log, m, i)
    requires IsLot(Take(log, i, log[i].quantity, user), m, j)
    ensures j < |log| && j != i && Take(log, i, log[i].quantity, user)[j] == log[j] && IsLot(log, m, j)
  {
    assert Take(log, i, log[i].quantity, user)[|log|] == OutRecord(log[i], log[i].quantity, user);
  }

  /** EmptyingRoundAttributed, with the frame facts drawn from the loop that follows. */
  lemma EmptyingCase(log: seq<LotEntry>, r: seq<LotEntry>, rest: seq<nat>, m: int, i: nat, q: real, user: int)
    requires IsLot(log, m, i)
    requires forall j :: IsLot(log, m, j) ==> NoLaterThan(log, i, j)
    requires Drain(Take(log, i, log[i].quantity, user), m, q, user) == Some(r)
    requires Attributed(Take(log, i, log[i].quantity, user), r, rest, m, user)
    ensures Attributed(log, r, [i] + rest, m, user)
  {
    var next := Take(log, i, log[i].quantity, user);
    DrainFrame(next, m, q, user);
    assert next[i].quantity == 0.0;
    UnheldKept(next, r, {m}, user, i);
    StepRecordKept(log, r, m, i, log[i].quantity, user);
    EmptyingRoundAttributed(log, r, rest, m, i, user);
  }

  /** A round that empties the earliest lot i, followed by rounds attributed to `rest`, is
      attributed to i followed by `rest`. */
  lemma EmptyingRoundAttributed(log: seq<LotEntry>, r: seq<LotEntry>, rest: seq<nat>, m: int, i: nat, user: int)
    requires IsLot(log, m, i)
    requires forall j :: IsLot(log, m, j) ==> NoLaterThan(log, i, j)
    requires Attributed(Take(log, i, log[i].quantity, user), r, rest, m, user)
    requires r[i] == Take(log, i, log[i].quantity, user)[i]
    requires r[|log|] == OutRecord(log[i], log[i].quantity, user)
    ensures Attributed(log, r, [i] + rest, m, user)
  {
    var next := Take(log, i, log[i].quantity, user);
    forall k | 0 <= k < |rest|
      ensures rest[k] < |log| && rest[k] != i && next[rest[k]] == log[rest[k]] && IsLot(log, m, rest[k])
    {
      EmptiedLotGone(log, m, i, user, rest[k]);
    }
    EmptyingRecords(log, next, r, rest, m, i, user);
    EmptyingOrder(log, next, rest, m, i);
    forall j | 0 <= j < |log| && r[j] != log[j]
      ensures j in [i] + rest
    {
      if j != i {
        assert next[j] == log[j];
      }
    }
  }

  lemma EmptyingRecords(log: seq<LotEntry>, next: seq<LotEntry>, r: seq<LotEntry>, rest: seq<nat>, m: int, i: nat, user: int)
    requires i < |log| && next == Take(log, i, log[i].quantity, user)
    requires |r| == |next| + |rest|
    requires r[i] == next[i]
    requires forall k :: 0 <= k < |rest| ==> rest[k] < |log| && next[rest[k]] == log[rest[k]]
    requires forall k :: 0 <= k < |rest| ==>
               r[|next| + k] == OutRecord(next[rest[k]], next[rest[k]].quantity - r[rest[k]].quantity, user)
    requires r[|log|] == next[|log|]
    ensures forall k :: 0 <= k < |[i] + rest| ==>
              r[|log| + k] == OutRecord(log[([i] + rest)[k]], log[([i] + rest)[k]].quantity - r[([i] + rest)[k]].quantity, user)
  {
    var lots := [i] + rest;
    forall k | 0 <= k < |lots|
      ensures r[|log| + k] == OutRecord(log[lots[k]], log[lots[k]].quantity - r[lots[k]].quantity, user)
    {
      if k > 0 {
        assert lots[k] == rest[k - 1];
      }
    }
  }

  lemma EmptyingOrder(log: seq<LotEntry>, next: seq<LotEntry>, rest: seq<nat>, m: int, i: nat)
    requires IsLot(log, m, i) && |log| < |next|
    requires forall j :: IsLot(log, m, j) ==> NoLaterThan(log, i, j)
    requires forall k :: 0 <= k < |rest| ==> rest[k] != i && IsLot(log, m, rest[k]) && next[rest[k]] == log[rest[k]]
    requires forall k, k' :: 0 <= k < k' < |rest| ==> rest[k] < |next| && rest[k'] < |next| && rest[k] != rest[k'] && NoLaterThan(next, rest[k], rest[k'])
    ensures var lots := [i] + rest;
      forall k, k' :: 0 <= k < k' < |lots| ==>
        lots[k] != lots[k'] && lots[k] < |log| && lots[k'] < |log| && NoLaterThan(log, lots[k], lots[k'])
  {
    var lots := [i] + rest;
    forall k, k' | 0 <= k < k' < |lots|
      ensures lots[k] != lots[k'] && lots[k] < |log| && lots[k'] < |log| && NoLaterThan(log, lots[k], lots[k'])
    {
      assert lots[k'] == rest[k' - 1];
      if k > 0 {
        assert lots[k] == rest[k - 1];
      }
    }
  }
}
