/**
 * The two tables as mutable state and the handlers that change them:
 * agregar_consumible (upsert), archivar_consumible (soft deactivation),
 * registrar_entrada and registrar_salida (appends to the ledger), and the two
 * consumable listings.
 */
module Inventory {
  import opened Wrappers
  import opened Order
  import opened Registry
  import opened Ledger

  /** The failures the handlers surface: the CHECK on categoria, the foreign key, the stock guard. */
  datatype Error = InvalidCategory | UnknownConsumable | InsufficientStock(available: real)

  /** The contents of both tables and the SERIAL counter, as one value. */
  datatype Tables = Tables(consumables: Table, movements: seq<Movement>, nextId: nat)

  /**
   * The schema's constraints over both tables (CHECK on categoria, the foreign key,
   * SERIAL ids, the column shape of each row kind) and the stock guard every exit passed.
   */
  ghost predicate Consistent(t: Tables) {
    && CategoriesChecked(t.consumables)
    && 0 < t.nextId
    && (forall i :: 0 <= i < |t.movements| ==> t.movements[i].code in t.consumables)
    && (forall i :: 0 <= i < |t.movements| ==> 0 < t.movements[i].id < t.nextId)
    && (forall i, j :: 0 <= i < j < |t.movements| ==> t.movements[i].id < t.movements[j].id)
    && (forall i :: 0 <= i < |t.movements| ==> WellShaped(t.movements[i]))
    && ExitsGuarded(t.movements)
  }

  /** Appending a well-formed row with the next id, for a registered code, that passes the guard. */
  lemma ConsistentAppend(t: Tables, m: Movement)
    requires Consistent(t)
    requires m.id == t.nextId && m.code in t.consumables && WellShaped(m)
    requires m.kind == Exit ==> Out(m) <= Stock(t.movements, m.code, m.batch)
    ensures Consistent(Tables(t.consumables, t.movements + [m], t.nextId + 1))
  {
    var r := t.movements + [m];
    ExitsGuardedAppend(t.movements, m);
    assert forall i :: 0 <= i < |t.movements| ==> r[i] == t.movements[i];
    assert r[|t.movements|] == m;
    assert forall i :: 0 <= i < |r| ==> r[i].code in t.consumables && WellShaped(r[i]) && 0 < r[i].id < t.nextId + 1;
    assert forall i, j :: 0 <= i < j < |r| ==> r[i].id < r[j].id;
  }

  /**
   * registrar_entrada on the tables: the sequence value is drawn first; an unknown
   * code then violates the foreign key and no row is written.
   */
  function Entered(t: Tables, date: string, batch: string, qty: real, price: real, code: string): (Result<(), Error>, Tables) {
    if code !in t.consumables then
      (Err(UnknownConsumable), t.(nextId := t.nextId + 1))
    else
      (Ok(()), Tables(t.consumables, t.movements + [EntryRow(t.nextId, date, batch, code, qty, price)], t.nextId + 1))
  }

  /**
   * An accepted entry raises its batch's stock by the quantity (lowers it, for a
   * negative one) and leaves every other batch as it was; a rejected one writes nothing.
   */
  lemma EntryStock(t: Tables, date: string, batch: string, qty: real, price: real, code: string)
    ensures var (r, u) := Entered(t, date, batch, qty, price, code);
      && (r.Ok? <==> code in t.consumables)
      && u.consumables == t.consumables && u.nextId == t.nextId + 1
      && (r.Err? ==> r.error == UnknownConsumable && u.movements == t.movements)
      && (r.Ok? ==> Stock(u.movements, code, batch) == Stock(t.movements, code, batch) + qty)
      && (forall c, b :: c != code || b != batch ==> Stock(u.movements, c, b) == Stock(t.movements, c, b))
  {
    if code in t.consumables {
      StockAfterEntry(t.movements, EntryRow(t.nextId, date, batch, code, qty, price));
    }
  }

  /** Entries keep the tables consistent. */
  lemma EntryConsistent(t: Tables, date: string, batch: string, qty: real, price: real, code: string)
    requires Consistent(t)
    ensures Consistent(Entered(t, date, batch, qty, price, code).1)
  {
    if code in t.consumables {
      ConsistentAppend(t, EntryRow(t.nextId, date, batch, code, qty, price));
    }
  }

  /**
   * registrar_salida on the tables: the guard against the batch's available stock
   * comes first and writes nothing; past it, the foreign key still rejects an unknown
   * code after drawing a sequence value.
   */
  function Exited(t: Tables, date: string, code: string, batch: string, document: string, qty: real): (Result<(), Error>, Tables) {
    var available := Stock(t.movements, code, batch);
    if qty > available then
      (Err(InsufficientStock(available)), t)
    else if code !in t.consumables then
      (Err(UnknownConsumable), t.(nextId := t.nextId + 1))
    else
      (Ok(()), Tables(t.consumables, t.movements + [ExitRow(t.nextId, date, code, batch, document, qty)], t.nextId + 1))
  }

  /**
   * An exit is accepted exactly when the quantity is within the batch's stock and the
   * code is registered; the refusal reports the stock it saw; an accepted exit lowers
   * that batch's stock by the quantity, and no other batch's stock ever changes.
   */
  lemma ExitStock(t: Tables, date: string, code: string, batch: string, document: string, qty: real)
    ensures var (r, u) := Exited(t, date, code, batch, document, qty);
      && (r.Ok? <==> qty <= Stock(t.movements, code, batch) && code in t.consumables)
      && u.consumables == t.consumables
      && (qty > Stock(t.movements, code, batch) ==>
            r == Err(InsufficientStock(Stock(t.movements, code, batch))) && u == t)
      && (r == Err(UnknownConsumable) ==> u.movements == t.movements && u.nextId == t.nextId + 1)
      && (r.Ok? ==> Stock(u.movements, code, batch) == Stock(t.movements, code, batch) - qty)
      && (forall c, b :: c != code || b != batch ==> Stock(u.movements, c, b) == Stock(t.movements, c, b))
  {
    if qty <= Stock(t.movements, code, batch) && code in t.consumables {
      StockAfterExit(t.movements, ExitRow(t.nextId, date, code, batch, document, qty));
    }
  }

  /** Exits keep the tables consistent, the stock guard included. */
  lemma ExitConsistent(t: Tables, date: string, code: string, batch: string, document: string, qty: real)
    requires Consistent(t)
    ensures Consistent(Exited(t, date, code, batch, document, qty).1)
  {
    if qty <= Stock(t.movements, code, batch) && code in t.consumables {
      ConsistentAppend(t, ExitRow(t.nextId, date, code, batch, document, qty));
    }
  }

  /** An exit of a registered code for exactly the available stock is accepted and empties that batch. */
  lemma ExitAllSucceeds(t: Tables, date: string, code: string, batch: string, document: string)
    requires code in t.consumables
    ensures var (r, u) := Exited(t, date, code, batch, document, Stock(t.movements, code, batch));
      r.Ok? && Stock(u.movements, code, batch) == 0.0
  {
    ExitAllLeavesZero(t.movements, t.nextId, date, code, batch, document);
  }

  /**
   * No negative stock: starting from consistent tables with no negative entry, an entry
   * of a non-negative quantity or any exit leaves every batch's stock at 0 or above.
   */
  lemma EntryNeverNegative(t: Tables, date: string, batch: string, qty: real, price: real, code: string)
    requires Consistent(t) && EntriesNonNegative(t.movements) && qty >= 0.0
    ensures var u := Entered(t, date, batch, qty, price, code).1;
      EntriesNonNegative(u.movements) && forall c, b :: Stock(u.movements, c, b) >= 0.0
  {
    EntryConsistent(t, date, batch, qty, price, code);
    var u := Entered(t, date, batch, qty, price, code).1;
    assert forall i :: 0 <= i < |t.movements| ==> u.movements[i] == t.movements[i];
    NeverNegative(u.movements);
  }

  lemma ExitNeverNegative(t: Tables, date: string, code: string, batch: string, document: string, qty: real)
    requires Consistent(t) && EntriesNonNegative(t.movements)
    ensures var u := Exited(t, date, code, batch, document, qty).1;
      EntriesNonNegative(u.movements) && forall c, b :: Stock(u.movements, c, b) >= 0.0
  {
    ExitConsistent(t, date, code, batch, document, qty);
    var u := Exited(t, date, code, batch, document, qty).1;
    assert forall i :: 0 <= i < |t.movements| ==> u.movements[i] == t.movements[i];
    NeverNegative(u.movements);
  }

  class Inventory {
    /** `consumibles`, keyed by `codigo_hoja`. */
    var consumables: Table
    /** `movimientos`, in insertion order. */
    var movements: seq<Movement>
    /** The next value of the SERIAL sequence behind `movimientos.id`. */
    var nextId: nat

    /** The three fields as one value. */
    function State(): Tables
      reads this
    {
      Tables(consumables, movements, nextId)
    }

    /** The constraints of the schema, and the stock guard every exit passed. */
    ghost predicate Valid()
      reads this
    {
      Consistent(State())
    }

    /** Empty tables; SERIAL starts at 1. */
    constructor ()
      ensures Valid()
      ensures consumables == map[] && movements == [] && nextId == 1
    {
      consumables := map[];
      movements := [];
      nextId := 1;
    }

    /**
     * agregar_consumible: a category outside the five is rejected and nothing changes;
     * otherwise the code gets exactly one row with the new name and category.
     */
    method Upsert(code: string, name: string, category: string) returns (r: Result<(), Error>)
      requires Valid()
      modifies this
      ensures Valid()
      ensures movements == old(movements) && nextId == old(nextId)
      ensures r.Err? <==> category !in Categories
      ensures r.Err? ==> r.error == InvalidCategory && consumables == old(consumables)
      ensures r.Ok? ==> consumables == Upserted(old(consumables), code, name, category)
    {
      if category !in Categories {
        return Err(InvalidCategory);
      }
      consumables := Upserted(consumables, code, name, category);
      r := Ok(());
    }

    /** archivar_consumible: only that code's `activo` becomes false; an unknown code changes nothing. */
    method Deactivate(code: string)
      requires Valid()
      modifies this
      ensures Valid()
      ensures movements == old(movements) && nextId == old(nextId)
      ensures consumables == Deactivated(old(consumables), code)
    {
      consumables := Deactivated(consumables, code);
    }

    /**
     * registrar_entrada: draws the next id, then appends one entry row (entrada =
     * existencias = quantity, no salida, documento = batch) unless the code is unknown.
     */
    method RecordEntry(date: string, batch: string, qty: real, price: real, code: string) returns (r: Result<(), Error>)
      requires Valid()
      modifies this
      ensures Valid()
      ensures (r, State()) == Entered(old(State()), date, batch, qty, price, code)
    {
      EntryConsistent(State(), date, batch, qty, price, code);
      var id := nextId;
      nextId := nextId + 1;
      if code !in consumables {
        r := Err(UnknownConsumable);
      } else {
        movements := movements + [EntryRow(id, date, batch, code, qty, price)];
        r := Ok(());
      }
    }

    /**
     * registrar_salida: reads the batch's available stock and refuses a quantity above
     * it; otherwise draws the next id and appends one exit row unless the code is unknown.
     */
    method RecordExit(date: string, code: string, batch: string, document: string, qty: real) returns (r: Result<(), Error>)
      requires Valid()
      modifies this
      ensures Valid()
      ensures (r, State()) == Exited(old(State()), date, code, batch, document, qty)
    {
      ExitConsistent(State(), date, code, batch, document, qty);
      var available := Stock(movements, code, batch);
      if qty > available {
        r := Err(InsufficientStock(available));
      } else {
        var id := nextId;
        nextId := nextId + 1;
        if code !in consumables {
          r := Err(UnknownConsumable);
        } else {
          movements := movements + [ExitRow(id, date, code, batch, document, qty)];
          r := Ok(());
        }
      }
    }

    /** The consumables (all, or only the active ones) as listed rows, in no particular order. */
    method Rows(onlyActive: bool) returns (rows: seq<Listed>)
      requires Valid()
      ensures forall x :: x in rows <==>
                x.code in consumables && x == ListedOf(consumables, x.code) && (onlyActive ==> consumables[x.code].active)
      ensures NoDup(rows)
    {
      var left := consumables.Keys;
      rows := [];
      while left != {}
        invariant left <= consumables.Keys
        invariant forall x :: x in rows <==>
                    x.code in consumables && x.code !in left && x == ListedOf(consumables, x.code) &&
                    (onlyActive ==> consumables[x.code].active)
        invariant NoDup(rows)
        decreases left
      {
        var c :| c in left;
        if !onlyActive || consumables[c].active {
          rows := rows + [ListedOf(consumables, c)];
        }
        left := left - {c};
      }
    }

    /**
     * The consumables page: the active consumables, one row per code, ordered by
     * category and then name.
     */
    method ListActive() returns (r: seq<Listed>)
      requires Valid()
      ensures Sorted(r, CategoryNameKey)
      ensures forall x :: x in r ==> x.code in ActiveCodes(consumables) && x == ListedOf(consumables, x.code)
      ensures forall c :: c in ActiveCodes(consumables) ==> ListedOf(consumables, c) in r
      ensures forall i, j :: 0 <= i < j < |r| ==> r[i].code != r[j].code
    {
      var rows := Rows(true);
      r := SortBy(rows, CategoryNameKey);
      forall x ensures x in r <==> x in rows { SortByMembers(rows, CategoryNameKey, x); }
      NoDupPermutation(rows, r);
    }

    /** The stock page's consumable list: every consumable, active or not, one row per code, ordered by name. */
    method ListAll() returns (r: seq<Listed>)
      requires Valid()
      ensures Sorted(r, NameKey)
      ensures forall x :: x in r ==> x.code in consumables && x == ListedOf(consumables, x.code)
      ensures forall c :: c in consumables ==> ListedOf(consumables, c) in r
      ensures forall i, j :: 0 <= i < j < |r| ==> r[i].code != r[j].code
    {
      var rows := Rows(false);
      r := SortBy(rows, NameKey);
      forall x ensures x in r <==> x in rows { SortByMembers(rows, NameKey, x); }
      NoDupPermutation(rows, r);
    }
  }

  /** An example: 100 units in, 30 out leaves 70, and then 80 out is refused. */
  method Example() {
    var inv := new Inventory();
    var r := inv.Upsert("C1", "Carton 40x60", "carton");
    assert r.Ok?;
    r := inv.RecordEntry("2024-01-01", "L1", 100.0, 2.5, "C1");
    assert r.Ok?;
    StockAppend([], inv.movements[0], "C1", "L1");
    assert Stock(inv.movements, "C1", "L1") == 100.0;
    r := inv.RecordExit("2024-01-02", "C1", "L1", "ALB-7", 30.0);
    assert r.Ok? && Stock(inv.movements, "C1", "L1") == 70.0;
    r := inv.RecordExit("2024-01-03", "C1", "L1", "ALB-8", 80.0);
    assert r == Err(InsufficientStock(70.0));
    inv.Deactivate("C1");
    var active := inv.ListActive();
    var all := inv.ListAll();
    DeactivateHides(Upserted(map[], "C1", "Carton 40x60", "carton"), "C1");
    assert ActiveCodes(inv.consumables) == {};
    if active != [] { assert active[0] in active; }
    assert ListedOf(inv.consumables, "C1") in all;
  }
}
