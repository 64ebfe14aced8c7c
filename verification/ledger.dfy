/**
 * The `movimientos` table: an append-only sequence of entry and exit rows, and
 * the aggregations the queries compute over it (available stock per
 * (consumable, batch), the maximum entry price, the per-batch stock view).
 */
module Ledger {
  import opened Wrappers
  import opened Order

  /** `tipo`: 'entrada' or 'salida'. */
  datatype Kind = Entry | Exit

  /**
   * A row of `movimientos`: id, fecha, tipo, id_lote, documento, nombre_consumible
   * (the consumable's code), entrada, salida, existencias, precio_unitario.
   */
  datatype Movement = Movement(
    id: nat, date: string, kind: Kind, batch: string, document: string, code: string,
    qtyIn: Option<real>, qtyOut: Option<real>, balance: Option<real>, unitPrice: Option<real>)

  /** The row registrar_entrada inserts: the document is the batch code and `existencias` the entry's own quantity. */
  function EntryRow(id: nat, date: string, batch: string, code: string, qty: real, price: real): (m: Movement)
    ensures m.kind == Entry && WellShaped(m) && Matches(m, code, batch) && m.id == id
    ensures In(m) == qty && Out(m) == 0.0 && m.balance == Some(qty) && m.unitPrice == Some(price)
  {
    Movement(id, date, Entry, batch, batch, code, Some(qty), None, Some(qty), Some(price))
  }

  /** The row registrar_salida inserts: only `salida` is set among the quantities. */
  function ExitRow(id: nat, date: string, code: string, batch: string, document: string, qty: real): (m: Movement)
    ensures m.kind == Exit && WellShaped(m) && Matches(m, code, batch) && m.id == id && m.document == document
    ensures In(m) == 0.0 && Out(m) == qty && m.balance == None && m.unitPrice == None
  {
    Movement(id, date, Exit, batch, document, code, None, Some(qty), None, None)
  }

  /** The column shape each of the two INSERT statements produces. */
  predicate WellShaped(m: Movement) {
    match m.kind
    case Entry =>
      m.qtyIn.Some? && m.qtyOut == None && m.balance == m.qtyIn && m.unitPrice.Some? && m.document == m.batch
    case Exit =>
      m.qtyIn == None && m.qtyOut.Some? && m.balance == None && m.unitPrice == None
  }

  predicate Matches(m: Movement, code: string, batch: string) {
    m.code == code && m.batch == batch
  }

  /** COALESCE(entrada, 0) */
  function In(m: Movement): real { m.qtyIn.GetOr(0.0) }

  /** COALESCE(salida, 0) */
  function Out(m: Movement): real { m.qtyOut.GetOr(0.0) }

  /** SUM(COALESCE(entrada, 0)) over the rows of (code, batch). */
  function SumIn(rows: seq<Movement>, code: string, batch: string): real {
    if rows == [] then 0.0
    else
      var last := rows[|rows| - 1];
      SumIn(rows[..|rows| - 1], code, batch) + (if Matches(last, code, batch) then In(last) else 0.0)
  }

  /** SUM(COALESCE(salida, 0)) over the rows of (code, batch). */
  function SumOut(rows: seq<Movement>, code: string, batch: string): real {
    if rows == [] then 0.0
    else
      var last := rows[|rows| - 1];
      SumOut(rows[..|rows| - 1], code, batch) + (if Matches(last, code, batch) then Out(last) else 0.0)
  }

  /**
   * Available stock of a batch: entries minus exits over its rows. With no row the
   * SQL difference is NULL, which `or 0` turns into 0, the value the sums give.
   */
  function Stock(rows: seq<Movement>, code: string, batch: string): real {
    SumIn(rows, code, batch) - SumOut(rows, code, batch)
  }

  /** Appending a row changes only its own batch's stock, by entrada minus salida. */
  lemma StockAppend(rows: seq<Movement>, m: Movement, code: string, batch: string)
    ensures Stock(rows + [m], code, batch) ==
            Stock(rows, code, batch) + (if Matches(m, code, batch) then In(m) - Out(m) else 0.0)
  {
    assert (rows + [m])[..|rows|] == rows;
  }

  /** A batch without rows has stock 0, never NULL. */
  lemma {:induction false} StockWithoutRows(rows: seq<Movement>, code: string, batch: string)
    requires forall i :: 0 <= i < |rows| ==> !Matches(rows[i], code, batch)
    ensures Stock(rows, code, batch) == 0.0
  {
    if rows != [] {
      var p := rows[..|rows| - 1];
      assert forall i :: 0 <= i < |p| ==> p[i] == rows[i];
      StockWithoutRows(p, code, batch);
    }
  }

  /** A batch with non-zero stock has at least one row. */
  lemma StockHasRow(rows: seq<Movement>, code: string, batch: string)
    requires Stock(rows, code, batch) != 0.0
    ensures exists i :: 0 <= i < |rows| && Matches(rows[i], code, batch)
  {
    if forall i :: 0 <= i < |rows| ==> !Matches(rows[i], code, batch) {
      StockWithoutRows(rows, code, batch);
    }
  }

  /** An entry row raises its own batch's stock by its quantity and leaves every other batch alone. */
  lemma StockAfterEntry(rows: seq<Movement>, m: Movement)
    requires m.kind == Entry && WellShaped(m)
    ensures Stock(rows + [m], m.code, m.batch) == Stock(rows, m.code, m.batch) + In(m)
    ensures forall c, b :: c != m.code || b != m.batch ==> Stock(rows + [m], c, b) == Stock(rows, c, b)
  {
    StockAppend(rows, m, m.code, m.batch);
    forall c, b | c != m.code || b != m.batch ensures Stock(rows + [m], c, b) == Stock(rows, c, b) {
      StockAppend(rows, m, c, b);
    }
  }

  /** An exit row lowers its own batch's stock by its quantity and leaves every other batch alone. */
  lemma StockAfterExit(rows: seq<Movement>, m: Movement)
    requires m.kind == Exit && WellShaped(m)
    ensures Stock(rows + [m], m.code, m.batch) == Stock(rows, m.code, m.batch) - Out(m)
    ensures forall c, b :: c != m.code || b != m.batch ==> Stock(rows + [m], c, b) == Stock(rows, c, b)
  {
    StockAppend(rows, m, m.code, m.batch);
    forall c, b | c != m.code || b != m.batch ensures Stock(rows + [m], c, b) == Stock(rows, c, b) {
      StockAppend(rows, m, c, b);
    }
  }

  /** An exit of exactly the available stock leaves that batch at 0. */
  lemma ExitAllLeavesZero(rows: seq<Movement>, id: nat, date: string, code: string, batch: string, document: string)
    ensures Stock(rows + [ExitRow(id, date, code, batch, document, Stock(rows, code, batch))], code, batch) == 0.0
  {
    StockAppend(rows, ExitRow(id, date, code, batch, document, Stock(rows, code, batch)), code, batch);
  }

  /** Every exit row took at most the stock its batch had just before it: the guard of registrar_salida. */
  ghost predicate ExitsGuarded(rows: seq<Movement>) {
    rows == [] ||
    var p, last := rows[..|rows| - 1], rows[|rows| - 1];
    ExitsGuarded(p) && (last.kind == Exit ==> Out(last) <= Stock(p, last.code, last.batch))
  }

  /** The guard held for the row at `i`, against the rows before it. */
  lemma {:induction false} ExitGuardedAt(rows: seq<Movement>, i: nat)
    requires ExitsGuarded(rows) && i < |rows| && rows[i].kind == Exit
    ensures Out(rows[i]) <= Stock(rows[..i], rows[i].code, rows[i].batch)
  {
    if i < |rows| - 1 {
      var p := rows[..|rows| - 1];
      assert p[i] == rows[i] && p[..i] == rows[..i];
      ExitGuardedAt(p, i);
    }
  }

  /** No entry row has a negative quantity (the handlers do not check this). */
  ghost predicate EntriesNonNegative(rows: seq<Movement>) {
    forall i :: 0 <= i < |rows| && rows[i].kind == Entry ==> In(rows[i]) >= 0.0
  }

  /** Appending an entry, or an exit that passes the guard, keeps the exits guarded. */
  lemma ExitsGuardedAppend(rows: seq<Movement>, m: Movement)
    requires ExitsGuarded(rows)
    requires m.kind == Exit ==> Out(m) <= Stock(rows, m.code, m.batch)
    ensures ExitsGuarded(rows + [m])
  {
    assert (rows + [m])[..|rows|] == rows;
  }

  /**
   * If no entry is negative, a ledger whose exits all passed the guard has no
   * batch with negative stock.
   */
  lemma {:induction false} NeverNegative(rows: seq<Movement>)
    requires forall i :: 0 <= i < |rows| ==> WellShaped(rows[i])
    requires EntriesNonNegative(rows)
    requires ExitsGuarded(rows)
    ensures forall code, batch :: Stock(rows, code, batch) >= 0.0
  {
    if rows != [] {
      var n := |rows| - 1;
      var p := rows[..n];
      var m := rows[n];
      assert forall i :: 0 <= i < n ==> p[i] == rows[i];
      NeverNegative(p);
      assert rows == p + [m];
      forall code, batch ensures Stock(rows, code, batch) >= 0.0 {
        StockAppend(p, m, code, batch);
      }
    }
  }

  /** The entry-row price of a row for (code, batch): CASE WHEN tipo = 'entrada' THEN precio_unitario ELSE NULL END. */
  function EntryPrice(m: Movement, code: string, batch: string): Option<real> {
    if Matches(m, code, batch) && m.kind == Entry then m.unitPrice else None
  }

  /** SQL MAX of two nullable values: NULLs are skipped. */
  function MaxOf(a: Option<real>, b: Option<real>): Option<real> {
    match (a, b)
    case (None, _) => b
    case (_, None) => a
    case (Some(x), Some(y)) => Some(if x < y then y else x)
  }

  /** MAX(CASE WHEN tipo = 'entrada' THEN precio_unitario ELSE NULL END) for one group. */
  function MaxEntryPrice(rows: seq<Movement>, code: string, batch: string): (r: Option<real>)
    ensures r.None? <==> forall i :: 0 <= i < |rows| ==> EntryPrice(rows[i], code, batch).None?
    ensures r.Some? ==> exists i :: 0 <= i < |rows| && EntryPrice(rows[i], code, batch) == r
    ensures forall i :: 0 <= i < |rows| && EntryPrice(rows[i], code, batch).Some? ==>
              r.Some? && EntryPrice(rows[i], code, batch).value <= r.value
  {
    if rows == [] then None
    else
      var p := rows[..|rows| - 1];
      assert forall i :: 0 <= i < |p| ==> p[i] == rows[i];
      MaxOf(MaxEntryPrice(p, code, batch), EntryPrice(rows[|rows| - 1], code, batch))
  }

  /** A row of the per-batch stock query: nombre_consumible, id_lote, stock, precio_unitario. */
  datatype StockRow = StockRow(code: string, batch: string, stock: real, price: Option<real>)

  /** The (nombre_consumible, id_lote) group a stock row stands for. */
  function GroupOf(g: StockRow): (string, string) { (g.code, g.batch) }

  function PairOf(m: Movement): (string, string) { (m.code, m.batch) }

  /** HAVING stock > 0 over the groups `groups`, each with its stock and its maximum entry price. */
  function Having(rows: seq<Movement>, groups: seq<(string, string)>): (r: seq<StockRow>)
    ensures forall g :: g in r ==>
              (g.code, g.batch) in groups && g.stock > 0.0 && g.stock == Stock(rows, g.code, g.batch) &&
              g.price == MaxEntryPrice(rows, g.code, g.batch)
    ensures forall k :: 0 <= k < |groups| && Stock(rows, groups[k].0, groups[k].1) > 0.0 ==>
              exists g :: g in r && g.code == groups[k].0 && g.batch == groups[k].1
    ensures NoDup(groups) ==> forall i, j :: 0 <= i < j < |r| ==> (r[i].code, r[i].batch) != (r[j].code, r[j].batch)
  {
    if groups == [] then []
    else
      var (code, batch) := groups[0];
      var stock := Stock(rows, code, batch);
      var rest := Having(rows, groups[1..]);
      assert NoDup(groups) ==> NoDup(groups[1..]) && groups[0] !in groups[1..];
      if stock > 0.0 then [StockRow(code, batch, stock, MaxEntryPrice(rows, code, batch))] + rest else rest
  }

  /**
   * The per-batch stock query: GROUP BY (nombre_consumible, id_lote) HAVING stock > 0.
   * Exactly one row per (code, batch) with positive stock, carrying that stock and
   * the batch's maximum entry price (NULL when it has no priced entry).
   */
  function StockGroups(rows: seq<Movement>): (r: seq<StockRow>)
    ensures forall g :: g in r ==>
              g.stock > 0.0 && g.stock == Stock(rows, g.code, g.batch) && g.price == MaxEntryPrice(rows, g.code, g.batch)
    ensures forall code, batch :: Stock(rows, code, batch) > 0.0 ==>
              exists g :: g in r && g.code == code && g.batch == batch
    ensures forall i, j :: 0 <= i < j < |r| ==> (r[i].code, r[i].batch) != (r[j].code, r[j].batch)
  {
    var groups := Distinct(rows, PairOf);
    assert forall code, batch :: Stock(rows, code, batch) > 0.0 ==> (code, batch) in groups by {
      forall code, batch | Stock(rows, code, batch) > 0.0 ensures (code, batch) in groups {
        StockHasRow(rows, code, batch);
        var i :| 0 <= i < |rows| && Matches(rows[i], code, batch);
        assert PairOf(rows[i]) == (code, batch);
      }
    }
    Having(rows, groups)
  }
}
