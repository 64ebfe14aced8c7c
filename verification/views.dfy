/**
 * What the read-only pages compute from the two tables: the batches offered on the
 * exit form, the filtered stock page, and the PDF report's rows, sections and totals.
 */
module Views {
  import opened Wrappers
  import opened Order
  import opened Registry
  import opened Ledger

  // ---------------------------------------------------------------- exit form

  /** What salida_form shows: the effective filter, the (batch, stock) pairs offered, and whether it warned. */
  datatype ExitForm = ExitForm(filter: string, batches: seq<(string, real)>, warning: bool)

  /** The (id_lote, stock) rows of the per-batch query restricted to one consumable. */
  function BatchesOf(groups: seq<StockRow>, code: string): (r: seq<(string, real)>)
    ensures forall p :: p in r <==> exists g :: g in groups && g.code == code && p == (g.batch, g.stock)
  {
    if groups == [] then []
    else
      var rest := BatchesOf(groups[1..], code);
      assert forall g :: g in groups <==> g == groups[0] || g in groups[1..];
      if groups[0].code == code then [(groups[0].batch, groups[0].stock)] + rest else rest
  }

  /** The batches the exit form offers for `code`: each batch of `code` with positive stock, once. */
  lemma BatchesOfStock(rows: seq<Movement>, code: string)
    ensures forall p :: p in BatchesOf(StockGroups(rows), code) ==> p.1 > 0.0 && p.1 == Stock(rows, code, p.0)
    ensures forall b :: Stock(rows, code, b) > 0.0 ==> (b, Stock(rows, code, b)) in BatchesOf(StockGroups(rows), code)
    ensures forall i, j :: 0 <= i < j < |BatchesOf(StockGroups(rows), code)| ==>
              BatchesOf(StockGroups(rows), code)[i].0 != BatchesOf(StockGroups(rows), code)[j].0
  {
    var groups := StockGroups(rows);
    forall b | Stock(rows, code, b) > 0.0 ensures (b, Stock(rows, code, b)) in BatchesOf(groups, code) {
      BatchOffered(rows, groups, code, b);
    }
    BatchesDistinct(groups, code);
  }

  lemma BatchOffered(rows: seq<Movement>, groups: seq<StockRow>, code: string, b: string)
    requires groups == StockGroups(rows) && Stock(rows, code, b) > 0.0
    ensures (b, Stock(rows, code, b)) in BatchesOf(groups, code)
  {
    var g :| g in groups && g.code == code && g.batch == b;
    assert g in groups && g.code == code && (b, Stock(rows, code, b)) == (g.batch, g.stock);
  }

  /**
   * salida_form: a non-empty filter that is not an active code gives a warning, an
   * empty filter and no batches; otherwise a non-empty filter lists each batch of
   * that code with positive stock, once.
   */
  function ExitFormView(m: Table, rows: seq<Movement>, filter: string): (v: ExitForm)
    ensures v.warning <==> filter != "" && filter !in ActiveCodes(m)
    ensures v.filter == (if v.warning then "" else filter)
    ensures v.filter == "" ==> v.batches == []
    ensures forall p :: p in v.batches ==> p.1 > 0.0 && p.1 == Stock(rows, v.filter, p.0)
    ensures v.filter != "" ==> forall b :: Stock(rows, filter, b) > 0.0 ==> (b, Stock(rows, filter, b)) in v.batches
    ensures forall i, j :: 0 <= i < j < |v.batches| ==> v.batches[i].0 != v.batches[j].0
  {
    if filter != "" && filter !in ActiveCodes(m) then ExitForm("", [], true)
    else if filter == "" then ExitForm(filter, [], false)
    else
      BatchesOfStock(rows, filter);
      ExitForm(filter, BatchesOf(StockGroups(rows), filter), false)
  }

  lemma {:induction false} BatchesDistinct(groups: seq<StockRow>, code: string)
    requires forall i, j :: 0 <= i < j < |groups| ==> (groups[i].code, groups[i].batch) != (groups[j].code, groups[j].batch)
    ensures forall i, j :: 0 <= i < j < |BatchesOf(groups, code)| ==>
              BatchesOf(groups, code)[i].0 != BatchesOf(groups, code)[j].0
  {
    if groups != [] {
      var rest := BatchesOf(groups[1..], code);
      BatchesDistinct(groups[1..], code);
      if groups[0].code == code {
        forall p | p in rest ensures p.0 != groups[0].batch {
          var g :| g in groups[1..] && g.code == code && p == (g.batch, g.stock);
          var k :| 0 <= k < |groups[1..]| && groups[1..][k] == g;
          assert groups[k + 1] == g;
        }
        var r := BatchesOf(groups, code);
        assert r == [(groups[0].batch, groups[0].stock)] + rest;
        forall i, j | 0 <= i < j < |r| ensures r[i].0 != r[j].0 {
          if i == 0 { assert r[j] == rest[j - 1]; }
          else { assert r[i] == rest[i - 1] && r[j] == rest[j - 1]; }
        }
      }
    }
  }

  // ---------------------------------------------------------------- stock page

  /** The list comprehension of ver_stock: an empty filter value matches everything. */
  predicate Selected(g: StockRow, code: string, batch: string) {
    (code == "" || code == g.code) && (batch == "" || batch == g.batch)
  }

  /**
   * The rows of `rs` that pass both filters, in their original order: nothing is added
   * or repeated, and rows that were one per group stay one per group.
   */
  function FilterStock(rs: seq<StockRow>, code: string, batch: string): (r: seq<StockRow>)
    ensures forall g :: g in r <==> g in rs && Selected(g, code, batch)
    ensures multiset(r) <= multiset(rs)
    ensures UniqueBy(rs, GroupOf) ==> UniqueBy(r, GroupOf)
  {
    if rs == [] then []
    else
      var rest := FilterStock(rs[1..], code, batch);
      assert rs == [rs[0]] + rs[1..];
      assert forall g :: g in rs <==> g == rs[0] || g in rs[1..];
      UniqueByCons(rs[0], rs[1..], GroupOf);
      if Selected(rs[0], code, batch) then
        UniqueByCons(rs[0], rest, GroupOf);
        [rs[0]] + rest
      else rest
  }

  /** With both filters empty the page shows every row, in the same order. */
  lemma {:induction false} FilterEmptyKeepsAll(rs: seq<StockRow>)
    ensures FilterStock(rs, "", "") == rs
  {
    if rs != [] {
      FilterEmptyKeepsAll(rs[1..]);
      assert rs == [rs[0]] + rs[1..];
    }
  }

  /**
   * ver_stock: the batches with positive stock that pass the filters, each once,
   * with its stock and its maximum entry price.
   */
  function StockView(rows: seq<Movement>, code: string, batch: string): (r: seq<StockRow>)
    ensures forall g :: g in r ==>
              Selected(g, code, batch) && g.stock > 0.0 && g.stock == Stock(rows, g.code, g.batch) &&
              g.price == MaxEntryPrice(rows, g.code, g.batch)
    ensures forall c, b :: Stock(rows, c, b) > 0.0 && (code == "" || code == c) && (batch == "" || batch == b) ==>
              exists g :: g in r && g.code == c && g.batch == b
    ensures forall i, j :: 0 <= i < j < |r| ==> (r[i].code, r[i].batch) != (r[j].code, r[j].batch)
  {
    FilterComplete(rows, code, batch);
    assert UniqueBy(StockGroups(rows), GroupOf);
    FilterStock(StockGroups(rows), code, batch)
  }

  /** Every batch with positive stock that passes the filters survives the filter. */
  lemma FilterComplete(rows: seq<Movement>, code: string, batch: string)
    ensures forall c, b :: Stock(rows, c, b) > 0.0 && (code == "" || code == c) && (batch == "" || batch == b) ==>
              exists g :: g in FilterStock(StockGroups(rows), code, batch) && g.code == c && g.batch == b
  {
    var groups := StockGroups(rows);
    var r := FilterStock(groups, code, batch);
    forall c, b | Stock(rows, c, b) > 0.0 && (code == "" || code == c) && (batch == "" || batch == b)
      ensures exists g :: g in r && g.code == c && g.batch == b
    {
      var g :| g in groups && g.code == c && g.batch == b;
      assert Selected(g, code, batch);
      assert g in r;
    }
  }

  // ---------------------------------------------------------------- PDF report

  /** A row of the report query: nombre_mostrado, nombre_consumible, id_lote, stock, precio. */
  datatype ReportRow = ReportRow(name: string, code: string, batch: string, stock: real, price: Option<real>)

  /** JOIN consumibles ON nombre_consumible = codigo_hoja (an inner join). */
  function Joined(m: Table, groups: seq<StockRow>): (r: seq<ReportRow>)
    ensures forall x :: x in r <==>
              exists g :: g in groups && g.code in m && x == ReportRow(m[g.code].name, g.code, g.batch, g.stock, g.price)
    ensures UniqueBy(groups, GroupOf) ==> UniqueBy(r, ReportGroupOf)
  {
    if groups == [] then []
    else
      var g := groups[0];
      var rest := Joined(m, groups[1..]);
      assert groups == [g] + groups[1..];
      assert forall h :: h in groups <==> h == g || h in groups[1..];
      UniqueByCons(g, groups[1..], GroupOf);
      if g.code in m then
        var x := ReportRow(m[g.code].name, g.code, g.batch, g.stock, g.price);
        UniqueByCons(x, rest, ReportGroupOf);
        [x] + rest
      else rest
  }

  /** The (nombre_consumible, id_lote) group a report row stands for. */
  function ReportGroupOf(x: ReportRow): (string, string) { (x.code, x.batch) }

  /** ORDER BY c.nombre_mostrado, m.id_lote */
  function ReportKey(x: ReportRow): seq<string> { [x.name, x.batch] }

  /** Every batch with positive stock of a registered consumable survives the join. */
  lemma JoinedComplete(m: Table, rows: seq<Movement>, c: string, b: string)
    requires c in m && Stock(rows, c, b) > 0.0
    ensures exists x :: x in Joined(m, StockGroups(rows)) && x.code == c && x.batch == b
  {
    var groups := StockGroups(rows);
    var g :| g in groups && g.code == c && g.batch == b;
    var x := ReportRow(m[c].name, c, b, g.stock, g.price);
    assert g in groups && g.code in m && x == ReportRow(m[g.code].name, g.code, g.batch, g.stock, g.price);
    assert x in Joined(m, groups);
  }

  /**
   * The rows of generar_informe_pdf: every batch with positive stock of a registered
   * consumable, with the consumable's display name, ordered by name then batch.
   */
  function ReportRows(m: Table, rows: seq<Movement>): (r: seq<ReportRow>)
    ensures Sorted(r, ReportKey)
    ensures forall x :: x in r ==>
              x.code in m && x.name == m[x.code].name && x.stock > 0.0 && x.stock == Stock(rows, x.code, x.batch) &&
              x.price == MaxEntryPrice(rows, x.code, x.batch)
    ensures forall c, b :: c in m && Stock(rows, c, b) > 0.0 ==> exists x :: x in r && x.code == c && x.batch == b
    ensures forall i, j :: 0 <= i < j < |r| ==> (r[i].code, r[i].batch) != (r[j].code, r[j].batch)
  {
    assert UniqueBy(StockGroups(rows), GroupOf);
    var joined := Joined(m, StockGroups(rows));
    var r := SortBy(joined, ReportKey);
    UniqueByPermutation(joined, r, ReportGroupOf);
    assert UniqueBy(r, ReportGroupOf);
    forall x ensures x in r <==> x in joined { SortByMembers(joined, ReportKey, x); }
    forall c, b | c in m && Stock(rows, c, b) > 0.0 ensures exists x :: x in r && x.code == c && x.batch == b {
      JoinedComplete(m, rows, c, b);
    }
    r
  }

  /** How a price cell prints: `precio if precio else "N/A"`, so both NULL and 0 print as "N/A" (None). */
  function PriceCell(price: Option<real>): (r: Option<real>)
    ensures r == None <==> price == None || price == Some(0.0)
    ensures r != None ==> r == price
  {
    if price.Some? && price.value != 0.0 then price else None
  }

  /** What the report keeps of a row under its display name: (lote, stock, precio). */
  datatype Item = Item(batch: string, stock: real, price: Option<real>)

  /** A printed table row: lote, stock, and the price cell (None prints "N/A"). */
  datatype Line = Line(batch: string, stock: real, price: Option<real>)

  /** One heading of the report: a display name, its rows, and the total of their stock. */
  datatype Section = Section(name: string, lines: seq<Line>, total: real)

  function NameOf(x: ReportRow): string { x.name }

  /** The items `resumen.setdefault(name, []).append(...)` collects for `name`, in row order. */
  function ItemsOf(rows: seq<ReportRow>, name: string): seq<Item> {
    if rows == [] then []
    else
      var x := rows[|rows| - 1];
      ItemsOf(rows[..|rows| - 1], name) + (if x.name == name then [Item(x.batch, x.stock, x.price)] else [])
  }

  function LineOf(it: Item): Line { Line(it.batch, it.stock, PriceCell(it.price)) }

  function Lines(items: seq<Item>): seq<Line> {
    if items == [] then [] else Lines(items[..|items| - 1]) + [LineOf(items[|items| - 1])]
  }

  /** Sum of the stock of `items`. */
  function Total(items: seq<Item>): real {
    if items == [] then 0.0 else Total(items[..|items| - 1]) + items[|items| - 1].stock
  }

  /** Sum of the stock of all report rows. */
  function StockSum(rows: seq<ReportRow>): real {
    if rows == [] then 0.0 else StockSum(rows[..|rows| - 1]) + rows[|rows| - 1].stock
  }

  /** A name that no row carries collects no item. */
  lemma {:induction false} ItemsOfAbsent(rows: seq<ReportRow>, name: string)
    requires forall i :: 0 <= i < |rows| ==> rows[i].name != name
    ensures ItemsOf(rows, name) == []
  {
    if rows != [] {
      var p := rows[..|rows| - 1];
      assert forall i :: 0 <= i < |p| ==> p[i] == rows[i];
      ItemsOfAbsent(p, name);
    }
  }

  /**
   * The grouping loop of generar_informe_pdf: one section per display name, in order
   * of first appearance; each section holds that name's rows in order, with the
   * price cell as printed, and a total equal to the sum of their stock.
   */
  method BuildReport(rows: seq<ReportRow>) returns (sections: seq<Section>)
    ensures |sections| == |Distinct(rows, NameOf)|
    ensures forall k :: 0 <= k < |sections| ==>
              sections[k].name == Distinct(rows, NameOf)[k] &&
              sections[k].lines == Lines(ItemsOf(rows, sections[k].name)) &&
              sections[k].total == Total(ItemsOf(rows, sections[k].name))
  {
    var names, summary := Summarize(rows);
    sections := Tabulated(names, summary);
  }

  /**
   * The first loop of the report: `resumen.setdefault(nombre, []).append((lote, stock, precio))`.
   * The dict's keys, in insertion order, are the distinct names in order of first
   * appearance, and each maps to that name's items in row order.
   */
  method Summarize(rows: seq<ReportRow>) returns (names: seq<string>, summary: map<string, seq<Item>>)
    ensures names == Distinct(rows, NameOf)
    ensures forall n :: n in summary <==> n in names
    ensures forall n :: n in summary ==> summary[n] == ItemsOf(rows, n)
  {
    names := [];
    summary := map[];
    var i := 0;
    while i < |rows|
      invariant 0 <= i <= |rows|
      invariant Summarized(rows[..i], names, summary)
    {
      var x := rows[i];
      PrefixSnoc(rows, i);
      if x.name in summary {
        SummarizeSeen(rows[..i], x, names, summary);
        summary := summary[x.name := summary[x.name] + [Item(x.batch, x.stock, x.price)]];
      } else {
        SummarizeNew(rows[..i], x, names, summary);
        names := names + [x.name];
        summary := summary[x.name := [Item(x.batch, x.stock, x.price)]];
      }
      i := i + 1;
    }
    assert rows[..i] == rows;
  }

  /** `names` and `summary` are the dict built from `rows`: its keys in insertion order, and each key's items. */
  ghost predicate Summarized(rows: seq<ReportRow>, names: seq<string>, summary: map<string, seq<Item>>) {
    && names == Distinct(rows, NameOf)
    && (forall n :: n in summary <==> n in names)
    && (forall n :: n in summary ==> summary[n] == ItemsOf(rows, n))
  }

  /** `setdefault(...).append(...)` for a name already in the dict keeps it in step with the rows read so far. */
  lemma SummarizeSeen(rows: seq<ReportRow>, x: ReportRow, names: seq<string>, summary: map<string, seq<Item>>)
    requires Summarized(rows, names, summary) && x.name in summary
    ensures var s' := summary[x.name := summary[x.name] + [Item(x.batch, x.stock, x.price)]];
      && names == Distinct(rows + [x], NameOf)
      && (forall n :: n in s' <==> n in names)
      && (forall n :: n in s' ==> s'[n] == ItemsOf(rows + [x], n))
  {
    DistinctSnoc(rows, x, NameOf);
    assert NameOf(x) in Distinct(rows, NameOf);
    AppendItems(rows, x, summary);
  }

  /** `setdefault(...).append(...)` for a new name adds it last to the keys, with one item. */
  lemma SummarizeNew(rows: seq<ReportRow>, x: ReportRow, names: seq<string>, summary: map<string, seq<Item>>)
    requires Summarized(rows, names, summary) && x.name !in summary
    ensures Summarized(rows + [x], names + [x.name], summary[x.name := [Item(x.batch, x.stock, x.price)]])
  {
    DistinctSnoc(rows, x, NameOf);
    NameAbsent(rows, x.name);
    NewItems(rows, x, summary);
  }

  lemma AppendItems(rows: seq<ReportRow>, x: ReportRow, summary: map<string, seq<Item>>)
    requires x.name in summary
    requires forall n :: n in summary ==> summary[n] == ItemsOf(rows, n)
    ensures var s' := summary[x.name := summary[x.name] + [Item(x.batch, x.stock, x.price)]];
      && (forall n :: n in s' <==> n in summary)
      && (forall n :: n in s' ==> s'[n] == ItemsOf(rows + [x], n))
  {
    var s' := summary[x.name := summary[x.name] + [Item(x.batch, x.stock, x.price)]];
    forall n | n in s' ensures s'[n] == ItemsOf(rows + [x], n) {
      ItemsOfSnoc(rows, x, n);
    }
  }

  lemma NewItems(rows: seq<ReportRow>, x: ReportRow, summary: map<string, seq<Item>>)
    requires x.name !in summary && ItemsOf(rows, x.name) == []
    requires forall n :: n in summary ==> summary[n] == ItemsOf(rows, n)
    ensures forall n :: n in summary[x.name := [Item(x.batch, x.stock, x.price)]] ==>
              summary[x.name := [Item(x.batch, x.stock, x.price)]][n] == ItemsOf(rows + [x], n)
  {
    forall n | n in summary[x.name := [Item(x.batch, x.stock, x.price)]]
      ensures summary[x.name := [Item(x.batch, x.stock, x.price)]][n] == ItemsOf(rows + [x], n)
    {
      ItemsOfSnoc(rows, x, n);
    }
  }

  lemma ItemsOfSnoc(rows: seq<ReportRow>, x: ReportRow, name: string)
    ensures ItemsOf(rows + [x], name) == ItemsOf(rows, name) + (if x.name == name then [Item(x.batch, x.stock, x.price)] else [])
  {
    assert (rows + [x])[..|rows|] == rows;
  }

  /** A name outside the distinct names of `rows` collects no item. */
  lemma NameAbsent(rows: seq<ReportRow>, name: string)
    requires name !in Distinct(rows, NameOf)
    ensures ItemsOf(rows, name) == []
  {
    forall j | 0 <= j < |rows| ensures rows[j].name != name {
      assert NameOf(rows[j]) in Distinct(rows, NameOf);
    }
    ItemsOfAbsent(rows, name);
  }

  /** The second loop of the report: one section per collected name, in dict order. */
  method Tabulated(names: seq<string>, summary: map<string, seq<Item>>) returns (sections: seq<Section>)
    requires forall n :: n in names ==> n in summary
    ensures |sections| == |names|
    ensures forall k :: 0 <= k < |names| ==>
              sections[k] == Section(names[k], Lines(summary[names[k]]), Total(summary[names[k]]))
  {
    sections := [];
    var k := 0;
    while k < |names|
      invariant 0 <= k <= |names|
      invariant |sections| == k
      invariant forall j :: 0 <= j < k ==>
                  sections[j] == Section(names[j], Lines(summary[names[j]]), Total(summary[names[j]]))
    {
      var section := Tabulate(names[k], summary[names[k]]);
      sections := sections + [section];
      k := k + 1;
    }
  }

  /** One section of the report: a row per item, with its price cell, and the running `total += stock`. */
  method Tabulate(name: string, items: seq<Item>) returns (section: Section)
    ensures section.name == name && section.lines == Lines(items) && section.total == Total(items)
  {
    var lines: seq<Line> := [];
    var total := 0.0;
    var j := 0;
    while j < |items|
      invariant 0 <= j <= |items|
      invariant lines == Lines(items[..j]) && total == Total(items[..j])
    {
      assert items[..j + 1][..j] == items[..j];
      lines := lines + [LineOf(items[j])];
      total := total + items[j].stock;
      j := j + 1;
    }
    assert items[..j] == items;
    section := Section(name, lines, total);
  }

  /** Sum of the totals of the sections named `names`. */
  function SectionTotals(rows: seq<ReportRow>, names: seq<string>): real {
    if names == [] then 0.0 else SectionTotals(rows, names[..|names| - 1]) + Total(ItemsOf(rows, names[|names| - 1]))
  }

  /** Adding a row adds its stock to the totals of any set of distinct names that contains its name. */
  lemma {:induction false} SectionTotalsAppend(rows: seq<ReportRow>, x: ReportRow, names: seq<string>)
    requires NoDup(names)
    ensures SectionTotals(rows + [x], names) ==
            SectionTotals(rows, names) + (if x.name in names then x.stock else 0.0)
  {
    if names != [] {
      var p := names[..|names| - 1];
      var n := names[|names| - 1];
      assert NoDup(p);
      assert names == p + [n];
      assert n !in p;
      SectionTotalsAppend(rows, x, p);
      assert (rows + [x])[..|rows|] == rows;
      ItemsTotalAppend(rows, x, n);
    }
  }

  lemma ItemsTotalAppend(rows: seq<ReportRow>, x: ReportRow, name: string)
    ensures Total(ItemsOf(rows + [x], name)) == Total(ItemsOf(rows, name)) + (if x.name == name then x.stock else 0.0)
  {
    ItemsOfSnoc(rows, x, name);
    if x.name == name {
      var s := ItemsOf(rows, name) + [Item(x.batch, x.stock, x.price)];
      assert s[..|s| - 1] == ItemsOf(rows, name);
    } else {
      assert ItemsOf(rows, name) + [] == ItemsOf(rows, name);
    }
  }

  /** The section totals of the report add up to the stock of all its rows: no row is lost or counted twice. */
  lemma {:induction false} SectionTotalsCoverAll(rows: seq<ReportRow>)
    ensures SectionTotals(rows, Distinct(rows, NameOf)) == StockSum(rows)
  {
    if rows != [] {
      var p := rows[..|rows| - 1];
      var x := rows[|rows| - 1];
      assert rows == p + [x];
      SectionTotalsCoverAll(p);
      var names := Distinct(p, NameOf);
      SectionTotalsAppend(p, x, names);
      DistinctSnoc(p, x, NameOf);
      if x.name !in names {
        NewNameTotal(p, x);
      }
    }
  }

  /** A row under a name not seen before opens a section whose total is its own stock. */
  lemma NewNameTotal(p: seq<ReportRow>, x: ReportRow)
    requires x.name !in Distinct(p, NameOf)
    ensures SectionTotals(p + [x], Distinct(p, NameOf) + [x.name]) ==
            SectionTotals(p + [x], Distinct(p, NameOf)) + x.stock
  {
    var names := Distinct(p, NameOf);
    NameAbsent(p, x.name);
    ItemsTotalAppend(p, x, x.name);
    assert (names + [x.name])[..|names|] == names;
  }
}
