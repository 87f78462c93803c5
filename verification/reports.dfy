/**
 * The reports page: the per-seller report (number of cards and their value)
 * and the two CSV exports, as the CSV text handed to the download.
 */
module Reports {
  import opened Wrappers
  import opened Collections
  import opened Text
  import opened SaleModel

  /** The fixed card price, R$ 35.00, in cents. */
  const PizzaPrice: nat := 3500

  /** The `{ count, totalValue }` record kept per seller; `totalValue` is in cents. */
  datatype SellerTotals = SellerTotals(count: nat, totalValue: nat)

  /** The property key `acc[sale.seller]`. */
  function ReportKey(s: Sale): string
  {
    Interpolated(s.seller)
  }

  /** One step of the reduce: create the seller's record if missing, then count the card and add its price. */
  function TotalsStep(acc: map<string, SellerTotals>, s: Sale): map<string, SellerTotals>
  {
    var k := ReportKey(s);
    var t := if k in acc then acc[k] else SellerTotals(0, 0);
    acc[k := SellerTotals(t.count + 1, t.totalValue + PizzaPrice)]
  }

  /** The `salesBySeller` reduce over the valid sales, as a left fold. */
  function SellerReport(valid: seq<Sale>): (m: map<string, SellerTotals>)
    ensures forall k | k in m :: m[k].count >= 1
  {
    if |valid| == 0 then map[]
    else TotalsStep(SellerReport(valid[..|valid| - 1]), valid[|valid| - 1])
  }

  /** The reduce as the page runs it: each record is created once and then updated in place. */
  method SalesBySeller(valid: seq<Sale>) returns (acc: map<string, SellerTotals>)
    ensures acc == SellerReport(valid)
  {
    acc := map[];
    var i := 0;
    while i < |valid|
      invariant 0 <= i <= |valid|
      invariant acc == SellerReport(valid[..i])
    {
      var sale := valid[i];
      var k := ReportKey(sale);
      if k !in acc {
        acc := acc[k := SellerTotals(0, 0)];
      }
      acc := acc[k := acc[k].(count := acc[k].count + 1)];
      acc := acc[k := acc[k].(totalValue := acc[k].totalValue + PizzaPrice)];
      assert valid[..i + 1][..i] == valid[..i];
      i := i + 1;
    }
    assert valid[..i] == valid;
  }

  function SoldBy(k: string): Sale -> bool
  {
    (s: Sale) => ReportKey(s) == k
  }

  /**
   * A seller is in the report exactly when it has a valid sale; its `count`
   * is the number of its valid sales and its `totalValue` that count times the price.
   */
  lemma {:induction false} SellerReportTotals(valid: seq<Sale>, k: string)
    ensures k in SellerReport(valid) <==> |Filter(valid, SoldBy(k))| >= 1
    ensures k in SellerReport(valid) ==>
              SellerReport(valid)[k].count == |Filter(valid, SoldBy(k))| &&
              SellerReport(valid)[k].totalValue == SellerReport(valid)[k].count * PizzaPrice
  {
    if |valid| > 0 {
      var init, last := valid[..|valid| - 1], valid[|valid| - 1];
      FilterLast(valid, SoldBy(k));
      SellerReportTotals(init, k);
      var before, after := SellerReport(init), SellerReport(valid);
      if ReportKey(last) == k {
        assert after[k].count == (if k in before then before[k].count else 0) + 1;
      } else {
        assert k in after <==> k in before;
      }
    }
  }

  /** The seller keys of the sales report are exactly the sellers with at least one sale that is not cancelled. */
  lemma ReportedSellers(sales: seq<Sale>, k: string)
    ensures k in SellerReport(ValidSales(sales)) <==> exists s | s in sales :: s.status != Cancelado && ReportKey(s) == k
  {
    var valid := ValidSales(sales);
    var f := Filter(valid, SoldBy(k));
    SellerReportTotals(valid, k);
    if k in SellerReport(valid) {
      assert f[0] in f;
    }
    if exists s | s in sales :: s.status != Cancelado && ReportKey(s) == k {
      var s :| s in sales && s.status != Cancelado && ReportKey(s) == k;
      assert s in f;
    }
  }

  /** The counts of a report, as a counting object. */
  function Counts(m: map<string, SellerTotals>): (c: map<string, nat>)
    ensures c.Keys == m.Keys
  {
    map k | k in m :: m[k].count
  }

  /** The values of a report, as a counting object. */
  function Values(m: map<string, SellerTotals>): (c: map<string, nat>)
    ensures c.Keys == m.Keys
  {
    map k | k in m :: m[k].totalValue
  }

  /**
   * The counts add up to the number of valid sales and the values to that
   * number times the price: the dashboard's expected revenue at this price.
   */
  lemma {:induction false} SellerReportSums(valid: seq<Sale>)
    ensures Total(Counts(SellerReport(valid))) == |valid|
    ensures Total(Values(SellerReport(valid))) == |valid| * PizzaPrice
  {
    if |valid| > 0 {
      var init, last := valid[..|valid| - 1], valid[|valid| - 1];
      SellerReportSums(init);
      var acc := SellerReport(init);
      var k := ReportKey(last);
      StepSums(acc, last);
      TotalAdd(Counts(acc), k, 1);
      TotalAdd(Values(acc), k, PizzaPrice);
    }
  }

  /** One reduce step adds 1 to the seller's count and the price to its value. */
  lemma StepSums(acc: map<string, SellerTotals>, s: Sale)
    ensures Counts(TotalsStep(acc, s)) == Add(Counts(acc), ReportKey(s), 1)
    ensures Values(TotalsStep(acc, s)) == Add(Values(acc), ReportKey(s), PizzaPrice)
  {
    var k, r := ReportKey(s), TotalsStep(acc, s);
    var c, v := Add(Counts(acc), k, 1), Add(Values(acc), k, PizzaPrice);
    assert Counts(r).Keys == c.Keys;
    assert forall j | j in c :: Counts(r)[j] == c[j];
    assert Values(r).Keys == v.Keys;
    assert forall j | j in v :: Values(r)[j] == v[j];
  }

  /** A row of `sellerReportData`. */
  datatype ReportRow = ReportRow(seller: string, count: nat, totalValue: nat)

  /** `Object.entries(salesBySeller).map(([seller, data]) => ({ seller, ...data }))`, in no particular order. */
  ghost function SellerReportData(m: map<string, SellerTotals>): (rows: seq<ReportRow>)
    ensures |rows| == |m.Keys|
    ensures forall i | 0 <= i < |rows| :: rows[i].seller in m && rows[i] == RowOf(m, rows[i].seller)
  {
    var keys := KeyList(m);
    seq(|keys|, i requires 0 <= i < |keys| => RowOf(m, keys[i]))
  }

  /** Every seller of the report has its row, and no seller has two. */
  lemma SellerReportDataComplete(m: map<string, SellerTotals>)
    ensures forall k | k in m :: RowOf(m, k) in SellerReportData(m)
    ensures forall i, j | 0 <= i < j < |SellerReportData(m)| :: SellerReportData(m)[i].seller != SellerReportData(m)[j].seller
  {
    var keys, rows := KeyList(m), SellerReportData(m);
    assert forall i | 0 <= i < |rows| :: rows[i].seller == keys[i];
    forall k | k in m ensures RowOf(m, k) in rows {
      var i :| 0 <= i < |keys| && keys[i] == k;
      assert rows[i] == RowOf(m, k);
    }
  }

  /** The row `{ seller, ...data }` of one seller. */
  function RowOf(m: map<string, SellerTotals>, k: string): (r: ReportRow)
    requires k in m
    ensures r.seller == k && SellerTotals(r.count, r.totalValue) == m[k]
  {
    ReportRow(k, m[k].count, m[k].totalValue)
  }

  // ---------------------------------------------------------------- CSV export

  const Headers: seq<string> := ["ID", "Cliente", "Telefone", "Vendedor", "Data Retirada", "Sabor 1", "Sabor 2", "Status"]

  /** `headers.join(',')`, the first line of every export. */
  function HeaderLine(): string
  {
    Join(Headers, ',')
  }

  function Quoted(t: string): string
  {
    "\"" + t + "\""
  }

  /** The eight fields of a sale's row, in header order; `sale.flavor2 || ""` writes a falsy second flavour as empty. */
  function RowFields(s: Sale): seq<string>
  {
    [ Decimal(s.id),
      Quoted(s.customerName),
      Quoted(s.customerPhone),
      Quoted(Interpolated(s.seller)),
      s.pickupDate,
      Quoted(Interpolated(s.flavor1)),
      Quoted(if Present(s.flavor2) then s.flavor2.value else ""),
      StatusName(s.status) ]
  }

  /** One data line of the CSV text. */
  function Row(s: Sale): string
  {
    Join(RowFields(s), ',')
  }

  function Rows(data: seq<Sale>): (rows: seq<string>)
    ensures |rows| == |data|
    ensures forall i | 0 <= i < |data| :: rows[i] == Row(data[i])
  {
    if |data| == 0 then [] else [Row(data[0])] + Rows(data[1..])
  }

  /** `[headers.join(','), ...rows].join('\n')`. */
  function CsvContent(data: seq<Sale>): (text: string)
    ensures HeaderLine() <= text
    ensures |data| == 0 ==> text == HeaderLine()
  {
    JoinStartsWithFirst([HeaderLine()] + Rows(data), '\n');
    Join([HeaderLine()] + Rows(data), '\n')
  }

  /** A sale's text fields, the ones the CSV copies verbatim. */
  function TextFields(s: Sale): seq<string>
  {
    [s.customerName, s.customerPhone, Interpolated(s.seller), s.pickupDate, Interpolated(s.flavor1),
     if s.flavor2.Some? then s.flavor2.value else ""]
  }

  /** None of the sale's text fields contains the character `c`. */
  predicate FieldsAvoid(s: Sale, c: char)
  {
    forall i | 0 <= i < |TextFields(s)| :: c !in TextFields(s)[i]
  }

  /** A comma or a line break that no text field holds is in no row field. */
  lemma RowFieldsAvoid(s: Sale, c: char)
    requires FieldsAvoid(s, c) && c in {',', '\n'}
    ensures forall i | 0 <= i < |RowFields(s)| :: c !in RowFields(s)[i]
  {
    var t, f := TextFields(s), RowFields(s);
    assert c !in t[0] && c !in t[1] && c !in t[2] && c !in t[3] && c !in t[4] && c !in t[5];
    assert forall j | 0 <= j < |f[0]| :: IsDigit(f[0][j]);
    assert c !in f[0];
    assert c !in f[6];
    assert c !in f[7] by {
      match s.status
      case Pendente =>
      case Entregue =>
      case Cancelado =>
    }
  }

  /** A row has no line break when none of its fields has one. */
  lemma RowIsOneLine(s: Sale)
    requires FieldsAvoid(s, '\n')
    ensures '\n' !in Row(s)
  {
    RowFieldsAvoid(s, '\n');
    JoinExcludes(RowFields(s), ',', '\n');
  }

  lemma HeaderIsOneLine()
    ensures '\n' !in HeaderLine()
  {
    JoinExcludes(Headers, ',', '\n');
  }

  lemma RowsAreLines(data: seq<Sale>)
    requires forall i | 0 <= i < |data| :: FieldsAvoid(data[i], '\n')
    ensures forall i | 0 <= i < |data| :: '\n' !in Rows(data)[i]
  {
    forall i | 0 <= i < |data| ensures '\n' !in Rows(data)[i] {
      RowIsOneLine(data[i]);
    }
  }

  /**
   * When no field contains a line break, the text splits into the header line
   * followed by one line per sale: `1 + |data|` lines.
   */
  lemma CsvLines(data: seq<Sale>)
    requires forall i | 0 <= i < |data| :: FieldsAvoid(data[i], '\n')
    ensures Split(CsvContent(data), '\n') == [HeaderLine()] + Rows(data)
    ensures |Split(CsvContent(data), '\n')| == 1 + |data|
  {
    var rows := Rows(data);
    var lines := [HeaderLine()] + rows;
    HeaderIsOneLine();
    RowsAreLines(data);
    assert forall i | 0 <= i < |lines| :: '\n' !in lines[i] by {
      forall i | 0 <= i < |lines| ensures '\n' !in lines[i] {
        if i > 0 {
          assert lines[i] == rows[i - 1];
        }
      }
    }
    SplitJoin(lines, '\n');
  }

  /** When no field contains a comma, a row splits into its eight fields, in header order. */
  lemma RowSplitsIntoFields(s: Sale)
    requires FieldsAvoid(s, ',')
    ensures Split(Row(s), ',') == RowFields(s)
    ensures |Split(Row(s), ',')| == |Headers|
  {
    RowFieldsAvoid(s, ',');
    SplitJoin(RowFields(s), ',');
  }

  /** Strips the surrounding double quotes of a field. */
  function Unquoted(f: string): Option<string>
  {
    if |f| >= 2 && f[0] == '"' && f[|f| - 1] == '"' then Some(f[1..|f| - 1]) else None
  }

  function ParseStatus(t: string): Option<Status>
  {
    if t == "Pendente" then Some(Pendente)
    else if t == "Entregue" then Some(Entregue)
    else if t == "Cancelado" then Some(Cancelado)
    else None
  }

  /** Reads a data row back into a sale; an empty second flavour reads as a missing one. */
  function ParseRow(line: string): Option<Sale>
  {
    var f := Split(line, ',');
    if |f| != 8 then None
    else
      var id, name, phone, seller := ParseDecimal(f[0]), Unquoted(f[1]), Unquoted(f[2]), Unquoted(f[3]);
      var flavor1, flavor2, status := Unquoted(f[5]), Unquoted(f[6]), ParseStatus(f[7]);
      if id.None? || name.None? || phone.None? || seller.None? || flavor1.None? || flavor2.None? || status.None?
      then None
      else
        Some(Sale(id.value, name.value, phone.value, Some(seller.value), f[4], Some(flavor1.value),
                  if flavor2.value == "" then None else Some(flavor2.value), status.value))
  }

  /**
   * The sales the CSV can carry exactly: the seller and the first flavour are
   * set, a second flavour is either missing or named, and no text field holds a
   * comma or a line break.
   */
  predicate CsvSafe(s: Sale)
  {
    s.seller.Some? && s.flavor1.Some? && s.flavor2 != Some("") && FieldsAvoid(s, ',') && FieldsAvoid(s, '\n')
  }

  lemma UnquotedQuoted(t: string)
    ensures Unquoted(Quoted(t)) == Some(t)
  {
    assert Quoted(t)[1..|Quoted(t)| - 1] == t;
  }

  lemma ParseStatusName(st: Status)
    ensures ParseStatus(StatusName(st)) == Some(st)
  {
  }

  /** Round trip: splitting a row on ',' and stripping the quotes gives back the sale. */
  lemma RowRoundTrip(s: Sale)
    requires CsvSafe(s)
    ensures ParseRow(Row(s)) == Some(s)
  {
    RowSplitsIntoFields(s);
    var f := RowFields(s);
    DecimalRoundTrip(s.id);
    UnquotedQuoted(s.customerName);
    UnquotedQuoted(s.customerPhone);
    UnquotedQuoted(Interpolated(s.seller));
    UnquotedQuoted(Interpolated(s.flavor1));
    UnquotedQuoted(if Present(s.flavor2) then s.flavor2.value else "");
    ParseStatusName(s.status);
  }

  /** Reads the data rows of an export back, one sale per line after the header. */
  function ParseCsv(text: string): Option<seq<Sale>>
  {
    var lines := Split(text, '\n');
    if lines[0] != HeaderLine() then None else ParseRows(lines[1..])
  }

  function ParseRows(lines: seq<string>): Option<seq<Sale>>
  {
    if |lines| == 0 then Some([])
    else
      var head, tail := ParseRow(lines[0]), ParseRows(lines[1..]);
      if head.None? || tail.None? then None else Some([head.value] + tail.value)
  }

  lemma {:induction false} ParseRowsRoundTrip(data: seq<Sale>)
    requires forall i | 0 <= i < |data| :: CsvSafe(data[i])
    ensures ParseRows(Rows(data)) == Some(data)
  {
    if |data| > 0 {
      RowRoundTrip(data[0]);
      ParseRowsRoundTrip(data[1..]);
      assert Rows(data)[1..] == Rows(data[1..]);
      assert data == [data[0]] + data[1..];
    }
  }

  /** Round trip of a whole export: reading the CSV text back gives the exported sales, in order. */
  lemma CsvRoundTrip(data: seq<Sale>)
    requires forall i | 0 <= i < |data| :: CsvSafe(data[i])
    ensures ParseCsv(CsvContent(data)) == Some(data)
  {
    CsvLines(data);
    ParseRowsRoundTrip(data);
    assert ([HeaderLine()] + Rows(data))[1..] == Rows(data);
  }

  /** `handleExportSales`: the valid sales; only the header when every sale is cancelled. */
  function ExportSales(sales: seq<Sale>): (text: string)
    ensures HeaderLine() <= text
    ensures (forall s | s in sales :: s.status == Cancelado) ==> text == HeaderLine()
  {
    var valid := ValidSales(sales);
    assert (forall s | s in sales :: s.status == Cancelado) ==> valid == [] by {
      if forall s | s in sales :: s.status == Cancelado {
        FilterKeepsNone(sales, IsValid);
      }
    }
    CsvContent(valid)
  }

  /** `handleExportDeliveries`: the delivered sales; only the header when none is delivered. */
  function ExportDeliveries(sales: seq<Sale>): (text: string)
    ensures HeaderLine() <= text
    ensures (forall s | s in sales :: s.status != Entregue) ==> text == HeaderLine()
  {
    var delivered := DeliveredSales(sales);
    assert (forall s | s in sales :: s.status != Entregue) ==> delivered == [] by {
      if forall s | s in sales :: s.status != Entregue {
        FilterKeepsNone(sales, IsDelivered);
      }
    }
    CsvContent(delivered)
  }

  /**
   * Read back, the sales export is exactly the sales that are not cancelled and
   * the deliveries export exactly the delivered ones, in their original order;
   * the deliveries are the delivered sales of the sales export. Only the
   * exported sales need to fit the CSV; a cancelled sale is never written.
   */
  lemma ExportsContent(sales: seq<Sale>)
    requires forall s | s in sales && s.status != Cancelado :: CsvSafe(s)
    ensures ParseCsv(ExportSales(sales)) == Some(ValidSales(sales))
    ensures ParseCsv(ExportDeliveries(sales)) == Some(DeliveredSales(sales))
    ensures forall s | s in ParseCsv(ExportSales(sales)).value :: s in sales && s.status != Cancelado
    ensures forall s | s in ParseCsv(ExportDeliveries(sales)).value :: s in sales && s.status == Entregue
    ensures ParseCsv(ExportDeliveries(sales)).value == DeliveredSales(ParseCsv(ExportSales(sales)).value)
  {
    var valid, delivered := ValidSales(sales), DeliveredSales(sales);
    forall i | 0 <= i < |valid| ensures CsvSafe(valid[i]) {
      assert valid[i] in sales;
    }
    forall i | 0 <= i < |delivered| ensures CsvSafe(delivered[i]) {
      assert delivered[i] in sales && delivered[i].status == Entregue;
    }
    CsvRoundTrip(valid);
    CsvRoundTrip(delivered);
    DeliveredAmongValid(sales);
  }
}
