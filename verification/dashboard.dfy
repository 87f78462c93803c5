/**
 * The dashboard's metrics: expected revenue, delivered pizzas, and the
 * per-seller and per-flavour sale counts behind its two charts. The sales and
 * the price setting are the results of the page's two queries.
 */
module Dashboard {
  import opened Wrappers
  import opened Collections
  import opened SaleModel

  /** A row of the `settings` query (filtered to key 'price'); the value is a price in cents. */
  datatype SettingRow = SettingRow(key: string, value: Option<int>)

  /** `Number(settingsData?.[0]?.value || 0)`: the first returned price, or 0. */
  function Price(settingsData: Option<seq<SettingRow>>): (cents: int)
    ensures settingsData.None? || settingsData.value == [] ==> cents == 0
    ensures settingsData.Some? && settingsData.value != [] && settingsData.value[0].value.Some? ==>
              cents == settingsData.value[0].value.value
    ensures settingsData.Some? && settingsData.value != [] && settingsData.value[0].value.None? ==> cents == 0
  {
    if settingsData.None? || |settingsData.value| == 0 then 0
    else
      var v := settingsData.value[0].value;
      if v.Some? then v.value else 0
  }

  /** `validSales.length * price`, in cents. */
  function ExpectedRevenue(sales: seq<Sale>, price: int): (cents: int)
    ensures 0 <= price ==> 0 <= cents <= |sales| * price
    ensures (forall s | s in sales :: s.status == Cancelado) ==> cents == 0
  {
    var valid := ValidSales(sales);
    assert (forall s | s in sales :: s.status == Cancelado) ==> valid == [] by {
      if forall s | s in sales :: s.status == Cancelado {
        FilterKeepsNone(sales, IsValid);
      }
    }
    Scales(|valid|, |sales|, price);
    |valid| * price
  }

  lemma Scales(x: nat, y: nat, price: int)
    requires x <= y
    ensures 0 <= price ==> 0 <= x * price <= y * price
  {
  }

  /** Revenue is additive over a split of the sales list, and nothing is expected without a price row. */
  lemma ExpectedRevenueAdds(a: seq<Sale>, b: seq<Sale>, price: int)
    ensures ExpectedRevenue(a + b, price) == ExpectedRevenue(a, price) + ExpectedRevenue(b, price)
    ensures ExpectedRevenue(a, Price(Some([]))) == 0
  {
    var x, y := |ValidSales(a)|, |ValidSales(b)|;
    assert |ValidSales(a + b)| == x + y by {
      FiltersKeepOrder(a, b);
    }
    Distributes(x, y, price);
  }

  lemma Distributes(x: int, y: int, price: int)
    ensures (x + y) * price == x * price + y * price
  {
  }

  /** The number of sales marked 'Entregue'. */
  function Delivered(sales: seq<Sale>): (n: nat)
    ensures n <= |ValidSales(sales)| <= |sales|
  {
    DeliveredAmongValid(sales);
    |DeliveredSales(sales)|
  }

  /** `sale.sellers?.name || 'N/A'`. */
  function SellerKey(s: Sale): string
  {
    if Present(s.seller) then s.seller.value else "N/A"
  }

  function CreditedTo(k: string): Sale -> bool
  {
    (s: Sale) => SellerKey(s) == k
  }

  /**
   * The `salesBySeller` reduce: one count per seller key, every stored count
   * at least 1 (which keys are stored is `SalesBySellerKeys`).
   */
  function SalesBySeller(valid: seq<Sale>): (m: map<string, nat>)
    ensures forall k | k in m :: m[k] >= 1
  {
    if |valid| == 0 then map[]
    else Add(SalesBySeller(valid[..|valid| - 1]), SellerKey(valid[|valid| - 1]), 1)
  }

  /** Each seller key's count is the number of valid sales credited to it. */
  lemma {:induction false} SalesBySellerCounts(valid: seq<Sale>, k: string)
    ensures Get(SalesBySeller(valid), k) == |Filter(valid, CreditedTo(k))|
  {
    if |valid| > 0 {
      SalesBySellerCounts(valid[..|valid| - 1], k);
      FilterLast(valid, CreditedTo(k));
    }
  }

  /** The seller keys are exactly the keys some valid sale is credited to. */
  lemma SalesBySellerKeys(valid: seq<Sale>, k: string)
    ensures k in SalesBySeller(valid) <==> exists i | 0 <= i < |valid| :: SellerKey(valid[i]) == k
  {
    var f := Filter(valid, CreditedTo(k));
    SalesBySellerCounts(valid, k);
    if k in SalesBySeller(valid) {
      assert f[0] in f;
      var i :| 0 <= i < |valid| && valid[i] == f[0];
    }
    if exists i | 0 <= i < |valid| :: SellerKey(valid[i]) == k {
      var i :| 0 <= i < |valid| && SellerKey(valid[i]) == k;
      assert valid[i] in f;
    }
  }

  /** The seller counts add up to the number of valid sales. */
  lemma {:induction false} SalesBySellerTotal(valid: seq<Sale>)
    ensures Total(SalesBySeller(valid)) == |valid|
  {
    if |valid| > 0 {
      var init := valid[..|valid| - 1];
      SalesBySellerTotal(init);
      TotalAdd(SalesBySeller(init), SellerKey(valid[|valid| - 1]), 1);
    }
  }

  /** A valid sale without a (non-empty) seller name is counted under 'N/A'. */
  lemma UnnamedSellerIsNA(sales: seq<Sale>, s: Sale)
    requires s in sales && s.status != Cancelado && !Present(s.seller)
    ensures "N/A" in SalesBySeller(ValidSales(sales))
  {
    var valid := ValidSales(sales);
    assert s in valid;
    var i :| 0 <= i < |valid| && valid[i] == s;
    SalesBySellerKeys(valid, "N/A");
  }

  /** The names a sale adds to the flavour counts: each truthy slot, flavor1 first. */
  function FlavorNames(s: Sale): (names: seq<string>)
    ensures |names| <= 2
  {
    (if Present(s.flavor1) then [s.flavor1.value] else [])
    + (if Present(s.flavor2) then [s.flavor2.value] else [])
  }

  /** One step of the `salesByFlavor` reduce. */
  function FlavorStep(acc: map<string, nat>, s: Sale): map<string, nat>
  {
    var a := if Present(s.flavor1) then Add(acc, s.flavor1.value, 1) else acc;
    if Present(s.flavor2) then Add(a, s.flavor2.value, 1) else a
  }

  /**
   * The `salesByFlavor` reduce, every stored count at least 1 (which names are
   * stored is `SalesByFlavorKeys`).
   */
  function SalesByFlavor(valid: seq<Sale>): (m: map<string, nat>)
    ensures forall k | k in m :: m[k] >= 1
  {
    if |valid| == 0 then map[]
    else FlavorStep(SalesByFlavor(valid[..|valid| - 1]), valid[|valid| - 1])
  }

  function FirstFlavorIs(k: string): Sale -> bool
  {
    (s: Sale) => Present(s.flavor1) && s.flavor1.value == k
  }

  function SecondFlavorIs(k: string): Sale -> bool
  {
    (s: Sale) => Present(s.flavor2) && s.flavor2.value == k
  }

  predicate HasFirstFlavor(s: Sale)
  {
    Present(s.flavor1)
  }

  predicate HasSecondFlavor(s: Sale)
  {
    Present(s.flavor2)
  }

  /** Each flavour's count is the number of its first-slot plus its second-slot appearances. */
  lemma {:induction false} SalesByFlavorCounts(valid: seq<Sale>, k: string)
    ensures Get(SalesByFlavor(valid), k) == |Filter(valid, FirstFlavorIs(k))| + |Filter(valid, SecondFlavorIs(k))|
  {
    if |valid| > 0 {
      SalesByFlavorCounts(valid[..|valid| - 1], k);
      FilterLast(valid, FirstFlavorIs(k));
      FilterLast(valid, SecondFlavorIs(k));
    }
  }

  /** The flavour keys are exactly the names in a truthy slot of some valid sale. */
  lemma SalesByFlavorKeys(valid: seq<Sale>, k: string)
    ensures k in SalesByFlavor(valid) <==> exists i | 0 <= i < |valid| :: k in FlavorNames(valid[i])
  {
    var f1, f2 := Filter(valid, FirstFlavorIs(k)), Filter(valid, SecondFlavorIs(k));
    SalesByFlavorCounts(valid, k);
    if k in SalesByFlavor(valid) {
      var s := if |f1| > 0 then f1[0] else f2[0];
      assert s in f1 || s in f2;
      var i :| 0 <= i < |valid| && valid[i] == s;
      NamedIn(s, k);
    }
    if exists i | 0 <= i < |valid| :: k in FlavorNames(valid[i]) {
      var i :| 0 <= i < |valid| && k in FlavorNames(valid[i]);
      NamedIn(valid[i], k);
      assert valid[i] in f1 || valid[i] in f2;
    }
  }

  lemma NamedIn(s: Sale, k: string)
    ensures k in FlavorNames(s) <==> FirstFlavorIs(k)(s) || SecondFlavorIs(k)(s)
  {
  }

  /** The flavour counts add up to the number of truthy flavour slots, at most two per sale. */
  lemma {:induction false} SalesByFlavorTotal(valid: seq<Sale>)
    ensures Total(SalesByFlavor(valid)) == |Filter(valid, HasFirstFlavor)| + |Filter(valid, HasSecondFlavor)|
    ensures Total(SalesByFlavor(valid)) <= 2 * |valid|
  {
    if |valid| > 0 {
      var init, last := valid[..|valid| - 1], valid[|valid| - 1];
      SalesByFlavorTotal(init);
      FilterLast(valid, HasFirstFlavor);
      FilterLast(valid, HasSecondFlavor);
      var acc := SalesByFlavor(init);
      var a := if Present(last.flavor1) then Add(acc, last.flavor1.value, 1) else acc;
      if Present(last.flavor1) {
        TotalAdd(acc, last.flavor1.value, 1);
      }
      if Present(last.flavor2) {
        TotalAdd(a, last.flavor2.value, 1);
      }
    }
  }

  /** A sale whose two slots name the same flavour adds 2 to that flavour's count. */
  lemma SameFlavorTwice(valid: seq<Sale>, s: Sale)
    requires Present(s.flavor1) && s.flavor2 == s.flavor1
    ensures Get(SalesByFlavor(valid + [s]), s.flavor1.value) == Get(SalesByFlavor(valid), s.flavor1.value) + 2
  {
    assert (valid + [s])[..|valid|] == valid;
  }

  /** A point of a chart: `{ name, vendas }` for sellers, `{ name, value }` for flavours. */
  datatype ChartPoint = ChartPoint(name: string, value: nat)

  /** `Object.keys(m).map(name => ({ name, value: m[name] }))`, in no particular order. */
  ghost function ChartData(m: map<string, nat>): (points: seq<ChartPoint>)
    ensures |points| == |m.Keys|
    ensures forall i | 0 <= i < |points| :: points[i].name in m && points[i].value == m[points[i].name]
  {
    var keys := KeyList(m);
    seq(|keys|, i requires 0 <= i < |keys| => ChartPoint(keys[i], m[keys[i]]))
  }

  /** Every key of the counting object has its point, and no name has two. */
  lemma ChartDataComplete(m: map<string, nat>)
    ensures forall k | k in m :: ChartPoint(k, m[k]) in ChartData(m)
    ensures forall i, j | 0 <= i < j < |ChartData(m)| :: ChartData(m)[i].name != ChartData(m)[j].name
  {
    var keys, points := KeyList(m), ChartData(m);
    assert forall i | 0 <= i < |points| :: points[i].name == keys[i];
    forall k | k in m ensures ChartPoint(k, m[k]) in points {
      var i :| 0 <= i < |keys| && keys[i] == k;
      assert points[i] == ChartPoint(k, m[k]);
    }
  }
}
