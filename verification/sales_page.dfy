/**
 * The sales page: the list of sales held in the page's state, the deletion
 * that replaces it with a filtered copy, and the flavour cell of each row.
 */
module SalesPage {
  import opened Wrappers
  import opened Collections
  import opened SaleModel
  import Deliveries

  /** The list the page starts from. */
  const InitialSales: seq<Sale> := [
    Sale(1, "Carlos Pereira", "11 98765-4321", Some("João Silva"), "2024-10-26",
         Some("Calabresa"), Some("Mussarela"), Pendente),
    Sale(2, "Ana Souza", "21 91234-5678", Some("Maria Oliveira"), "2024-11-02",
         Some("Frango com Catupiry"), None, Pendente)
  ]

  function IdOtherThan(id: SaleId): Sale -> bool
  {
    (s: Sale) => s.id != id
  }

  /** `sales.filter(sale => sale.id !== id)`. */
  function Remaining(sales: seq<Sale>, id: SaleId): (r: seq<Sale>)
    ensures forall s | s in r :: s.id != id && s in sales
    ensures forall s | s in sales && s.id != id :: s in r
  {
    Filter(sales, IdOtherThan(id))
  }

  /** The ids of a list of sales, in order. */
  function Ids(sales: seq<Sale>): (ids: seq<SaleId>)
    ensures |ids| == |sales|
  {
    if |sales| == 0 then [] else [sales[0].id] + Ids(sales[1..])
  }

  /** Deleting shrinks the list by exactly the number of sales that had the id. */
  lemma {:induction false} RemainingCount(sales: seq<Sale>, id: SaleId)
    ensures |Remaining(sales, id)| == |sales| - multiset(Ids(sales))[id]
  {
    if |sales| > 0 {
      RemainingCount(sales[1..], id);
    }
  }

  /** Deleting keeps the other sales in their original relative order. */
  lemma RemainingKeepsOrder(a: seq<Sale>, b: seq<Sale>, id: SaleId)
    ensures Remaining(a + b, id) == Remaining(a, id) + Remaining(b, id)
  {
    FilterAppend(a, b, IdOtherThan(id));
  }

  /** Deleting an id no sale has changes nothing, and deleting an id twice is deleting it once. */
  lemma RemainingAbsentAndTwice(sales: seq<Sale>, id: SaleId)
    ensures (forall s | s in sales :: s.id != id) ==> Remaining(sales, id) == sales
    ensures Remaining(Remaining(sales, id), id) == Remaining(sales, id)
  {
    if forall s | s in sales :: s.id != id {
      FilterKeepsAll(sales, IdOtherThan(id));
    }
    FilterKeepsAll(Remaining(sales, id), IdOtherThan(id));
  }

  predicate HasId(sales: seq<Sale>, id: SaleId)
  {
    exists i | 0 <= i < |sales| :: sales[i].id == id
  }

  /** The tail of a list with unique ids has unique ids, none of them the head's. */
  lemma UniqueTail(sales: seq<Sale>)
    requires UniqueIds(sales) && |sales| > 0
    ensures UniqueIds(sales[1..])
    ensures forall s | s in sales[1..] :: s.id != sales[0].id
  {
    var t := sales[1..];
    forall i, j | 0 <= i < j < |t| ensures t[i].id != t[j].id {
      assert t[i] == sales[i + 1] && t[j] == sales[j + 1];
    }
    forall s | s in t ensures s.id != sales[0].id {
      var j :| 0 <= j < |t| && t[j] == s;
      assert sales[j + 1] == s;
    }
  }

  lemma HasIdSplit(sales: seq<Sale>, id: SaleId)
    requires |sales| > 0
    ensures HasId(sales, id) <==> sales[0].id == id || HasId(sales[1..], id)
  {
    var t := sales[1..];
    if HasId(sales, id) && sales[0].id != id {
      var i :| 0 <= i < |sales| && sales[i].id == id;
      assert t[i - 1].id == id;
    }
    if HasId(t, id) {
      var i :| 0 <= i < |t| && t[i].id == id;
      assert sales[i + 1].id == id;
    }
  }

  /** With unique ids, deleting removes exactly one sale when the id is present and none otherwise. */
  lemma {:induction false} RemainingUniqueCount(sales: seq<Sale>, id: SaleId)
    requires UniqueIds(sales)
    ensures |Remaining(sales, id)| == if HasId(sales, id) then |sales| - 1 else |sales|
  {
    if |sales| > 0 {
      var h, t := sales[0], sales[1..];
      UniqueTail(sales);
      HasIdSplit(sales, id);
      RemainingUniqueCount(t, id);
      if h.id == id {
        FilterKeepsAll(t, IdOtherThan(id));
        assert !HasId(t, id);
      }
    }
  }

  /** Deleting keeps the ids unique. */
  lemma {:induction false} RemainingStaysUnique(sales: seq<Sale>, id: SaleId)
    requires UniqueIds(sales)
    ensures UniqueIds(Remaining(sales, id))
  {
    if |sales| > 0 {
      var h, t := sales[0], sales[1..];
      UniqueTail(sales);
      RemainingStaysUnique(t, id);
      var rt := Remaining(t, id);
      if h.id != id {
        assert Remaining(sales, id) == [h] + rt;
        UniqueCons(h, rt);
      }
    }
  }

  /** Putting a sale in front of a list with unique ids keeps them unique when its id is new. */
  lemma UniqueCons(h: Sale, rest: seq<Sale>)
    requires UniqueIds(rest) && forall s | s in rest :: s.id != h.id
    ensures UniqueIds([h] + rest)
  {
    var r := [h] + rest;
    forall i, j | 0 <= i < j < |r| ensures r[i].id != r[j].id {
      assert r[j] == rest[j - 1];
      if i > 0 {
        assert r[i] == rest[i - 1];
      }
    }
  }

  /** The page's `sales` state. */
  class SalesList {
    var sales: seq<Sale>

    /** The ids of the listed sales are distinct. */
    ghost predicate Valid()
      reads this
    {
      UniqueIds(sales)
    }

    constructor ()
      ensures Valid() && sales == InitialSales
    {
      sales := InitialSales;
    }

    /** `handleDelete(id)`: `setSales(sales.filter(sale => sale.id !== id))`. */
    method HandleDelete(id: SaleId)
      requires Valid()
      modifies this
      ensures Valid()
      ensures sales == Remaining(old(sales), id)
      ensures |sales| == if HasId(old(sales), id) then |old(sales)| - 1 else |old(sales)|
    {
      RemainingUniqueCount(sales, id);
      RemainingStaysUnique(sales, id);
      sales := Remaining(sales, id);
    }
  }

  /** The "Sabores" cell: flavor1, then ", " and flavor2 when flavor2 is a non-empty string. */
  function FlavorCell(s: Sale): (cell: string)
    ensures !Present(s.flavor2) ==> cell == Rendered(s.flavor1)
    ensures Present(s.flavor2) ==>
              var tail := ", " + s.flavor2.value;
              |cell| >= |tail| && cell[..|cell| - |tail|] == Rendered(s.flavor1) && cell[|cell| - |tail|..] == tail
  {
    Rendered(s.flavor1) + (if Present(s.flavor2) then ", " + s.flavor2.value else "")
  }

  /**
   * The sales page and the deliveries page label a sale's flavours alike,
   * except for an empty second name, where the deliveries label keeps a trailing ", ".
   */
  lemma FlavorCellAndDeliveryLabel(s: Sale)
    ensures Deliveries.FlavorLabel(s) == FlavorCell(s) + (if s.flavor2 == Some("") then ", " else "")
  {
  }
}
