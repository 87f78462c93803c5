/**
 * The deliveries page: the action each sale offers according to its status,
 * and the status update it sends to the sales table.
 */
module Deliveries {
  import opened Wrappers
  import opened SaleModel

  /**
   * The status the row's button sets: "Registrar Entrega" on a pending sale,
   * "Cancelar Entrega" on a delivered one, and no button on a cancelled one.
   */
  function OfferedStatus(st: Status): (next: Option<Status>)
    ensures next.None? <==> st == Cancelado
    ensures next.Some? ==> next.value != st && next.value != Cancelado
  {
    match st
    case Pendente => Some(Entregue)
    case Entregue => Some(Pendente)
    case Cancelado => None
  }

  /** The "Sabores" cell: flavor1's name, then ", " and flavor2's name when a second flavour is joined. */
  function FlavorLabel(s: Sale): (text: string)
    ensures s.flavor2.None? ==> text == Rendered(s.flavor1)
    ensures s.flavor2.Some? ==>
              var tail := ", " + s.flavor2.value;
              |text| >= |tail| && text[..|text| - |tail|] == Rendered(s.flavor1) && text[|text| - |tail|..] == tail
  {
    Rendered(s.flavor1) + (if s.flavor2.Some? then ", " + s.flavor2.value else "")
  }

  /** `update({ status }).eq("id", id)` on the sales table: every row with that id takes the new status. */
  function WithStatus(rows: seq<Sale>, id: SaleId, status: Status): (r: seq<Sale>)
    ensures |r| == |rows|
    ensures forall i | 0 <= i < |rows| :: r[i].id == rows[i].id
    ensures forall i | 0 <= i < |rows| && rows[i].id == id :: r[i] == rows[i].(status := status)
    ensures forall i | 0 <= i < |rows| && rows[i].id != id :: r[i] == rows[i]
  {
    if |rows| == 0 then []
    else
      var head := if rows[0].id == id then rows[0].(status := status) else rows[0];
      [head] + WithStatus(rows[1..], id, status)
  }

  /**
   * Registering the delivery of a pending sale and then undoing it gives back
   * the table it started from.
   */
  lemma RegisterThenUndo(rows: seq<Sale>, i: nat)
    requires UniqueIds(rows) && i < |rows| && rows[i].status == Pendente
    ensures var id, registered := rows[i].id, OfferedStatus(Pendente).value;
            WithStatus(WithStatus(rows, id, registered), id, OfferedStatus(registered).value) == rows
  {
    var id := rows[i].id;
    var once := WithStatus(rows, id, Entregue);
    var twice := WithStatus(once, id, Pendente);
    forall j | 0 <= j < |rows| ensures twice[j] == rows[j] {
      if rows[j].id == id {
        assert j == i;
      }
    }
  }

  /** The sales table as the deliveries page sees it after each refetch. */
  class SalesTable {
    var rows: seq<Sale>

    /** Ids are the table's primary key. */
    ghost predicate Valid()
      reads this
    {
      UniqueIds(rows)
    }

    constructor (initial: seq<Sale>)
      requires UniqueIds(initial)
      ensures Valid() && rows == initial
    {
      rows := initial;
    }

    /** `handleStatusChange(id, newStatus)`: the mutation's update of the row with that id. */
    method HandleStatusChange(id: SaleId, newStatus: Status)
      requires Valid()
      modifies this
      ensures Valid()
      ensures rows == WithStatus(old(rows), id, newStatus)
    {
      rows := WithStatus(rows, id, newStatus);
    }

    /**
     * Pressing the button of row `i`. A cancelled row has none, and no press
     * ever makes a sale cancelled or takes one out of that status.
     */
    method PressAction(i: nat)
      requires Valid() && i < |rows|
      modifies this
      ensures Valid()
      ensures OfferedStatus(old(rows)[i].status).None? ==> rows == old(rows)
      ensures OfferedStatus(old(rows)[i].status).Some? ==>
                rows == WithStatus(old(rows), old(rows)[i].id, OfferedStatus(old(rows)[i].status).value)
      ensures |rows| == |old(rows)|
      ensures forall j | 0 <= j < |rows| :: (rows[j].status == Cancelado) <==> (old(rows)[j].status == Cancelado)
    {
      var sale := rows[i];
      var next := OfferedStatus(sale.status);
      if next.Some? {
        HandleStatusChange(sale.id, next.value);
        forall j | 0 <= j < |rows| && old(rows)[j].id == sale.id ensures j == i {
        }
      }
    }
  }
}
