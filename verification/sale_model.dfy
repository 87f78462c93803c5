/**
 * The sale record shared by every page of the pizza-card CRM, and the two
 * status filters that more than one page applies to a list of sales.
 */
module SaleModel {
  import opened Wrappers
  import opened Collections

  /** A sale's delivery status, with the names the application stores. */
  datatype Status = Pendente | Entregue | Cancelado

  /** Sale ids are compared for equality only. */
  type SaleId = nat

  /**
   * One pizza-card sale. `seller`, `flavor1` and `flavor2` are the names that
   * the database join (or the record itself) supplies; `None` is a missing
   * entry and `Some("")` a present one with an empty name. Where a missing
   * entry is written into text (`Interpolated`), `None` stands for `undefined`.
   */
  datatype Sale = Sale(
    id: SaleId,
    customerName: string,
    customerPhone: string,
    seller: Option<string>,
    pickupDate: string,
    flavor1: Option<string>,
    flavor2: Option<string>,
    status: Status)

  /** JavaScript truthiness of an optional name: missing and empty names are both falsy. */
  predicate Present(name: Option<string>)
  {
    name.Some? && name.value != ""
  }

  /**
   * A template literal `${name}` or a property key `acc[name]`: a missing
   * (`undefined`) name becomes "undefined".
   */
  function Interpolated(name: Option<string>): string
  {
    if name.Some? then name.value else "undefined"
  }

  /** A name as JSX renders it: a missing name renders as nothing. */
  function Rendered(name: Option<string>): string
  {
    if name.Some? then name.value else ""
  }

  /** The text stored for each status. */
  function StatusName(st: Status): string
  {
    match st
    case Pendente => "Pendente"
    case Entregue => "Entregue"
    case Cancelado => "Cancelado"
  }

  predicate IsValid(s: Sale)
  {
    s.status != Cancelado
  }

  predicate IsDelivered(s: Sale)
  {
    s.status == Entregue
  }

  /** `sales.filter(s => s.status !== 'Cancelado')`. */
  function ValidSales(sales: seq<Sale>): (r: seq<Sale>)
    ensures forall s | s in r :: s.status != Cancelado
  {
    Filter(sales, IsValid)
  }

  /** `sales.filter(s => s.status === 'Entregue')`. */
  function DeliveredSales(sales: seq<Sale>): (r: seq<Sale>)
    ensures forall s | s in r :: s.status == Entregue
  {
    Filter(sales, IsDelivered)
  }

  /**
   * Each filter keeps every copy of the sales it selects and nothing else:
   * `ValidSales` the sales that are not cancelled, `DeliveredSales` the delivered ones.
   */
  lemma FiltersKeepExactly(sales: seq<Sale>, s: Sale)
    ensures multiset(ValidSales(sales))[s] == if s.status != Cancelado then multiset(sales)[s] else 0
    ensures multiset(DeliveredSales(sales))[s] == if s.status == Entregue then multiset(sales)[s] else 0
  {
    FilterMultiplicity(sales, IsValid, s);
    FilterMultiplicity(sales, IsDelivered, s);
  }

  /** Both filters keep the relative order of the sales they keep. */
  lemma FiltersKeepOrder(a: seq<Sale>, b: seq<Sale>)
    ensures ValidSales(a + b) == ValidSales(a) + ValidSales(b)
    ensures DeliveredSales(a + b) == DeliveredSales(a) + DeliveredSales(b)
  {
    FilterAppend(a, b, IsValid);
    FilterAppend(a, b, IsDelivered);
  }

  /**
   * Every delivered sale is a valid one, so the delivered sales are exactly the
   * delivered sales among the valid ones, in the same order.
   */
  lemma DeliveredAmongValid(sales: seq<Sale>)
    ensures DeliveredSales(sales) == DeliveredSales(ValidSales(sales))
    ensures |DeliveredSales(sales)| <= |ValidSales(sales)| <= |sales|
  {
    FilterNarrows(sales, IsDelivered, IsValid);
  }

  /** No two sales in the list share an id (a primary key of the sales table). */
  ghost predicate UniqueIds(sales: seq<Sale>)
  {
    forall i, j | 0 <= i < j < |sales| :: sales[i].id != sales[j].id
  }
}
