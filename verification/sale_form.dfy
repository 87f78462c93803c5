/**
 * The sale form: seven pieces of form state, the effect that fills them from
 * the sale being edited, and the record the form submits.
 */
module SaleFormComponent {
  import opened Wrappers
  import opened SaleModel

  /** The values of the seven state fields. `numFlavors` is the radio group's "1" or "2". */
  datatype FormFields = FormFields(
    customerName: string,
    customerPhone: string,
    seller: Option<string>,
    pickupDate: string,
    numFlavors: string,
    flavor1: Option<string>,
    flavor2: string)

  /** The initial `useState` values. */
  const Blank: FormFields := FormFields("", "", Some(""), "", "1", Some(""), "")

  /**
   * The fields after the loading effect: the sale's values when a sale is being
   * edited, with two flavours exactly when its second flavour is a non-empty
   * name; untouched when there is no sale.
   */
  function Loaded(f: FormFields, sale: Option<Sale>): (g: FormFields)
    ensures sale.None? ==> g == f
    ensures sale.Some? ==> (g.numFlavors == "2" <==> Present(sale.value.flavor2))
    ensures sale.Some? ==> g.numFlavors in {"1", "2"}
    ensures sale.Some? && Present(sale.value.flavor2) ==> g.flavor2 == sale.value.flavor2.value
    ensures sale.Some? && !Present(sale.value.flavor2) ==> g.flavor2 == ""
  {
    match sale
    case None => f
    case Some(s) =>
      var two := Present(s.flavor2);
      FormFields(s.customerName, s.customerPhone, s.seller, s.pickupDate,
                 if two then "2" else "1", s.flavor1, if two then s.flavor2.value else "")
  }

  /** The form component's state. */
  class SaleForm {
    var customerName: string
    var customerPhone: string
    var seller: Option<string>
    var pickupDate: string
    var numFlavors: string
    var flavor1: Option<string>
    var flavor2: string

    function Fields(): FormFields
      reads this
    {
      FormFields(customerName, customerPhone, seller, pickupDate, numFlavors, flavor1, flavor2)
    }

    constructor ()
      ensures Fields() == Blank
    {
      customerName, customerPhone, seller, pickupDate := "", "", Some(""), "";
      numFlavors, flavor1, flavor2 := "1", Some(""), "";
    }

    /** The `useEffect` on `sale`: one setter call per field, in the component's order. */
    method Load(sale: Option<Sale>)
      modifies this
      ensures Fields() == Loaded(old(Fields()), sale)
      ensures sale.None? ==> unchanged(this)
    {
      if sale.Some? {
        var s := sale.value;
        customerName := s.customerName;
        customerPhone := s.customerPhone;
        seller := s.seller;
        pickupDate := s.pickupDate;
        flavor1 := s.flavor1;
        if Present(s.flavor2) {
          numFlavors := "2";
          flavor2 := s.flavor2.value;
        } else {
          numFlavors := "1";
          flavor2 := "";
        }
      }
    }

    /**
     * `handleSubmit`'s record: the edited sale keeps its id and status, a new
     * one takes `now` (the `Date.now()` value) as id and starts 'Pendente'; a
     * second flavour is sent only when two flavours are chosen.
     */
    function Submit(sale: Option<Sale>, now: SaleId): (r: Sale)
      reads this
      ensures sale.Some? ==> r.id == sale.value.id && r.status == sale.value.status
      ensures sale.None? ==> r.id == now && r.status == Pendente
      ensures r.flavor2.Some? <==> numFlavors == "2"
      ensures r.flavor2.Some? ==> r.flavor2.value == flavor2
    {
      Sale(if sale.Some? then sale.value.id else now,
           customerName, customerPhone, seller, pickupDate, flavor1,
           if numFlavors == "2" then Some(flavor2) else None,
           if sale.Some? then sale.value.status else Pendente)
    }
  }

  /**
   * Round trip: submitting right after loading a sale gives the sale back,
   * except that a second flavour with an empty name comes back missing.
   */
  lemma LoadSubmitRoundTrip(form: SaleForm, before: FormFields, s: Sale, now: SaleId)
    requires form.Fields() == Loaded(before, Some(s))
    ensures form.Submit(Some(s), now) == s.(flavor2 := if Present(s.flavor2) then s.flavor2 else None)
  {
  }

  /** A form opened without a sale submits a new pending sale built from the blank fields. */
  lemma NewSaleFromBlank(form: SaleForm, now: SaleId)
    requires form.Fields() == Loaded(Blank, None)
    ensures form.Submit(None, now) == Sale(now, "", "", Some(""), "", Some(""), None, Pendente)
  {
  }
}
