# Pizza-card sales CRM: a verified model of its page logic

The CRM tracks the pizza cards sold in a fundraiser. Each sale has a customer,
a seller, one or two flavours, a pickup date and a delivery status
(`Pendente`, `Entregue` or `Cancelado`). This project models the logic of its
five pages and components and proves what that logic guarantees:

- `SaleModel` (`sale_model.dfy`): the sale record and the two status filters
  used across pages, `validSales` (not cancelled) and the delivered sales.
- `Dashboard` (`dashboard.dfy`):
  - the price setting, the expected revenue and the delivered count;
  - the per-seller and per-flavour counting folds;
  - the chart data built from those counts.
- `Reports` (`reports.dfy`):
  - the per-seller report fold, as a function and as the loop the page runs
    (records created once and then updated in place);
  - the report rows;
  - the CSV text of the two exports, with a reader for it and round-trip proofs.
- `Deliveries` (`deliveries.dfy`):
  - the action offered for each status;
  - the status update by id on the stored sales table, as a class;
  - the flavour label.
- `SalesPage` (`sales_page.dfy`): the page's `sales` state as a class, deletion
  by id, and the flavour cell.
- `SaleFormComponent` (`sale_form.dfy`): the seven form fields as a class, the
  effect that loads a sale into them, and the record the form submits.
- Helper modules:
  - `Wrappers`: `Option`.
  - `Collections`: order-keeping filter, counting maps and their sums, the keys
    of a map listed once each.
  - `Text`: `Array.join`, `String.split` and decimal digits, with their round trips.

How JavaScript values are modelled:
- Missing names are `None`. A present empty name is `Some("")`.
  - `Present` is JavaScript truthiness: `None` and `""` are both falsy.
  - `Interpolated` is a template literal or property key. There `None`
    stands for `undefined`, which becomes `"undefined"`.
  - `Rendered` is a name as JSX renders it: a missing name renders as nothing.
- Money is in integer cents. The report's card price of 35.00 is `3500`.
- Object key order is not modelled. The chart data and the report rows list
  each key once, in an unspecified order.

## Model

| member | source | states |
|---|---|---|
| `SaleModel.ValidSales` | src/pages/Dashboard.tsx:42 | every kept sale is not cancelled (the membership converse is `Collections.Filter`'s contract) |
| `SaleModel.DeliveredSales` | src/pages/Dashboard.tsx:44 | every kept sale is `Entregue` |
| `SaleModel.FiltersKeepExactly` | src/pages/Reports.tsx:36 | each filter keeps every copy of the sales it selects (same multiplicity) and drops all others |
| `SaleModel.FiltersKeepOrder` | src/pages/Dashboard.tsx:42 | both filters distribute over concatenation, so the kept sales stay in their original order |
| `SaleModel.DeliveredAmongValid` | src/pages/Reports.tsx:76-78 | the delivered sales are exactly the delivered sales among the valid ones; delivered ≤ valid ≤ all |
| `Dashboard.Price` | src/pages/Dashboard.tsx:19-20 | the price is the first returned row's value; it is 0 when no data comes back, when no row comes back, and when the first row's value is null |
| `Dashboard.ExpectedRevenue` | src/pages/Dashboard.tsx:43 | revenue is between 0 and (all sales × price) for a non-negative price, and 0 when every sale is cancelled; additivity is `Dashboard.ExpectedRevenueAdds` |
| `Dashboard.ExpectedRevenueAdds` | src/pages/Dashboard.tsx:43 | revenue (valid sales × price) is additive over a split of the sales, and 0 when no price row is returned |
| `Dashboard.Delivered` | src/pages/Dashboard.tsx:44 | the delivered count is at most the number of valid sales, which is at most the number of sales |
| `Dashboard.SalesBySeller` | src/pages/Dashboard.tsx:46-50 | every stored seller count is at least 1 |
| `Dashboard.SalesBySellerCounts` | src/pages/Dashboard.tsx:46-50 | each seller key's count is the number of valid sales credited to it |
| `Dashboard.SalesBySellerKeys` | src/pages/Dashboard.tsx:46-50 | the keys are exactly the seller keys of the valid sales |
| `Dashboard.SalesBySellerTotal` | src/pages/Dashboard.tsx:46-50 | the counts add up to the number of valid sales |
| `Dashboard.UnnamedSellerIsNA` | src/pages/Dashboard.tsx:47 | a valid sale with a missing or empty seller name is counted under `'N/A'` |
| `Dashboard.FlavorNames` | src/pages/Dashboard.tsx:54-55 | a sale adds at most two flavour names |
| `Dashboard.SalesByFlavor` | src/pages/Dashboard.tsx:53-57 | every stored flavour count is at least 1 |
| `Dashboard.SalesByFlavorCounts` | src/pages/Dashboard.tsx:53-57 | each flavour's count is its number of first-slot plus second-slot appearances (truthy names only) |
| `Dashboard.SalesByFlavorKeys` | src/pages/Dashboard.tsx:53-57 | the keys are exactly the names in a truthy slot of some valid sale |
| `Dashboard.SalesByFlavorTotal` | src/pages/Dashboard.tsx:53-57 | the counts add up to the truthy first slots plus the truthy second slots, hence at most twice the valid sales |
| `Dashboard.SameFlavorTwice` | src/pages/Dashboard.tsx:54-55 | a sale naming the same flavour in both slots adds 2 to that flavour's count |
| `Dashboard.ChartData` | src/pages/Dashboard.tsx:51 | one point per key of the counting object (the seller chart here, the flavour chart at line 58), each carrying its key's count |
| `Dashboard.ChartDataComplete` | src/pages/Dashboard.tsx:58 | every key has its point and no name appears twice |
| `Reports.SellerReport` | src/pages/Reports.tsx:38-45 | every seller in the report has a count of at least 1 |
| `Reports.SalesBySeller` | src/pages/Reports.tsx:38-45 | the in-place loop (create the record if missing, then add 1 and the price) yields exactly the fold |
| `Reports.SellerReportTotals` | src/pages/Reports.tsx:39-43 | a seller is in the report iff it has a valid sale; its count is its number of valid sales and its total that count × 3500 cents |
| `Reports.ReportedSellers` | src/pages/Reports.tsx:36-45 | the report's sellers are exactly those with at least one sale that is not cancelled |
| `Reports.SellerReportSums` | src/pages/Reports.tsx:38-45 | the counts add up to the number of valid sales, and the totals to that number × the price |
| `Reports.SellerReportData` | src/pages/Reports.tsx:47-52 | one row per seller of the report, each carrying that seller's count and total |
| `Reports.SellerReportDataComplete` | src/pages/Reports.tsx:47-52 | every seller has its row and no seller has two |
| `Reports.CsvContent` | src/pages/Reports.tsx:59 | the text starts with the header line and is only the header line for no sales; its lines are `Reports.CsvLines`, its read-back `Reports.CsvRoundTrip` |
| `Reports.ExportSales` | src/pages/Reports.tsx:72-74 | the sales export starts with the header and is only the header when every sale is cancelled; its content is `Reports.ExportsContent` |
| `Reports.ExportDeliveries` | src/pages/Reports.tsx:76-79 | the deliveries export starts with the header and is only the header when no sale is delivered; its content is `Reports.ExportsContent` |
| `Reports.Rows` | src/pages/Reports.tsx:56-58 | one CSV line per sale, in order |
| `Reports.RowIsOneLine` | src/pages/Reports.tsx:57 | a row has no line break when no field holds one |
| `Reports.RowSplitsIntoFields` | src/pages/Reports.tsx:55-57 | with no comma in a field, a row splits on `','` into its 8 fields in header order: id, pickup date and status bare, the others quoted, a missing second flavour as `""` |
| `Reports.CsvLines` | src/pages/Reports.tsx:59 | with no line break in a field, the text splits into the header line and one line per sale: 1 + n lines |
| `Reports.RowRoundTrip` | src/pages/Reports.tsx:56-58 | splitting a row on `','` and stripping the quotes gives the sale back, for sales whose fields hold no comma or line break |
| `Reports.ParseRowsRoundTrip` | src/pages/Reports.tsx:56-58 | reading the data lines back gives the exported sales, in order |
| `Reports.CsvRoundTrip` | src/pages/Reports.tsx:54-59 | reading a whole export back gives the exported sales, in order |
| `Reports.ExportsContent` | src/pages/Reports.tsx:72-79 | read back, the sales export is exactly the non-cancelled sales and the deliveries export exactly the delivered ones, in order; the deliveries are the delivered sales of the sales export. Only the exported sales need to fit the CSV |
| `Deliveries.OfferedStatus` | src/pages/Deliveries.tsx:74-76 | pending offers only delivered, delivered offers only pending, cancelled offers nothing; no action leads to or from cancelled |
| `Deliveries.FlavorLabel` | src/pages/Deliveries.tsx:70 | the label is flavor1's name, followed by ", " and flavor2's name exactly when a second flavour is joined (an object, even with an empty name); compared with the sales cell by `SalesPage.FlavorCellAndDeliveryLabel` |
| `Deliveries.WithStatus` | src/pages/Deliveries.tsx:34 | the update by id changes only the status of the rows with that id; other rows and other fields are unchanged |
| `Deliveries.RegisterThenUndo` | src/pages/Deliveries.tsx:74-75 | registering a pending sale's delivery and then undoing it restores the table |
| `Deliveries.SalesTable.constructor` | src/pages/Deliveries.tsx:23-30 | the table starts as the fetched rows, with unique ids |
| `Deliveries.SalesTable.HandleStatusChange` | src/pages/Deliveries.tsx:45-47 | the table becomes the update by id of the old table, keeping ids unique |
| `Deliveries.SalesTable.PressAction` | src/pages/Deliveries.tsx:73-76 | pressing a row's button applies its offered status to that row's id; a cancelled row changes nothing; no row enters or leaves `Cancelado` |
| `SalesPage.Remaining` | src/pages/Sales.tsx:68 | no sale with the id remains, and every sale with another id is kept |
| `SalesPage.RemainingCount` | src/pages/Sales.tsx:68 | the list shrinks by exactly the number of sales that had the id |
| `SalesPage.RemainingKeepsOrder` | src/pages/Sales.tsx:68 | deletion distributes over concatenation, keeping the relative order of the rest |
| `SalesPage.RemainingAbsentAndTwice` | src/pages/Sales.tsx:67-69 | deleting an absent id changes nothing; deleting the same id twice equals deleting it once |
| `SalesPage.RemainingUniqueCount` | src/pages/Sales.tsx:67-69 | with unique ids, deletion removes one sale when the id is present and none otherwise |
| `SalesPage.RemainingStaysUnique` | src/pages/Sales.tsx:68 | deletion keeps the ids unique |
| `SalesPage.SalesList.constructor` | src/pages/Sales.tsx:58-64 | the state starts as the two initial sales, ids 1 and 2 |
| `SalesPage.SalesList.HandleDelete` | src/pages/Sales.tsx:67-69 | the state becomes the filtered list, ids stay unique, and it shrinks by one exactly when the id was present |
| `SalesPage.FlavorCell` | src/pages/Sales.tsx:121 | the cell is flavor1, followed by ", " and flavor2 exactly when flavor2 is a non-empty name |
| `SalesPage.FlavorCellAndDeliveryLabel` | src/pages/Sales.tsx:121 | the sales cell and the deliveries label (Deliveries.tsx line 70) agree, except that an empty second name leaves a trailing ", " in the deliveries label |
| `SaleFormComponent.Loaded` | src/components/SaleForm.tsx:36-51 | with a sale, two flavours and its flavor2 exactly when flavor2 is truthy, otherwise "1" and ""; with no sale, nothing changes |
| `SaleFormComponent.SaleForm.constructor` | src/components/SaleForm.tsx:28-34 | the fields start blank, with one flavour |
| `SaleFormComponent.SaleForm.Load` | src/components/SaleForm.tsx:36-51 | the fields become the loaded values; with no sale the object is unchanged |
| `SaleFormComponent.SaleForm.Submit` | src/components/SaleForm.tsx:53-66 | editing keeps the sale's id and status; a new sale takes the given timestamp and `Pendente`; flavor2 is sent exactly when two flavours are chosen |
| `SaleFormComponent.LoadSubmitRoundTrip` | src/components/SaleForm.tsx:36-66 | submitting right after loading a sale returns it, except that an empty second flavour comes back missing |
| `SaleFormComponent.NewSaleFromBlank` | src/components/SaleForm.tsx:28-37 | a form opened without a sale submits a pending sale with blank fields and the given id |

## Left out

- Markup, widgets, charts and their colours: presentation only. `Dashboard.ChartData` stands for the chart arrays handed to them.
- Database queries, the mutation, react-query caching, invalidation and the loading states: remote I/O.
  - Query results are inputs.
  - The update at Deliveries.tsx line 34 is modelled by its effect on a stored table.
  - The server-side `order("pickup_date")` is taken as given and not modelled.
- Toast notifications: UI side effects.
- The Blob, object-URL and link-click download in the CSV export: browser I/O. Only the CSV text is modelled.
- `Date.now()`: it becomes the `now` parameter of `SaleFormComponent.SaleForm.Submit`.
- `toLocaleDateString`: locale-dependent formatting that the environment provides.
- Floating-point money: amounts are integer cents, and `toFixed(2)` formatting is not modelled.
- `Dashboard.Price`: `Number(...)` parsing of the stored value is not modelled. The setting is taken as an integer number of cents, and a 0 value falls back to 0 as in the source.
- Object key order of `Object.keys` and `Object.entries`: the model lists each key once and claims no order.
- Sale ids: the deliveries page uses string ids, the other pages numbers. All ids are natural numbers here. The pages compare them for equality only. The CSV export writes them with `Text.Decimal` and reads them back with `Text.ParseDecimal`.
- `Reports.RowFields`: the id is written as its plain decimal digits. JavaScript's `String(n)` agrees only for integers below 10^21, and JavaScript numbers are exact only up to 2^53. Larger ids, and non-integer ids, are not modelled.
- `SaleModel.Interpolated`: a missing value is taken to be `undefined`. A `null` seller or flavour would be written as "null" in the CSV and used as the key "null" in the report fold; the model does not cover `null` there.
- The Reports page's built-in list of sales: the page reads a constant list. The model takes the sales as input, so every list is covered.
- The sidebar and the settings page: static navigation and text.
- The form's input handlers (`onChange` setters) and the dropdown option lists: user input, not logic.
- Dashboard.SalesBySeller: counts go into a Dafny map, where every name is a new key. The page counts into a plain JavaScript object. There, a name equal to an `Object.prototype` property (`__proto__`, `constructor`, `toString`, `valueOf`, `hasOwnProperty`, ...) reads the inherited property: `"toString"` stores a string instead of a count, and `"__proto__"` is never stored. The model counts such names like any other, so `Dashboard.SalesBySellerTotal` and `Dashboard.ChartData` hold here but not for those names on the page.
- Dashboard.SalesByFlavor: the same for flavour names that equal an `Object.prototype` property; the model counts them like any other name.
- Reports.SellerReport: the same for seller names that equal an `Object.prototype` property. On the page, `!acc["toString"]` is false, so no record is created, the update writes onto the inherited property and `Object.entries` lists no row. The model creates the seller's record like any other.
- Reports.SalesBySeller: the in-place loop shares `Reports.SellerReport`'s treatment of `Object.prototype` names.
- `Reports.ParseRow`: a reader written for the round-trip proofs, not a general CSV parser. It handles no escaped quotes and reads an empty second flavour as missing.
- `Reports.RowRoundTrip`: proved only for sales whose text fields hold no comma or line break, with a seller and a first flavour set, and no empty second flavour. Outside these the written CSV is ambiguous.
