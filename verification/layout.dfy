/** Page geometry of the drawn invoice (app/pdf/pdf_draw.py): the layout
    constants in points, and the vertical cursor through the fixed blocks
    at the top of every page. PDF y grows upwards, so the cursor falls. */
module Layout {
  import opened Lookup
  import opened Text

  /** One millimetre in points. */
  const MM: real := 72.0 / 25.4

  const PageHeight: real := 297.0 * MM
  const MarginTop: real := 18.0 * MM
  const MarginBottom: real := 18.0 * MM
  const HeaderHeight: real := 10.0 * MM
  const DescWidth: real := 102.0 * MM
  const RowHeight: real := 6.0 * MM
  const HeaderRowHeight: real := 7.0 * MM
  const TableTopGap: real := 8.0 * MM
  const TotalsBlockMin: real := 10.0 * MM
  const RowBottomGap: real := 4.0 * MM
  /** The step between text lines of the invoice and bill-to blocks. */
  const LineStep: real := 4.2 * MM

  /** The lowest a row may reach: bottom margin plus the row gap. */
  const RowFloor: real := MarginBottom + RowBottomGap

  /** The width a description is wrapped to: the column less 4 points. */
  const WrapWidth: real := DescWidth - 4.0

  /** `_draw_header`'s result: the rule under the header band. */
  function HeaderLine(): (y: real)
    ensures y == 269.0 * MM
  {
    var top := PageHeight - MarginTop;
    top - HeaderHeight
  }

  /** `_draw_invoice_block`: invoice number 6 mm below `yTop`, the date one
      line further, then 2 mm of space. */
  function InvoiceBlockBottom(yTop: real): (y: real)
    ensures y == yTop - 12.2 * MM
  {
    var first := yTop - 6.0 * MM;
    var date := first - LineStep;
    date - 2.0 * MM
  }

  /** The customer dict, or an empty one when `customer` is missing or not a dict. */
  function Customer(data: Json): (c: Json)
    ensures c.Dict?
  {
    var c := GetKey(data, "customer", Null);
    if c.Dict? then c else Dict(map[])
  }

  /** The address as split into lines: `str(address or "").splitlines()`. */
  function AddressLines(data: Json): seq<string>
  {
    SplitLines(Show(Or(GetKey(Customer(data), "address", Str("")), Str(""))))
  }

  /** The bill-to lines beyond the label and the name: the phone when it is
      truthy, and every non-empty address line. */
  function ExtraLines(data: Json): nat
  {
    (if Truthy(GetKey(Customer(data), "phone", Str(""))) then 1 else 0)
    + |NonEmpty(AddressLines(data))|
  }

  /** The address loop of `_draw_bill_to`: one step down per non-empty line. */
  function AddressCursor(y: real, lines: seq<string>): (r: real)
    ensures r == y - LineStep * (|NonEmpty(lines)| as real)
    decreases |lines|
  {
    if lines == [] then y
    else
      var n := |NonEmpty(lines[1..])| as real;
      var y' := if lines[0] == [] then y else y - LineStep;
      var r := AddressCursor(y', lines[1..]);
      assert |NonEmpty(lines)| as real == (if lines[0] == [] then n else n + 1.0);
      assert LineStep * (n + 1.0) == LineStep * n + LineStep;
      r
  }

  /** `_draw_bill_to`: label 6 mm below `yTop`, name 5 mm lower, then one
      line step for the name, the phone and each address line, then 2 mm. */
  function BillToBottom(data: Json, yTop: real): (y: real)
    ensures y == yTop - 17.2 * MM - LineStep * (ExtraLines(data) as real)
  {
    var caption := yTop - 6.0 * MM;
    var name := caption - 5.0 * MM;
    var afterName := name - LineStep;
    var afterPhone :=
      if Truthy(GetKey(Customer(data), "phone", Str(""))) then afterName - LineStep else afterName;
    AddressCursor(afterPhone, AddressLines(data)) - 2.0 * MM
  }

  /** `new_page`: header, both blocks from the header rule, the table top
      `TABLE_TOP_GAP` below the lower block, and the body one header row
      below that. The bill-to block always ends lower than the invoice block,
      so the body start falls by one line step per extra bill-to line. */
  function BodyStart(data: Json): (y: real)
    ensures y == 236.8 * MM - LineStep * (ExtraLines(data) as real)
    ensures y == BillToBottom(data, HeaderLine()) - TableTopGap - HeaderRowHeight
  {
    var header := HeaderLine();
    var info := InvoiceBlockBottom(header);
    var bill := BillToBottom(data, header);
    var tableTop := (if info < bill then info else bill) - TableTopGap;
    tableTop - HeaderRowHeight
  }

  /** A fresh page leaves room for a two-line row above the row floor. */
  predicate RoomForTwoLines(data: Json)
  {
    BodyStart(data) - 2.0 * RowHeight >= RowFloor
  }

  /** A fresh page has room for a two-line row exactly when the bill-to
      block has at most 48 lines beyond the name. */
  lemma RoomIff(data: Json)
    ensures RoomForTwoLines(data) <==> ExtraLines(data) <= 48
  {
    RoomAt(BodyStart(data), ExtraLines(data));
  }

  /** The room check at a body start `n` line steps below the top one. */
  lemma RoomAt(y: real, n: nat)
    requires y == 236.8 * MM - LineStep * (n as real)
    ensures y - 2.0 * RowHeight >= RowFloor <==> n <= 48
  {
    assert y - 2.0 * RowHeight - RowFloor == 202.8 * MM - LineStep * (n as real);
    Threshold(n);
  }

  /** 202.8 mm hold 48 line steps and no more. */
  lemma Threshold(n: nat)
    ensures 202.8 * MM - LineStep * (n as real) >= 0.0 <==> n <= 48
  {
    var e := n as real;
    if n <= 48 {
      StepsBelow(e, 48.0);
      assert LineStep * 48.0 == 201.6 * MM;
    } else {
      StepsBelow(49.0, e);
      assert LineStep * 49.0 == 205.8 * MM;
    }
  }

  /** More line steps reach further down. */
  lemma StepsBelow(a: real, b: real)
    requires a <= b
    ensures LineStep * a <= LineStep * b
  {
  }
}
