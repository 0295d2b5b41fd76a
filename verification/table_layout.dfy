/** The Platypus table model of an invoice (app/pdf/table_layout.py): the
    column widths, the cell rows, and the style commands keyed by cell
    ranges. The drawing of the table by the library is not modelled. */
module TableLayout {
  import opened Lookup
  import opened ExactDecimal
  import opened Currency
  import opened Wrappers

  const SlWidth: real := 28.0
  const QtyWidth: real := 48.0
  const RateWidth: real := 70.0
  const AmountWidth: real := 90.0
  /** The narrowest the description column gets. */
  const MinDescWidth: real := 120.0

  const GridWeight: real := 0.5
  const OutlineWeight: real := GridWeight
  const HeavyWeight: real := 1.1

  const PadVertical: nat := 4
  const PadHorizontal: nat := 6

  /** `_col_widths(content_width)`: Sl., description, Qty, Rate, Amount; the
      description takes what the four fixed columns leave, but at least 120. */
  function ColWidths(contentWidth: real): (ws: seq<real>)
    ensures |ws| == 5
    ensures ws[0] == SlWidth && ws[2] == QtyWidth && ws[3] == RateWidth && ws[4] == AmountWidth
    ensures ws[1] >= MinDescWidth
    ensures ws[0] + ws[1] + ws[2] + ws[3] + ws[4] ==
      if contentWidth >= 356.0 then contentWidth else 356.0
  {
    var fixed := SlWidth + QtyWidth + RateWidth + AmountWidth;
    var desc := if MinDescWidth > contentWidth - fixed then MinDescWidth else contentWidth - fixed;
    [SlWidth, desc, QtyWidth, RateWidth, AmountWidth]
  }

  /** One invoice line as the table builder reads it; `sl`, `description`
      and `qty` are shown as given, rate and amount are numbers. */
  datatype LineItem = LineItem(sl: Json, description: Json, qty: Json, rate: Dec, amount: Dec)

  type Row = seq<Json>

  const Header: Row := [Str("Sl."), Str("Description"), Str("Qty"), Str("Rate"), Str("Amount")]

  const ThankYou: string := "Thank you for choosing KMC!"

  function BodyRow(l: LineItem): Row
  {
    [l.sl, l.description, l.qty, Str(MoneyString(l.rate)), Str(MoneyString(l.amount))]
  }

  function TotalRow(total: Dec): Row
  {
    [Str(ThankYou), Str(""), Str(""), Str("Total:"), Str(MoneyString(total))]
  }

  /** The argument of a style command. Line colours are always black and left out. */
  datatype Arg = Weight(w: real) | FontName(name: string) | FontSize(pt: nat) | Align(how: string) | Padding(pt: nat) | NoArg

  /** A `TableStyle` entry: an operation on the cells from (col0, row0) to
      (col1, row1), where a negative index counts from the end. */
  datatype Command = Command(op: string, col0: int, row0: int, col1: int, row1: int, arg: Arg)

  datatype Table = Table(rows: seq<Row>, colWidths: seq<real>, repeatRows: nat, style: seq<Command>)

  /** A cell index as ReportLab reads it: negative ones count from the end. */
  function Resolve(i: int, size: nat): int
  {
    if i < 0 then size + i else i
  }

  /** The command addresses a non-empty block of existing cells. */
  predicate Addresses(c: Command, rows: nat)
  {
    0 <= Resolve(c.col0, 5) <= Resolve(c.col1, 5) < 5
    && 0 <= Resolve(c.row0, rows) <= Resolve(c.row1, rows) < rows
  }

  predicate AllAddress(cs: seq<Command>, rows: nat)
  {
    forall i :: 0 <= i < |cs| ==> Addresses(cs[i], rows)
  }

  /** The grid and the outline around the whole table. */
  function FrameStyle(): seq<Command>
  {
    [Command("GRID", 0, 0, -1, -1, Weight(GridWeight)),
     Command("LINEABOVE", 0, 0, -1, 0, Weight(OutlineWeight)),
     Command("LINEBELOW", 0, -1, -1, -1, Weight(OutlineWeight)),
     Command("LINEBEFORE", 0, 0, 0, -1, Weight(OutlineWeight)),
     Command("LINEAFTER", -1, 0, -1, -1, Weight(OutlineWeight))]
  }

  /** Header row: bold, 10 points, centred Sl./Qty/Rate/Amount, heavy rule below. */
  function HeaderStyle(): seq<Command>
  {
    [Command("FONTNAME", 0, 0, -1, 0, FontName("Helvetica-Bold")),
     Command("FONTSIZE", 0, 0, -1, 0, FontSize(10)),
     Command("ALIGN", 0, 0, 0, 0, Align("CENTER")),
     Command("ALIGN", 2, 0, 4, 0, Align("CENTER")),
     Command("LINEBELOW", 0, 0, -1, 0, Weight(HeavyWeight))]
  }

  /** Body rows 1..last: 9 points, Sl. and Qty centred, Rate and Amount right. */
  function BodyStyle(last: int): seq<Command>
  {
    [Command("FONTSIZE", 0, 1, -1, last, FontSize(9)),
     Command("ALIGN", 0, 1, 0, last, Align("CENTER")),
     Command("ALIGN", 2, 1, 2, last, Align("CENTER")),
     Command("ALIGN", 3, 1, 4, last, Align("RIGHT"))]
  }

  function PaddingStyle(): seq<Command>
  {
    [Command("LEFTPADDING", 0, 0, -1, -1, Padding(PadHorizontal)),
     Command("RIGHTPADDING", 0, 0, -1, -1, Padding(PadHorizontal)),
     Command("TOPPADDING", 0, 0, -1, -1, Padding(PadVertical)),
     Command("BOTTOMPADDING", 0, 0, -1, -1, Padding(PadVertical))]
  }

  /** The thank-you/total row t: thanks spanning columns 0..2 in italics,
      bold right-aligned total, heavy rule above. */
  function TotalStyle(t: int): seq<Command>
  {
    [Command("SPAN", 0, t, 2, t, NoArg),
     Command("FONTNAME", 0, t, 0, t, FontName("Helvetica-Oblique")),
     Command("FONTSIZE", 0, t, 0, t, FontSize(9)),
     Command("ALIGN", 0, t, 0, t, Align("LEFT")),
     Command("ALIGN", 3, t, 3, t, Align("RIGHT")),
     Command("ALIGN", 4, t, 4, t, Align("RIGHT")),
     Command("FONTNAME", 3, t, 4, t, FontName("Helvetica-Bold")),
     Command("FONTSIZE", 3, t, 4, t, FontSize(12)),
     Command("LINEABOVE", 0, t, -1, t, Weight(HeavyWeight))]
  }

  /** The style list for a table of `n` body rows: the body block only when
      there is a body row. */
  function Style(n: nat): (cs: seq<Command>)
    ensures |cs| == (if n >= 1 then 27 else 23)
    ensures n >= 1 ==> cs[10..14] == BodyStyle(n)
    ensures cs[|cs| - 9..] == TotalStyle(n + 1)
  {
    var thankTotal := n + 1;
    var lastBody := thankTotal - 1;
    FrameStyle() + HeaderStyle()
    + (if lastBody >= 1 then BodyStyle(lastBody) else [])
    + PaddingStyle() + TotalStyle(thankTotal)
  }

  /** `build_invoice_table(lines, total, content_width)`. */
  function BuildInvoiceTable(lines: seq<LineItem>, total: Dec, contentWidth: real): (t: Table)
    ensures |t.rows| == |lines| + 2
    ensures t.rows[0] == Header
    ensures forall i :: 0 <= i < |lines| ==> t.rows[i + 1] == BodyRow(lines[i])
    ensures t.rows[|lines| + 1] == TotalRow(total)
    ensures t.colWidths == ColWidths(contentWidth) && t.repeatRows == 1
    ensures t.style == Style(|lines|)
  {
    var body := seq(|lines|, i requires 0 <= i < |lines| => BodyRow(lines[i]));
    Table([Header] + body + [TotalRow(total)], ColWidths(contentWidth), 1, Style(|lines|))
  }

  /** Every row has a cell per column; body rows keep sl, description and
      qty as given and show rate and amount with two decimals, denoting the
      rounded values; the last row shows the supplied total. */
  lemma RowsShape(lines: seq<LineItem>, total: Dec, contentWidth: real, i: nat)
    requires i < |lines|
    ensures var t := BuildInvoiceTable(lines, total, contentWidth);
      var r := t.rows[i + 1];
      |r| == 5 && r[0] == lines[i].sl && r[1] == lines[i].description && r[2] == lines[i].qty
      && r[3].Str? && ParseCents(r[3].s) == Some(RoundMoney(lines[i].rate).mantissa)
      && r[4].Str? && ParseCents(r[4].s) == Some(RoundMoney(lines[i].amount).mantissa)
  {
    MoneyStringDenotesRounded(lines[i].rate);
    MoneyStringDenotesRounded(lines[i].amount);
  }

  /** The total cell denotes the supplied total rounded to cents, whatever the lines say. */
  lemma TotalShown(lines: seq<LineItem>, total: Dec, contentWidth: real)
    ensures var r := BuildInvoiceTable(lines, total, contentWidth).rows[|lines| + 1];
      |r| == 5 && r[3] == Str("Total:") && r[4].Str?
      && ParseCents(r[4].s) == Some(RoundMoney(total).mantissa)
  {
    MoneyStringDenotesRounded(total);
  }

  /** Every style command of a built table addresses existing cells. */
  lemma StyleAddressesCells(n: nat)
    ensures AllAddress(Style(n), n + 2)
  {
    var rows := n + 2;
    assert AllAddress(FrameStyle(), rows);
    assert AllAddress(HeaderStyle(), rows);
    assert AllAddress(PaddingStyle(), rows);
    assert AllAddress(TotalStyle(n + 1), rows);
    var mid := if n >= 1 then BodyStyle(n) else [];
    assert AllAddress(mid, rows);
    AppendAddresses(FrameStyle(), HeaderStyle(), rows);
    AppendAddresses(FrameStyle() + HeaderStyle(), mid, rows);
    AppendAddresses(FrameStyle() + HeaderStyle() + mid, PaddingStyle(), rows);
    AppendAddresses(FrameStyle() + HeaderStyle() + mid + PaddingStyle(), TotalStyle(n + 1), rows);
  }

  lemma AppendAddresses(a: seq<Command>, b: seq<Command>, rows: nat)
    requires AllAddress(a, rows) && AllAddress(b, rows)
    ensures AllAddress(a + b, rows)
  {
    forall i | 0 <= i < |a + b| ensures Addresses((a + b)[i], rows) {
      if i >= |a| {
        assert (a + b)[i] == b[i - |a|];
      }
    }
  }

  /** Without the `last_body_i >= 1` guard, a table with no lines would get
      body commands whose rows run backwards (from row 1 to row 0). */
  lemma BodyGuardNeeded()
    ensures forall i :: 0 <= i < 4 ==> !Addresses(BodyStyle(0)[i], 2)
  {
  }
}
