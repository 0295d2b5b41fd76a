/** Pagination of the drawn invoice (app/pdf/pdf_draw.py): the row-fit loop of
    `_draw_table_rows`, the total of `_draw_summary` and the page loop of
    `build_invoice_pdf`. The canvas is replaced by the sequence of things the
    engine draws, in drawing order; a page break stands for `showPage`
    followed by `new_page`, which redraws the fixed blocks and puts the cursor
    back at the body start of a fresh page. */
module Pagination {
  import opened Wrappers
  import opened Digits
  import opened ExactDecimal
  import opened Currency
  import opened Wrap
  import opened Lookup
  import opened Layout
  import Footer

  /** One entry of `data["items"]` with its fields read: the description's
      text, the quantity and rate (a missing or empty one reads as 0), and the
      amount when the entry has one. */
  datatype Item = Item(description: string, qty: Dec, rate: Dec, amount: Option<Dec>)

  /** What the engine draws. A row records the item it shows, its position,
      the lines its description is wrapped into and whether a separator is
      ruled under it; besides those lines it draws its serial label,
      `QtyText(qty)` and `FmtMoney(rate, None)` (the amount column of a drawn
      row stays empty). */
  datatype Event =
    | Row(index: nat, serial: string, item: Item, lines: seq<string>, top: real, height: real, separator: bool)
    | PageBreak
    | Summary(top: real, thanks: Json, total: string)
    | FooterDrawn(footer: Footer.Drawn)

  /** How a description is broken into the lines of its row. */
  type Wrapping = string -> seq<string>

  /** `wrap_text(c, desc, DESC_W - 4, ...)` under the text width `W`. */
  function DescWrap(W: Width): Wrapping
  {
    t => WrapText(W, WrapWidth, t)
  }

  /** A description wraps into one or two lines. */
  lemma DescWrapLines(W: Width, t: string)
    ensures 1 <= |DescWrap(W)(t)| <= 2
  {
  }

  /** `max(1, n) * ROW_HEIGHT`, the height of a row of `n` wrapped lines. */
  function Span(n: nat): (h: real)
    ensures h >= RowHeight
    ensures n <= 1 ==> h == RowHeight
    ensures n == 2 ==> h == 2.0 * RowHeight
  {
    if n <= 1 then RowHeight else Span(n - 1) + RowHeight
  }

  /** The height of an item's row. */
  function RowSpan(wrap: Wrapping, it: Item): real
  {
    Span(|wrap(it.description)|)
  }

  /** The serial label `f"{idx}."`. */
  function Serial(pos: nat): string
  {
    NatToDigits(pos) + "."
  }

  /** `e` is the row of item `it`, the `g`-th of `total` items overall and the
      `pos`-th drawn by its call: labelled with `pos`, as tall as the item's
      wrapped lines, and ruled underneath unless it is the last item. */
  predicate RowOf(wrap: Wrapping, e: Event, it: Item, g: nat, pos: nat, total: int)
  {
    e.Row? && e.index == g && e.serial == Serial(pos) && e.item == it
    && e.lines == wrap(it.description) && e.height == RowSpan(wrap, it) && (e.separator <==> g != total - 1)
  }

  /** Rows whose tops follow the cursor: the first at `y`, each next one where
      the previous one ends, and the cursor left at `y'`. */
  predicate Stacked(evs: seq<Event>, y: real, y': real)
  {
    if evs == [] then y' == y
    else evs[0].Row? && evs[0].top == y && Stacked(evs[1..], y - evs[0].height, y')
  }

  /** The cursor, the number of items drawn so far and the rows drawn. */
  datatype Rows = Rows(y: real, drawn: nat, events: seq<Event>)

  /** The loop of `_draw_table_rows` from position `k` of the slice with the
      cursor at `y`: a row is drawn when its bottom stays on or above the row
      floor (`MARGIN_BOTTOM + ROW_BOTTOM_GAP`), and the loop stops at the
      first row that does not fit. */
  function RowsFrom(wrap: Wrapping, slice: seq<Item>, k: nat, y: real, base: nat, total: int): (r: Rows)
    requires k <= |slice|
    ensures k <= r.drawn <= |slice| && |r.events| == r.drawn - k
    decreases |slice| - k
  {
    if k == |slice| then Rows(y, k, [])
    else
      var h := RowSpan(wrap, slice[k]);
      if y - h < RowFloor then Rows(y, k, [])
      else
        var rest := RowsFrom(wrap, slice, k + 1, y - h, base, total);
        var e := Row(base + k, Serial(k + 1), slice[k], wrap(slice[k].description), y, h, base + k != total - 1);
        Rows(rest.y, rest.drawn, [e] + rest.events)
  }

  /** Each drawn row shows the next item of the slice, under its global index
      and its position in the call. */
  lemma {:induction false} RowsShowItems(wrap: Wrapping, slice: seq<Item>, k: nat, y: real, base: nat, total: int)
    requires k <= |slice|
    ensures forall j :: 0 <= j < |RowsFrom(wrap, slice, k, y, base, total).events| ==>
      RowOf(wrap, RowsFrom(wrap, slice, k, y, base, total).events[j], slice[k + j], base + k + j, k + j + 1, total)
    decreases |slice| - k
  {
    var r := RowsFrom(wrap, slice, k, y, base, total);
    if r.drawn > k {
      var h := RowSpan(wrap, slice[k]);
      assert y - h >= RowFloor;
      RowsShowItems(wrap, slice, k + 1, y - h, base, total);
      var rest := RowsFrom(wrap, slice, k + 1, y - h, base, total);
      var e := Row(base + k, Serial(k + 1), slice[k], wrap(slice[k].description), y, h, base + k != total - 1);
      assert r.events == [e] + rest.events;
      forall j | 0 <= j < |r.events|
        ensures RowOf(wrap, r.events[j], slice[k + j], base + k + j, k + j + 1, total)
      {
        if j > 0 {
          var i: nat := j - 1;
          assert r.events[j] == rest.events[i];
          assert RowOf(wrap, rest.events[i], slice[k + 1 + i], base + (k + 1) + i, k + 1 + i + 1, total);
          assert k + 1 + i == k + j;
        } else {
          assert r.events[j] == e;
        }
      }
    }
  }

  /** The rows of a loop started at position `k` with the cursor at `y` stack
      down from the cursor, each ending on or above the row floor; the loop
      leaves the cursor where the last row ends, at least one row height
      lower when it drew anything. */
  predicate Placed(r: Rows, k: nat, y: real)
  {
    Stacked(r.events, y, r.y)
    && (forall j :: 0 <= j < |r.events| ==>
          r.events[j].Row? && r.events[j].top <= y && r.events[j].top - r.events[j].height >= RowFloor)
    && (r.drawn == k ==> r.y == y)
    && (r.drawn > k ==> RowFloor <= r.y && r.y + RowHeight <= y)
  }

  lemma {:induction false} RowsStack(wrap: Wrapping, slice: seq<Item>, k: nat, y: real, base: nat, total: int)
    requires k <= |slice|
    ensures Placed(RowsFrom(wrap, slice, k, y, base, total), k, y)
    decreases |slice| - k
  {
    var r := RowsFrom(wrap, slice, k, y, base, total);
    if r.drawn > k {
      var h := RowSpan(wrap, slice[k]);
      assert y - h >= RowFloor;
      RowsStack(wrap, slice, k + 1, y - h, base, total);
      var rest := RowsFrom(wrap, slice, k + 1, y - h, base, total);
      var e := Row(base + k, Serial(k + 1), slice[k], wrap(slice[k].description), y, h, base + k != total - 1);
      assert r.events == [e] + rest.events;
      assert r.events[1..] == rest.events;
      forall j | 0 <= j < |r.events|
        ensures r.events[j].Row? && r.events[j].top <= y && r.events[j].top - r.events[j].height >= RowFloor
      {
        if j > 0 {
          assert r.events[j] == rest.events[j - 1];
        }
      }
    }
  }

  /** The loop stops early only at a row that would cross the row floor. */
  lemma {:induction false} RowsStop(wrap: Wrapping, slice: seq<Item>, k: nat, y: real, base: nat, total: int)
    requires k <= |slice|
    ensures RowsFrom(wrap, slice, k, y, base, total).drawn < |slice| ==>
      RowsFrom(wrap, slice, k, y, base, total).y
        - RowSpan(wrap, slice[RowsFrom(wrap, slice, k, y, base, total).drawn]) < RowFloor
    decreases |slice| - k
  {
    if k < |slice| && y - RowSpan(wrap, slice[k]) >= RowFloor {
      RowsStop(wrap, slice, k + 1, y - RowSpan(wrap, slice[k]), base, total);
    }
  }

  /** `max(0, total_items - len(items))`, the global index of the slice's first item. */
  function Base(total: int, n: nat): nat
  {
    if total - n > 0 then total - n else 0
  }

  /** `_draw_table_rows` given the item count. */
  function DrawCounted(wrap: Wrapping, slice: seq<Item>, y: real, total: int): Rows
  {
    RowsFrom(wrap, slice, 0, y, Base(total, |slice|), total)
  }

  /** A counted call draws the slice's items in order, the `j`-th under the
      global index `Base + j` and the label of position `j + 1`. */
  lemma CountedShowItems(wrap: Wrapping, slice: seq<Item>, y: real, total: int)
    ensures forall j :: 0 <= j < |DrawCounted(wrap, slice, y, total).events| ==>
      RowOf(wrap, DrawCounted(wrap, slice, y, total).events[j], slice[j], Base(total, |slice|) + j, j + 1, total)
  {
    var d := DrawCounted(wrap, slice, y, total);
    RowsShowItems(wrap, slice, 0, y, Base(total, |slice|), total);
    forall j | 0 <= j < |d.events|
      ensures RowOf(wrap, d.events[j], slice[j], Base(total, |slice|) + j, j + 1, total)
    {
      assert RowOf(wrap, d.events[j], slice[0 + j], Base(total, |slice|) + 0 + j, 0 + j + 1, total);
    }
  }

  /** `_draw_table_rows(items, start_y, total_items)`. Without an item count,
      `is_last_overall` is never bound and the first row that fits raises
      before its separator is ruled. */
  function DrawRows(wrap: Wrapping, slice: seq<Item>, startY: real, total: Option<int>): (r: Result<Rows, string>)
    ensures total.None? ==>
      (r.Err? <==> |slice| > 0 && startY - RowSpan(wrap, slice[0]) >= RowFloor)
    ensures total.None? && r.Ok? ==> r.value == Rows(startY, 0, [])
    ensures total.Some? ==> r.Ok? && r.value.drawn <= |slice| && |r.value.events| == r.value.drawn
    ensures total.Some? ==> forall j :: 0 <= j < |r.value.events| ==>
      RowOf(wrap, r.value.events[j], slice[j], Base(total.value, |slice|) + j, j + 1, total.value)
  {
    match total
    case None =>
      if |slice| > 0 && startY - RowSpan(wrap, slice[0]) >= RowFloor then Err("is_last_overall is unbound")
      else Ok(Rows(startY, 0, []))
    case Some(t) =>
      CountedShowItems(wrap, slice, startY, t);
      Ok(DrawCounted(wrap, slice, startY, t))
  }

  /** The amount an item adds to the total: `it.get("amount", 0.0)`. */
  function Amount(it: Item): Dec
  {
    match it.amount
    case Some(a) => a
    case None => Dec(0, 1)
  }

  /** `sum(...)` of the amounts, added left to right from the integer 0. */
  function SumAmounts(items: seq<Item>): (s: Dec)
    ensures Value(s) == AmountsValue(items)
  {
    if items == [] then Dec(0, 0)
    else
      AmountsValueSnoc(items);
      Add(SumAmounts(items[..|items| - 1]), Amount(items[|items| - 1]))
  }

  /** The exact sum of the amounts' values. */
  ghost function AmountsValue(items: seq<Item>): real
  {
    if items == [] then 0.0 else Value(Amount(items[0])) + AmountsValue(items[1..])
  }

  /** Summing from the right end agrees with summing from the left. */
  lemma {:induction false} AmountsValueSnoc(items: seq<Item>)
    requires items != []
    ensures AmountsValue(items) == AmountsValue(items[..|items| - 1]) + Value(Amount(items[|items| - 1]))
    decreases |items|
  {
    if |items| > 1 {
      var t := items[1..];
      AmountsValueSnoc(t);
      assert t[..|t| - 1] == items[..|items| - 1][1..];
      assert t[|t| - 1] == items[|items| - 1];
    } else {
      assert items[..0] == [];
    }
  }

  /** The summary's total, `f"{round(total, 2):.2f}"`. */
  function Total(items: seq<Item>): string
  {
    MoneyString(SumAmounts(items))
  }

  /** The printed total reads back as the sum of the items' amounts rounded
      to the cent; the caller's own total plays no part in it. */
  lemma TotalDenotesSum(items: seq<Item>)
    ensures ParseCents(Total(items)) == Some(RoundMoney(SumAmounts(items)).mantissa)
    ensures Value(SumAmounts(items)) == AmountsValue(items)
  {
    MoneyStringDenotesRounded(SumAmounts(items));
  }

  /** The three items of the sample invoice: 2 x 150.00, 1 x 49.99 and 3 x 20.00. */
  function SampleItems(): seq<Item>
  {
    [Item("Item A", Dec(2, 0), Dec(1500, 1), Some(Dec(3000, 1))),
     Item("Item B", Dec(1, 0), Dec(4999, 2), Some(Dec(4999, 2))),
     Item("Item C", Dec(3, 0), Dec(200, 1), Some(Dec(600, 1)))]
  }

  /** The sample invoice totals 409.99. */
  lemma SampleTotal()
    ensures ParseCents(Total(SampleItems())) == Some(40999)
  {
    var items := SampleItems();
    SampleSum();
    TotalDenotesSum(items);
    assert RoundAt(Dec(40999, 2), 2) == 40999;
  }

  lemma SampleSum()
    ensures SumAmounts(SampleItems()) == Dec(40999, 2)
  {
    var items := SampleItems();
    SumOfThree(items[0], items[1], items[2]);
    assert items == [items[0], items[1], items[2]];
    AddWhole(3000, 1);
    AddTenths(3000, 4999);
    AddToCents(34999, 600);
  }

  /** `sum` over three items adds their amounts left to right from 0. */
  lemma SumOfThree(a: Item, b: Item, c: Item)
    ensures SumAmounts([a, b, c]) == Add(Add(Add(Dec(0, 0), Amount(a)), Amount(b)), Amount(c))
  {
    assert [a][..0] == [];
    assert SumAmounts([a]) == Add(Dec(0, 0), Amount(a));
    assert [a, b][..1] == [a];
    assert SumAmounts([a, b]) == Add(SumAmounts([a]), Amount(b));
    assert [a, b, c][..2] == [a, b];
  }

  lemma AddWhole(m: int, s: nat)
    ensures Add(Dec(0, 0), Dec(m, s)) == Dec(m, s)
  {
  }

  lemma AddTenths(m: int, n: int)
    ensures Add(Dec(m, 1), Dec(n, 2)) == Dec(10 * m + n, 2)
  {
    assert Pow10(1) == 10;
  }

  lemma AddToCents(m: int, n: int)
    ensures Add(Dec(m, 2), Dec(n, 1)) == Dec(m + 10 * n, 2)
  {
    assert Pow10(1) == 10;
  }

  /** The default thank-you line of the summary. */
  const DefaultThanks: string := "Thank you for choosing KMC!"

  /** What the pages take from the invoice data: the body start of a fresh
      page (the same for the first page as for the others), the summary's
      thank-you line and the footer. */
  datatype Page = Page(bodyStart: real, thanks: Json, footer: Footer.Drawn, total: string)

  function PageOf(data: Json, items: seq<Item>): Page
  {
    Page(BodyStart(data), Get(data, "settings.thank_you", Str(DefaultThanks)), Footer.DrawFooter(data), Total(items))
  }

  /** The end of the last page: a fresh page first when less than the totals
      block is left above the bottom margin, then the summary and the footer. */
  function Closing(p: Page, y: real): (evs: seq<Event>)
    ensures |evs| == 2 || |evs| == 3
    ensures evs[0] == PageBreak <==> y - TotalsBlockMin < MarginBottom
    ensures evs[|evs| - 2] == Summary(if y - TotalsBlockMin < MarginBottom then p.bodyStart else y, p.thanks, p.total)
    ensures evs[|evs| - 1] == FooterDrawn(p.footer)
  {
    var broke := y - TotalsBlockMin < MarginBottom;
    var tail := [Summary(if broke then p.bodyStart else y, p.thanks, p.total), FooterDrawn(p.footer)];
    if broke then [PageBreak] + tail else tail
  }

  /** How the page loop ends: with everything drawn, or never, because the
      item at `at` does not fit on a fresh page. */
  datatype Outcome = Finished(events: seq<Event>) | Stalled(at: nat)

  /** The page loop of `build_invoice_pdf` from item `start`. Every pass
      starts on a fresh page, so the cursor is the body start of `new_page`;
      a pass that draws nothing would draw nothing again on the next fresh
      page, for ever. */
  function Paginate(wrap: Wrapping, p: Page, items: seq<Item>, start: nat): (o: Outcome)
    requires start <= |items|
    decreases |items| - start
  {
    if start == |items| then Finished([])
    else
      var r := Pass(wrap, p, items, start);
      if r.drawn == 0 then Stalled(start)
      else if start + r.drawn < |items| then
        match Paginate(wrap, p, items, start + r.drawn)
        case Finished(rest) => Finished(r.events + [PageBreak] + rest)
        case Stalled(at) => Stalled(at)
      else Finished(r.events + Closing(p, r.y))
  }

  /** The whole document. */
  function Document(W: Width, data: Json, items: seq<Item>): Outcome
  {
    Paginate(DescWrap(W), PageOf(data, items), items, 0)
  }

  /** An item fits on a fresh page when its row ends on or above the row floor. */
  predicate FitsFresh(wrap: Wrapping, p: Page, it: Item)
  {
    p.bodyStart - RowSpan(wrap, it) >= RowFloor
  }

  /** The pass of the page loop from item `start` on a fresh page. */
  function Pass(wrap: Wrapping, p: Page, items: seq<Item>, start: nat): Rows
    requires start <= |items|
  {
    DrawCounted(wrap, items[start..], p.bodyStart, |items|)
  }

  /** A pass draws the items from `start` on, in order, each under its
      global index and its position on the page. */
  lemma PassShows(wrap: Wrapping, p: Page, items: seq<Item>, start: nat)
    requires start < |items|
    ensures Pass(wrap, p, items, start).drawn <= |items| - start
    ensures |Pass(wrap, p, items, start).events| == Pass(wrap, p, items, start).drawn
    ensures forall j :: 0 <= j < |Pass(wrap, p, items, start).events| ==>
      RowOf(wrap, Pass(wrap, p, items, start).events[j], items[start + j], start + j, j + 1, |items|)
  {
    var slice := items[start..];
    assert Base(|items|, |slice|) == start;
    var r := Pass(wrap, p, items, start);
    CountedShowItems(wrap, slice, p.bodyStart, |items|);
    forall j | 0 <= j < |r.events| ensures RowOf(wrap, r.events[j], items[start + j], start + j, j + 1, |items|) {
      assert slice[j] == items[start + j];
    }
  }

  /** A pass draws only items that fit on a fresh page, and draws nothing
      exactly when its first item does not fit. */
  lemma PassFits(wrap: Wrapping, p: Page, items: seq<Item>, start: nat)
    requires start < |items|
    ensures forall i :: start <= i < start + Pass(wrap, p, items, start).drawn ==> FitsFresh(wrap, p, items[i])
    ensures Pass(wrap, p, items, start).drawn == 0 <==> !FitsFresh(wrap, p, items[start])
  {
    var slice := items[start..];
    var y := p.bodyStart;
    assert Base(|items|, |slice|) == start;
    var r := Pass(wrap, p, items, start);
    PassShows(wrap, p, items, start);
    RowsStack(wrap, slice, 0, y, start, |items|);
    RowsStop(wrap, slice, 0, y, start, |items|);
    forall i | start <= i < start + r.drawn ensures FitsFresh(wrap, p, items[i]) {
      assert RowOf(wrap, r.events[i - start], items[start + (i - start)], start + (i - start), i - start + 1, |items|);
    }
    assert slice[0] == items[start];
  }

  /** A pass leaves its rows stacked on the page. */
  lemma PassPlaced(wrap: Wrapping, p: Page, items: seq<Item>, start: nat)
    requires start < |items|
    ensures Placed(Pass(wrap, p, items, start), 0, p.bodyStart)
  {
    RowsStack(wrap, items[start..], 0, p.bodyStart, Base(|items|, |items[start..]|), |items|);
  }

  /** The loop finishes exactly when every item from `start` on fits on a
      fresh page. */
  lemma {:induction false} PaginateFinishes(wrap: Wrapping, p: Page, items: seq<Item>, start: nat)
    requires start <= |items|
    ensures Paginate(wrap, p, items, start).Finished? <==>
      forall i :: start <= i < |items| ==> FitsFresh(wrap, p, items[i])
    decreases |items| - start
  {
    if start < |items| {
      PassFits(wrap, p, items, start);
      PaginateTurn(wrap, p, items, start);
      var r := Pass(wrap, p, items, start);
      if r.drawn > 0 && start + r.drawn < |items| {
        PaginateFinishes(wrap, p, items, start + r.drawn);
      }
    }
  }

  /** A turn of the loop finishes when its pass draws a row and the loop
      from the next item, if any is left, finishes. */
  lemma PaginateTurn(wrap: Wrapping, p: Page, items: seq<Item>, start: nat)
    requires start < |items|
    ensures Paginate(wrap, p, items, start).Finished? <==>
      Pass(wrap, p, items, start).drawn > 0
      && (start + Pass(wrap, p, items, start).drawn < |items| ==>
        Paginate(wrap, p, items, start + Pass(wrap, p, items, start).drawn).Finished?)
  {
  }

  /** The document is drawn to its end exactly when every item fits on a
      fresh page. */
  lemma FinishesIff(W: Width, data: Json, items: seq<Item>)
    ensures Document(W, data, items).Finished? <==>
      forall i :: 0 <= i < |items| ==> FitsFresh(DescWrap(W), PageOf(data, items), items[i])
  {
    PaginateFinishes(DescWrap(W), PageOf(data, items), items, 0);
  }

  /** Room for a two-line row on a fresh page is enough for the loop to end,
      whatever the descriptions. */
  lemma RoomEnsuresProgress(W: Width, data: Json, items: seq<Item>)
    requires RoomForTwoLines(data)
    ensures Document(W, data, items).Finished?
  {
    var p := PageOf(data, items);
    var wrap := DescWrap(W);
    assert p.bodyStart == BodyStart(data);
    forall i | 0 <= i < |items| ensures FitsFresh(wrap, p, items[i]) {
      DescWrapLines(W, items[i].description);
    }
    PaginateFinishes(wrap, p, items, 0);
  }

  /** An item whose row is taller than a fresh page allows stalls the loop. */
  lemma TooTallStalls(W: Width, data: Json, items: seq<Item>, i: nat)
    requires i < |items| && !FitsFresh(DescWrap(W), PageOf(data, items), items[i])
    ensures Document(W, data, items).Stalled?
  {
    PaginateFinishes(DescWrap(W), PageOf(data, items), items, 0);
  }

  /** The rows among the events, in order. */
  function RowsOf(evs: seq<Event>): (rs: seq<Event>)
    ensures |rs| <= |evs|
    ensures forall j :: 0 <= j < |rs| ==> rs[j].Row?
  {
    if evs == [] then []
    else (if evs[0].Row? then [evs[0]] else []) + RowsOf(evs[1..])
  }

  lemma {:induction false} RowsOfAppend(a: seq<Event>, b: seq<Event>)
    ensures RowsOf(a + b) == RowsOf(a) + RowsOf(b)
    decreases |a|
  {
    if a == [] {
      assert a + b == b;
    } else {
      assert (a + b)[1..] == a[1..] + b;
      RowsOfAppend(a[1..], b);
    }
  }

  lemma {:induction false} RowsOfRows(a: seq<Event>)
    requires forall j :: 0 <= j < |a| ==> a[j].Row?
    ensures RowsOf(a) == a
    decreases |a|
  {
    if a != [] {
      RowsOfRows(a[1..]);
    }
  }

  lemma SkipBreak(tail: seq<Event>)
    ensures RowsOf([PageBreak] + tail) == RowsOf(tail)
  {
    assert ([PageBreak] + tail)[1..] == tail;
  }

  lemma NoRowsInClosing(p: Page, y: real)
    ensures RowsOf(Closing(p, y)) == []
    ensures RowsOf([PageBreak]) == []
  {
    var c := Closing(p, y);
    assert RowsOf([PageBreak]) == [];
    var t := c[|c| - 2..];
    assert RowsOf(t) == [] by {
      assert t[1..][1..] == [];
    }
    if |c| == 3 {
      assert c == [PageBreak] + t;
      RowsOfAppend([PageBreak], t);
    } else {
      assert c == t;
    }
  }

  /** The rows `rs` show the items from `start` on, once each and in order,
      each under its own global index, with a separator under every row but
      the one of the last item. */
  predicate Covers(rs: seq<Event>, items: seq<Item>, start: nat)
  {
    |rs| + start == |items|
    && forall j :: 0 <= j < |rs| ==>
      rs[j].Row? && rs[j].index == start + j && rs[j].item == items[start + j]
      && (rs[j].separator <==> start + j != |items| - 1)
  }

  /** From `start`, a finished loop draws the remaining items once each, in
      order, each with its own global index; the separator is left out under
      the last item only. */
  lemma {:induction false} PaginateCovers(wrap: Wrapping, p: Page, items: seq<Item>, start: nat)
    requires start <= |items| && Paginate(wrap, p, items, start).Finished?
    ensures Covers(RowsOf(Paginate(wrap, p, items, start).events), items, start)
    decreases |items| - start
  {
    if start < |items| {
      var r := Pass(wrap, p, items, start);
      PaginateStep(wrap, p, items, start);
      if start + r.drawn < |items| {
        PaginateCovers(wrap, p, items, start + r.drawn);
        var tail := Paginate(wrap, p, items, start + r.drawn).events;
        SkipBreak(tail);
        CoversPass(wrap, p, items, start, [PageBreak] + tail);
      } else {
        NoRowsInClosing(p, r.y);
        CoversPass(wrap, p, items, start, Closing(p, r.y));
      }
    }
  }

  /** One turn of the page loop: a pass that draws at least one row, then
      either a page break and the rest of the loop, or the closing. */
  lemma PaginateStep(wrap: Wrapping, p: Page, items: seq<Item>, start: nat)
    requires start < |items| && Paginate(wrap, p, items, start).Finished?
    ensures Pass(wrap, p, items, start).drawn > 0
    ensures start + Pass(wrap, p, items, start).drawn < |items| ==>
      Paginate(wrap, p, items, start + Pass(wrap, p, items, start).drawn).Finished?
      && Paginate(wrap, p, items, start).events == Pass(wrap, p, items, start).events
        + ([PageBreak] + Paginate(wrap, p, items, start + Pass(wrap, p, items, start).drawn).events)
    ensures start + Pass(wrap, p, items, start).drawn >= |items| ==>
      Paginate(wrap, p, items, start).events == Pass(wrap, p, items, start).events
        + Closing(p, Pass(wrap, p, items, start).y)
  {
    var r := Pass(wrap, p, items, start);
    if start + r.drawn < |items| {
      var rest := Paginate(wrap, p, items, start + r.drawn).events;
      assert r.events + [PageBreak] + rest == r.events + ([PageBreak] + rest);
    }
  }

  /** A pass's rows followed by events covering the items after them cover
      the items from `start`. */
  lemma CoversPass(wrap: Wrapping, p: Page, items: seq<Item>, start: nat, tail: seq<Event>)
    requires start < |items|
    requires Covers(RowsOf(tail), items, start + Pass(wrap, p, items, start).drawn)
    ensures Covers(RowsOf(Pass(wrap, p, items, start).events + tail), items, start)
  {
    PassShows(wrap, p, items, start);
    CoversStep(wrap, items, start, Pass(wrap, p, items, start).events, tail);
  }

  /** Rows for the items from `start`, then events whose rows cover the
      items after them, cover the items from `start`. */
  lemma CoversStep(wrap: Wrapping, items: seq<Item>, start: nat, a: seq<Event>, tail: seq<Event>)
    requires start + |a| <= |items|
    requires forall j :: 0 <= j < |a| ==> RowOf(wrap, a[j], items[start + j], start + j, j + 1, |items|)
    requires Covers(RowsOf(tail), items, start + |a|)
    ensures Covers(RowsOf(a + tail), items, start)
  {
    RowsOfRows(a);
    RowsOfAppend(a, tail);
    CoversAppend(wrap, a, RowsOf(tail), items, start);
  }

  /** Rows for the items from `start` followed by rows covering the rest
      cover the items from `start`. */
  lemma CoversAppend(wrap: Wrapping, a: seq<Event>, b: seq<Event>, items: seq<Item>, start: nat)
    requires start + |a| <= |items|
    requires forall j :: 0 <= j < |a| ==> RowOf(wrap, a[j], items[start + j], start + j, j + 1, |items|)
    requires Covers(b, items, start + |a|)
    ensures Covers(a + b, items, start)
  {
    forall j | |a| <= j < |a| + |b|
      ensures (a + b)[j].Row? && (a + b)[j].index == start + j && (a + b)[j].item == items[start + j]
    {
      assert (a + b)[j] == b[j - |a|];
    }
  }

  /** A finished document shows every item exactly once, in order, under its
      own index, and rules a separator under every row but the last. */
  lemma EveryItemOnce(wrap: Wrapping, p: Page, items: seq<Item>)
    requires Paginate(wrap, p, items, 0).Finished?
    ensures Covers(RowsOf(Paginate(wrap, p, items, 0).events), items, 0)
  {
    PaginateCovers(wrap, p, items, 0);
  }

  /** The serial labels of a run of events, `n` rows into the current page:
      each row is labelled with its position on its page. */
  predicate Numbered(evs: seq<Event>, n: nat)
  {
    if evs == [] then true
    else if evs[0].Row? then evs[0].serial == Serial(n + 1) && Numbered(evs[1..], n + 1)
    else if evs[0].PageBreak? then Numbered(evs[1..], 0)
    else Numbered(evs[1..], n)
  }

  lemma {:induction false} NumberedAppend(a: seq<Event>, b: seq<Event>, n: nat)
    requires forall j :: 0 <= j < |a| ==> a[j].Row? && a[j].serial == Serial(n + j + 1)
    requires Numbered(b, n + |a|)
    ensures Numbered(a + b, n)
    decreases |a|
  {
    if a == [] {
      assert a + b == b;
    } else {
      assert (a + b)[1..] == a[1..] + b;
      NumberedAppend(a[1..], b, n + 1);
    }
  }

  lemma ClosingNumbered(p: Page, y: real, n: nat)
    ensures Numbered(Closing(p, y), n)
  {
    var c := Closing(p, y);
    var t := c[|c| - 2..];
    assert Numbered(t, 0) && Numbered(t, n) by {
      assert t[1..][1..] == [];
    }
    if |c| == 3 {
      assert c[1..] == t;
    } else {
      assert c == t;
    }
  }

  /** From `start`, the serial labels count the rows of each page from "1.". */
  lemma {:induction false} PaginateNumbered(wrap: Wrapping, p: Page, items: seq<Item>, start: nat)
    requires start <= |items| && Paginate(wrap, p, items, start).Finished?
    ensures Numbered(Paginate(wrap, p, items, start).events, 0)
    decreases |items| - start
  {
    if start < |items| {
      PaginateStep(wrap, p, items, start);
      var r := Pass(wrap, p, items, start);
      if start + r.drawn < |items| {
        var rest := Paginate(wrap, p, items, start + r.drawn).events;
        PaginateNumbered(wrap, p, items, start + r.drawn);
        assert ([PageBreak] + rest)[1..] == rest;
        NumberedPass(wrap, p, items, start, [PageBreak] + rest);
      } else {
        ClosingNumbered(p, r.y, r.drawn);
        NumberedPass(wrap, p, items, start, Closing(p, r.y));
      }
    }
  }

  lemma NumberedPass(wrap: Wrapping, p: Page, items: seq<Item>, start: nat, tail: seq<Event>)
    requires start < |items|
    requires Numbered(tail, Pass(wrap, p, items, start).drawn)
    ensures Numbered(Pass(wrap, p, items, start).events + tail, 0)
  {
    PassShows(wrap, p, items, start);
    NumberedAppend(Pass(wrap, p, items, start).events, tail, 0);
  }

  /** Serial labels restart at "1." on every page. */
  lemma LabelsRestart(wrap: Wrapping, p: Page, items: seq<Item>)
    requires Paginate(wrap, p, items, 0).Finished?
    ensures Numbered(Paginate(wrap, p, items, 0).events, 0)
  {
    PaginateNumbered(wrap, p, items, 0);
  }

  /** Whether an event belongs to the end of the document. */
  predicate Closer(e: Event)
  {
    e.Summary? || e.FooterDrawn?
  }

  /** The events end with the summary of the page's total, with room for the
      totals block above the bottom margin, and the footer; neither appears
      earlier. */
  predicate ClosesWith(evs: seq<Event>, p: Page)
  {
    |evs| >= 2
    && evs[|evs| - 2].Summary? && evs[|evs| - 2].thanks == p.thanks && evs[|evs| - 2].total == p.total
    && evs[|evs| - 2].top - TotalsBlockMin >= MarginBottom
    && evs[|evs| - 1] == FooterDrawn(p.footer)
    && forall i :: 0 <= i < |evs| - 2 ==> !Closer(evs[i])
  }

  /** From `start`, a finished loop over at least one item ends with the
      summary and the footer, and draws neither anywhere else; the summary
      starts at least the totals block above the bottom margin. */
  lemma {:induction false} PaginateCloses(wrap: Wrapping, p: Page, items: seq<Item>, start: nat)
    requires start < |items| && Paginate(wrap, p, items, start).Finished?
    ensures ClosesWith(Paginate(wrap, p, items, start).events, p)
    decreases |items| - start
  {
    PaginateStep(wrap, p, items, start);
    PassRoom(wrap, p, items, start);
    var r := Pass(wrap, p, items, start);
    if start + r.drawn < |items| {
      PaginateCloses(wrap, p, items, start + r.drawn);
      ClosesAfter(r.events, [PageBreak] + Paginate(wrap, p, items, start + r.drawn).events, p);
    } else {
      ClosingCloses(p, r.y);
      ClosesAfter(r.events, Closing(p, r.y), p);
    }
  }

  /** A pass draws rows only, and leaves the cursor at least a row below the
      body start and on or above the row floor. */
  lemma PassRoom(wrap: Wrapping, p: Page, items: seq<Item>, start: nat)
    requires start < |items| && Pass(wrap, p, items, start).drawn > 0
    ensures forall i :: 0 <= i < |Pass(wrap, p, items, start).events| ==> !Closer(Pass(wrap, p, items, start).events[i])
    ensures RowFloor <= Pass(wrap, p, items, start).y
    ensures Pass(wrap, p, items, start).y + RowHeight <= p.bodyStart
  {
    PassPlaced(wrap, p, items, start);
  }

  /** The closing after at least one row closes the document. */
  lemma ClosingCloses(p: Page, y: real)
    requires RowFloor <= y && y + RowHeight <= p.bodyStart
    ensures ClosesWith(Closing(p, y), p)
  {
    ClosingRoom(p, y);
  }

  /** Events without a summary or footer, followed by a page break, or by
      nothing, and events that close the document, close it. */
  lemma ClosesAfter(head: seq<Event>, rest: seq<Event>, p: Page)
    requires forall i :: 0 <= i < |head| ==> !Closer(head[i])
    requires ClosesWith(rest, p) || (rest != [] && rest[0] == PageBreak && ClosesWith(rest[1..], p))
    ensures ClosesWith(head + rest, p)
  {
    var evs := head + rest;
    forall i | 0 <= i < |evs| - 2 ensures !Closer(evs[i]) {
      if i >= |head| {
        assert evs[i] == rest[i - |head|];
        if i > |head| && !ClosesWith(rest, p) {
          assert rest[i - |head|] == rest[1..][i - |head| - 1];
        }
      }
    }
    if !ClosesWith(rest, p) {
      assert rest[|rest| - 2] == rest[1..][|rest| - 3];
      assert rest[|rest| - 1] == rest[1..][|rest| - 2];
    }
  }

  /** After at least one row, the closing summary has room on its page: either
      the cursor already leaves the totals block, or the fresh page does. */
  lemma ClosingRoom(p: Page, y: real)
    requires RowFloor <= y && y + RowHeight <= p.bodyStart
    ensures var top := if y - TotalsBlockMin < MarginBottom then p.bodyStart else y;
      top - TotalsBlockMin >= MarginBottom
  {
  }

  /** The summary and the footer are drawn once, at the end; with no items
      the document is the bare first page. */
  lemma SummaryOnceAtEnd(wrap: Wrapping, p: Page, items: seq<Item>)
    requires Paginate(wrap, p, items, 0).Finished?
    ensures items == [] ==> Paginate(wrap, p, items, 0).events == []
    ensures items != [] ==> ClosesWith(Paginate(wrap, p, items, 0).events, p)
  {
    if items != [] {
      PaginateCloses(wrap, p, items, 0);
    }
  }

  /** The closing summary states the sum of the items' amounts, rounded to
      the cent. */
  predicate SumShown(evs: seq<Event>, items: seq<Item>)
  {
    |evs| >= 2 && evs[|evs| - 2].Summary?
    && ParseCents(evs[|evs| - 2].total) == Some(RoundMoney(SumAmounts(items)).mantissa)
  }

  /** A finished document over at least one item ends with a summary whose
      total reads back as the sum of the items' amounts, rounded to the cent;
      the caller's own total plays no part in it. */
  lemma DocumentTotal(W: Width, data: Json, items: seq<Item>)
    requires items != [] && Document(W, data, items).Finished?
    ensures SumShown(Document(W, data, items).events, items)
  {
    TotalShown(DescWrap(W), PageOf(data, items), items);
  }

  lemma TotalShown(wrap: Wrapping, p: Page, items: seq<Item>)
    requires items != [] && p.total == Total(items) && Paginate(wrap, p, items, 0).Finished?
    ensures SumShown(Paginate(wrap, p, items, 0).events, items)
  {
    PaginateCloses(wrap, p, items, 0);
    TotalDenotesSum(items);
  }

  /** The number of pages: one, plus one per page break. */
  function Pages(evs: seq<Event>): (n: nat)
    ensures n >= 1
  {
    if evs == [] then 1 else (if evs[0].PageBreak? then 1 else 0) + Pages(evs[1..])
  }

  /** The depth `n` two-line rows take. */
  function TwoLineRows(n: nat): (d: real)
    ensures d >= 0.0
  {
    if n == 0 then 0.0 else TwoLineRows(n - 1) + 2.0 * RowHeight
  }

  /** Every description wraps into at most two lines. */
  predicate AtMostTwoLines(wrap: Wrapping, items: seq<Item>)
  {
    forall i :: 0 <= i < |items| ==> |wrap(items[i].description)| <= 2
  }

  /** A run of rows that all fit, at two lines each, leaves the cursor no
      lower than two row heights per row. */
  lemma {:induction false} AllRowsFit(wrap: Wrapping, slice: seq<Item>, k: nat, y: real, base: nat, total: int)
    requires k <= |slice| && AtMostTwoLines(wrap, slice)
    requires y - TwoLineRows(|slice| - k) >= RowFloor
    ensures RowsFrom(wrap, slice, k, y, base, total).drawn == |slice|
    ensures RowsFrom(wrap, slice, k, y, base, total).y >= y - TwoLineRows(|slice| - k)
    decreases |slice| - k
  {
    if k < |slice| {
      var h := RowSpan(wrap, slice[k]);
      assert TwoLineRows(|slice| - k) == TwoLineRows(|slice| - (k + 1)) + 2.0 * RowHeight;
      AllRowsFit(wrap, slice, k + 1, y - h, base, total);
    }
  }

  /** When the rows fit under the body start at two lines each, with the
      totals block below them, the loop ends on its first page. */
  lemma OnePage(wrap: Wrapping, p: Page, items: seq<Item>)
    requires items != [] && AtMostTwoLines(wrap, items)
    requires p.bodyStart - TwoLineRows(|items|) - TotalsBlockMin >= MarginBottom
    ensures Paginate(wrap, p, items, 0).Finished?
    ensures Pages(Paginate(wrap, p, items, 0).events) == 1
  {
    PassAll(wrap, p, items);
    PassPlaced(wrap, p, items, 0);
    PaginateTurn(wrap, p, items, 0);
    PaginateStep(wrap, p, items, 0);
    var r := Pass(wrap, p, items, 0);
    NoBreaks(r.events, Closing(p, r.y));
  }

  /** Rows of at most two lines that fit under the body start at two lines
      each are all drawn by the first pass. */
  lemma PassAll(wrap: Wrapping, p: Page, items: seq<Item>)
    requires AtMostTwoLines(wrap, items) && p.bodyStart - TwoLineRows(|items|) >= RowFloor
    ensures Pass(wrap, p, items, 0).drawn == |items|
    ensures Pass(wrap, p, items, 0).y >= p.bodyStart - TwoLineRows(|items|)
  {
    assert items[0..] == items;
    AllRowsFit(wrap, items, 0, p.bodyStart, 0, |items|);
  }

  lemma {:induction false} NoBreaks(a: seq<Event>, c: seq<Event>)
    requires forall j :: 0 <= j < |a| ==> a[j].Row?
    requires |c| == 2 && !c[0].PageBreak? && !c[1].PageBreak?
    ensures Pages(a + c) == 1
    decreases |a|
  {
    if a == [] {
      assert a + c == c;
      var c1 := c[1..];
      assert c1[0] == c[1] && c1[1..] == [];
      assert Pages(c1) == 1;
    } else {
      assert (a + c)[1..] == a[1..] + c;
      NoBreaks(a[1..], c);
    }
  }

  /** A bill-to block of at most 41 lines beyond the name leaves room on a
      fresh page for three two-line rows and the totals block. */
  lemma RoomForThreeRows(data: Json)
    requires ExtraLines(data) <= 41
    ensures BodyStart(data) - 6.0 * RowHeight - TotalsBlockMin >= MarginBottom
  {
    RoomBelow(BodyStart(data), ExtraLines(data));
  }

  /** The same room check at a body start `n` line steps below the top one. */
  lemma RoomBelow(y: real, n: nat)
    requires n <= 41 && y == 236.8 * MM - LineStep * (n as real)
    ensures y - 6.0 * RowHeight - TotalsBlockMin >= MarginBottom
  {
    StepsBelow(n as real, 41.0);
    assert LineStep * 41.0 == 172.2 * MM;
  }

  lemma ThreeTwoLineRows(n: nat)
    requires n <= 3
    ensures TwoLineRows(n) <= 6.0 * RowHeight
  {
    if n > 0 {
      ThreeTwoLineRows(n - 1);
    }
  }

  /** Up to three items under a bill-to block of at most 41 lines beyond the
      name fit on one page, as the sample invoice does. */
  lemma SmallInvoiceOnePage(W: Width, data: Json, items: seq<Item>)
    requires 1 <= |items| <= 3 && ExtraLines(data) <= 41
    ensures Document(W, data, items).Finished?
    ensures Pages(Document(W, data, items).events) == 1
  {
    RoomForThreeRows(data);
    SmallOnePage(DescWrap(W), PageOf(data, items), items, W);
  }

  lemma SmallOnePage(wrap: Wrapping, p: Page, items: seq<Item>, W: Width)
    requires wrap == DescWrap(W)
    requires 1 <= |items| <= 3 && p.bodyStart - 6.0 * RowHeight - TotalsBlockMin >= MarginBottom
    ensures Paginate(wrap, p, items, 0).Finished?
    ensures Pages(Paginate(wrap, p, items, 0).events) == 1
  {
    ThreeTwoLineRows(|items|);
    forall i | 0 <= i < |items| ensures |wrap(items[i].description)| <= 2 {
      DescWrapLines(W, items[i].description);
    }
    OnePage(wrap, p, items);
  }
}
