# kmc-invoice layout and formatting, in Dafny

This project models the invoice layout and formatting core of kmc-invoice, a desktop invoicing
application. The model covers five parts:

- **Money** (`app/core/currency.py`). `round_money` rounds to hundredths with round-half-to-even, and
  `fmt_money` prints the rounded amount with two decimals, optionally right-aligned.
- **The drawn PDF engine** (`app/pdf/pdf_draw.py`). This part covers:
  - description wrapping: `wrap_text`, with at most two lines and "…", and the older `_wrap_text`;
  - the quantity text `_fmt_qty`;
  - the dotted-path lookup `_get`;
  - the dd-mm-yyyy dates of `_fmt_date`;
  - the layout constants and the vertical cursor through the header, invoice and bill-to blocks;
  - the footer lines of `_draw_footer`;
  - the row-fit loop of `_draw_table_rows`;
  - the total of `_draw_summary`;
  - the page loop of `build_invoice_pdf`.
  The canvas becomes the sequence of things drawn (`Pagination.Event`: rows, page breaks, the
  summary, the footer). Layout arithmetic is exact over `real` in points, with one millimetre
  being 72/25.4 points.
- **The Platypus table model** (`app/pdf/table_layout.py`): the column widths, the cell rows and
  the style commands keyed by cell ranges.
- **Invoice numbers** (`app/core/numbering.py`): `_format`, and `next_invoice_number` as a state
  machine over the table `invoice_sequences`, modelled as a map from prefix to the last counter.
- **Settings** (`app/core/settings.py`): the nine-field record with its defaults, `from_dict` and
  `to_dict`.

The model has these modules:

- `ExactDecimal`: exact decimals `Dec(mantissa, scale)`, and round-half-to-even at any number of
  places.
- `Currency`, `Quantity` and `DateFormat`: the value formatters.
- `Text`: the Python `str` operations used (`split`, `join`, `strip`, `rstrip`, `splitlines`,
  `replace`, and `upper` for ASCII letters).
- `Wrap`: both wrappers.
- `Lookup`: the invoice data as a JSON-like value, and `_get`.
- `Layout`, `Footer` and `Pagination`: the drawn engine.
- `TableLayout`, `Numbering` and `AppSettings`.

The font's text width (`pdfmetrics.stringWidth`) is a parameter `W: string -> real`. A lemma
assumes something of it only when it says so, such as monotonicity under extension.

Two behaviours of the source are modelled as written, because they are what the code does:

- A drawn row shows its serial label, description lines, quantity and rate. Its amount column is
  never filled (app/pdf/pdf_draw.py:416-419).
- The summary total is recomputed from the items' amounts. The caller's `data["total"]` is ignored.
  With no items the page loop never runs, so there is no summary and no footer.

## Model

| member | source | states |
|---|---|---|
| ExactDecimal.RoundAt | app/core/currency.py:9-10 | the rounded count of units is nearest to the input among all whole counts, within half a unit, and even on an exact tie |
| ExactDecimal.RoundingIsUnique | app/core/currency.py:10 | any count that is nearest and even on ties is the rounded one, so the result of quantizing is determined by those properties |
| ExactDecimal.RoundWithinHalfUnit | app/core/currency.py:10 | the rounded value lies within half a unit of the last place of the input |
| ExactDecimal.RoundExact | app/core/currency.py:10 | a value already on the grid of the requested places is left unchanged by rounding |
| ExactDecimal.Add | app/pdf/pdf_draw.py:499 | the sum of two decimals has the larger scale and denotes the sum of their values |
| Currency.RoundMoney | app/core/currency.py:7-11 | `round_money` gives whole cents, nearest to the input, ties to the even cent |
| Currency.RoundMoneyIdempotent | app/core/currency.py:7-11 | rounding an already rounded amount changes nothing |
| Currency.RoundMoneyWithinHalfCent | app/core/currency.py:10 | the rounded amount differs from the input by at most 0.005 |
| Currency.RoundMoneyTies | app/core/currency.py:8-10 | 0.125 gives 0.12, 0.135 gives 0.14, 2.675 gives 2.68, -0.125 gives -0.12 and 49.999 gives 50.00 |
| Currency.MoneyString | app/core/currency.py:20 | the two-decimal text has a point followed by exactly two digits at its end |
| Currency.MoneyStringDenotesRounded | app/core/currency.py:20 | the printed text reads back as the rounded amount in cents |
| Currency.CentsRoundTrip | app/core/currency.py:20 | the signed cents text reads back as the cents it was printed from, for either sign |
| Currency.FmtMoney | app/core/currency.py:14-21 | with an int width above zero the text is right-aligned with spaces to max(width, length); otherwise the bare two-decimal text; the bare text is always its suffix |
| Quantity.QtyTextShape | app/pdf/pdf_draw.py:201-205 | `_fmt_qty` is the sign and whole part, followed by a point and the kept decimals only when some decimal is not zero |
| Quantity.QtyTextForm | app/pdf/pdf_draw.py:201-205 | the quantity text is non-empty, never ends in a point, and has at most three decimals, the last of them not zero |
| Quantity.QtyTextRoundTrip | app/pdf/pdf_draw.py:201-205 | the quantity text reads back as the quantity rounded to thousandths |
| Quantity.QtyTextWhole | app/pdf/pdf_draw.py:201-205 | whole quantities print without a point, as their plain digits (2 as "2", 100 as "100") |
| Quantity.Decimals | app/pdf/pdf_draw.py:204 | the kept decimals are at most three digits and do not end in zero |
| DateFormat.DayMonthYear | app/pdf/pdf_draw.py:103 | for a year from 1000 on, `strftime("%d-%m-%Y")` is ten characters with dashes at 2 and 5, and its fields denote the day, month and year |
| DateFormat.FmtDate | app/pdf/pdf_draw.py:97-106 | `None` prints as "", a string as itself, and a date as dd-mm-yyyy |
| DateFormat.FmtDateRoundTrip | app/pdf/pdf_draw.py:97-106 | a printed date reads back as the same day, month and year |
| Lookup.Or | app/pdf/pdf_draw.py:519-522 | Python's `a or b` gives `a` when `a` is truthy and `b` otherwise; the result is truthy exactly when either operand is |
| Lookup.GetKey | app/pdf/pdf_draw.py:300-303 | `d.get(key, default)` gives the stored value for a dict holding the key, and the default otherwise |
| Lookup.GetResolves | app/pdf/pdf_draw.py:109-116 | `_get` gives the value the path resolves to, or the default as soon as a key is missing or a value on the way is not a dict |
| Lookup.GetPartsAppend | app/pdf/pdf_draw.py:109-116 | following a path in two legs is following the second leg from where the first ends, and a broken first leg gives the default |
| Lookup.NestRoundTrip | app/pdf/pdf_draw.py:109-116 | a value nested under the keys of a dotted path is what `_get` reads back at that path |
| Lookup.GetTwoKeys | app/pdf/pdf_draw.py:484 | a two-key path such as "settings.thank_you" reads the second key of the first key's dict, or the default when the first key is missing |
| Lookup.Show | app/pdf/pdf_draw.py:106 | `str()` of a string is the string itself and of `None` is "None" |
| Text.SplitLinesKeepsText | app/pdf/pdf_draw.py:317 | the lines of `splitlines()` put back together give the text without its line breaks |
| Text.SplitJoin | app/pdf/pdf_draw.py:186 | splitting text joined with a separator absent from its parts gives back the parts |
| Text.StripShape | app/pdf/pdf_draw.py:168-169 | `strip()` leaves a slice of the text with only whitespace cut from either side and no whitespace at its ends |
| Text.WordsOfJoin | app/pdf/pdf_draw.py:160 | `split()` of words joined with single spaces gives back the words |
| Wrap.TrimToFit | app/pdf/pdf_draw.py:175-177 | the cut is the longest prefix that fits together with "…", or empty when no non-empty prefix does |
| Wrap.CutWord | app/pdf/pdf_draw.py:173-178 | a cut word is "…" alone or fits, and always ends with the ellipsis |
| Wrap.FitLine | app/pdf/pdf_draw.py:166-184 | `fit_line` consumes at least one word; a first word that is too wide is cut; otherwise the line is the greedy run of leading words, overflowing exactly when words remain |
| Wrap.TrimLine | app/pdf/pdf_draw.py:194-196 | the trimming loop ends with text that fits, or with nothing |
| Wrap.WrapText | app/pdf/pdf_draw.py:150-198 | `wrap_text` gives one or two lines; `[""]` exactly when the collapsed text is empty; otherwise every line fits or is the bare ellipsis |
| Wrap.WrapFits | app/pdf/pdf_draw.py:159-189 | under a monotone width, text whose collapsed form fits is returned whole as the only line |
| Wrap.FirstLineGreedy | app/pdf/pdf_draw.py:171-184 | when the first word fits, the first line is the longest run of words all of whose prefixes fit, and it is the only line exactly when all the words fit that way |
| Wrap.FirstWordCut | app/pdf/pdf_draw.py:166-189 | a first word wider than the line is cut with "…", and a second line follows exactly when more words remain |
| Wrap.TwoLines | app/pdf/pdf_draw.py:186-198 | when the words fall greedily into two lines that both fit, those are the two lines, and joining them gives back the whole text |
| Wrap.SecondLineCanLoseEllipsis | app/pdf/pdf_draw.py:193-197 | the trimming loop can strip the ellipsis it has just added: "ab cd" at two characters gives the second line "ab" with no mark of the dropped word |
| Wrap.Gather | app/pdf/pdf_draw.py:126-134 | `_wrap_text` gathers every word in order into non-empty lines |
| Wrap.GatherFits | app/pdf/pdf_draw.py:126-134 | each gathered line fits unless it is a single word, and each was closed only because the next word would not fit |
| Wrap.LegacyWrap | app/pdf/pdf_draw.py:119-147 | every line of `_wrap_text` fits, or is kept whole because no non-empty prefix of it fits with "…"; text with no words gives no lines |
| Wrap.Shorten | app/pdf/pdf_draw.py:138-146 | a line that fits is kept; one that does not is cut to its longest prefix that fits with "…", or kept whole when none does |
| Wrap.LegacyWrapKeepsText | app/pdf/pdf_draw.py:119-147 | when no single word is too wide, the lines joined with spaces are the words of the text |
| Layout.HeaderLine | app/pdf/pdf_draw.py:221-281 | the rule under the header sits at 269 mm |
| Layout.InvoiceBlockBottom | app/pdf/pdf_draw.py:284-296 | the invoice block ends 12.2 mm below its top |
| Layout.AddressCursor | app/pdf/pdf_draw.py:317-321 | the address loop steps down one line per non-empty address line |
| Layout.BillToBottom | app/pdf/pdf_draw.py:299-322 | the bill-to block ends 17.2 mm below its top, plus one line step for the phone and for each non-empty address line |
| Layout.BodyStart | app/pdf/pdf_draw.py:601-606 | a fresh page's body starts at 236.8 mm less one line step per extra bill-to line, because the bill-to block always ends below the invoice block |
| Layout.RoomIff | app/pdf/pdf_draw.py:398-404 | a fresh page has room for a two-line row exactly when the bill-to block has at most 48 lines beyond the name |
| Footer.Lines | app/pdf/pdf_draw.py:526-535 | the footer has one line each for permit, PAN and mobile and two for the cheque payee, each only when its value is truthy |
| Footer.Place | app/pdf/pdf_draw.py:537-542 | the footer lines keep their order, 11 points apart, the last one 6 points above the bottom margin |
| Footer.DrawFooter | app/pdf/pdf_draw.py:514-567 | the footer draws the placed lines, the owner when truthy, and the caption "Authorized Signatory" |
| Footer.AllLines | app/pdf/pdf_draw.py:527-535 | with every value present the footer reads permit, PAN, the cheque note, the payee in ASCII capitals, and mobile, in that order |
| Footer.ChequeNoteFollowedByPayee | app/pdf/pdf_draw.py:531-533 | the cheque note appears only when a payee is known, and always directly above the payee in ASCII capitals |
| Footer.BusinessFirst | app/pdf/pdf_draw.py:519 | a truthy business permit wins over the settings and invoice permits |
| Pagination.RowsFrom | app/pdf/pdf_draw.py:392-451 | the row loop draws a prefix of the slice and one event per drawn row |
| Pagination.RowsShowItems | app/pdf/pdf_draw.py:392-432 | each drawn row shows the next item of the slice, labelled with its position in the call, under its global index, ruled below unless it is the last item |
| Pagination.RowsStack | app/pdf/pdf_draw.py:398-451 | rows stack down from the cursor, each ending on or above the row floor, and the cursor ends at least a row lower when anything was drawn |
| Pagination.RowsStop | app/pdf/pdf_draw.py:402-404 | the loop stops early only at a row that would cross the row floor |
| Pagination.DrawRows | app/pdf/pdf_draw.py:372-458 | without an item count the first row that fits fails on the unbound `is_last_overall`; with one, the rows show the slice's items under the indices from `total_items - len(items)` |
| Pagination.SumAmounts | app/pdf/pdf_draw.py:499 | the `sum` of the amounts, with a missing amount as 0, denotes the exact sum of their values |
| Pagination.TotalDenotesSum | app/pdf/pdf_draw.py:499-502 | the summary's total text reads back as that sum rounded to the cent |
| Pagination.SampleTotal | tests/test_invoice_pdf.py:19-24 | the three sample items of 300.00, 49.99 and 60.00 give the total 409.99 |
| Pagination.Closing | app/pdf/pdf_draw.py:626-633 | the closing starts with a page break exactly when less than the totals block is left above the bottom margin, then draws the summary and the footer |
| Pagination.PassShows | app/pdf/pdf_draw.py:611-613 | a pass of the page loop draws the items from `start` in order, each under its global index and its position on the page |
| Pagination.PassFits | app/pdf/pdf_draw.py:611-618 | a pass draws only items that fit on a fresh page, and draws nothing exactly when its first item does not fit |
| Pagination.FinishesIff | app/pdf/pdf_draw.py:611-624 | the document is drawn to its end exactly when every item fits on a fresh page; otherwise the `drawn == 0` branch repeats for ever |
| Pagination.RoomEnsuresProgress | app/pdf/pdf_draw.py:611-624 | room for a two-line row on a fresh page is enough for the loop to end, whatever the descriptions |
| Pagination.TooTallStalls | app/pdf/pdf_draw.py:614-618 | an item whose row does not fit on a fresh page makes the loop run for ever |
| Pagination.PaginateCovers | app/pdf/pdf_draw.py:611-624 | a finished loop draws the remaining items once each, in order, under their own indices, with a separator under every row but the last item's |
| Pagination.EveryItemOnce | app/pdf/pdf_draw.py:611-624 | a finished document shows every item exactly once, in order, and omits the separator only under the last item |
| Pagination.LabelsRestart | app/pdf/pdf_draw.py:392-410 | the serial labels count the rows of each page from "1." |
| Pagination.PaginateCloses | app/pdf/pdf_draw.py:619-633 | a finished loop over at least one item ends with the summary and the footer, draws neither elsewhere, and leaves the totals block above the bottom margin |
| Pagination.ClosesAfter | app/pdf/pdf_draw.py:621-633 | rows without a summary or footer, followed by a closed tail (after a page break or not), close the document |
| Pagination.SummaryOnceAtEnd | app/pdf/pdf_draw.py:608-635 | with no items the document is the bare first page; otherwise the summary and footer are drawn once, at the end |
| Pagination.DocumentTotal | app/pdf/pdf_draw.py:499-502 | a finished document ends with a summary whose total reads back as the items' amounts summed and rounded to the cent, whatever the caller's total |
| Pagination.OnePage | app/pdf/pdf_draw.py:611-635 | when the rows fit under the body start at two lines each, with the totals block below them, the document has one page |
| Pagination.SmallInvoiceOnePage | tests/test_invoice_pdf.py:19-40 | up to three items under a bill-to block of at most 41 extra lines give a one-page document, as the sample invoice does |
| TableLayout.ColWidths | app/pdf/table_layout.py:19-33 | five widths 28, desc, 48, 70, 90 with desc at least 120; they sum to the content width when it is at least 356, otherwise to 356 |
| TableLayout.BuildInvoiceTable | app/pdf/table_layout.py:35-59 | the table has one header row, one body row per line in order, and the thank-you/total row last; one repeated header row and the column widths of `_col_widths` |
| TableLayout.Style | app/pdf/table_layout.py:61-102 | the body commands are present only with at least one body row, and the total row's commands come last |
| TableLayout.RowsShape | app/pdf/table_layout.py:44-51 | body rows keep sl, description and qty as given and show rate and amount with two decimals that read back as the rounded values |
| TableLayout.TotalShown | app/pdf/table_layout.py:56 | the total cell reads back as the supplied total rounded to the cent, whatever the lines say |
| TableLayout.StyleAddressesCells | app/pdf/table_layout.py:61-102 | every style command addresses a non-empty block of existing cells |
| TableLayout.BodyGuardNeeded | app/pdf/table_layout.py:77-83 | without the `last_body_i >= 1` guard, an empty table would get body commands whose rows run backwards |
| Numbering.Format | app/core/numbering.py:34-35 | the number starts with the prefix and has more characters than it |
| Numbering.FormatDigits | app/core/numbering.py:34-35 | for a counter of at least zero the part after the prefix is all digits, denotes the counter, and is as wide as the larger of the width and the counter's digits: padded, never cut |
| Numbering.FormatRoundTrip | app/core/numbering.py:34-35 | the part after the prefix reads back as the counter, negative counters included |
| Numbering.FormatInjective | app/core/numbering.py:34-35 | different counters under one prefix give different numbers |
| Numbering.NextInvoiceNumber | app/core/numbering.py:38-77 | a call stores the prefix's counter plus one, or 1 for a new prefix, and returns the number formatted from the stored counter |
| Numbering.NextKeepsOthers | app/core/numbering.py:50-63 | a call adds the prefix if it is new and leaves every other prefix's counter as it was |
| Numbering.NumberShowsCounter | app/core/numbering.py:64-77 | the number starts with the prefix, and its numeric part reads back as the counter now stored |
| Numbering.FirstNumber | app/core/numbering.py:56-77 | a prefix seen for the first time gets `prefix + "0001"` |
| Numbering.IssueMany | app/core/numbering.py:38-77 | k calls in a row give the numbers of k successive counters from the first one, pairwise different, and the table ends holding the last of them |
| Numbering.Distinct | app/core/numbering.py:34-35 | numbers formatted from successive counters are pairwise different |
| AppSettings.ToDict | app/core/settings.py:32-33 | `to_dict` has exactly the nine field names as keys, each holding its field |
| AppSettings.Merge | app/core/settings.py:29 | the merge keeps the defaults' keys, taking each value from the data when present and from the defaults otherwise |
| AppSettings.FromDict | app/core/settings.py:25-30 | each field takes the data's value for its name when present, and its default otherwise |
| AppSettings.FromEmpty | app/core/settings.py:25-30 | `from_dict({})` is `Settings()` |
| AppSettings.UnknownIgnored | app/core/settings.py:29 | keys that are not field names make no difference |
| AppSettings.OneOverride | app/core/settings.py:28-30 | a known key sets its field, and every other field keeps its default |
| AppSettings.DictRoundTrip | app/core/settings.py:25-33 | `from_dict(to_dict(s)) == s` |
| AppSettings.NineKeys | app/core/settings.py:13-33 | `to_dict` has exactly nine keys |

## Left out

- Canvas and Platypus side effects are not modelled, because they belong to the PDF library and
  not to the layout logic. This covers drawing calls, line widths and colours, `showPage`, `save`,
  font registration, and the logo image and its path lookup. They are replaced by the sequence of
  drawn events.
- The `_draw_header` drawing is left out: the logo and the "INVOICE" title are pure drawing. Only
  the y of its rule is modelled (`Layout.HeaderLine`).
- `_draw_table_header` is left out except for the body start it returns, which is 7 mm below its
  top. Its column titles and rules are pure drawing.
- `_ensure_table_within_page` is not modelled. Nothing in the engine calls it.
- The horizontal positions of text and rules are not modelled, and neither is the signature box
  geometry. The model keeps only what decides what is drawn and where rows fall vertically.
- Text width (`pdfmetrics.stringWidth`) is a parameter. Font metrics live in the PDF library.
- Binary floats are not modelled.
  - Amounts, rates and quantities are exact decimals.
  - `Decimal(str(x))`, `round(x, 2)`, `f"{x:.2f}"` and `f"{x:.3f}"` are all modelled as
    round-half-to-even on the exact decimal.
  - Effects of the binary representation, such as a float that is a hair below its written value,
    are not modelled.
- `float(...)` conversions of item fields that are not numbers (raising `ValueError`) are not
  modelled: items arrive with their fields already read.
- Lookup.Show: `str()` of a dict is a fixed placeholder, not Python's text of the dict. A `Date`
  prints as a `date` does ("2025-08-09"), never as a `datetime` with its time of day
  ("2025-08-09 00:00:00"), although `_fmt_date` accepts both. Other non-string values carry their
  text as given.
- DateFormat.ValidDate bounds the day by 31 only. Month lengths are the `datetime` library's
  business, and only valid dates reach `_fmt_date`.
- DateFormat.DayMonthYear: years below 1000 are not modelled. `%Y` prints them unpadded with glibc
  ("02-01-5") and zero-padded on other platforms, so no single text is promised for them.
- Currency.RoundMoney: amounts whose count of cents has more than 28 digits (from about 10^26) are
  not modelled as failing. There `quantize` exceeds the default 28-digit decimal context and
  raises `InvalidOperation`; the model rounds every amount.
- Currency.FmtMoney: the same `InvalidOperation` path for amounts from about 10^26 is not modelled,
  here and for the rate `fmt_money` prints in drawn rows (app/pdf/pdf_draw.py:419).
- Footer.Lines: the payee is upper-cased for ASCII letters only. Python's `str.upper()` follows the
  full Unicode case mapping ("José" gives "JOSÉ", "straße" gives "STRASSE"); that table is not
  modelled, so non-ASCII letters stay as they are.
- Footer.AllLines: the payee "in capitals" is the ASCII-only upper-casing of Footer.Lines.
- Footer.ChequeNoteFollowedByPayee: the payee line is the ASCII-only upper-casing of Footer.Lines.
- Pagination.Document: the summary's total is taken from the same items the page loop draws. The
  source sums `data["items"]` again, which is the same list whenever it is a list.
- The first page and later pages use the same `new_page` layout (`first_page` changes nothing in
  the source), so one body start serves every page.
- Numbering.NextInvoiceNumber does not model the `int(row[0]) if row else 1` fallback, because the
  row always exists after an update that touched it. The commit, `_exec` and `_ensure_table` are DB
  plumbing.
- Settings file I/O (`load_settings`, `save_settings`, `_coerce_path`) is not modelled: it is JSON
  file handling.
- `tax_rate` is not checked to be a float, because the dataclass does not check field types.
- The Qt user interface, the ORM, printing, runtime paths and the legacy or demo PDF modules are
  not part of this model.
