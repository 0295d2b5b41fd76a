/** Invoice numbers (app/core/numbering.py): a per-prefix counter kept in a
    table `invoice_sequences(prefix, last)`, and the zero-padded text built
    from it. The table is a map from prefix to its last issued counter. */
module Numbering {
  import opened Wrappers
  import opened Digits

  /** The default width of the numeric part. */
  const Width: int := 4

  /** `_format(prefix, n, width)`, i.e. `f"{prefix}{n:0{width}d}"`: the prefix,
      then `n` zero-padded to `width` characters, never cut. A negative `n`
      puts its minus sign first and pads the digits to `width - 1`. */
  function Format(prefix: string, n: int, width: int): (s: string)
    ensures |s| > |prefix| && s[..|prefix|] == prefix
  {
    var body := if n >= 0 then ZeroPad(n, width) else "-" + ZeroPad(-n, width - 1);
    assert (prefix + body)[|prefix|..] == body;
    prefix + body
  }

  /** For a counter of at least zero the part after the prefix is all digits,
      denotes the counter, and is the wider of `width` and the counter's own
      digits: padded, never cut. */
  lemma FormatDigits(prefix: string, n: nat, width: int)
    ensures var t := Format(prefix, n, width)[|prefix|..];
      AllDigits(t) && DigitsToNat(t) == n
      && |t| == (if width > |NatToDigits(n)| then width else |NatToDigits(n)|)
  {
    assert Format(prefix, n, width)[|prefix|..] == ZeroPad(n, width);
  }

  /** Reads the numeric part of an invoice number: optional minus, then digits. */
  function ParseCounter(t: string): Option<int>
  {
    if |t| >= 2 && t[0] == '-' && AllDigits(t[1..]) then Some(-(DigitsToNat(t[1..]) as int))
    else if |t| >= 1 && AllDigits(t) then Some(DigitsToNat(t))
    else None
  }

  /** The numeric part of a formatted number reads back as the counter. */
  lemma FormatRoundTrip(prefix: string, n: int, width: int)
    ensures ParseCounter(Format(prefix, n, width)[|prefix|..]) == Some(n)
  {
    var t := Format(prefix, n, width)[|prefix|..];
    if n < 0 {
      var z := ZeroPad(-n, width - 1);
      assert t == "-" + z;
      assert t[1..] == z;
    } else {
      assert IsDigit(t[0]);
    }
  }

  /** Different counters under one prefix give different invoice numbers. */
  lemma FormatInjective(prefix: string, m: int, n: int, width: int)
    requires m != n
    ensures Format(prefix, m, width) != Format(prefix, n, width)
  {
    FormatRoundTrip(prefix, m, width);
    FormatRoundTrip(prefix, n, width);
  }

  /** The outcome of one call: the table afterwards and the number handed out. */
  datatype Issued = Issued(table: map<string, int>, number: string)

  /** `next_invoice_number(prefix, db)`. The `UPDATE ... SET last = last + 1`
      touches a row exactly when the prefix is in the table; when none is
      touched the prefix is inserted with 1, otherwise the incremented value
      is read back. Either way the number shows the counter now stored. */
  function NextInvoiceNumber(prefix: string, table: map<string, int>): (r: Issued)
    ensures prefix in r.table
    ensures r.table[prefix] == if prefix in table then table[prefix] + 1 else 1
    ensures r.number == Format(prefix, r.table[prefix], Width)
  {
    var rowcount := if prefix in table then 1 else 0;
    var updated := if rowcount == 0 then table[prefix := 1] else table[prefix := table[prefix] + 1];
    var current := if rowcount == 0 then 1 else updated[prefix];
    Issued(updated, Format(prefix, current, Width))
  }

  /** A call adds the prefix to the table if it is new and leaves every
      other prefix's counter as it was. */
  lemma NextKeepsOthers(prefix: string, table: map<string, int>)
    ensures NextInvoiceNumber(prefix, table).table.Keys == table.Keys + {prefix}
    ensures forall p :: p in table && p != prefix ==> NextInvoiceNumber(prefix, table).table[p] == table[p]
  {
  }

  /** The number handed out starts with the prefix, and its numeric part
      reads back as the counter now stored for the prefix. */
  lemma NumberShowsCounter(prefix: string, table: map<string, int>)
    ensures var r := NextInvoiceNumber(prefix, table);
      |r.number| > |prefix| && r.number[..|prefix|] == prefix
      && ParseCounter(r.number[|prefix|..]) == Some(r.table[prefix])
  {
    var r := NextInvoiceNumber(prefix, table);
    FormatRoundTrip(prefix, r.table[prefix], Width);
  }

  /** A prefix seen for the first time gets the number `prefix + "0001"`. */
  lemma FirstNumber(prefix: string, table: map<string, int>)
    requires prefix !in table
    ensures NextInvoiceNumber(prefix, table).number == prefix + "0001"
  {
    var z := ZeroPad(1, Width);
    assert Repeat('0', 3) == "000" by {
      assert Repeat('0', 1) == "0";
      assert Repeat('0', 2) == "00";
    }
    assert z == "0001";
  }

  /** The counter the first of several successive calls stores. */
  function FirstCounter(prefix: string, table: map<string, int>): int
  {
    if prefix in table then table[prefix] + 1 else 1
  }

  /** Calls `next_invoice_number(prefix)` k times in a row: the j-th number
      is the prefix followed by the first counter plus j, so none is handed
      out twice. */
  method IssueMany(prefix: string, table: map<string, int>, k: nat)
    returns (numbers: seq<string>, after: map<string, int>)
    ensures |numbers| == k
    ensures forall j :: 0 <= j < k ==> numbers[j] == Format(prefix, FirstCounter(prefix, table) + j, Width)
    ensures forall i, j :: 0 <= i < j < k ==> numbers[i] != numbers[j]
    ensures k == 0 ==> after == table
    ensures k > 0 ==> prefix in after && after[prefix] == FirstCounter(prefix, table) + k - 1
  {
    numbers := [];
    after := table;
    for i := 0 to k
      invariant InStep(prefix, table, numbers, after)
      invariant |numbers| == i
      invariant i == 0 ==> after == table
      invariant i > 0 ==> prefix in after
    {
      var r := NextInvoiceNumber(prefix, after);
      NextInRun(prefix, table, numbers, after, r.number, r.table);
      numbers := numbers + [r.number];
      after := r.table;
    }
    Distinct(prefix, numbers, FirstCounter(prefix, table));
  }

  /** After `|numbers|` calls from `table`: the j-th number shows the first
      counter plus j, and the next call would store the counter after the
      last one shown. */
  predicate InStep(prefix: string, table: map<string, int>, numbers: seq<string>, after: map<string, int>)
  {
    (forall j :: 0 <= j < |numbers| ==> numbers[j] == Format(prefix, FirstCounter(prefix, table) + j, Width))
    && FirstCounter(prefix, after) == FirstCounter(prefix, table) + |numbers|
  }

  /** One more call keeps the run in step: the call shows the counter
      after the last one shown and stores it. */
  lemma NextInRun(prefix: string, table: map<string, int>, numbers: seq<string>, after: map<string, int>, x: string, next: map<string, int>)
    requires InStep(prefix, table, numbers, after)
    requires x == Format(prefix, FirstCounter(prefix, after), Width)
    requires FirstCounter(prefix, next) == FirstCounter(prefix, after) + 1
    ensures InStep(prefix, table, numbers + [x], next)
  {
    Extend(prefix, FirstCounter(prefix, table), numbers, x);
  }

  /** Appending the number of the next counter keeps a run of numbers from successive counters. */
  lemma Extend(prefix: string, c0: int, numbers: seq<string>, x: string)
    requires forall j :: 0 <= j < |numbers| ==> numbers[j] == Format(prefix, c0 + j, Width)
    requires x == Format(prefix, c0 + |numbers|, Width)
    ensures forall j :: 0 <= j < |numbers| + 1 ==> (numbers + [x])[j] == Format(prefix, c0 + j, Width)
  {
    var ns := numbers + [x];
    forall j | 0 <= j < |ns| ensures ns[j] == Format(prefix, c0 + j, Width) {
      if j < |numbers| {
        assert ns[j] == numbers[j];
      }
    }
  }

  /** Numbers formatted from successive counters are pairwise different. */
  lemma Distinct(prefix: string, numbers: seq<string>, c0: int)
    requires forall j :: 0 <= j < |numbers| ==> numbers[j] == Format(prefix, c0 + j, Width)
    ensures forall i, j :: 0 <= i < j < |numbers| ==> numbers[i] != numbers[j]
  {
    forall i, j | 0 <= i < j < |numbers|
      ensures numbers[i] != numbers[j]
    {
      FormatInjective(prefix, c0 + i, c0 + j, Width);
    }
  }
}
