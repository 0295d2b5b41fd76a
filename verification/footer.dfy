/** The footer of the last page (`_draw_footer`, app/pdf/pdf_draw.py): the
    left-hand lines chosen from the business and settings data, stacked
    upwards from the bottom margin, and the signature box on the right. */
module Footer {
  import opened Lookup
  import opened Text
  import Layout

  /** `data.get(key, {})` when that is a dict, otherwise an empty dict. */
  function Section(data: Json, key: string): (d: Json)
    ensures d.Dict?
  {
    var v := GetKey(data, key, Null);
    if v.Dict? then v else Dict(map[])
  }

  /** The permit: business, then settings, then `invoice.permit`; the first truthy one. */
  function Permit(data: Json): Json
  {
    Or(Or(GetKey(Section(data, "business"), "permit", Str("")),
          GetKey(Section(data, "settings"), "permit", Str(""))),
       Get(data, "invoice.permit", Str("")))
  }

  /** The PAN: business, then settings, then `invoice.pan`. */
  function Pan(data: Json): Json
  {
    Or(Or(GetKey(Section(data, "business"), "pan", Str("")),
          GetKey(Section(data, "settings"), "pan", Str(""))),
       Get(data, "invoice.pan", Str("")))
  }

  /** The cheque payee: business `cheque_to`, settings `cheque_to`, business `chequeTo`. */
  function ChequeTo(data: Json): Json
  {
    Or(Or(GetKey(Section(data, "business"), "cheque_to", Str("")),
          GetKey(Section(data, "settings"), "cheque_to", Str(""))),
       GetKey(Section(data, "business"), "chequeTo", Str("")))
  }

  /** The mobile number: `settings.phone`, then `business.phone`. */
  function Mobile(data: Json): Json
  {
    Or(Get(data, "settings.phone", Str("")), Get(data, "business.phone", Str("")))
  }

  const ChequeNote: string := "Please issue the Cheque in the Name of:"

  /** A footer value as the footer uses it: whether it is truthy, and its `str()`. */
  datatype Entry = Entry(present: bool, text: string)

  function EntryOf(v: Json): (e: Entry)
    ensures e.present == Truthy(v) && e.text == Show(v)
  {
    Entry(Truthy(v), Show(v))
  }

  /** A one-line block when `present`, nothing otherwise. */
  function LineIf(present: bool, line: string): (ls: seq<string>)
    ensures present ==> ls == [line]
    ensures !present ==> ls == []
  {
    if present then [line] else []
  }

  /** The footer lines, top to bottom: permit, PAN, the cheque note followed
      by the upper-cased payee, mobile; each only when its value is truthy. */
  function Lines(permit: Entry, pan: Entry, cheque: Entry, mobile: Entry): (ls: seq<string>)
    ensures |ls| == (if permit.present then 1 else 0) + (if pan.present then 1 else 0)
      + (if cheque.present then 2 else 0) + (if mobile.present then 1 else 0)
  {
    LineIf(permit.present, "Gujarat Gov. Permit No: " + permit.text)
    + LineIf(pan.present, "PAN No: " + pan.text)
    + (if cheque.present then [ChequeNote, Upper(cheque.text)] else [])
    + LineIf(mobile.present, "Mobile No:" + mobile.text)
  }

  /** The lines `_draw_footer` collects from the invoice data. */
  function FooterLines(data: Json): seq<string>
  {
    Lines(EntryOf(Permit(data)), EntryOf(Pan(data)), EntryOf(ChequeTo(data)), EntryOf(Mobile(data)))
  }

  /** The baseline of footer line k of n: the block is anchored so that its
      last line sits 6 points above the bottom margin, lines 11 points apart. */
  function LineY(n: nat, k: nat): (y: real)
    requires k < n
    ensures y == Layout.MarginBottom + 6.0 + 11.0 * ((n - 1 - k) as real)
  {
    var top := Layout.MarginBottom + 6.0 + 11.0 * ((n - 1) as real);
    top - 11.0 * (k as real)
  }

  /** The lines with their baselines, top to bottom. */
  function Place(ls: seq<string>): (placed: seq<(string, real)>)
    ensures |placed| == |ls|
    ensures forall k :: 0 <= k < |ls| ==> placed[k].0 == ls[k]
    ensures forall k :: 0 <= k < |ls| ==> placed[k].1 >= Layout.MarginBottom + 6.0
    ensures |ls| > 0 ==> placed[|ls| - 1].1 == Layout.MarginBottom + 6.0
    ensures forall k :: 0 <= k < |ls| - 1 ==> placed[k].1 == placed[k + 1].1 + 11.0
  {
    seq(|ls|, k requires 0 <= k < |ls| => (ls[k], LineY(|ls|, k)))
  }

  /** What the footer draws: the left lines with their baselines, the owner
      in the signature box when truthy, and the box caption. */
  datatype Drawn = Drawn(lines: seq<(string, real)>, owner: seq<string>, caption: string)

  /** The owner shown in the signature box: `settings.owner`, then `business.owner`. */
  function Owner(data: Json): Json
  {
    Or(Get(data, "settings.owner", Str("")), Get(data, "business.owner", Str("")))
  }

  /** `_draw_footer`. */
  function DrawFooter(data: Json): (d: Drawn)
    ensures d.lines == Place(FooterLines(data))
    ensures d.owner == (if Truthy(Owner(data)) then [Show(Owner(data))] else [])
    ensures d.caption == "Authorized Signatory"
  {
    var owner := EntryOf(Owner(data));
    Drawn(Place(FooterLines(data)), LineIf(owner.present, owner.text), "Authorized Signatory")
  }

  /** With every value present the footer reads, in order: permit, PAN, the
      cheque note, the payee in capitals, mobile. */
  lemma AllLines(permit: Entry, pan: Entry, cheque: Entry, mobile: Entry)
    requires permit.present && pan.present && cheque.present && mobile.present
    ensures Lines(permit, pan, cheque, mobile) == [
      "Gujarat Gov. Permit No: " + permit.text,
      "PAN No: " + pan.text,
      ChequeNote,
      Upper(cheque.text),
      "Mobile No:" + mobile.text]
  {
  }

  /** The cheque note is drawn only when a payee is known, and always
      directly above the payee in capitals. */
  lemma ChequeNoteFollowedByPayee(permit: Entry, pan: Entry, cheque: Entry, mobile: Entry, k: nat)
    requires var ls := Lines(permit, pan, cheque, mobile); k < |ls| && ls[k] == ChequeNote
    ensures cheque.present
    ensures var ls := Lines(permit, pan, cheque, mobile);
      k + 1 < |ls| && ls[k + 1] == Upper(cheque.text)
  {
    var pl := "Gujarat Gov. Permit No: " + permit.text;
    var ql := "PAN No: " + pan.text;
    var ml := "Mobile No:" + mobile.text;
    var payee := Upper(cheque.text);
    OnlyTheNote(permit.text, pan.text, cheque.text, mobile.text);
    var p := LineIf(permit.present, pl);
    var q := LineIf(pan.present, ql);
    var c := if cheque.present then [ChequeNote, payee] else [];
    var m := LineIf(mobile.present, ml);
    var ls := Lines(permit, pan, cheque, mobile);
    assert ls == p + q + c + m;
    FourParts(p, q, c, m, k);
  }

  /** No other footer line reads like the cheque note. */
  lemma OnlyTheNote(permit: string, pan: string, cheque: string, mobile: string)
    ensures "Gujarat Gov. Permit No: " + permit != ChequeNote
    ensures "PAN No: " + pan != ChequeNote
    ensures "Mobile No:" + mobile != ChequeNote
    ensures Upper(cheque) != ChequeNote
  {
    var payee := Upper(cheque);
    assert ("Gujarat Gov. Permit No: " + permit)[0] == 'G';
    assert ("PAN No: " + pan)[1] == 'A';
    assert ("Mobile No:" + mobile)[0] == 'M';
    assert |payee| >= 2 ==> !('a' <= payee[1] <= 'z');
    assert ChequeNote[0] == 'P' && ChequeNote[1] == 'l';
  }

  /** Indexing into four lists laid end to end. */
  lemma FourParts<T>(p: seq<T>, q: seq<T>, c: seq<T>, m: seq<T>, k: nat)
    requires k < |p| + |q| + |c| + |m|
    ensures (p + q + c + m)[k] ==
      if k < |p| then p[k]
      else if k < |p| + |q| then q[k - |p|]
      else if k < |p| + |q| + |c| then c[k - |p| - |q|]
      else m[k - |p| - |q| - |c|]
  {
  }

  /** The business section wins over the settings section for the permit. */
  lemma BusinessFirst(data: Json)
    requires Truthy(GetKey(Section(data, "business"), "permit", Str("")))
    ensures Permit(data) == GetKey(Section(data, "business"), "permit", Str(""))
  {
  }
}
