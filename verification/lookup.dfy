/** The invoice data the PDF engine reads (a nested Python dict), and the
    dotted-path lookup `_get` of app/pdf/pdf_draw.py. */
module Lookup {
  import opened Wrappers
  import opened Text
  import opened Digits

  /** A value in the invoice data. `Scalar` stands for any other Python value
      (number, bool, list, ...), known only by its truthiness and its `str()`.
      `Date` is a `datetime.date` (or a `datetime`, of which only the date
      part is ever printed). */
  datatype Json =
    | Null
    | Str(s: string)
    | Date(year: nat, month: nat, day: nat)
    | Dict(fields: map<string, Json>)
    | Scalar(truthy: bool, text: string)

  /** Python truthiness: `None`, `""` and `{}` are false. */
  predicate Truthy(j: Json)
  {
    match j
    case Null => false
    case Str(s) => s != []
    case Date(_, _, _) => true
    case Dict(m) => m != map[]
    case Scalar(t, _) => t
  }

  /** Python's `a or b`. */
  function Or(a: Json, b: Json): (r: Json)
    ensures Truthy(a) ==> r == a
    ensures !Truthy(a) ==> r == b
    ensures Truthy(r) <==> Truthy(a) || Truthy(b)
  {
    if Truthy(a) then a else b
  }

  /** `d.get(key, default)` on a dict; any other value has no keys. */
  function GetKey(d: Json, key: string, default: Json): (r: Json)
    ensures d.Dict? && key in d.fields ==> r == d.fields[key]
    ensures !(d.Dict? && key in d.fields) ==> r == default
  {
    if d.Dict? && key in d.fields then d.fields[key] else default
  }

  /** The loop of `_get` over the parts of the path still to follow. */
  function GetParts(cur: Json, parts: seq<string>, default: Json): Json
  {
    if parts == [] then cur
    else if cur.Dict? && parts[0] in cur.fields then GetParts(cur.fields[parts[0]], parts[1..], default)
    else default
  }

  /** `_get(d, path, default)`: follow the keys of `path.split(".")` through
      nested dicts; the default as soon as a key is missing or a value on the
      way is not a dict. */
  function Get(d: Json, path: string, default: Json): Json
  {
    GetParts(d, SplitOn(path, '.'), default)
  }

  /** Where a path leads, when every key on it is present. */
  function Resolve(cur: Json, parts: seq<string>): (r: Option<Json>)
  {
    if parts == [] then Some(cur)
    else if cur.Dict? && parts[0] in cur.fields then Resolve(cur.fields[parts[0]], parts[1..])
    else None
  }

  /** Following a path in two legs: the second leg starts where the first
      one ends, and a broken first leg gives the default. */
  lemma {:induction false} GetPartsAppend(cur: Json, p: seq<string>, q: seq<string>, default: Json)
    ensures GetParts(cur, p + q, default) ==
      match Resolve(cur, p)
      case Some(v) => GetParts(v, q, default)
      case None => default
    decreases |p|
  {
    if p != [] {
      assert (p + q)[0] == p[0];
      assert (p + q)[1..] == p[1..] + q;
      if cur.Dict? && p[0] in cur.fields {
        GetPartsAppend(cur.fields[p[0]], p[1..], q, default);
      }
    } else {
      assert p + q == q;
    }
  }

  /** `_get` gives the value the path resolves to, or the default when it
      does not resolve. */
  lemma {:induction false} GetResolves(cur: Json, parts: seq<string>, default: Json)
    ensures Resolve(cur, parts).Some? ==> GetParts(cur, parts, default) == Resolve(cur, parts).value
    ensures Resolve(cur, parts).None? ==> GetParts(cur, parts, default) == default
    decreases |parts|
  {
    if parts != [] && cur.Dict? && parts[0] in cur.fields {
      GetResolves(cur.fields[parts[0]], parts[1..], default);
    }
  }

  /** A dict nesting `v` under the keys of `parts`, one level per key. */
  function Nest(parts: seq<string>, v: Json): (d: Json)
    ensures Resolve(d, parts) == Some(v)
  {
    if parts == [] then v else Dict(map[parts[0] := Nest(parts[1..], v)])
  }

  /** Writing a value at a dotted path and reading the path back gives the
      value, for keys without a dot. */
  lemma NestRoundTrip(parts: seq<string>, v: Json, default: Json)
    requires |parts| >= 1 && forall i :: 0 <= i < |parts| ==> Excludes(parts[i], '.')
    ensures Get(Nest(parts, v), Join(parts, "."), default) == v
  {
    SplitJoin(parts, '.');
    GetResolves(Nest(parts, v), parts, default);
  }

  /** A dotted path of two keys reads a field of a nested dict, as in
      `_get(data, "settings.thank_you", ...)`. */
  lemma GetTwoKeys(d: Json, a: string, b: string, default: Json)
    requires Excludes(a, '.') && Excludes(b, '.')
    ensures !(d.Dict? && a in d.fields) ==> Get(d, a + "." + b, default) == default
    ensures d.Dict? && a in d.fields ==>
      Get(d, a + "." + b, default) == GetKey(d.fields[a], b, default)
  {
    SplitJoin([a, b], '.');
    assert Join([a, b], ".") == a + "." + b by {
      assert [a, b][1..] == [b];
    }
    assert [a, b][1..] == [b];
    assert [b][1..] == [];
    if d.Dict? && a in d.fields {
      var v := d.fields[a];
      assert GetParts(d, [a, b], default) == GetParts(v, [b], default);
      assert GetParts(v, [b], default) == GetKey(v, b, default);
    }
  }

  /** Python's `str()` of a value, as printed into the PDF. */
  function Show(j: Json): (s: string)
    ensures j.Str? ==> s == j.s
    ensures j.Null? ==> s == "None"
  {
    match j
    case Null => "None"
    case Str(s) => s
    case Date(y, m, d) => ZeroPad(y, 4) + "-" + ZeroPad(m, 2) + "-" + ZeroPad(d, 2)
    case Dict(_) => "{\U{2026}}"
    case Scalar(_, t) => t
  }
}
