/** The application settings record (app/core/settings.py): nine fields with
    defaults, converted to and from a JSON object. Field values are whatever
    the JSON holds; the record does not check their types. */
module AppSettings {
  import opened Lookup

  datatype Settings = Settings(
    businessName: Json,
    owner: Json,
    phone: Json,
    permit: Json,
    pan: Json,
    chequeTo: Json,
    thankYou: Json,
    invoicePrefix: Json,
    taxRate: Json)

  /** `Settings()`: every field at its declared default. */
  function Defaults(): Settings
  {
    Settings(
      Str("KMC Electrical"),
      Str("SHAIKH MO.AJAZ"),
      Str("9998714499"),
      Str("G-GW-E-000025-NTC(W)2018"),
      Str("DTPPS1809N"),
      Str("Shaikh Mo.Ajaz"),
      Str("Thank you for choosing KMC!"),
      Str("KMC-"),
      Scalar(false, "0.0"))
  }

  /** The keys `asdict` produces: the nine field names. */
  const Known: set<string> := {
    "business_name", "owner", "phone", "permit", "pan",
    "cheque_to", "thank_you", "invoice_prefix", "tax_rate"}

  /** The value of field `name` in `s`. */
  function Field(s: Settings, name: string): Json
    requires name in Known
  {
    match name
    case "business_name" => s.businessName
    case "owner" => s.owner
    case "phone" => s.phone
    case "permit" => s.permit
    case "pan" => s.pan
    case "cheque_to" => s.chequeTo
    case "thank_you" => s.thankYou
    case "invoice_prefix" => s.invoicePrefix
    case _ => s.taxRate
  }

  /** `to_dict` (`asdict`): one entry per field, keyed by the field's name. */
  function ToDict(s: Settings): (m: map<string, Json>)
    ensures m.Keys == Known
    ensures forall name :: name in m ==> m[name] == Field(s, name)
  {
    map[
      "business_name" := s.businessName, "owner" := s.owner, "phone" := s.phone,
      "permit" := s.permit, "pan" := s.pan, "cheque_to" := s.chequeTo,
      "thank_you" := s.thankYou, "invoice_prefix" := s.invoicePrefix,
      "tax_rate" := s.taxRate]
  }

  /** `cls(**merged)` for a dict holding every field name. */
  function OfDict(m: map<string, Json>): (s: Settings)
    requires Known <= m.Keys
    ensures forall name :: name in Known ==> Field(s, name) == m[name]
  {
    Settings(
      m["business_name"], m["owner"], m["phone"], m["permit"], m["pan"],
      m["cheque_to"], m["thank_you"], m["invoice_prefix"], m["tax_rate"])
  }

  /** `{**defaults, **{k: v for k, v in data.items() if k in defaults}}`. */
  function Merge(defaults: map<string, Json>, data: map<string, Json>): (m: map<string, Json>)
    ensures m.Keys == defaults.Keys
    ensures forall k :: k in defaults ==> m[k] == if k in data then data[k] else defaults[k]
  {
    map k | k in defaults :: if k in data then data[k] else defaults[k]
  }

  /** `Settings.from_dict(data)`. */
  function FromDict(data: map<string, Json>): (s: Settings)
    ensures forall name :: name in Known ==>
      Field(s, name) == if name in data then data[name] else Field(Defaults(), name)
  {
    OfDict(Merge(ToDict(Defaults()), data))
  }

  /** Two records with the same value in every field are the same record. */
  lemma FieldsDetermine(s: Settings, t: Settings)
    requires forall name :: name in Known ==> Field(s, name) == Field(t, name)
    ensures s == t
  {
    assert Field(s, "business_name") == Field(t, "business_name");
    assert Field(s, "owner") == Field(t, "owner");
    assert Field(s, "phone") == Field(t, "phone");
    assert Field(s, "permit") == Field(t, "permit");
    assert Field(s, "pan") == Field(t, "pan");
    assert Field(s, "cheque_to") == Field(t, "cheque_to");
    assert Field(s, "thank_you") == Field(t, "thank_you");
    assert Field(s, "invoice_prefix") == Field(t, "invoice_prefix");
    assert Field(s, "tax_rate") == Field(t, "tax_rate");
  }

  /** `from_dict({})` is `Settings()`. */
  lemma FromEmpty()
    ensures FromDict(map[]) == Defaults()
  {
    FieldsDetermine(FromDict(map[]), Defaults());
  }

  /** Keys that are not field names make no difference. */
  lemma UnknownIgnored(data: map<string, Json>, extra: map<string, Json>)
    requires extra.Keys !! Known
    ensures FromDict(data + extra) == FromDict(data)
  {
    FieldsDetermine(FromDict(data + extra), FromDict(data));
  }

  /** A known key sets its field; the other fields keep their defaults. */
  lemma OneOverride(name: string, v: Json)
    requires name in Known
    ensures Field(FromDict(map[name := v]), name) == v
    ensures forall other :: other in Known && other != name ==>
      Field(FromDict(map[name := v]), other) == Field(Defaults(), other)
  {
  }

  /** `from_dict(to_dict(s)) == s`. */
  lemma DictRoundTrip(s: Settings)
    ensures FromDict(ToDict(s)) == s
  {
    FieldsDetermine(FromDict(ToDict(s)), s);
  }

  /** `to_dict` has exactly nine keys, the field names. */
  lemma NineKeys(s: Settings)
    ensures ToDict(s).Keys == Known && |ToDict(s).Keys| == 9
  {
    var a := {"business_name", "owner", "phone"};
    var b := {"permit", "pan", "cheque_to"};
    var c := {"thank_you", "invoice_prefix", "tax_rate"};
    assert |a| == 3 && |b| == 3 && |c| == 3;
    assert a !! b && a !! c && b !! c;
    assert Known == a + b + c;
  }
}
