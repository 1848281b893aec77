/** The `Beer` record and its conversion to and from a flat dict. */
module Datatypes {
  import opened PyValues

  /** A beer as the dataclass declares it. The dataclass checks no types, so
      every field holds whatever value it was built with: floats and ints in
      the seed record, raw strings (or None) for records read from CSV. */
  datatype Beer = Beer(
    abv: Value,
    ibu: Value,
    beerId: Value,
    name: Value,
    style: Value,
    breweryId: Value,
    size: Value)

  /** A Python dict keyed by field name. */
  type Dict = map<string, Value>

  /** The field names in declaration order. */
  const FieldOrder: seq<string> := ["abv", "ibu", "beer_id", "name", "style", "brewery_id", "size"]

  /** The field names as a set: the keyword arguments the constructor accepts. */
  const Fields: set<string> := {"abv", "ibu", "beer_id", "name", "style", "brewery_id", "size"}

  /** Instance-attribute lookup `vars(b).get(field)`: the value of the named
      field, or None when the record has no such instance attribute. Methods
      such as `to_dict` are class attributes and are not modelled here. */
  function GetAttr(b: Beer, field: string): (v: Option<Value>)
    ensures v.Some? <==> field in Fields
  {
    if field == "abv" then Some(b.abv)
    else if field == "ibu" then Some(b.ibu)
    else if field == "beer_id" then Some(b.beerId)
    else if field == "name" then Some(b.name)
    else if field == "style" then Some(b.style)
    else if field == "brewery_id" then Some(b.breweryId)
    else if field == "size" then Some(b.size)
    else None
  }

  /** `Beer.to_dict`: one entry per field. */
  function ToDict(b: Beer): (d: Dict)
    ensures d.Keys == Fields
  {
    map[
      "abv" := b.abv,
      "ibu" := b.ibu,
      "beer_id" := b.beerId,
      "name" := b.name,
      "style" := b.style,
      "brewery_id" := b.breweryId,
      "size" := b.size
    ]
  }

  /** `Beer.from_dict`, i.e. `Beer(**d)`: a missing or an unexpected keyword
      argument raises TypeError. */
  function FromDict(d: Dict): (r: Result<Beer>)
    ensures r.Ok? <==> d.Keys == Fields
    ensures r.Err? ==> r.error == TypeError
  {
    if d.Keys == Fields then
      Ok(Beer(d["abv"], d["ibu"], d["beer_id"], d["name"], d["style"], d["brewery_id"], d["size"]))
    else
      Err(TypeError)
  }

  /** The declaration order lists exactly the constructor's fields, each once. */
  lemma FieldOrderIsFields()
    ensures |FieldOrder| == 7
    ensures forall i, j :: 0 <= i < j < |FieldOrder| ==> FieldOrder[i] != FieldOrder[j]
    ensures forall f :: f in Fields <==> f in FieldOrder
  {
  }

  /** Every value in `to_dict(b)` is the same-named attribute of `b`, and the
      dict holds an entry for exactly the record's attributes. */
  lemma ToDictIsAttributes(b: Beer, field: string)
    ensures field in ToDict(b) <==> GetAttr(b, field).Some?
    ensures field in ToDict(b) ==> ToDict(b)[field] == GetAttr(b, field).value
  {
  }

  /** Round trip: `from_dict(to_dict(b)) == b`. */
  lemma RoundTrip(b: Beer)
    ensures FromDict(ToDict(b)) == Ok(b)
  {
  }

  /** Reverse round trip: a dict whose keys are exactly the field names comes
      back unchanged from `to_dict(from_dict(d))`. */
  lemma {:induction false} ReverseRoundTrip(d: Dict)
    requires d.Keys == Fields
    ensures FromDict(d).Ok? && ToDict(FromDict(d).value) == d
  {
    var e := ToDict(FromDict(d).value);
    assert e.Keys == d.Keys;
    forall k | k in d
      ensures e[k] == d[k]
    {
      assert k in Fields;
    }
  }

  /** Record equality is field-wise, so two records are equal exactly when
      their dicts are: `to_dict` loses nothing. */
  lemma {:induction false} ToDictInjective(b1: Beer, b2: Beer)
    ensures ToDict(b1) == ToDict(b2) <==> b1 == b2
  {
    if ToDict(b1) == ToDict(b2) {
      RoundTrip(b1);
      RoundTrip(b2);
    }
  }

  /** Every record's `beer_id` differs from every other's. */
  predicate UniqueIds(s: seq<Beer>)
  {
    forall i, j :: 0 <= i < j < |s| ==> s[i].beerId != s[j].beerId
  }
}
