/**
 The record the parser builds for each accepted feed entry and the store keeps
 per key: `cpe_id`, the twelve attribute fields and `type`. This is the field
 set the parser fills in (utility/parser.py:39-54); the declared schema in
 utility/schemas.py names the key `cpe_name` instead, and the store code keys on
 `cpe_id`, so the parser's field set is the one used throughout.
 */
module Records {
  import opened CpeName

  datatype CpeRecord = CpeRecord(
    cpeId: string,
    cpeVersion: string,
    part: string,
    vendor: string,
    product: string,
    version: string,
    update: string,
    edition: string,
    language: string,
    swEdition: string,
    targetSw: string,
    targetHw: string,
    other: string,
    cpeType: CpeType)

  /** The string the record's `type` field holds. */
  function TypeName(t: CpeType): string
  {
    match t
    case Software => "software"
    case OperatingSystem => "operating_system"
    case Hardware => "hardware"
    case Other => "other"
  }

  /** The eleven attributes a record carries as separate fields. */
  function AttrsOf(r: CpeRecord): Attrs
  {
    Attrs(r.part, r.vendor, r.product, r.version, r.update, r.edition,
          r.language, r.swEdition, r.targetSw, r.targetHw, r.other)
  }

  /** A record whose denormalised fields agree with each other: `cpe_version`
      repeats `version`, and `type` is the classification of `part`. */
  predicate Consistent(r: CpeRecord)
  {
    r.cpeVersion == r.version && r.cpeType == Classify(AttrsOf(r))
  }

  /** The record built from a parsed name object: the key is the object's URI
      form, every attribute is copied, `cpe_version` and `version` both take
      the version attribute, and `type` is the classification of the part. */
  function MakeRecord(c: Cpe): (r: CpeRecord)
    ensures r.cpeId == c.uri23
    ensures AttrsOf(r) == c.attrs
    ensures Consistent(r)
  {
    var a := c.attrs;
    CpeRecord(
      cpeId := c.uri23,
      cpeVersion := a.version,
      part := a.part,
      vendor := a.vendor,
      product := a.product,
      version := a.version,
      update := a.update,
      edition := a.edition,
      language := a.language,
      swEdition := a.swEdition,
      targetSw := a.targetSw,
      targetHw := a.targetHw,
      other := a.other,
      cpeType := Classify(a))
  }

  /** A record built from a library object that `CPE(s)` could have produced
      carries its type in its key. */
  lemma KeyGivesType(c: Cpe)
    requires Coherent(c)
    ensures UriType(MakeRecord(c).cpeId) == MakeRecord(c).cpeType
  {
    UriDeterminesType(c.attrs);
  }

  /** Two consistent records whose keys are the URI bindings of well-formed
      names and that share a key are the same record: same attributes, same
      `cpe_version` and same type. So overwriting one by the other under that
      key never merges two different names. */
  lemma KeyIdentifiesRecord(r: CpeRecord, s: CpeRecord)
    requires Consistent(r) && Consistent(s)
    requires Coherent(Cpe(AttrsOf(r), r.cpeId)) && Coherent(Cpe(AttrsOf(s), s.cpeId))
    requires r.cpeId == s.cpeId
    ensures AttrsOf(r) == AttrsOf(s)
    ensures r == s
  {
    UriKeyIdentifiesName(AttrsOf(r), AttrsOf(s));
  }

  /** The four strings the `type` field can hold are distinct, so the stored
      string names the class the parser assigned. */
  lemma TypeNameIdentifiesType(t: CpeType, u: CpeType)
    ensures TypeName(t) == TypeName(u) <==> t == u
  {
  }
}
