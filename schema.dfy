/** The schema side of the FormDB Studio backend: the field and collection
    records the UI sends, the FQLdt type each field gets, and the generator
    that turns a collection into a `CREATE COLLECTION` statement. */
module Schema {
  import opened Wrappers
  import opened Decimal
  import opened Concat

  /** One field of a collection as the visual schema builder describes it. */
  datatype FieldDef = FieldDef(
    name: string,
    fieldType: string,
    min: Option<I64>,
    max: Option<I64>,
    required: bool)

  datatype CollectionDef = CollectionDef(name: string, fields: seq<FieldDef>)

  /** What validating FQLdt code reports back to the UI. */
  datatype ValidationResult = ValidationResult(
    valid: bool,
    errors: seq<string>,
    proofsGenerated: seq<string>)

  /** The FQLdt types a field can be given. */
  datatype FqlType =
    | BoundedNat(lo: int, hi: int)
    | Int
    | NonEmptyString
    | OptionString
    | Confidence
    | PromptScores
    | String

  /** The FQLdt type of a field, looked up on its `fieldType`. Bounds refine
      only numbers and `required` only text; the lookup is total, and it
      checks neither `lo <= hi` nor `lo >= 0`. */
  function TypeOf(f: FieldDef): (t: FqlType)
    ensures t.BoundedNat? <==> f.fieldType == "number" && f.min.Some? && f.max.Some?
    ensures t.BoundedNat? ==> t.lo == f.min.value as int && t.hi == f.max.value as int
    ensures t == Int <==> f.fieldType == "number" && (f.min.None? || f.max.None?)
    ensures t == NonEmptyString <==> f.fieldType == "text" && f.required
    ensures t == OptionString <==> f.fieldType == "text" && !f.required
    ensures t == Confidence <==> f.fieldType == "confidence"
    ensures t == PromptScores <==> f.fieldType == "prompt_scores"
    ensures t == String <==> f.fieldType !in {"number", "text", "confidence", "prompt_scores"}
  {
    match f.fieldType
    case "number" =>
      if f.min.Some? && f.max.Some? then BoundedNat(f.min.value as int, f.max.value as int)
      else Int
    case "text" => if f.required then NonEmptyString else OptionString
    case "confidence" => Confidence
    case "prompt_scores" => PromptScores
    case _ => String
  }

  /** How an FQLdt type is written in the generated code. Only a bounded
      number's name starts with `BoundedNat `; no other name uses the
      letter B at all. */
  function TypeName(t: FqlType): (s: string)
    ensures t.BoundedNat? ==> "BoundedNat " <= s
    ensures !t.BoundedNat? ==> 'B' !in s
  {
    match t
    case BoundedNat(lo, hi) => "BoundedNat " + Dec(lo) + " " + Dec(hi)
    case Int => "Int"
    case NonEmptyString => "NonEmptyString"
    case OptionString => "Option String"
    case Confidence => "Confidence"
    case PromptScores => "PromptScores"
    case String => "String"
  }

  /** Reads a type name back: the partner of `TypeName`. */
  function ParseTypeName(s: string): Option<FqlType> {
    if s == "Int" then Some(Int)
    else if s == "NonEmptyString" then Some(NonEmptyString)
    else if s == "Option String" then Some(OptionString)
    else if s == "Confidence" then Some(Confidence)
    else if s == "PromptScores" then Some(PromptScores)
    else if s == "String" then Some(String)
    else if |s| >= 11 && s[..11] == "BoundedNat " then
      match SplitAtSpace(s[11..])
      case None => None
      case Some((a, b)) =>
        match (ParseDec(a), ParseDec(b))
        case (Some(lo), Some(hi)) => Some(BoundedNat(lo, hi))
        case _ => None
    else None
  }

  /** Splits a text at its first space. */
  function SplitAtSpace(s: string): (r: Option<(string, string)>)
    ensures r.Some? ==> ' ' !in r.value.0 && s == r.value.0 + " " + r.value.1
    ensures r.None? ==> ' ' !in s
  {
    if s == [] then None
    else if s[0] == ' ' then Some(([], s[1..]))
    else match SplitAtSpace(s[1..])
      case None => None
      case Some((a, b)) => Some(([s[0]] + a, b))
  }

  lemma {:induction false} SplitAtSpaceExact(a: string, b: string)
    requires ' ' !in a
    ensures SplitAtSpace(a + " " + b) == Some((a, b))
  {
    if a != [] {
      assert (a + " " + b)[1..] == a[1..] + " " + b;
      SplitAtSpaceExact(a[1..], b);
      assert [a[0]] + a[1..] == a;
    }
  }

  /** Every FQLdt type is written unambiguously: reading its name back gives
      the same type, bounds included. */
  lemma TypeNameRoundTrip(t: FqlType)
    ensures ParseTypeName(TypeName(t)) == Some(t)
  {
    if t.BoundedNat? {
      BoundedNameRoundTrip(t.lo, t.hi);
    } else {
      match t
      case Int =>
      case NonEmptyString =>
      case OptionString =>
      case Confidence =>
      case PromptScores =>
      case String =>
    }
  }

  lemma BoundedNameRoundTrip(lo: int, hi: int)
    ensures ParseTypeName(TypeName(BoundedNat(lo, hi))) == Some(BoundedNat(lo, hi))
  {
    var s := TypeName(BoundedNat(lo, hi));
    assert s[..11] == "BoundedNat ";
    assert s[11..] == Dec(lo) + " " + Dec(hi);
    assert ' ' !in Dec(lo);
    SplitAtSpaceExact(Dec(lo), Dec(hi));
    DecRoundTrip(lo);
    DecRoundTrip(hi);
  }

  /** The text every generated statement begins with: the collection's
      name at a fixed place, then the `id : UUID` declaration. */
  function Header(name: string): (s: string)
    ensures |s| == |name| + 32
    ensures s[18..18 + |name|] == name
    ensures s[|s| - 9..] == "id : UUID"
  {
    "CREATE COLLECTION " + name + " (\n  id : UUID"
  }

  /** The text every generated statement ends with, written in two halves
      short enough to inspect: it opens a new line and never uses the
      letter B. */
  function Trailer(): (s: string)
    ensures |s| > 0 && s[0] == '\n'
    ensures 'B' !in s
  {
    var front, back := "\n) WITH DEPENDENT_TYPES, ", "PROVENANCE_TRACKING;";
    assert 'B' !in front && 'B' !in back;
    front + back
  }

  lemma TrailerText()
    ensures Trailer() == "\n) WITH DEPENDENT_TYPES, PROVENANCE_TRACKING;"
  {
  }

  /** The declaration line of one field: a separating comma, the field's
      name at a fixed place, and its type name at the end. */
  function FieldLine(f: FieldDef): (s: string)
    ensures |s| == |f.name| + 7 + |TypeName(TypeOf(f))|
    ensures s[0] == ','
    ensures s[4..4 + |f.name|] == f.name
    ensures s[|s| - |TypeName(TypeOf(f))|..] == TypeName(TypeOf(f))
  {
    ",\n  " + f.name + " : " + TypeName(TypeOf(f))
  }

  /** The declaration lines of the fields, in input order. */
  function FieldLines(fs: seq<FieldDef>): (s: string)
    ensures fs == [] <==> s == []
    ensures fs != [] ==> s[0] == ','
  {
    Join(fs, FieldLine)
  }

  /** The FQLdt statement for a collection: header, one line per field in
      input order, trailer. It always declares `id : UUID` first. */
  function Fqldt(c: CollectionDef): (s: string)
    ensures Header(c.name) <= s
    ensures |s| >= |Trailer()| && s[|s| - |Trailer()|..] == Trailer()
    ensures c.fields == [] ==> s == Header(c.name) + Trailer()
  {
    Header(c.name) + FieldLines(c.fields) + Trailer()
  }

  /** `generate_fqldt`: writes the header, appends one line per field and
      closes with the trailer. It never fails. */
  method GenerateFqldt(collection: CollectionDef) returns (r: Result<string, string>)
    ensures r == Ok(Fqldt(collection))
  {
    var fields := collection.fields;
    var fql := "CREATE COLLECTION " + collection.name + " (\n  id : UUID";
    for i := 0 to |fields|
      invariant fql == Header(collection.name) + FieldLines(fields[..i])
    {
      var field := fields[i];
      var typeStr := TypeName(TypeOf(field));
      var line := ",\n  " + field.name + " : " + typeStr;
      assert line == FieldLine(field);
      JoinPrefix(fields, i, FieldLine);
      AppendAssoc(Header(collection.name), FieldLines(fields[..i]), line);
      fql := fql + line;
    }
    assert fields[..|fields|] == fields;
    TrailerText();
    fql := fql + "\n) WITH DEPENDENT_TYPES, PROVENANCE_TRACKING;";
    r := Ok(fql);
  }
}
