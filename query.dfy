/** The query side of the backend: the query records and `explain_query`,
    which describes a query by its collection and its number of filters. */
module Query {
  import opened Wrappers
  import opened Decimal

  datatype QueryFilter = QueryFilter(field: string, operator: string, value: string)

  datatype QueryDef = QueryDef(
    collection: string,
    filters: seq<QueryFilter>,
    limit: Option<I64>,
    includeProvenance: bool)

  /** `explain_query`: names the collection and counts the filters; it never
      fails. `ParseExplain` reads both back from the text. */
  function ExplainQuery(query: QueryDef): (r: Result<string, string>)
    ensures r.Ok?
    ensures "EXPLAIN for " + query.collection <= r.value
  {
    Ok("EXPLAIN for " + query.collection + " with " + Dec(|query.filters|) + " filters")
  }

  /** Position of the last space in `s`, if any. */
  function LastSpace(s: string): (r: Option<nat>)
    ensures r.Some? ==> r.value < |s| && s[r.value] == ' ' && ' ' !in s[r.value + 1..]
    ensures r.None? ==> ' ' !in s
  {
    if s == [] then None
    else if s[|s| - 1] == ' ' then Some(|s| - 1)
    else LastSpace(s[..|s| - 1])
  }

  /** Reads the collection and the filter count back from an explanation.
      The count must be written as Rust writes it: decimal digits, with no
      leading zero unless the count is zero. */
  function ParseExplain(s: string): Option<(string, nat)> {
    if |s| < 20 || s[..12] != "EXPLAIN for " || s[|s| - 8..] != " filters" then None
    else
      var middle := s[12..|s| - 8];
      match LastSpace(middle)
      case None => None
      case Some(k) =>
        var digits := middle[k + 1..];
        if k < 5 || middle[k - 5..k + 1] != " with " || digits == [] || !AllDigits(digits)
           || (|digits| > 1 && digits[0] == '0')
        then None
        else Some((middle[..k - 5], ParseNat(digits)))
  }

  lemma {:induction false} LastSpaceExact(a: string, b: string)
    requires ' ' !in b
    ensures LastSpace(a + " " + b) == Some(|a|)
  {
    var s := a + " " + b;
    if b != [] {
      assert s[..|s| - 1] == a + " " + b[..|b| - 1];
      LastSpaceExact(a, b[..|b| - 1]);
    }
  }

  lemma ExplainFrame(middle: string)
    ensures var s := "EXPLAIN for " + middle + " filters";
      |s| >= 20 && s[..12] == "EXPLAIN for " && s[|s| - 8..] == " filters" && s[12..|s| - 8] == middle
  {
  }

  lemma ExplainMiddle(collection: string, digits: string)
    requires ' ' !in digits
    ensures var middle := collection + " with " + digits;
      var k := |collection| + 5;
      LastSpace(middle) == Some(k) && middle[k - 5..k + 1] == " with " &&
      middle[k + 1..] == digits && middle[..k - 5] == collection
  {
    assert collection + " with " + digits == (collection + " with") + " " + digits;
    LastSpaceExact(collection + " with", digits);
  }

  /** The explanation determines the query's collection and filter count:
      parsing it gives both back, whatever the collection is called. */
  lemma ExplainRoundTrip(query: QueryDef)
    ensures ParseExplain(ExplainQuery(query).value) == Some((query.collection, |query.filters|))
  {
    var digits := Dec(|query.filters|);
    var middle := query.collection + " with " + digits;
    assert ExplainQuery(query).value == "EXPLAIN for " + middle + " filters";
    ExplainFrame(middle);
    assert ' ' !in digits;
    ExplainMiddle(query.collection, digits);
    ParseNatDigits(|query.filters|);
  }
}
