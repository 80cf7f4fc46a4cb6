/** `validate_fqldt`, the placeholder validator, and what it reports for the
    code the generator produces. The validator does not type-check: it
    reports the `bounds_valid` proof exactly when the text mentions
    `BoundedNat`, which the generator writes only for a number field with
    both bounds, but which a collection or field name can also spell out. */
module Validation {
  import opened Wrappers
  import opened Substring
  import opened Schema

  /** The type name whose presence the validator looks for. */
  const Marker: string := "BoundedNat"

  /** `validate_fqldt`: always valid and error-free; the `bounds_valid` proof
      is reported if and only if `BoundedNat` occurs somewhere in the code. */
  function ValidateFqldt(code: string): (r: Result<ValidationResult, string>)
    ensures r.Ok? && r.value.valid && r.value.errors == []
    ensures Occurs(code, Marker) ==> r.value.proofsGenerated == ["bounds_valid"]
    ensures !Occurs(code, Marker) ==> r.value.proofsGenerated == []
  {
    var proofs := if Contains(code, Marker) then ["bounds_valid"] else [];
    Ok(ValidationResult(true, [], proofs))
  }

  /** A field whose line mentions `BoundedNat`: through its type, or its name. */
  ghost predicate Mentions(f: FieldDef) {
    TypeOf(f).BoundedNat? || Occurs(f.name, Marker)
  }

  /** Some field of the collection is a number with both bounds. */
  ghost predicate HasBoundedNumber(c: CollectionDef) {
    exists i :: 0 <= i < |c.fields| && TypeOf(c.fields[i]).BoundedNat?
  }

  /** The collection's name or one of its field names spells `BoundedNat`. */
  ghost predicate NameMentions(c: CollectionDef) {
    Occurs(c.name, Marker) || exists i :: 0 <= i < |c.fields| && Occurs(c.fields[i].name, Marker)
  }

  /** Of all type names, only a bounded number's mentions `BoundedNat`. */
  lemma TypeNameMentions(t: FqlType)
    ensures Occurs(TypeName(t), Marker) <==> t.BoundedNat?
  {
    if t.BoundedNat? {
      assert TypeName(t)[..10] == Marker;
      AtStart(TypeName(t), Marker);
    } else {
      assert Marker[0] == 'B';
      AbsentHead(TypeName(t), Marker);
    }
  }

  lemma FieldLineMentions(f: FieldDef)
    ensures Occurs(FieldLine(f), Marker) <==> Mentions(f)
  {
    var lead, sep, t := ",\n  ", " : ", TypeName(TypeOf(f));
    assert Marker[0] == 'B';
    AbsentHead(lead, Marker);
    AbsentHead(sep, Marker);
    OccursJoin(lead, f.name, Marker);
    OccursJoin(lead + f.name, sep, Marker);
    OccursJoin(lead + f.name + sep, t, Marker);
    TypeNameMentions(TypeOf(f));
  }

  lemma {:induction false} FieldLinesMentions(fs: seq<FieldDef>)
    ensures Occurs(FieldLines(fs), Marker) <==> exists i :: 0 <= i < |fs| && Mentions(fs[i])
  {
    if fs != [] {
      var first, rest := FieldLine(fs[0]), FieldLines(fs[1..]);
      assert FieldLines(fs) == first + rest;
      FieldLineMentions(fs[0]);
      FieldLinesMentions(fs[1..]);
      if fs[1..] == [] {
        assert first + rest == first;
      } else {
        OccursJoin(first, rest, Marker);
      }
      SomeMentionsCons(fs);
    }
  }

  /** Some field mentions `BoundedNat` exactly when the first one does or
      some later one does. */
  lemma SomeMentionsCons(fs: seq<FieldDef>)
    requires fs != []
    ensures (exists i :: 0 <= i < |fs| && Mentions(fs[i])) <==>
            Mentions(fs[0]) || exists j :: 0 <= j < |fs[1..]| && Mentions(fs[1..][j])
  {
    if i :| 0 <= i < |fs| && Mentions(fs[i]) {
      if i > 0 {
        assert Mentions(fs[1..][i - 1]);
      }
    }
    if j :| 0 <= j < |fs[1..]| && Mentions(fs[1..][j]) {
      assert Mentions(fs[j + 1]);
    }
  }

  // The fixed texts of the statement do not use the letter B, so none of
  // them mentions `BoundedNat`. Each is shown in pieces short enough for
  // the solver to scan.

  lemma CreateAvoidsMarker()
    ensures !Occurs("CREATE COLLECTION ", Marker)
  {
    assert 'B' !in "CREATE ";
    assert 'B' !in "COLLECTION ";
    assert "CREATE " + "COLLECTION " == "CREATE COLLECTION ";
    AbsentHead("CREATE COLLECTION ", Marker);
  }

  lemma OpenAvoidsMarker()
    ensures !Occurs(" (\n  id : UUID", Marker)
  {
    AbsentHead(" (\n  id : UUID", Marker);
  }

  lemma TrailerAvoidsMarker()
    ensures !Occurs(Trailer(), Marker)
  {
    assert Marker[0] == 'B';
    AbsentHead(Trailer(), Marker);
  }

  lemma HeaderMentions(name: string)
    ensures Occurs(Header(name), Marker) <==> Occurs(name, Marker)
  {
    var create, open := "CREATE COLLECTION ", " (\n  id : UUID";
    CreateAvoidsMarker();
    OpenAvoidsMarker();
    OccursJoin(create, name, Marker);
    OccursJoin(create + name, open, Marker);
  }

  /** The generated statement mentions `BoundedNat` exactly when a field is
      a bounded number or a name spells it out. */
  lemma FqldtMentions(c: CollectionDef)
    ensures Occurs(Fqldt(c), Marker) <==> HasBoundedNumber(c) || NameMentions(c)
  {
    var header, lines := Header(c.name), FieldLines(c.fields);
    HeaderMentions(c.name);
    if lines == [] {
      assert header + lines == header;
    } else {
      OccursJoin(header, lines, Marker);
    }
    TrailerAvoidsMarker();
    OccursJoin(header + lines, Trailer(), Marker);
    FieldLinesMentions(c.fields);
    MentionsSplit(c.fields);
  }

  lemma MentionsSplit(fs: seq<FieldDef>)
    ensures (exists i :: 0 <= i < |fs| && Mentions(fs[i])) <==>
      (exists i :: 0 <= i < |fs| && TypeOf(fs[i]).BoundedNat?) ||
      (exists i :: 0 <= i < |fs| && Occurs(fs[i].name, Marker))
  {
  }

  /** Validating generated code reports `bounds_valid` exactly when some
      field is a number with both bounds, or a name spells `BoundedNat`;
      it is always valid with no errors. */
  lemma ValidateGenerated(c: CollectionDef)
    ensures ValidateFqldt(Fqldt(c))
         == Ok(ValidationResult(true, [], if HasBoundedNumber(c) || NameMentions(c) then ["bounds_valid"] else []))
  {
    FqldtMentions(c);
  }

  /** A collection with a number field that has both bounds always
      validates with the `bounds_valid` proof. */
  lemma BoundedFieldValidates(c: CollectionDef, i: nat)
    requires i < |c.fields|
    requires c.fields[i].fieldType == "number" && c.fields[i].min.Some? && c.fields[i].max.Some?
    ensures ValidateFqldt(Fqldt(c)).value.proofsGenerated == ["bounds_valid"]
  {
    assert TypeOf(c.fields[i]).BoundedNat?;
    ValidateGenerated(c);
  }
}
