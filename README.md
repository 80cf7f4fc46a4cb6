# FormDB Studio backend: FQLdt schema generation, validation and query explanation

FormDB Studio is a desktop front end for FormDB. Its Tauri backend
(`src-tauri/src/main.rs`) answers ten commands from the UI. This project
models the commands that hold logic:

- `generate_fqldt` turns a collection definition (a name and an ordered
  list of fields) into an FQLdt `CREATE COLLECTION` statement. It writes a
  header that always declares `id : UUID`, appends one
  `,\n  <name> : <type>` line per field in input order, and closes with
  `\n) WITH DEPENDENT_TYPES, PROVENANCE_TRACKING;`. The type of a field
  comes from a lookup on its `field_type`. Number fields with both bounds
  become `BoundedNat <min> <max>`, and other number fields become `Int`.
  Text fields become `NonEmptyString` when required and `Option String`
  otherwise. `confidence` becomes `Confidence`, `prompt_scores` becomes
  `PromptScores`, and anything else becomes `String`.
- `validate_fqldt` stands in for a type checker. It always answers
  "valid, no errors". It reports the `bounds_valid` proof exactly when
  the code contains the text `BoundedNat`.
- `explain_query` answers `EXPLAIN for <collection> with <n> filters`.

The project is organised as follows:

- `wrappers.dfy` defines Option and Result.
- `decimal.dfy` models Rust's `{}` formatting of integers (`Dec`) and the
  `i64` type, with a parser as its inverse.
- `substring.dfy` models `str::contains` (`Contains`), specified by
  `Occurs`, together with the facts about where a pattern can sit in
  joined text.
- `concat.dfy` concatenates one line per element, in order.
- `schema.dfy` holds the records, the type lookup, the generator's
  specification `Fqldt`, and the generator itself. `GenerateFqldt` is a
  loop that grows the text field by field, as the source does.
- `validation.dfy` holds the validator and what it reports for generated
  code.
- `query.dfy` holds the query records and `explain_query`, with a parser
  that reads the collection and the filter count back from the
  explanation.

The strongest result is `Validation.ValidateGenerated`. Validating
generated code reports `bounds_valid` if and only if (a) some field is a
number with both bounds, or (b) the collection name or a field name itself
contains `BoundedNat`. Case (b) holds because the placeholder validator
only searches the text. A field called `BoundedNatCount` of type `text`
therefore gets a `bounds_valid` proof. Every fixed piece of the statement
is free of the letter `B`, and every join in it has a space, comma or
newline on one side. So an occurrence of `BoundedNat` cannot straddle two
pieces.

## Model

| member | source | states |
|---|---|---|
| `Schema.TypeOf` | src-tauri/src/main.rs:203-221 | The lookup is total, and each case is an if-and-only-if. A field is `BoundedNat min max` exactly when its type is `number` and both bounds are present, carrying those bounds unchecked (no `min <= max`, no `min >= 0`). It is `Int` for a `number` missing either bound. It is `NonEmptyString` or `Option String` for `text`, as `required` says, ignoring bounds. `confidence` gives `Confidence`, `prompt_scores` gives `PromptScores`, and every other string gives `String`. |
| `Schema.TypeNameRoundTrip` | src-tauri/src/main.rs:204-220 | Every type name written into the code reads back as the same type, bounds included. So the rendering of types is unambiguous. |
| `Schema.TypeName` | src-tauri/src/main.rs:204-220 | Only a bounded number's type name starts with `BoundedNat `. No other type name (`Int`, `NonEmptyString`, `Option String`, `Confidence`, `PromptScores`, `String`) uses the letter `B` at all. `TypeNameRoundTrip` and `TypeNameMentions` state the rest. |
| `Schema.Header` | src-tauri/src/main.rs:197-200 | The header is 32 characters longer than the collection name. The name sits at a fixed place, so it can be read back, and the header ends with the `id : UUID` declaration. `Fqldt`'s prefix clause and `HeaderMentions` build on it. |
| `Schema.Trailer` | src-tauri/src/main.rs:226 | The closing text starts a new line and never uses the letter `B`. `Fqldt`'s suffix clause and `TrailerAvoidsMarker` build on it. |
| `Schema.FieldLine` | src-tauri/src/main.rs:223 | A field's line starts with the separating `,`. The field's name sits at a fixed place, and the line ends with the field's type name. Its length is the name plus the type name plus 7. `FieldLineMentions` and `JoinSnoc` build on it. |
| `Validation.TrailerAvoidsMarker` | src-tauri/src/main.rs:226 | The closing text never contains `BoundedNat`. |
| `Schema.FieldLines` | src-tauri/src/main.rs:202-224 | The field lines are empty exactly when there are no fields. Otherwise they start with the `,` that separates them from the `id` line. |
| `Schema.Fqldt` | src-tauri/src/main.rs:196-229 | Whatever the fields, the statement starts with `CREATE COLLECTION <name> (\n  id : UUID` and ends with `\n) WITH DEPENDENT_TYPES, PROVENANCE_TRACKING;`. With no fields it is exactly header then trailer. |
| `Schema.GenerateFqldt` | src-tauri/src/main.rs:196-229 | The loop never returns `Err`. It returns header, then field lines, then trailer (`Fqldt`). Its invariant is that the text built so far is the header followed by the lines of the fields already processed. |
| `Concat.JoinSnoc` | src-tauri/src/main.rs:223 | Appending one field appends exactly that field's line to the lines so far (the `push_str` step). |
| `Concat.JoinInOrder` | src-tauri/src/main.rs:202-224 | The line of field `i` comes after the lines of all earlier fields and before those of all later fields. So the lines are in input order. |
| `Decimal.Dec` | src-tauri/src/main.rs:206 | The decimal text of a bound is non-empty. It starts with `-` exactly for negative numbers, and every other character is a digit. |
| `Decimal.NatDigits` | src-tauri/src/main.rs:272 | The digits of a count are non-empty, all digits, and have a leading `0` only for zero. |
| `Decimal.DecRoundTrip` | src-tauri/src/main.rs:206 | Parsing the formatted bound gives the number back, so distinct bounds are written as distinct texts. |
| `Decimal.DecInjective` | src-tauri/src/main.rs:206 | Two bounds are written the same if and only if they are equal. |
| `Substring.Contains` | src-tauri/src/main.rs:236 | The search answers true if and only if the pattern occurs at some position of the text. |
| `Validation.ValidateFqldt` | src-tauri/src/main.rs:233-247 | The validator never fails, always reports valid with no errors, and reports `["bounds_valid"]` if and only if `BoundedNat` occurs in the code, `[]` otherwise. |
| `Validation.TypeNameMentions` | src-tauri/src/main.rs:203-221 | Of all type names, only `BoundedNat lo hi` contains `BoundedNat`. |
| `Validation.FieldLineMentions` | src-tauri/src/main.rs:223 | A field's line contains `BoundedNat` if and only if the field is a bounded number or its name contains `BoundedNat`. |
| `Validation.FieldLinesMentions` | src-tauri/src/main.rs:202-224 | The field lines contain `BoundedNat` if and only if some field's line does. |
| `Validation.HeaderMentions` | src-tauri/src/main.rs:197-200 | The header contains `BoundedNat` if and only if the collection name does. |
| `Validation.FqldtMentions` | src-tauri/src/main.rs:196-229 | The generated statement contains `BoundedNat` if and only if some field is a number with both bounds, or a collection or field name contains it. |
| `Validation.ValidateGenerated` | src-tauri/src/main.rs:196-247 | Validating generated code gives valid, no errors, and `["bounds_valid"]` exactly in the case above, `[]` otherwise. |
| `Validation.BoundedFieldValidates` | src-tauri/src/main.rs:204-246 | A collection with a `number` field that has both bounds always validates with `["bounds_valid"]`. |
| `Query.ExplainQuery` | src-tauri/src/main.rs:267-274 | Explaining a query never fails, and the text starts with `EXPLAIN for <collection>`. |
| `Query.ExplainRoundTrip` | src-tauri/src/main.rs:267-274 | Reading the explanation back gives exactly the query's collection and its number of filters, whatever the collection is called. The parser accepts only a decimal count without a leading zero, the form Rust writes. So the round trip fixes the text as exactly `EXPLAIN for <collection> with <count> filters`. |

## Left out

- `main` and the Tauri builder and handler registration (src-tauri/src/main.rs:363-384) are framework plumbing, so they are not modelled.
- The serde `Serialize`/`Deserialize` derives are library code, so they are not modelled.
- `insert_document` is not modelled. Its document id comes from `uuid::Uuid::new_v4()`, which is randomness from an external crate, and the rest of its result is constant.
- `execute_query`, `validate_document`, `discover_fds`, `apply_normalization`, `get_proof_obligations` and `apply_tactic` are not modelled. Each returns fixed values behind a TODO comment, so there is nothing to verify.
- The functional-dependency and normal-form types (src-tauri/src/main.rs:107-154) are declarations only. No discovery, classification or decomposition algorithm exists in the source to model, and `confidence` is an `f64`. The TODO comments at src-tauri/src/main.rs:316 and 337 present such an engine as planned. The code has none, and this model follows the code. The records used only by the placeholders (`QueryResult`, `QueryRow`, `DocumentWithProvenance`, `ProvenanceInfo`, `InsertResult`, `ProofObligation`, `ConstraintViolation`, `SuggestedFix`) are not modelled either.
- `QueryDef.limit` and `QueryDef.include_provenance` are carried in the model but are not used by `explain_query`.
- Strings are modelled as sequences of characters, not UTF-8 bytes. `str::contains` is modelled as the search for a sequence of characters, which gives the same answer on valid strings.
- `Query.ExplainQuery`: its own contract states only that the call succeeds and what the text starts with. The full format is stated by `Query.ExplainRoundTrip`.
- src/main.tsx is the React UI bootstrap (DOM access only), so it is not part of this model.
