# Display-metadata providers of AspCoreHelperLibrary, in Dafny

This project models the display-metadata providers of `AspCoreHelperLibrary`.
An ASP.NET Core host calls each provider once for every model element. The
host passes the element's static description, the *metadata key* (kind,
model type, container type, name, reflected property). The provider may then
fill in fields of a mutable display-metadata record that the host owns: the
display format, the edit format, the template hint and the label delegate.

- **PascalCase label provider**. It is configured with a set of target
  container types and an `includeDerivedTypes` flag. It gives each property of
  an in-scope container the property name split into words. It never replaces a
  label that yields a non-empty string. Its splitter is the regular expression
  `(?<=.)([A-Z](?=[a-z])|(?<=[a-z0-9])[A-Z])`.
- **UI-hint provider**. A name ending in "Id" gets the hint `Hidden`.
  Otherwise a name containing "Email" gets the hint `Email`. Otherwise the
  property gets a label if it has none. This label comes from a second splitter,
  `([a-z])([A-Z])`, which differs from the first: "HTTPServer" stays
  "HTTPServer" here, but the PascalCase provider turns it into "HTTP Server".
- **Type-based format providers**. `bool`/`bool?` get the display format
  `{0:Yes;Yes;No}`. `DateTime`/`DateTime?` get the display format
  `{0:yyyy-MM-dd}`. `DateOnly`/`DateOnly?` get that same format as both display
  and edit format.

## Layout

- `metadata.dfy` (module `Metadata`): the type tags, the metadata key, the
  class `DisplayMetadata` with its four fields, the provider context, and the
  exceptions.
- `text.dfy` (module `Text`): character classes, ASCII ordinal-ignore-case
  comparison, and `InsertSpaces(s, marks)`, the rewrite both splitters share.
  Its inverse is `DeleteMarked`, and the module also proves the generic facts
  about it: the length, where each character lands, and that only spaces are
  added.
- `pascal_case.dfy` (module `PascalCaseLabels`): the PascalCase splitter as a
  per-position match predicate, the scope filter, and the class
  `PascalCaseDisplayMetadataProvider`.
- `ui_hints.dfy` (module `UiHints`): the second splitter, written as the
  regex engine's left-to-right scan, and the naming conventions.
- `boolean_format.dfy`, `date_time_format.dfy`, `date_only_format.dfy`: the
  three type-based providers.

All five providers have the same shape. `CreateDisplayMetadata` is a method
that assigns the fields of the host's `DisplayMetadata` object, with the same
early returns as the C#. Its postcondition gives the status (normal completion,
or the exception a null context raises). It also equates the new
`State()` of the record with `Apply(key, old(State()))`, where `Apply` is that
provider's decision function. The lemmas about `Apply` state what the
provider promises, for example which fields it writes, when it writes them,
and that applying it twice gives the same result as once.

The PascalCase splitter is specified per position. `PascalBoundary(s, i)`
holds when `i >= 1`, `s[i-1]` is not a newline, `s[i]` is in `A-Z`, and either
`s[i+1]` is in `a-z` or `s[i-1]` is in `a-z0-9`. Every match is a single
character and the look-arounds read the unmodified input, so replacing each
match `m` with `" " + m` is the same as inserting one space before each such
position. The UI-hint splitter's matches consume two characters. It is
written as the scan the regex engine performs, and the lemma
`UiHints.SplitPascalCaseIsInsertion` proves that this scan inserts exactly one
space before every lowercase-to-uppercase step.

## Model

| member | source | states |
|---|---|---|
| `PascalCaseLabels.PascalCaseDisplayMetadataProvider.constructor` | AspCoreHelperLibrary/PascalCaseDisplayMetadataProvider.cs:38-39 | the target collection is stored as the set of its elements, and the flag as given |
| `PascalCaseLabels.PascalCaseDisplayMetadataProvider.Create` | AspCoreHelperLibrary/PascalCaseDisplayMetadataProvider.cs:34-40 | a null target collection fails with ArgumentNullException("targetTypes"); otherwise a fresh provider holding the set of the targets and the flag |
| `PascalCaseLabels.PascalCaseDisplayMetadataProvider.CreateDisplayMetadata` | AspCoreHelperLibrary/PascalCaseDisplayMetadataProvider.cs:57-89 | a null context raises ArgumentNullException("context"); otherwise the record becomes `Apply` of the provider's scope, the key and the old record |
| `PascalCaseLabels.InScope` | AspCoreHelperLibrary/PascalCaseDisplayMetadataProvider.cs:74-75 | the `matches` test: the container is one of the targets, or the flag is set and some target is assignable from the container |
| `PascalCaseLabels.Apply` | AspCoreHelperLibrary/PascalCaseDisplayMetadataProvider.cs:62-88 | the record after one call: unchanged for a non-property key, a key without a container, an out-of-scope container or a label yielding a non-empty string; otherwise the label becomes `SplitPascalCase` of the name, or of "" when the name is missing |
| `PascalCaseLabels.ApplyIgnoresNonProperties` | AspCoreHelperLibrary/PascalCaseDisplayMetadataProvider.cs:62-72 | a key that is not a property, or has no container type, leaves the record unchanged |
| `PascalCaseLabels.ApplyLabelOnlyInScope` | AspCoreHelperLibrary/PascalCaseDisplayMetadataProvider.cs:62-88 | if anything changes, the key is a property whose container is in scope, no non-empty label was present, and the new label is the split name, or the split "" when the key has no name |
| `PascalCaseLabels.ApplySetsLabel` | AspCoreHelperLibrary/PascalCaseDisplayMetadataProvider.cs:82-88 | conversely, a property of an in-scope container whose label is missing or yields "" gets the split name, and nothing else changes |
| `PascalCaseLabels.ApplyKeepsExistingLabel` | AspCoreHelperLibrary/PascalCaseDisplayMetadataProvider.cs:82-86 | a label that yields a non-empty string is never overridden |
| `PascalCaseLabels.ApplyEmptyScope` | AspCoreHelperLibrary/PascalCaseDisplayMetadataProvider.cs:74-80 | with an empty target set no label is ever set |
| `PascalCaseLabels.InScopeCharacterization` | AspCoreHelperLibrary/PascalCaseDisplayMetadataProvider.cs:74-75 | without the flag the scope is exact set membership; with the flag, and a reflexive IsAssignableFrom, it is "some target is assignable from the container" |
| `PascalCaseLabels.ApplyOnlySetsLabel` | AspCoreHelperLibrary/PascalCaseDisplayMetadataProvider.cs:88 | display format, edit format and template hint are never written |
| `PascalCaseLabels.ApplyIdempotent` | AspCoreHelperLibrary/PascalCaseDisplayMetadataProvider.cs:82-88 | a second call leaves the record as the first call left it |
| `PascalCaseLabels.PersonConfiguration` | FluentWebApplication/Program.cs:31-33 | with the sample configuration (only Person, derived types excluded), an unlabelled property gets a label exactly when its container is Person |
| `PascalCaseLabels.PascalBoundary` | AspCoreHelperLibrary/PascalCaseDisplayMetadataProvider.cs:94 | the positions the expression matches: not the first character, not after a newline, an ASCII capital followed by a lowercase letter or preceded by a lowercase letter or digit |
| `PascalCaseLabels.SplitPascalCase` | AspCoreHelperLibrary/PascalCaseDisplayMetadataProvider.cs:91-92 | a blank name is returned as given; otherwise one space goes before every position where `PascalBoundary` holds |
| `PascalCaseLabels.SplitPascalCaseIsInsertion` | AspCoreHelperLibrary/PascalCaseDisplayMetadataProvider.cs:91-94 | the split equals "insert one space before every match" on every input; the blank-name guard makes no difference |
| `PascalCaseLabels.SplitPascalCaseBlank` | AspCoreHelperLibrary/PascalCaseDisplayMetadataProvider.cs:92 | empty and whitespace-only names are returned unchanged |
| `PascalCaseLabels.SplitPascalCaseSpaces` | AspCoreHelperLibrary/PascalCaseDisplayMetadataProvider.cs:94 | the output is one character longer per match; every input character appears in order, shifted by the matches up to it, with a space right before each match |
| `PascalCaseLabels.SplitPascalCaseNoLeadingSpace` | AspCoreHelperLibrary/PascalCaseDisplayMetadataProvider.cs:94 | the first character of a non-empty name stays first, so no leading space is added |
| `PascalCaseLabels.SplitPascalCaseRemoveSpaces` | AspCoreHelperLibrary/PascalCaseDisplayMetadataProvider.cs:92-94 | removing all spaces from the output gives the input with all spaces removed |
| `PascalCaseLabels.SplitPascalCaseDeleteMarked` | AspCoreHelperLibrary/PascalCaseDisplayMetadataProvider.cs:92-94 | deleting the space before each match gives back the input |
| `PascalCaseLabels.SplitPascalCaseFirstName` | AspCoreHelperLibrary/PascalCaseDisplayMetadataProvider.cs:94 | "FirstName" becomes "First Name" |
| `PascalCaseLabels.SplitPascalCaseCapitalRun` | AspCoreHelperLibrary/PascalCaseDisplayMetadataProvider.cs:94 | "HTTPServer" becomes "HTTP Server" |
| `PascalCaseLabels.SplitPascalCaseSpacedName` | AspCoreHelperLibrary/PascalCaseDisplayMetadataProvider.cs:94 | "First Name" becomes "First  Name", because the look-behind `.` also matches a space |
| `PascalCaseLabels.SplitPascalCaseNotIdempotent` | AspCoreHelperLibrary/PascalCaseDisplayMetadataProvider.cs:94 | splitting "FirstName" twice differs from splitting it once |
| `UiHints.CreateDisplayMetadata` | AspCoreHelperLibrary/UiHintsMetadataProvider.cs:27-51 | a null context raises NullReferenceException; otherwise the record becomes `Apply` of the key and the old record |
| `UiHints.IsKeyName` | AspCoreHelperLibrary/UiHintsMetadataProvider.cs:35 | the name ends in "Id", ignoring ASCII case |
| `UiHints.IsEmailName` | AspCoreHelperLibrary/UiHintsMetadataProvider.cs:42-43 | the name equals "EmailAddress" or contains "Email", ignoring ASCII case |
| `UiHints.Apply` | AspCoreHelperLibrary/UiHintsMetadataProvider.cs:29-50 | the record after one call: unchanged without a `PropertyInfo`; hint "Hidden" for a key name; otherwise hint "Email" for an e-mail name; otherwise the label becomes `UiHints.SplitPascalCase` of the name when no label delegate is present |
| `UiHints.ApplyWithoutPropertyInfo` | AspCoreHelperLibrary/UiHintsMetadataProvider.cs:29-30 | without property information the record is unchanged |
| `UiHints.ApplyHidesKeys` | AspCoreHelperLibrary/UiHintsMetadataProvider.cs:35-39 | a name ending in "Id" (ignoring case) sets the hint to Hidden and changes nothing else |
| `UiHints.ApplyTagsEmails` | AspCoreHelperLibrary/UiHintsMetadataProvider.cs:42-47 | otherwise a name containing "Email" (ignoring case) sets the hint to Email and changes nothing else |
| `UiHints.EmailAddressContainsEmail` | AspCoreHelperLibrary/UiHintsMetadataProvider.cs:42-43 | the e-mail test holds exactly when the name contains "Email"; the equality with "EmailAddress" adds nothing |
| `UiHints.ApplyLabelsOthers` | AspCoreHelperLibrary/UiHintsMetadataProvider.cs:50 | otherwise the hint and formats are untouched, and the label becomes the split name only if there was no label delegate; one yielding "" is kept |
| `UiHints.ApplyKeepsFormats` | AspCoreHelperLibrary/UiHintsMetadataProvider.cs:27-51 | the display and edit formats are never written |
| `UiHints.ApplyIdempotent` | AspCoreHelperLibrary/UiHintsMetadataProvider.cs:34-50 | a second call leaves the record as the first call left it |
| `UiHints.EmailIdIsHidden` | AspCoreHelperLibrary/UiHintsMetadataProvider.cs:35-39 | "EmailId" is hidden, not tagged as an e-mail field |
| `UiHints.EmailAddressIsEmail` | AspCoreHelperLibrary/UiHintsMetadataProvider.cs:42-47 | "EmailAddress" is tagged as an e-mail field |
| `UiHints.SplitPascalCase` | AspCoreHelperLibrary/UiHintsMetadataProvider.cs:53-57 | the engine's left-to-right scan of `([a-z])([A-Z])` replaced by `$1 $2`: each match consumes two characters, gets a space between them, and the scan resumes after them |
| `UiHints.SplitPascalCaseIsInsertion` | AspCoreHelperLibrary/UiHintsMetadataProvider.cs:53-56 | the regex engine's left-to-right scan inserts one space before each lowercase-to-uppercase step and nothing else |
| `UiHints.SplitPascalCaseLength` | AspCoreHelperLibrary/UiHintsMetadataProvider.cs:54-56 | the output length is the input length plus the number of lowercase-to-uppercase steps |
| `UiHints.SplitPascalCaseSpaces` | AspCoreHelperLibrary/UiHintsMetadataProvider.cs:54-56 | every input character appears in order, with a space right before each step |
| `UiHints.SplitPascalCaseDeleteMarked` | AspCoreHelperLibrary/UiHintsMetadataProvider.cs:54-56 | deleting the inserted spaces gives back the input |
| `UiHints.SplitPascalCaseUnbroken` | AspCoreHelperLibrary/UiHintsMetadataProvider.cs:56 | a name without a lowercase-to-uppercase step is unchanged; digits and capital runs create no step |
| `UiHints.SplitPascalCaseBreaksAll` | AspCoreHelperLibrary/UiHintsMetadataProvider.cs:54-56 | the output has no lowercase-to-uppercase step left |
| `UiHints.SplitPascalCaseIdempotent` | AspCoreHelperLibrary/UiHintsMetadataProvider.cs:54-56 | splitting twice equals splitting once |
| `UiHints.SplitPascalCaseFirstName` | AspCoreHelperLibrary/UiHintsMetadataProvider.cs:56 | "FirstName" becomes "First Name" |
| `UiHints.SplitPascalCaseCapitalRun` | AspCoreHelperLibrary/UiHintsMetadataProvider.cs:56 | "HTTPServer" is unchanged |
| `UiHints.CamelBoundaryIsPascalBoundary` | AspCoreHelperLibrary/UiHintsMetadataProvider.cs:56 | every step this splitter breaks at is also a match of the PascalCase provider's expression |
| `UiHints.SplittersDiffer` | AspCoreHelperLibrary/UiHintsMetadataProvider.cs:56 | on "HTTPServer" the two splitters disagree: unchanged here, "HTTP Server" in the PascalCase provider |
| `BooleanFormat.CreateDisplayMetadata` | AspCoreHelperLibrary/BooleanDisplayMetadataProvider.cs:14-22 | a null context raises ArgumentNullException("context"); otherwise the record becomes `Apply` of the key and the old record |
| `BooleanFormat.Apply` | AspCoreHelperLibrary/BooleanDisplayMetadataProvider.cs:18-21 | the record after one call: bool and bool? get the display format "{0:Yes;Yes;No}", every other type leaves it unchanged |
| `BooleanFormat.ApplyFormatsBooleans` | AspCoreHelperLibrary/BooleanDisplayMetadataProvider.cs:18-21 | bool and bool? get the display format "{0:Yes;Yes;No}" |
| `BooleanFormat.ApplyIgnoresOtherTypes` | AspCoreHelperLibrary/BooleanDisplayMetadataProvider.cs:18-19 | every other model type leaves the record unchanged |
| `BooleanFormat.ApplyOnlySetsDisplayFormat` | AspCoreHelperLibrary/BooleanDisplayMetadataProvider.cs:21 | edit format, template hint and label are never written |
| `BooleanFormat.ApplyIdempotent` | AspCoreHelperLibrary/BooleanDisplayMetadataProvider.cs:21 | a second call leaves the record as the first call left it |
| `DateOnlyFormat.CreateDisplayMetadata` | AspCoreHelperLibrary/DateOnlyDisplayMetadataProvider.cs:14-27 | a null context raises ArgumentNullException("context"); otherwise the record becomes `Apply` of the key and the old record |
| `DateOnlyFormat.Apply` | AspCoreHelperLibrary/DateOnlyDisplayMetadataProvider.cs:19-26 | the record after one call: DateOnly and DateOnly? get "{0:yyyy-MM-dd}" as display and edit format, every other type leaves it unchanged |
| `DateOnlyFormat.ApplyFormatsDateOnly` | AspCoreHelperLibrary/DateOnlyDisplayMetadataProvider.cs:19-26 | DateOnly and DateOnly? get "{0:yyyy-MM-dd}" as both display and edit format, so the two agree |
| `DateOnlyFormat.ApplyIgnoresOtherTypes` | AspCoreHelperLibrary/DateOnlyDisplayMetadataProvider.cs:19-20 | every other model type, DateTime included, leaves the record unchanged |
| `DateOnlyFormat.ApplyOnlySetsFormats` | AspCoreHelperLibrary/DateOnlyDisplayMetadataProvider.cs:22-26 | template hint and label are never written |
| `DateOnlyFormat.ApplyIdempotent` | AspCoreHelperLibrary/DateOnlyDisplayMetadataProvider.cs:22-26 | a second call leaves the record as the first call left it |
| `DateTimeFormat.CreateDisplayMetadata` | AspCoreHelperLibrary/DateFormatMetadataProvider.cs:14-20 | a null context raises NullReferenceException (there is no null check); otherwise the record becomes `Apply` of the key and the old record |
| `DateTimeFormat.Apply` | AspCoreHelperLibrary/DateFormatMetadataProvider.cs:16-19 | the record after one call: DateTime and DateTime? get the display format "{0:yyyy-MM-dd}", every other type leaves it unchanged |
| `DateTimeFormat.ApplyFormatsDateTime` | AspCoreHelperLibrary/DateFormatMetadataProvider.cs:16-19 | DateTime and DateTime? get the display format "{0:yyyy-MM-dd}", replacing any earlier one |
| `DateTimeFormat.ApplyIgnoresOtherTypes` | AspCoreHelperLibrary/DateFormatMetadataProvider.cs:16-17 | every other model type, DateOnly and bool included, leaves the record unchanged |
| `DateTimeFormat.ApplyOnlySetsDisplayFormat` | AspCoreHelperLibrary/DateFormatMetadataProvider.cs:19 | the edit format is never written, unlike in the DateOnly provider, and neither are the hint and the label |
| `DateTimeFormat.ApplyIdempotent` | AspCoreHelperLibrary/DateFormatMetadataProvider.cs:19 | a second call leaves the record as the first call left it |

## Notes on the source

- The remarks on `CreateDisplayMetadata` in
  `AspCoreHelperLibrary/PascalCaseDisplayMetadataProvider.cs` (lines 53-55)
  say a custom display name is kept. The code still replaces a label delegate
  that yields "", because the gate at line 83 is `string.IsNullOrEmpty`
  (`ApplySetsLabel`). The UI-hint provider keeps any delegate that is present,
  even one yielding "" (`ApplyLabelsOthers`).
- The PascalCase splitter is not idempotent: "First Name" becomes
  "First  Name", because `.` in the look-behind also matches the space
  (`PascalCaseLabels.SplitPascalCaseSpacedName`,
  `PascalCaseLabels.SplitPascalCaseNotIdempotent`). The UI-hint splitter is
  idempotent (`UiHints.SplitPascalCaseIdempotent`).
- Only the PascalCase provider scopes its label by container type. The UI-hint
  provider labels every property that has a `PropertyInfo`, is neither a key
  nor an e-mail field, and has no label delegate yet.
- The two providers use different splitters, and they disagree on
  "HTTPServer" (`UiHints.SplittersDiffer`).

## Left out

- Host behaviour: caching of metadata, the order in which providers run, and
  the lazy invocation of the label delegate. Each provider is modelled in
  isolation, and the label is an optional string standing for the value the
  delegate yields.
- A label delegate that yields null. The model has no such state. In the C#,
  the PascalCase provider treats it like a missing label, and the UI-hint
  provider keeps it.
- `Type.IsAssignableFrom`. It is an abstract relation given to the provider
  when it is constructed (`isAssignableFrom`). Reflexivity is a hypothesis of
  `InScopeCharacterization`, not a property of the model.
- PascalCaseLabels.PascalCaseDisplayMetadataProvider.constructor and
  PascalCaseLabels.PascalCaseDisplayMetadataProvider.Create: a null element
  in `targetTypes` cannot be represented, because `TypeTag` has no null. In
  the C#, `new HashSet<Type>(targetTypes)` keeps the null. If
  `includeDerivedTypes` is true and the container is not itself in the set,
  the `Any(t => t.IsAssignableFrom(containerType))` test at line 75 then
  raises NullReferenceException when it reaches the null element before a
  match. Whether it does depends on the hash set's enumeration order, which
  the model does not fix.
- UTF-16 code units. C# strings are sequences of UTF-16 code units, while a
  Dafny `string` is a sequence of Unicode scalar values. Lone surrogates
  cannot be represented, and a character outside the Basic Multilingual Plane
  is one element instead of two. The splitting decisions are unaffected,
  because no surrogate is in `[A-Za-z0-9]` or equal to '\n'. The lengths
  stated by `PascalCaseLabels.SplitPascalCaseSpaces` and
  `UiHints.SplitPascalCaseLength` count scalar values, not `string.Length`
  units.
- The C# default `includeDerivedTypes = false`. Dafny has no default
  arguments, so callers pass the flag explicitly.
- Non-ASCII case folding in `OrdinalIgnoreCase`. `FoldAscii` folds only
  `A-Z`. The regex classes `[A-Z]`, `[a-z]` and `[0-9]` are ASCII in either case.
- What the composite format strings mean when rendered. They are literal
  strings here.
- Type tags other than bool, DateTime and DateOnly and their nullable forms.
  These are identified by name only.
- `WindowHelper.cs` (Win32 calls, OS process enumeration, console titles),
  `ClassScanner.cs` (file-system walk and regex scan of files), the web host
  wiring in `Program.cs`, and `PersonValidator.cs` (rules interpreted by
  FluentValidation). All of these are I/O or foreign code and are not part of
  this model.
