/** The PascalCase label provider: for properties of configured container
    types it supplies a label made by splitting the property name into
    words, unless a non-empty label is already there. */
module PascalCaseLabels {
  import opened Metadata
  import opened Text

  /** Position `i` of `s` is a match of the provider's regular expression
      `(?<=.)([A-Z](?=[a-z])|(?<=[a-z0-9])[A-Z])`: there is a character
      before it other than a newline (`.`), `s[i]` is an ASCII capital, and
      either a lowercase letter follows it or a lowercase letter or digit
      precedes it. Each match is one character and the look-arounds read the
      unmodified input, so every such position is matched. */
  predicate PascalBoundary(s: string, i: int) {
    && 1 <= i < |s|
    && s[i - 1] != '\n'
    && IsAsciiUpper(s[i])
    && ((i + 1 < |s| && IsAsciiLower(s[i + 1])) || IsAsciiLower(s[i - 1]) || IsAsciiDigit(s[i - 1]))
  }

  /** The positions of `s` that the regular expression matches. */
  function PascalMarks(s: string): (b: seq<bool>)
    ensures |b| == |s|
  {
    seq(|s|, i requires 0 <= i < |s| => PascalBoundary(s, i))
  }

  /** The label the provider produces: blank names come back unchanged;
      otherwise each match is replaced by a space followed by itself. */
  function SplitPascalCase(sender: string): string {
    if IsBlank(sender) then sender else InsertSpaces(sender, PascalMarks(sender))
  }

  /** The blank-name guard changes nothing: a blank name has no capital, so
      the replacement alone already leaves it unchanged. */
  lemma {:induction false} SplitPascalCaseIsInsertion(s: string)
    ensures SplitPascalCase(s) == InsertSpaces(s, PascalMarks(s))
  {
    if IsBlank(s) {
      forall i | 0 <= i < |s| ensures !PascalMarks(s)[i] {
        assert IsWhiteSpace(s[i]);
      }
      InsertSpacesUnmarked(s, PascalMarks(s));
    }
  }

  /** Empty and whitespace-only names are returned as they are. */
  lemma SplitPascalCaseBlank(s: string)
    requires IsBlank(s)
    ensures SplitPascalCase(s) == s
  {
  }

  /** Every input character is copied in order, and exactly one space is
      inserted before each matched position: the output has one extra
      character per match, character `j` of the input sits after the `j`
      earlier characters and the matches up to `j`, preceded by a space when
      `j` is a match. */
  lemma SplitPascalCaseSpaces(s: string)
    ensures |SplitPascalCase(s)| == |s| + CountTrue(PascalMarks(s))
    ensures forall j :: 0 <= j < |s| ==> SpaceBefore(SplitPascalCase(s), s, PascalMarks(s), j)
  {
    var b := PascalMarks(s);
    SplitPascalCaseIsInsertion(s);
    InsertSpacesLength(s, b);
    forall j | 0 <= j < |s| ensures SpaceBefore(SplitPascalCase(s), s, b, j) {
      InsertSpacesAt(s, b, j);
    }
  }

  /** No leading space is ever added: the first character is kept first. */
  lemma SplitPascalCaseNoLeadingSpace(s: string)
    requires |s| > 0
    ensures |SplitPascalCase(s)| > 0 && SplitPascalCase(s)[0] == s[0]
  {
    SplitPascalCaseIsInsertion(s);
    InsertSpacesAt(s, PascalMarks(s), 0);
    assert PascalMarks(s)[..1] == [false];
  }

  /** Only spaces are added. */
  lemma SplitPascalCaseRemoveSpaces(s: string)
    ensures RemoveSpaces(SplitPascalCase(s)) == RemoveSpaces(s)
  {
    SplitPascalCaseIsInsertion(s);
    InsertSpacesRemoveSpaces(s, PascalMarks(s));
  }

  /** Deleting the space before each match gives back the name. */
  lemma SplitPascalCaseDeleteMarked(s: string)
    ensures DeleteMarked(SplitPascalCase(s), PascalMarks(s)) == s
  {
    SplitPascalCaseIsInsertion(s);
    DeleteMarkedInsertSpaces(s, PascalMarks(s));
  }

  /** A name with a single match gets a single space, in front of it. */
  lemma SplitPascalCaseSingleMatch(s: string, k: nat)
    requires k < |s|
    requires forall i :: 0 <= i < |s| ==> PascalBoundary(s, i) == (i == k)
    ensures SplitPascalCase(s) == s[..k] + " " + s[k..]
  {
    SplitPascalCaseIsInsertion(s);
    InsertSpacesSingle(s, PascalMarks(s), k);
  }

  lemma SplitPascalCaseFirstName()
    ensures SplitPascalCase("FirstName") == "First Name"
  {
    FirstNameBoundaries();
    SplitPascalCaseSingleMatch("FirstName", 5);
    FirstNameJoin();
  }

  lemma FirstNameBoundaries()
    ensures forall i :: 0 <= i < 9 ==> PascalBoundary("FirstName", i) == (i == 5)
  {
    var s := "FirstName";
    forall i | 0 <= i < |s| ensures PascalBoundary(s, i) == (i == 5) {}
  }

  lemma FirstNameJoin()
    ensures "FirstName"[..5] + " " + "FirstName"[5..] == "First Name"
  {
  }

  lemma SplitPascalCaseCapitalRun()
    ensures SplitPascalCase("HTTPServer") == "HTTP Server"
  {
    CapitalRunBoundaries();
    SplitPascalCaseSingleMatch("HTTPServer", 4);
    CapitalRunJoin();
  }

  lemma CapitalRunBoundaries()
    ensures forall i :: 0 <= i < 10 ==> PascalBoundary("HTTPServer", i) == (i == 4)
  {
    var s := "HTTPServer";
    forall i | 0 <= i < |s| ensures PascalBoundary(s, i) == (i == 4) {}
  }

  lemma CapitalRunJoin()
    ensures "HTTPServer"[..4] + " " + "HTTPServer"[4..] == "HTTP Server"
  {
  }

  /** The splitter is not idempotent: `.` in the look-behind also matches a
      space, so splitting "First Name" inserts a second space. */
  lemma SplitPascalCaseSpacedName()
    ensures SplitPascalCase("First Name") == "First  Name"
  {
    SpacedNameBoundaries();
    SplitPascalCaseSingleMatch("First Name", 6);
    SpacedNameJoin();
  }

  /** In "First Name" only the 'N' after the space is a boundary. */
  lemma SpacedNameBoundaries()
    ensures forall i :: 0 <= i < 10 ==> PascalBoundary("First Name", i) == (i == 6)
  {
    var s := "First Name";
    forall i | 0 <= i < |s| ensures PascalBoundary(s, i) == (i == 6) {}
  }

  lemma SpacedNameJoin()
    ensures "First Name"[..6] + " " + "First Name"[6..] == "First  Name"
  {
  }

  lemma SplitPascalCaseNotIdempotent()
    ensures SplitPascalCase(SplitPascalCase("FirstName")) != SplitPascalCase("FirstName")
  {
    SplitPascalCaseFirstName();
    SplitPascalCaseSpacedName();
    assert |"First  Name"| != |"First Name"|;
  }

  /** The provider's configuration: the target container types, whether
      types assignable to a target also count, and the runtime's
      `IsAssignableFrom` relation (`isAssignableFrom(t, c)`: a value of type
      `c` can be stored in a variable of type `t`). */
  datatype Scope = Scope(
    targetTypes: set<TypeTag>,
    includeDerivedTypes: bool,
    isAssignableFrom: (TypeTag, TypeTag) -> bool)

  ghost predicate Reflexive(rel: (TypeTag, TypeTag) -> bool) {
    forall t :: rel(t, t)
  }

  /** The container belongs to the configured scope. */
  predicate InScope(scope: Scope, container: TypeTag) {
    || container in scope.targetTypes
    || (scope.includeDerivedTypes && exists t :: t in scope.targetTypes && scope.isAssignableFrom(t, container))
  }

  /** A label delegate is present and yields a non-empty string. */
  predicate HasLabel(displayName: Option<string>) {
    displayName.Some? && displayName.value != ""
  }

  /** The effect of one call on the metadata record. */
  function Apply(scope: Scope, key: ModelMetadataIdentity, st: DisplayState): DisplayState {
    if key.metadataKind != Property then st
    else match key.containerType
      case None => st
      case Some(container) =>
        if !InScope(scope, container) || HasLabel(st.displayName) then st
        else st.(displayName := Some(SplitPascalCase(key.name.GetOr(""))))
  }

  /** Only the label is ever written. */
  lemma ApplyOnlySetsLabel(scope: Scope, key: ModelMetadataIdentity, st: DisplayState)
    ensures Apply(scope, key, st) == st.(displayName := Apply(scope, key, st).displayName)
  {
  }

  /** Keys that are not properties, or have no container type, are ignored. */
  lemma ApplyIgnoresNonProperties(scope: Scope, key: ModelMetadataIdentity, st: DisplayState)
    requires key.metadataKind != Property || key.containerType.None?
    ensures Apply(scope, key, st) == st
  {
  }

  /** A label is set only for a container in scope, and only when no
      non-empty label was there; the label set is the split property name,
      or the split empty string when the key has no name. */
  lemma ApplyLabelOnlyInScope(scope: Scope, key: ModelMetadataIdentity, st: DisplayState)
    requires Apply(scope, key, st) != st
    ensures key.metadataKind == Property && key.containerType.Some?
    ensures InScope(scope, key.containerType.value)
    ensures !HasLabel(st.displayName)
    ensures Apply(scope, key, st).displayName == Some(SplitPascalCase(key.name.GetOr("")))
  {
  }

  /** Conversely, a property of an in-scope container with no label, or
      with a label that yields "", gets the split name. */
  lemma ApplySetsLabel(scope: Scope, key: ModelMetadataIdentity, st: DisplayState)
    requires key.metadataKind == Property && key.containerType.Some?
    requires InScope(scope, key.containerType.value)
    requires st.displayName == None || st.displayName == Some("")
    ensures Apply(scope, key, st) == st.(displayName := Some(SplitPascalCase(key.name.GetOr(""))))
  {
  }

  /** An existing non-empty label is never overridden. */
  lemma ApplyKeepsExistingLabel(scope: Scope, key: ModelMetadataIdentity, st: DisplayState)
    requires HasLabel(st.displayName)
    ensures Apply(scope, key, st) == st
  {
  }

  /** With no target types no label is ever set. */
  lemma ApplyEmptyScope(scope: Scope, key: ModelMetadataIdentity, st: DisplayState)
    requires scope.targetTypes == {}
    ensures Apply(scope, key, st) == st
  {
  }

  /** Without `includeDerivedTypes` the scope is exact membership; with it,
      and a reflexive `IsAssignableFrom`, it is "some target is assignable
      from the container", of which exact membership is a special case. */
  lemma {:induction false} InScopeCharacterization(scope: Scope, container: TypeTag)
    requires Reflexive(scope.isAssignableFrom)
    ensures !scope.includeDerivedTypes ==> (InScope(scope, container) <==> container in scope.targetTypes)
    ensures scope.includeDerivedTypes ==>
      (InScope(scope, container) <==> exists t :: t in scope.targetTypes && scope.isAssignableFrom(t, container))
  {
    if scope.includeDerivedTypes && container in scope.targetTypes {
      assert scope.isAssignableFrom(container, container);
    }
  }

  /** A second call changes nothing: the label the first call set is either
      non-empty, and kept, or "", and replaced by the same "". */
  lemma ApplyIdempotent(scope: Scope, key: ModelMetadataIdentity, st: DisplayState)
    ensures Apply(scope, key, Apply(scope, key, st)) == Apply(scope, key, st)
  {
  }

  /** The configuration the sample web application registers: the single
      target type Person, derived types excluded. A property of an
      unlabelled member gets a label exactly when its container is Person. */
  lemma PersonConfiguration(isAssignableFrom: (TypeTag, TypeTag) -> bool, key: ModelMetadataIdentity, st: DisplayState)
    requires key.metadataKind == Property && key.containerType.Some?
    requires st.displayName == None
    ensures Apply(Scope({Named("Person")}, false, isAssignableFrom), key, st).displayName.Some?
        <==> key.containerType.value == Named("Person")
  {
  }

  /** The provider object: its target set and flag are fixed at construction. */
  class PascalCaseDisplayMetadataProvider {
    const targetTypes: set<TypeTag>
    const includeDerivedTypes: bool
    const isAssignableFrom: (TypeTag, TypeTag) -> bool

    /** The configuration as a value. */
    function Config(): Scope {
      Scope(targetTypes, includeDerivedTypes, isAssignableFrom)
    }

    constructor (targetTypes: seq<TypeTag>, includeDerivedTypes: bool, isAssignableFrom: (TypeTag, TypeTag) -> bool)
      ensures this.targetTypes == set t | t in targetTypes
      ensures this.includeDerivedTypes == includeDerivedTypes
      ensures this.isAssignableFrom == isAssignableFrom
    {
      this.targetTypes := set t | t in targetTypes;
      this.includeDerivedTypes := includeDerivedTypes;
      this.isAssignableFrom := isAssignableFrom;
    }

    /** Construction with the null check on the target collection. */
    static method Create(targetTypes: Option<seq<TypeTag>>, includeDerivedTypes: bool, isAssignableFrom: (TypeTag, TypeTag) -> bool)
      returns (r: Result<PascalCaseDisplayMetadataProvider>)
      ensures targetTypes.None? <==> r.Failure?
      ensures r.Failure? ==> r.error == ArgumentNullException("targetTypes")
      ensures r.Success? ==>
        && fresh(r.value)
        && r.value.targetTypes == (set t | t in targetTypes.value)
        && r.value.includeDerivedTypes == includeDerivedTypes
        && r.value.isAssignableFrom == isAssignableFrom
    {
      if targetTypes.None? {
        return Failure(ArgumentNullException("targetTypes"));
      }
      var provider := new PascalCaseDisplayMetadataProvider(targetTypes.value, includeDerivedTypes, isAssignableFrom);
      return Success(provider);
    }

    /** Fills in the label of `context`'s metadata record, or raises
        ArgumentNullException for a null context. */
    method CreateDisplayMetadata(context: DisplayMetadataProviderContext?) returns (status: Status)
      modifies if context == null then {} else {context.displayMetadata}
      ensures context == null <==> status == Threw(ArgumentNullException("context"))
      ensures context != null ==>
        && status == Completed
        && context.displayMetadata.State() == Apply(Config(), context.key, old(context.displayMetadata.State()))
    {
      if context == null {
        return Threw(ArgumentNullException("context"));
      }
      var key := context.key;
      var md := context.displayMetadata;
      status := Completed;
      if key.metadataKind != Property {
        return;
      }
      if key.containerType.None? {
        return;
      }
      var containerType := key.containerType.value;
      var matches := containerType in targetTypes
        || (includeDerivedTypes && exists t | t in targetTypes :: isAssignableFrom(t, containerType));
      if !matches {
        return;
      }
      var existing := md.displayName;
      if existing.Some? && existing.value != "" {
        return;
      }
      md.displayName := Some(SplitPascalCase(key.name.GetOr("")));
    }
  }
}
