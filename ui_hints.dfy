/** The UI-hint provider: by name convention it hides key properties, tags
    e-mail properties, and otherwise supplies a label made by breaking the
    property name at every lowercase-to-uppercase step. */
module UiHints {
  import opened Metadata
  import opened Text
  import PascalCaseLabels

  /** The regular expression `([a-z])([A-Z])` replaced by `$1 $2`, as the
      engine runs it: scanning left to right, each match consumes both of its
      characters and the scan resumes after them. */
  function SplitPascalCase(name: string): string
    decreases |name|
  {
    if |name| < 2 then name
    else if IsAsciiLower(name[0]) && IsAsciiUpper(name[1]) then [name[0], ' ', name[1]] + SplitPascalCase(name[2..])
    else [name[0]] + SplitPascalCase(name[1..])
  }

  /** Position `i` of `s` is a lowercase-to-uppercase step. */
  predicate CamelBoundary(s: string, i: int) {
    1 <= i < |s| && IsAsciiLower(s[i - 1]) && IsAsciiUpper(s[i])
  }

  function CamelMarks(s: string): (b: seq<bool>)
    ensures |b| == |s|
  {
    seq(|s|, i requires 0 <= i < |s| => CamelBoundary(s, i))
  }

  predicate NoCamelBoundary(s: string) {
    forall i :: 0 <= i < |s| ==> !CamelBoundary(s, i)
  }

  /** The scan over the suffix starting at `i`, when `i` itself is not a
      step, inserts a space exactly before the steps of that suffix. */
  lemma {:induction false} SplitSuffixIsInsertion(s: string, i: nat)
    requires i <= |s| && !CamelBoundary(s, i)
    ensures SplitPascalCase(s[i..]) == InsertSpaces(s[i..], CamelMarks(s)[i..])
    decreases |s| - i
  {
    var t, m := s[i..], CamelMarks(s)[i..];
    if |t| == 0 {
    } else if |t| == 1 {
      assert t[1..] == [] && m[1..] == [];
    } else {
      assert t[1..] == s[i + 1..] && m[1..] == CamelMarks(s)[i + 1..];
      var t1, m1 := s[i + 1..], CamelMarks(s)[i + 1..];
      if IsAsciiLower(t[0]) && IsAsciiUpper(t[1]) {
        assert t[2..] == s[i + 2..] && t1[1..] == s[i + 2..] && m1[1..] == CamelMarks(s)[i + 2..];
        assert m1[0];
        SplitSuffixIsInsertion(s, i + 2);
        assert InsertSpaces(t1, m1) == [' ', t1[0]] + InsertSpaces(s[i + 2..], CamelMarks(s)[i + 2..]);
      } else {
        SplitSuffixIsInsertion(s, i + 1);
      }
    }
  }

  /** The left-to-right scan inserts one space before each
      lowercase-to-uppercase step and nothing else. */
  lemma SplitPascalCaseIsInsertion(s: string)
    ensures SplitPascalCase(s) == InsertSpaces(s, CamelMarks(s))
  {
    SplitSuffixIsInsertion(s, 0);
    assert s[0..] == s && CamelMarks(s)[0..] == CamelMarks(s);
  }

  /** The output is the input plus one character per step. */
  lemma SplitPascalCaseLength(s: string)
    ensures |SplitPascalCase(s)| == |s| + CountTrue(CamelMarks(s))
  {
    SplitPascalCaseIsInsertion(s);
    InsertSpacesLength(s, CamelMarks(s));
  }

  /** Every input character is copied in order, with a space before each
      lowercase-to-uppercase step. */
  lemma SplitPascalCaseSpaces(s: string)
    ensures forall j :: 0 <= j < |s| ==> SpaceBefore(SplitPascalCase(s), s, CamelMarks(s), j)
  {
    SplitPascalCaseIsInsertion(s);
    forall j | 0 <= j < |s| ensures SpaceBefore(SplitPascalCase(s), s, CamelMarks(s), j) {
      InsertSpacesAt(s, CamelMarks(s), j);
    }
  }

  /** Deleting the inserted spaces gives back the name. */
  lemma SplitPascalCaseDeleteMarked(s: string)
    ensures DeleteMarked(SplitPascalCase(s), CamelMarks(s)) == s
  {
    SplitPascalCaseIsInsertion(s);
    DeleteMarkedInsertSpaces(s, CamelMarks(s));
  }

  /** A name without a lowercase-to-uppercase step is left as it is; digits
      and runs of capitals create no step. */
  lemma SplitPascalCaseUnbroken(s: string)
    requires NoCamelBoundary(s)
    ensures SplitPascalCase(s) == s
  {
    SplitPascalCaseIsInsertion(s);
    InsertSpacesUnmarked(s, CamelMarks(s));
  }

  lemma {:induction false} SplitPascalCaseFirst(s: string)
    requires |s| > 0
    ensures |SplitPascalCase(s)| > 0 && SplitPascalCase(s)[0] == s[0]
  {
  }

  /** The output has no lowercase-to-uppercase step left. */
  lemma {:induction false} SplitPascalCaseBreaksAll(s: string)
    ensures NoCamelBoundary(SplitPascalCase(s))
    decreases |s|
  {
    var r := SplitPascalCase(s);
    if |s| < 2 {
    } else if IsAsciiLower(s[0]) && IsAsciiUpper(s[1]) {
      var rest := SplitPascalCase(s[2..]);
      SplitPascalCaseBreaksAll(s[2..]);
      assert r == [s[0], ' ', s[1]] + rest;
      forall i | 0 <= i < |r| ensures !CamelBoundary(r, i) {
        if i >= 4 {
          assert r[i - 1] == rest[i - 4] && r[i] == rest[i - 3];
          assert !CamelBoundary(rest, i - 3);
        }
      }
    } else {
      var rest := SplitPascalCase(s[1..]);
      SplitPascalCaseBreaksAll(s[1..]);
      SplitPascalCaseFirst(s[1..]);
      assert r == [s[0]] + rest;
      forall i | 0 <= i < |r| ensures !CamelBoundary(r, i) {
        if i >= 2 {
          assert r[i - 1] == rest[i - 2] && r[i] == rest[i - 1];
          assert !CamelBoundary(rest, i - 1);
        }
      }
    }
  }

  /** Splitting an already split name changes nothing. */
  lemma SplitPascalCaseIdempotent(s: string)
    ensures SplitPascalCase(SplitPascalCase(s)) == SplitPascalCase(s)
  {
    SplitPascalCaseBreaksAll(s);
    SplitPascalCaseUnbroken(SplitPascalCase(s));
  }

  lemma SplitPascalCaseFirstName()
    ensures SplitPascalCase("FirstName") == "First Name"
  {
    var s := "FirstName";
    SplitPascalCaseIsInsertion(s);
    forall i | 0 <= i < |s| ensures CamelMarks(s)[i] == (i == 5) {}
    InsertSpacesSingle(s, CamelMarks(s), 5);
    assert s[..5] + " " + s[5..] == "First Name";
  }

  /** A run of capitals is not broken up: "HTTPServer" has no
      lowercase-to-uppercase step. */
  lemma SplitPascalCaseCapitalRun()
    ensures SplitPascalCase("HTTPServer") == "HTTPServer"
  {
    var s := "HTTPServer";
    forall i | 0 <= i < |s| ensures !CamelBoundary(s, i) {}
    SplitPascalCaseUnbroken(s);
  }

  /** Every step this splitter breaks at is also a match of the PascalCase
      provider's expression; the converse fails on runs of capitals. */
  lemma CamelBoundaryIsPascalBoundary(s: string, i: int)
    requires CamelBoundary(s, i)
    ensures PascalCaseLabels.PascalBoundary(s, i)
  {
  }

  lemma SplittersDiffer()
    ensures SplitPascalCase("HTTPServer") == "HTTPServer"
    ensures PascalCaseLabels.SplitPascalCase("HTTPServer") == "HTTP Server"
  {
    SplitPascalCaseCapitalRun();
    PascalCaseLabels.SplitPascalCaseCapitalRun();
  }

  /** The name convention for key properties. */
  predicate IsKeyName(name: string) {
    EndsWithIgnoreCase(name, "Id")
  }

  /** The name convention for e-mail properties. */
  predicate IsEmailName(name: string) {
    EqualsIgnoreCase(name, "EmailAddress") || ContainsIgnoreCase(name, "Email")
  }

  /** The effect of one call on the metadata record. */
  function Apply(key: ModelMetadataIdentity, st: DisplayState): DisplayState {
    match key.propertyInfo
    case None => st
    case Some(prop) =>
      if IsKeyName(prop.name) then st.(templateHint := Some("Hidden"))
      else if IsEmailName(prop.name) then st.(templateHint := Some("Email"))
      else if st.displayName.None? then st.(displayName := Some(SplitPascalCase(prop.name)))
      else st
  }

  /** Without reflected property information nothing changes. */
  lemma ApplyWithoutPropertyInfo(key: ModelMetadataIdentity, st: DisplayState)
    requires key.propertyInfo.None?
    ensures Apply(key, st) == st
  {
  }

  /** A name ending in "Id", in any case, is hidden, whatever else it
      contains, and nothing else changes. */
  lemma ApplyHidesKeys(key: ModelMetadataIdentity, st: DisplayState)
    requires key.propertyInfo.Some? && EndsWithIgnoreCase(key.propertyInfo.value.name, "Id")
    ensures Apply(key, st) == st.(templateHint := Some("Hidden"))
  {
  }

  /** Otherwise a name containing "Email", in any case, is tagged as an
      e-mail field and its label is left alone. */
  lemma ApplyTagsEmails(key: ModelMetadataIdentity, st: DisplayState)
    requires key.propertyInfo.Some? && !EndsWithIgnoreCase(key.propertyInfo.value.name, "Id")
    requires ContainsIgnoreCase(key.propertyInfo.value.name, "Email")
    ensures Apply(key, st) == st.(templateHint := Some("Email"))
  {
  }

  /** The equality test against "EmailAddress" adds nothing to the
      containment test for "Email". */
  lemma EmailAddressContainsEmail(name: string)
    ensures IsEmailName(name) <==> ContainsIgnoreCase(name, "Email")
  {
    if EqualsIgnoreCase(name, "EmailAddress") {
      EqualsIgnoreCaseContainsPrefix(name, "EmailAddress", 5);
      assert "EmailAddress"[..5] == "Email";
    }
  }

  /** Otherwise the hint is untouched and the split name becomes the label
      only when there is no label delegate at all: a delegate yielding ""
      is kept. */
  lemma ApplyLabelsOthers(key: ModelMetadataIdentity, st: DisplayState)
    requires key.propertyInfo.Some?
    requires !EndsWithIgnoreCase(key.propertyInfo.value.name, "Id")
    requires !ContainsIgnoreCase(key.propertyInfo.value.name, "Email")
    ensures Apply(key, st).templateHint == st.templateHint
    ensures Apply(key, st).displayName ==
      if st.displayName.None? then Some(SplitPascalCase(key.propertyInfo.value.name)) else st.displayName
    ensures Apply(key, st).displayFormatString == st.displayFormatString
    ensures Apply(key, st).editFormatString == st.editFormatString
  {
    EmailAddressContainsEmail(key.propertyInfo.value.name);
  }

  /** The format strings are never written. */
  lemma ApplyKeepsFormats(key: ModelMetadataIdentity, st: DisplayState)
    ensures Apply(key, st).displayFormatString == st.displayFormatString
    ensures Apply(key, st).editFormatString == st.editFormatString
  {
  }

  /** A second call changes nothing. */
  lemma ApplyIdempotent(key: ModelMetadataIdentity, st: DisplayState)
    ensures Apply(key, Apply(key, st)) == Apply(key, st)
  {
  }

  /** "EmailId" ends in "Id", which is tested first, so it is hidden rather
      than tagged as an e-mail field. */
  lemma EmailIdIsHidden(key: ModelMetadataIdentity, st: DisplayState)
    requires key.propertyInfo == Some(PropertyInfo("EmailId"))
    ensures Apply(key, st).templateHint == Some("Hidden")
  {
    var s := "EmailId";
    assert s[|s| - 2..] == "Id";
  }

  lemma EmailAddressIsEmail(key: ModelMetadataIdentity, st: DisplayState)
    requires key.propertyInfo == Some(PropertyInfo("EmailAddress"))
    ensures Apply(key, st).templateHint == Some("Email")
  {
    var s := "EmailAddress";
    assert s[|s| - 2..] == "ss";
    assert !EndsWithIgnoreCase(s, "Id") by {
      assert FoldAscii(s[|s| - 2..][0]) != FoldAscii("Id"[0]);
    }
    assert s[0..5] == "Email";
    assert MatchesAt(s, "Email", 0);
  }

  /** Fills in the hint or label of `context`'s metadata record; a null
      context is dereferenced and raises NullReferenceException. */
  method CreateDisplayMetadata(context: DisplayMetadataProviderContext?) returns (status: Status)
    modifies if context == null then {} else {context.displayMetadata}
    ensures context == null <==> status == Threw(NullReferenceException)
    ensures context != null ==>
      && status == Completed
      && context.displayMetadata.State() == Apply(context.key, old(context.displayMetadata.State()))
  {
    if context == null {
      return Threw(NullReferenceException);
    }
    status := Completed;
    var prop := context.key.propertyInfo;
    if prop.None? {
      return;
    }
    var md := context.displayMetadata;
    if EndsWithIgnoreCase(prop.value.name, "Id") {
      md.templateHint := Some("Hidden");
      return;
    }
    if EqualsIgnoreCase(prop.value.name, "EmailAddress") || ContainsIgnoreCase(prop.value.name, "Email") {
      md.templateHint := Some("Email");
      return;
    }
    if md.displayName.None? {
      md.displayName := Some(SplitPascalCase(prop.value.name));
    }
  }
}
