/** The DateTime provider: DateTime and DateTime? properties are displayed
    through the format "{0:yyyy-MM-dd}"; their edit format is not set. */
module DateTimeFormat {
  import opened Metadata

  const IsoDateFormat := "{0:yyyy-MM-dd}"

  predicate IsDateTime(t: TypeTag) {
    t == DateTime || t == NullableDateTime
  }

  /** The effect of one call on the metadata record. */
  function Apply(key: ModelMetadataIdentity, st: DisplayState): DisplayState {
    if IsDateTime(key.modelType) then st.(displayFormatString := Some(IsoDateFormat)) else st
  }

  /** DateTime values get the ISO date display format, replacing any
      earlier one. */
  lemma ApplyFormatsDateTime(key: ModelMetadataIdentity, st: DisplayState)
    requires key.modelType == DateTime || key.modelType == NullableDateTime
    ensures Apply(key, st).displayFormatString == Some("{0:yyyy-MM-dd}")
  {
  }

  /** Every other model type, DateOnly and bool included, is left alone. */
  lemma ApplyIgnoresOtherTypes(key: ModelMetadataIdentity, st: DisplayState)
    requires key.modelType != DateTime && key.modelType != NullableDateTime
    ensures Apply(key, st) == st
  {
  }

  /** Unlike the DateOnly provider, the edit format is never written, and
      neither are the hint and the label. */
  lemma ApplyOnlySetsDisplayFormat(key: ModelMetadataIdentity, st: DisplayState)
    ensures Apply(key, st).editFormatString == st.editFormatString
    ensures Apply(key, st).templateHint == st.templateHint
    ensures Apply(key, st).displayName == st.displayName
  {
  }

  /** A second call changes nothing. */
  lemma ApplyIdempotent(key: ModelMetadataIdentity, st: DisplayState)
    ensures Apply(key, Apply(key, st)) == Apply(key, st)
  {
  }

  /** Sets the display format of `context`'s metadata record; there is no
      null check, so a null context raises NullReferenceException. */
  method CreateDisplayMetadata(context: DisplayMetadataProviderContext?) returns (status: Status)
    modifies if context == null then {} else {context.displayMetadata}
    ensures context == null <==> status == Threw(NullReferenceException)
    ensures context != null ==>
      && status == Completed
      && context.displayMetadata.State() == Apply(context.key, old(context.displayMetadata.State()))
  {
    if context == null {
      return Threw(NullReferenceException);
    }
    status := Completed;
    if context.key.modelType != DateTime && context.key.modelType != NullableDateTime {
      return;
    }
    context.displayMetadata.displayFormatString := Some(IsoDateFormat);
  }
}
