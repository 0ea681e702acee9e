/** The DateOnly provider: DateOnly and DateOnly? properties are displayed
    and edited through the same format "{0:yyyy-MM-dd}". */
module DateOnlyFormat {
  import opened Metadata

  const IsoDateFormat := "{0:yyyy-MM-dd}"

  predicate IsDateOnly(t: TypeTag) {
    t == DateOnly || t == NullableDateOnly
  }

  /** The effect of one call on the metadata record. */
  function Apply(key: ModelMetadataIdentity, st: DisplayState): DisplayState {
    if IsDateOnly(key.modelType)
    then st.(displayFormatString := Some(IsoDateFormat), editFormatString := Some(IsoDateFormat))
    else st
  }

  /** DateOnly values get the ISO date format for display and for editing,
      so afterwards the two formats agree. */
  lemma ApplyFormatsDateOnly(key: ModelMetadataIdentity, st: DisplayState)
    requires key.modelType == DateOnly || key.modelType == NullableDateOnly
    ensures Apply(key, st).displayFormatString == Some("{0:yyyy-MM-dd}")
    ensures Apply(key, st).editFormatString == Some("{0:yyyy-MM-dd}")
    ensures Apply(key, st).displayFormatString == Apply(key, st).editFormatString
  {
  }

  /** Every other model type, DateTime included, is left alone. */
  lemma ApplyIgnoresOtherTypes(key: ModelMetadataIdentity, st: DisplayState)
    requires key.modelType != DateOnly && key.modelType != NullableDateOnly
    ensures Apply(key, st) == st
  {
  }

  /** The hint and the label are never written. */
  lemma ApplyOnlySetsFormats(key: ModelMetadataIdentity, st: DisplayState)
    ensures Apply(key, st).templateHint == st.templateHint
    ensures Apply(key, st).displayName == st.displayName
  {
  }

  /** A second call changes nothing. */
  lemma ApplyIdempotent(key: ModelMetadataIdentity, st: DisplayState)
    ensures Apply(key, Apply(key, st)) == Apply(key, st)
  {
  }

  /** Sets the display and edit formats of `context`'s metadata record, or
      raises ArgumentNullException for a null context. */
  method CreateDisplayMetadata(context: DisplayMetadataProviderContext?) returns (status: Status)
    modifies if context == null then {} else {context.displayMetadata}
    ensures context == null <==> status == Threw(ArgumentNullException("context"))
    ensures context != null ==>
      && status == Completed
      && context.displayMetadata.State() == Apply(context.key, old(context.displayMetadata.State()))
  {
    if context == null {
      return Threw(ArgumentNullException("context"));
    }
    status := Completed;
    if context.key.modelType != DateOnly && context.key.modelType != NullableDateOnly {
      return;
    }
    context.displayMetadata.displayFormatString := Some(IsoDateFormat);
    context.displayMetadata.editFormatString := Some(IsoDateFormat);
  }
}
