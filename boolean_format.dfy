/** The boolean provider: bool and bool? properties are displayed through
    the composite format "{0:Yes;Yes;No}". */
module BooleanFormat {
  import opened Metadata

  const YesNoFormat := "{0:Yes;Yes;No}"

  predicate IsBoolean(t: TypeTag) {
    t == Bool || t == NullableBool
  }

  /** The effect of one call on the metadata record. */
  function Apply(key: ModelMetadataIdentity, st: DisplayState): DisplayState {
    if IsBoolean(key.modelType) then st.(displayFormatString := Some(YesNoFormat)) else st
  }

  /** Booleans get the Yes/No display format, whatever was there before. */
  lemma ApplyFormatsBooleans(key: ModelMetadataIdentity, st: DisplayState)
    requires key.modelType == Bool || key.modelType == NullableBool
    ensures Apply(key, st).displayFormatString == Some("{0:Yes;Yes;No}")
  {
  }

  /** Every other model type is left alone. */
  lemma ApplyIgnoresOtherTypes(key: ModelMetadataIdentity, st: DisplayState)
    requires key.modelType != Bool && key.modelType != NullableBool
    ensures Apply(key, st) == st
  {
  }

  /** Only the display format is ever written. */
  lemma ApplyOnlySetsDisplayFormat(key: ModelMetadataIdentity, st: DisplayState)
    ensures Apply(key, st).editFormatString == st.editFormatString
    ensures Apply(key, st).templateHint == st.templateHint
    ensures Apply(key, st).displayName == st.displayName
  {
  }

  /** A second call changes nothing. */
  lemma ApplyIdempotent(key: ModelMetadataIdentity, st: DisplayState)
    ensures Apply(key, Apply(key, st)) == Apply(key, st)
  {
  }

  /** Sets the display format of `context`'s metadata record, or raises
      ArgumentNullException for a null context. */
  method CreateDisplayMetadata(context: DisplayMetadataProviderContext?) returns (status: Status)
    modifies if context == null then {} else {context.displayMetadata}
    ensures context == null <==> status == Threw(ArgumentNullException("context"))
    ensures context != null ==>
      && status == Completed
      && context.displayMetadata.State() == Apply(context.key, old(context.displayMetadata.State()))
  {
    if context == null {
      return Threw(ArgumentNullException("context"));
    }
    status := Completed;
    if context.key.modelType != Bool && context.key.modelType != NullableBool {
      return;
    }
    context.displayMetadata.displayFormatString := Some(YesNoFormat);
  }
}
