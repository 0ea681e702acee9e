/** The host-side vocabulary the display-metadata providers work on: type
    tokens, the metadata key of one model element, and the mutable display
    metadata record the host owns and the providers fill in. */
module Metadata {

  datatype Option<+T> = None | Some(value: T) {
    /** The value, or `default` when absent (C#'s `x ?? default`). */
    function GetOr(default: T): T {
      match this
      case Some(v) => v
      case None => default
    }
  }

  /** The exceptions the providers can raise. */
  datatype Exception =
    | ArgumentNullException(paramName: string)
    | NullReferenceException

  datatype Result<+T> = Success(value: T) | Failure(error: Exception)

  /** How a provider call ended: normally, or by raising an exception. */
  datatype Status = Completed | Threw(exception: Exception)

  /** The runtime type tokens the providers compare against: bool, DateTime
      and DateOnly with their nullable forms, and every other type by name. */
  datatype TypeTag =
    | Bool
    | NullableBool
    | DateTime
    | NullableDateTime
    | DateOnly
    | NullableDateOnly
    | Named(name: string)

  /** What a metadata key describes. */
  datatype ModelMetadataKind = Property | Type | Parameter | Constructor

  /** The reflected property a key describes; only its name is read. */
  datatype PropertyInfo = PropertyInfo(name: string)

  /** The static description of one model element. */
  datatype ModelMetadataIdentity = ModelMetadataIdentity(
    metadataKind: ModelMetadataKind,
    modelType: TypeTag,
    containerType: Option<TypeTag>,
    name: Option<string>,
    propertyInfo: Option<PropertyInfo>)

  /** A snapshot of the four display-metadata fields the providers set.
      `displayName` stands for the label delegate: `None` is a null
      delegate, `Some(v)` a delegate that yields `v`. */
  datatype DisplayState = DisplayState(
    displayFormatString: Option<string>,
    editFormatString: Option<string>,
    templateHint: Option<string>,
    displayName: Option<string>)

  /** The mutable display-metadata record the host owns. */
  class DisplayMetadata {
    var displayFormatString: Option<string>
    var editFormatString: Option<string>
    var templateHint: Option<string>
    var displayName: Option<string>

    /** The record's current field values. */
    function State(): DisplayState
      reads this
    {
      DisplayState(displayFormatString, editFormatString, templateHint, displayName)
    }

    constructor (init: DisplayState)
      ensures State() == init
    {
      displayFormatString := init.displayFormatString;
      editFormatString := init.editFormatString;
      templateHint := init.templateHint;
      displayName := init.displayName;
    }
  }

  /** What the host hands to a provider: the key and the record to fill in. */
  class DisplayMetadataProviderContext {
    const key: ModelMetadataIdentity
    const displayMetadata: DisplayMetadata

    constructor (key: ModelMetadataIdentity, displayMetadata: DisplayMetadata)
      ensures this.key == key && this.displayMetadata == displayMetadata
    {
      this.key := key;
      this.displayMetadata := displayMetadata;
    }
  }
}
