/**
 * The editor component: its state (the uploaded file, upload errors, the
 * cropper flag and the vision service configuration), the handlers that
 * change it, and the pure rules the toolbar and error bar derive from it.
 */
module ProfilePhotoEditor {
  import opened Wrappers
  import AnalysisDialog

  /** A file accepted by the upload area; only its base64 source is used. */
  datatype UploadedFile = UploadedFile(name: string, base64: string)

  /** An upload error; only its `type` is read. */
  datatype UploadError = UploadError(errorType: string)

  /** The localised labels the component chooses between. */
  datatype Label =
    | UnsupportedFileTypeErrorLabel
    | MaxSizeExceededErrorLabel
    | MultipleFileTypeErrorLabel
    | UnexpectedErrorLabel
    | SubmitPhotoDisabledTitle
    | SubmitPhotoTitle

  /** A storage lookup whose promise rejected. */
  datatype LookupError = LookupRejected

  /** What one awaited storage lookup gives: `Ok(None)` is the `undefined` value of
      a missing entity, `Err` a rejected request. */
  type Lookup = string -> Result<Option<string>, LookupError>

  /** The storage keys under which the vision service configuration is kept. */
  const AzureKeyEntity: string := "azurekey"
  const AzureEndpointEntity: string := "azureendpoint"

  /** The `switch (error.type)` of the error bar; every unknown type gets the generic label. */
  function ErrorMessage(errorType: string): (m: Label)
    ensures m == UnsupportedFileTypeErrorLabel <==> errorType == "unsupportedFileType"
    ensures m == MaxSizeExceededErrorLabel <==> errorType == "maxSizeExceeded"
    ensures m == MultipleFileTypeErrorLabel <==> errorType == "multipleNotAllowed"
    ensures m == UnexpectedErrorLabel
        <==> errorType != "unsupportedFileType" && errorType != "maxSizeExceeded" && errorType != "multipleNotAllowed"
  {
    match errorType
    case "unsupportedFileType" => UnsupportedFileTypeErrorLabel
    case "maxSizeExceeded" => MaxSizeExceededErrorLabel
    case "multipleNotAllowed" => MultipleFileTypeErrorLabel
    case _ => UnexpectedErrorLabel
  }

  /** `errors.map(...)`: one message per error, in order. */
  function ErrorMessages(errors: seq<UploadError>): (r: seq<Label>)
    ensures |r| == |errors|
    ensures forall i :: 0 <= i < |r| ==> r[i] == ErrorMessage(errors[i].errorType)
  {
    if errors == [] then [] else [ErrorMessage(errors[0].errorType)] + ErrorMessages(errors[1..])
  }

  /** The Save command of the toolbar. */
  datatype SaveCommand = SaveCommand(disabled: bool, title: Label)

  /** Save is disabled exactly while no file is loaded, and its title follows the same test. */
  function SaveCommandFor(file: Option<UploadedFile>): (c: SaveCommand)
    ensures c.disabled <==> file.None?
    ensures c.title == (if c.disabled then SubmitPhotoDisabledTitle else SubmitPhotoTitle)
  {
    SaveCommand(file == None, if file == None then SubmitPhotoDisabledTitle else SubmitPhotoTitle)
  }

  class ProfilePhotoEditor {
    var file: Option<UploadedFile>
    var croppedImage: Option<string>
    var errors: seq<UploadError>
    var cropper: bool
    var azureVisionEndpoint: Option<string>
    var azureVisionKey: Option<string>
    /** Undefined until the configuration lookup has run. */
    var hasConfiguration: Option<bool>

    /** Once looked up, the configuration flag says whether both values were found. */
    ghost predicate Valid()
      reads this
    {
      hasConfiguration.Some? ==> hasConfiguration.value == (azureVisionKey.Some? && azureVisionEndpoint.Some?)
    }

    constructor ()
      ensures Valid()
      ensures file == None && croppedImage == None && errors == [] && !cropper
      ensures azureVisionEndpoint == None && azureVisionKey == None && hasConfiguration == None
    {
      file := None;
      croppedImage := None;
      errors := [];
      cropper := false;
      azureVisionEndpoint := None;
      azureVisionKey := None;
      hasConfiguration := None;
    }

    /** `componentDidMount`: reads both storage entities, but only while the flag is still
        undefined. `getStorageEntity` stands for the remote lookup. If either awaited
        lookup rejects (`rejected`), the mount rejects before `setState`: nothing
        changes and the flag stays undefined, so a later mount looks again. */
    method ComponentDidMount(getStorageEntity: Lookup) returns (rejected: bool)
      requires Valid()
      modifies this
      ensures Valid()
      ensures rejected <==> old(hasConfiguration).None?
                            && (getStorageEntity(AzureKeyEntity).Err? || getStorageEntity(AzureEndpointEntity).Err?)
      ensures old(hasConfiguration).None? && !rejected ==>
                && azureVisionKey == getStorageEntity(AzureKeyEntity).value
                && azureVisionEndpoint == getStorageEntity(AzureEndpointEntity).value
                && hasConfiguration == Some(azureVisionKey.Some? && azureVisionEndpoint.Some?)
                && file == old(file) && croppedImage == old(croppedImage)
                && errors == old(errors) && cropper == old(cropper)
      ensures old(hasConfiguration).Some? || rejected ==> unchanged(this)
    {
      rejected := false;
      if hasConfiguration.None? {
        var key := getStorageEntity(AzureKeyEntity);
        if key.Err? {
          return true;
        }
        var endpoint := getStorageEntity(AzureEndpointEntity);
        if endpoint.Err? {
          return true;
        }
        azureVisionEndpoint := endpoint.value;
        azureVisionKey := key.value;
        hasConfiguration := Some(key.value.Some? && endpoint.value.Some?);
      }
    }

    /** `handleSuccess`: keeps the first file (undefined if none came) and clears the errors. */
    method HandleSuccess(files: seq<UploadedFile>)
      requires Valid()
      modifies this`file, this`errors
      ensures Valid()
      ensures file == (if |files| > 0 then Some(files[0]) else None)
      ensures errors == []
      ensures |files| > 0 ==> !SaveCommandFor(file).disabled && !ErrorBarShown()
    {
      file := if |files| > 0 then Some(files[0]) else None;
      errors := [];
    }

    /** `handleErrors`: drops the file and shows the given errors. */
    method HandleErrors(errs: seq<UploadError>)
      requires Valid()
      modifies this`file, this`errors
      ensures Valid()
      ensures file == None && errors == errs
      ensures SaveCommandFor(file).disabled && (ErrorBarShown() <==> errs != [])
    {
      file := None;
      errors := errs;
    }

    /** `resetFiles`: back to an empty editor; the configuration is kept. */
    method ResetFiles()
      requires Valid()
      modifies this`file, this`croppedImage, this`errors, this`cropper
      ensures Valid()
      ensures file == None && croppedImage == None && errors == [] && !cropper
      ensures SaveCommandFor(file).disabled && !ErrorBarShown()
    {
      file := None;
      croppedImage := None;
      errors := [];
      cropper := false;
    }

    /** The error bar is rendered exactly when there are errors. */
    function ErrorBarShown(): (shown: bool)
      reads this
      ensures shown <==> |errors| > 0
    {
      |errors| > 0
    }

    /** `submitPhoto`: opens the older analysis dialog on the cropped image
        (`croppedDataUrl`, what the canvas returns) with whatever configuration
        is held; the configuration flag is not consulted. */
    method SubmitPhoto(croppedDataUrl: string) returns (callout: AnalysisDialog.AnalysisPanelDialog)
      ensures fresh(callout)
      ensures callout.imageUrl == croppedDataUrl
      ensures callout.azureKey == azureVisionKey && callout.azureEndpoint == azureVisionEndpoint
    {
      callout := new AnalysisDialog.AnalysisPanelDialog(croppedDataUrl, azureVisionKey, azureVisionEndpoint);
    }
  }

  /** Uploads, errors and resets never touch the configuration. A mount after a
      successful lookup keeps it; after a rejected lookup, the next mount looks again. */
  method ConfigurationSurvivesEditing(
    first: Lookup, later: Lookup, files: seq<UploadedFile>, errs: seq<UploadError>)
    returns (e: ProfilePhotoEditor)
    ensures e.Valid() && e.file == None && e.errors == []
    ensures first(AzureKeyEntity).Ok? && first(AzureEndpointEntity).Ok? ==>
              && e.hasConfiguration.Some?
              && e.azureVisionKey == first(AzureKeyEntity).value
              && e.azureVisionEndpoint == first(AzureEndpointEntity).value
    ensures !(first(AzureKeyEntity).Ok? && first(AzureEndpointEntity).Ok?) ==>
              (e.hasConfiguration.Some? <==> later(AzureKeyEntity).Ok? && later(AzureEndpointEntity).Ok?)
  {
    e := new ProfilePhotoEditor();
    var rejected := e.ComponentDidMount(first);
    e.HandleSuccess(files);
    e.HandleErrors(errs);
    rejected := e.ComponentDidMount(later);
    e.ResetFiles();
  }
}
