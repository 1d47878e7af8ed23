# Smart profile photo editor — a Dafny model of its photo-check core

The editor lets a user upload a photo and crop it. When the photo is submitted,
the editor opens the older analysis dialog. That dialog sends the cropped
image to a vision service and shows the analysis. It evaluates no policy and
has no Update button.

The photo policy (`IPhotoRequirements`) is evaluated by a separate, newer
analysis dialog. It produces eight per-criterion verdicts, a list of the
forbidden keywords that were found, and one aggregate `isValid`. `isValid`
gates that dialog's Update button, whose handler updates the profile and
uploads the picture. In the code modelled here, nothing opens the newer
dialog or passes it a policy. The editor never reads its own policy
properties. The newer dialog is modelled as written, as a component on its
own.

This project models:

- **`PhotoPolicy`**: the evaluator, as the pure function `Evaluate`.
  - The predicate `Accepts` states separately, on the analysis and the policy, when a photo is acceptable.
  - `EvaluateAgreesWithAccepts` proves that the two agree.
  - The other lemmas cover keyword reporting, relaxing the policy, and four concrete cases: an accepted portrait, a photo with no face, a forbidden tag, and keyword `Beach` against tag `beach`.
- **`EvaluationDialog`**: the newer dialog as a class.
  - Its state starts as `isAnalyzing = true`, no analysis, `isValid = false`.
  - While `isAnalyzing` holds, `componentDidMount` evaluates once. The keyword list is built by a loop, as in the component.
  - It also models the Update-button gate and the order of the requests the Update handler starts.
- **`DataUrl`**: `dataURLtoBlob`.
  - It splits the URL at its commas and applies the lazy `/:(.*?);/` MIME match.
  - It calls `atob`, which is a parameter here.
  - It copies code units into a byte array, filling it from the end.
- **`AnalysisDialog`**: the older dialog, the one the editor opens.
  - The anchored, non-global removal of the data-URL header.
  - `isIt`.
  - The one-shot change from analysing to holding an analysis.
  - The request sent to the vision service.
- **`ProfilePhotoEditor`**: the editor component as a class.
  - The configuration lookup runs only while `hasConfiguration` is undefined.
  - `handleSuccess`, `handleErrors` and `resetFiles` are methods.
  - Pure functions cover the error-type labels and the Save command.
- **Helpers**:
  - `JsArray` — `Array.prototype.filter`.
  - `Text` — ASCII `toLowerCase`, `startsWith`, `split`/`join`.
  - `VisionAnalysis` — the analysis record and the portrait rule both dialogs share.
  - `Wrappers` — `Option`/`Result`.

Four facts about the code shape the model:

- Only the forbidden keyword is lower-cased, and tag names are compared as
  given. So the keyword `beach` does not match a tag spelled `Beach`
  (`KeywordCaseIsFoldedTagCaseIsNot`, `CapitalisedTagNeverMatches`).
- `invalidKeywords` is a list. It keeps each keyword's spelling, its order and
  any duplicates.
- The Update handler does not check `isValid` again. Only the disabled button
  prevents a submission (`OnUpdateProfilePhoto` has no precondition on it).
- Submitting a photo does not consult `hasConfiguration` (`SubmitPhoto`).

Remote services are parameters of the methods that call them:

- The vision analysis.
- The storage-entity lookup.
- `atob`.

The vision analysis returns an `Option`, and `None` stands for a rejected promise. `atob` also returns an `Option`, and `None` stands for the exception it throws. The storage lookup returns a `Result`. There, `Err` is a rejected request, and `Ok(None)` is the `undefined` value the lookup resolves to when the entity is missing.

## Model

| member | source | states |
|---|---|---|
| `VisionAnalysis.IsPortrait` | src/webparts/profilePhotoEditor/components/AnalysisDialog/AnalysisDialog.tsx:69 | true iff an analysis is present, it has categories, and one category is named exactly `people_portrait`; false (falsy) when the analysis or its categories are absent |
| `PhotoPolicy.Evaluate` | src/webparts/profilePhotoEditor/components/AnalysisDialog/AnalysisDialogContent.tsx:67-100 | `isValid` is exactly the conjunction of the eight `*Valid` criteria, without `isPortrait`; `keywordsValid` iff no keyword was reported; `onlyOnePersonValid` iff exactly one face, whatever the policy; a set `allow*` flag makes its criterion valid, and with it unset the criterion holds iff the ordinal is 0 or the content flag is false; `isPortraitValid` is `isPortrait` when a portrait is required, otherwise true; `isPortrait` is the portrait rule and `invalidKeywords` the keyword report on the analysis's tags |
| `PhotoPolicy.EvaluateAgreesWithAccepts` | src/webparts/profilePhotoEditor/components/AnalysisDialog/AnalysisDialogContent.tsx:67-100 | the computed aggregate holds iff the photo meets every rule, stated directly on the analysis and the policy |
| `JsArray.Filter` | src/webparts/profilePhotoEditor/components/AnalysisDialog/AnalysisDialogContent.tsx:67 | `filter` keeps only elements of the input that pass the test, and never lengthens it |
| `JsArray.FilterMember` | src/webparts/profilePhotoEditor/components/AnalysisDialog/AnalysisDialogContent.tsx:80-82 | an element is in the filter result iff it is in the input and passes the test |
| `JsArray.FilterConcat` | src/webparts/profilePhotoEditor/components/AnalysisDialog/AnalysisDialogContent.tsx:79-85 | filtering keeps order: filtering `a + b` gives the result for `a` followed by the result for `b` |
| `JsArray.FilterNonEmpty` | src/webparts/profilePhotoEditor/components/AnalysisDialog/AnalysisDialogContent.tsx:80-82 | the filter result is non-empty iff some element passes the test |
| `JsArray.FilterAll` | src/webparts/profilePhotoEditor/components/AnalysisDialog/AnalysisDialogContent.tsx:79-85 | when every element passes, the result is the input itself, duplicates included |
| `PhotoPolicy.Keywords` | src/webparts/profilePhotoEditor/components/AnalysisDialog/AnalysisDialogContent.tsx:78 | an absent keyword list is read as no keywords; a present one is used as given |
| `PhotoPolicy.TagMatches` | src/webparts/profilePhotoEditor/components/AnalysisDialog/AnalysisDialogContent.tsx:81 | a tag can match only when its name is as long as the keyword and holds no ASCII capital, because only the keyword is lower-cased |
| `PhotoPolicy.HasMatchingTag` | src/webparts/profilePhotoEditor/components/AnalysisDialog/AnalysisDialogContent.tsx:80-82 | the tag filter is non-empty iff some tag's name equals the lower-cased keyword |
| `PhotoPolicy.InvalidKeywords` | src/webparts/profilePhotoEditor/components/AnalysisDialog/AnalysisDialogContent.tsx:77-86 | every reported keyword is from the forbidden list and is matched by some tag, and the report is no longer than the list |
| `PhotoPolicy.InvalidKeywordsSnoc` | src/webparts/profilePhotoEditor/components/AnalysisDialog/AnalysisDialogContent.tsx:79-85 | checking one more keyword appends it to the report exactly when a tag matches it |
| `PhotoPolicy.InvalidKeywordsMember` | src/webparts/profilePhotoEditor/components/AnalysisDialog/AnalysisDialogContent.tsx:77-86 | a keyword is reported iff it is in the forbidden list and its lower-cased form is some tag's exact name |
| `PhotoPolicy.InvalidKeywordsConcat` | src/webparts/profilePhotoEditor/components/AnalysisDialog/AnalysisDialogContent.tsx:79-85 | the report keeps the list's order: the report for `a + b` is the report for `a` followed by the report for `b` |
| `PhotoPolicy.InvalidKeywordsAllMatched` | src/webparts/profilePhotoEditor/components/AnalysisDialog/AnalysisDialogContent.tsx:79-85 | when every keyword is matched, the report is the keyword list itself, original spelling and duplicates included |
| `PhotoPolicy.NoInvalidKeywordsIff` | src/webparts/profilePhotoEditor/components/AnalysisDialog/AnalysisDialogContent.tsx:88 | the report is empty iff no keyword's lower-cased form names any tag (so an absent or empty list always passes) |
| `PhotoPolicy.RelaxingPolicyKeepsAcceptance` | src/webparts/profilePhotoEditor/components/AnalysisDialog/AnalysisDialogContent.tsx:68-100 | allowing more, requiring no portrait, or forbidding fewer keywords never turns an accepted photo into a rejected one |
| `PhotoPolicy.PermissivePolicyChecksOnlyFaceCount` | src/webparts/profilePhotoEditor/components/AnalysisDialog/AnalysisDialogContent.tsx:69-100 | with every allow flag set, no portrait requirement and no keywords, the photo is accepted iff exactly one face was found |
| `PhotoPolicy.CategoriesMatterOnlyWhenPortraitRequired` | src/webparts/profilePhotoEditor/components/AnalysisDialog/AnalysisDialogContent.tsx:67-68 | unless a portrait is required, replacing the categories never changes `isValid`: `isPortrait` itself is not a conjunct |
| `PhotoPolicy.CapitalisedTagNeverMatches` | src/webparts/profilePhotoEditor/components/AnalysisDialog/AnalysisDialogContent.tsx:81 | a tag whose name holds an ASCII capital matches no keyword, since only the keyword is lower-cased |
| `PhotoPolicy.KeywordCaseIsFoldedTagCaseIsNot` | src/webparts/profilePhotoEditor/components/AnalysisDialog/AnalysisDialogContent.tsx:81 | keyword `Beach` matches tag `beach`; keyword `beach` does not match tag `Beach` |
| `PhotoPolicy.ScenarioPortraitAccepted` | src/webparts/profilePhotoEditor/components/AnalysisDialog/AnalysisDialogContent.tsx:67-100 | under the strictest policy, a clean single-face `people_portrait` photo is a portrait and is accepted |
| `PhotoPolicy.ScenarioNoFaceRejected` | src/webparts/profilePhotoEditor/components/AnalysisDialog/AnalysisDialogContent.tsx:69 | the same photo with no face fails `onlyOnePersonValid` and is rejected |
| `PhotoPolicy.ScenarioForbiddenTagRejected` | src/webparts/profilePhotoEditor/components/AnalysisDialog/AnalysisDialogContent.tsx:77-100 | forbidden keyword `sunset` with tag `sunset` is reported as `["sunset"]` and rejects an otherwise clean photo |
| `EvaluationDialog.CollectInvalidKeywords` | src/webparts/profilePhotoEditor/components/AnalysisDialog/AnalysisDialogContent.tsx:77-86 | the `forEach`/`push` loop returns exactly the report `InvalidKeywords` defines (empty for an absent or empty list) |
| `EvaluationDialog.AnalysisDialogContent.constructor` | src/webparts/profilePhotoEditor/components/AnalysisDialog/AnalysisDialogContent.tsx:36-43 | the state starts analysing, with no analysis, `isValid` false and no verdict fields; the props `photoRequirements`, `context` and `blob` are kept as given, and `context` and `blob` may be undefined |
| `EvaluationDialog.AnalysisDialogContent.ComponentDidMount` | src/webparts/profilePhotoEditor/components/AnalysisDialog/AnalysisDialogContent.tsx:48-116 | while analysing, a response moves the state to not analysing, with that analysis and exactly `Evaluate`'s verdict; an absent response rejects (the read of `faces` throws) and nothing changes; once analysed, nothing changes |
| `EvaluationDialog.AnalysisDialogContent.UpdateButtonDisabled` | src/webparts/profilePhotoEditor/components/AnalysisDialog/AnalysisDialogContent.tsx:219 | the Update button is enabled iff an analysis is held and the photo is acceptable |
| `EvaluationDialog.UpdateTrace` | src/webparts/profilePhotoEditor/components/AnalysisDialog/AnalysisDialogContent.tsx:227-309 | the three outcomes of the Update handler. Without `context`, `getValue` throws at line 256: the handler rejects and no request starts. With both props, it reads and awaits the AboutMe property, writes and awaits it, then starts the REST upload and `setMyProfilePic` without awaiting either. Without `blob`, the unawaited `updateProfilePic` throws at `buffer.byteLength` (line 303) before posting, so only `setMyProfilePic` starts after the property requests, and the handler itself does not reject |
| `EvaluationDialog.AnalysisDialogContent.OnUpdateProfilePhoto` | src/webparts/profilePhotoEditor/components/AnalysisDialog/AnalysisDialogContent.tsx:227-246 | without consulting `isValid`, the handler gives exactly the outcome `UpdateTrace` states for whether `context` and `blob` were supplied. In every outcome: the property write has settled before either upload starts; every awaited request was started earlier; only the two property requests are awaited; and no upload starts without a context |
| `EvaluationDialog.EvaluationRunsOnce` | src/webparts/profilePhotoEditor/components/AnalysisDialog/AnalysisDialogContent.tsx:38-49 | after one evaluation a second mount keeps the same verdict, and Update is enabled iff the photo is acceptable |
| `DataUrl.LazyGroupEnd` | src/webparts/profilePhotoEditor/components/AnalysisDialog/AnalysisDialogContent.tsx:323 | lazy `(.*?);`: finds the first `;` at or after the start, with no `;` and no line terminator before it; finds none when every later `;` has a line terminator before it |
| `DataUrl.MatchFrom` | src/webparts/profilePhotoEditor/components/AnalysisDialog/AnalysisDialogContent.tsx:323 | `match(/:(.*?);/)[1]`: the group of the leftmost `:` that has a `;` later on its line, which is the shortest run up to that `;`; no result iff no `:` has one |
| `DataUrl.MimeMatch` | src/webparts/profilePhotoEditor/components/AnalysisDialog/AnalysisDialogContent.tsx:323 | `arr[0].match(/:(.*?);/)[1]`: a group holds no `;` and no line terminator, and is the group of the leftmost `:` that has a `;` later on its line; the match fails iff no `:` has one |
| `DataUrl.Payload` | src/webparts/profilePhotoEditor/components/AnalysisDialog/AnalysisDialogContent.tsx:323-324 | what `atob` receives: `arr[1]` when the URL has a comma, so it holds no comma; the string `undefined` when it has none |
| `DataUrl.ToByte` | src/webparts/profilePhotoEditor/components/AnalysisDialog/AnalysisDialogContent.tsx:326 | storing a `charCodeAt` code unit in a `Uint8Array` keeps its value modulo 256 |
| `DataUrl.DataUrlToBlob` | src/webparts/profilePhotoEditor/components/AnalysisDialog/AnalysisDialogContent.tsx:322-329 | a missing MIME match throws before decoding; a failing `atob` of `arr[1]` (of "undefined" without a comma) throws; otherwise the blob has the MIME type from the part before the first comma and `n` bytes, byte `i` being code unit `i` of the decoded text modulo 256 |
| `DataUrl.HeaderMimeMatch` | src/webparts/profilePhotoEditor/components/AnalysisDialog/AnalysisDialogContent.tsx:323 | the header `data:<mime>;base64` matches with group `<mime>`, for a MIME type without `;` or line terminator |
| `DataUrl.WellFormedDataUrlReadsBack` | src/webparts/profilePhotoEditor/components/AnalysisDialog/AnalysisDialogContent.tsx:323-324 | `data:<mime>;base64,<body>` yields MIME type `<mime>` and payload `<body>`, for a MIME type without `,`, `;` or line terminator and a comma-free body |
| `DataUrl.PngDataUrlMimeType` | src/webparts/profilePhotoEditor/components/AnalysisDialog/AnalysisDialogContent.tsx:323 | a PNG data URL yields MIME type `image/png` and its payload |
| `Text.ToLower` | src/webparts/profilePhotoEditor/components/AnalysisDialog/AnalysisDialogContent.tsx:81 | same length as its input; each ASCII capital becomes its small letter, and every other character is kept |
| `Text.ToLowerIdempotent` | src/webparts/profilePhotoEditor/components/AnalysisDialog/AnalysisDialogContent.tsx:81 | a lower-cased keyword holds no ASCII capital, and lower-casing it again changes nothing |
| `Text.Split` | src/webparts/profilePhotoEditor/components/AnalysisDialog/AnalysisDialogContent.tsx:323 | `split(',')` returns at least one piece, and no piece contains the separator |
| `Text.JoinSplit` | src/webparts/profilePhotoEditor/components/AnalysisDialog/AnalysisDialogContent.tsx:323 | joining the pieces of a split with the separator restores the original string |
| `Text.SplitAtFirst` | src/webparts/profilePhotoEditor/components/AnalysisDialog/AnalysisDialogContent.tsx:323 | at the first separator, the first piece is the text before it and the other pieces are the split of the text after it |
| `Text.SplitWithoutSeparator` | src/webparts/profilePhotoEditor/components/AnalysisDialog/AnalysisDialogContent.tsx:323 | a string without the separator splits into itself alone, so `arr[1]` is missing |
| `AnalysisDialog.RemoveLeadingAlternative` | src/webparts/profilePhotoEditor/components/AnalysisDialog/AnalysisDialog.tsx:39 | the first alternative the text starts with is cut off; with no alternative at the start the text is unchanged; nothing else can happen |
| `AnalysisDialog.HeaderLetters` | src/webparts/profilePhotoEditor/components/AnalysisDialog/AnalysisDialog.tsx:39 | the three headers differ at index 11 (`p`/`j`) or 13 (`e`/`g`), so at most one of them begins a text |
| `AnalysisDialog.StripDataUrlPrefix` | src/webparts/profilePhotoEditor/components/AnalysisDialog/AnalysisDialog.tsx:39 | a URL that starts with the PNG, JPEG or JPG base64 header loses exactly that header; any other URL is unchanged |
| `AnalysisDialog.StripAfterPrefixRoundTrip` | src/webparts/profilePhotoEditor/components/AnalysisDialog/AnalysisDialog.tsx:39 | header + payload gives back exactly the payload, so a second header inside the payload stays (no `g` flag) |
| `AnalysisDialog.GifDataUrlUnchanged` | src/webparts/profilePhotoEditor/components/AnalysisDialog/AnalysisDialog.tsx:39 | a `data:image/gif;base64,` URL is returned unchanged |
| `AnalysisDialog.NotAtStartUnchanged` | src/webparts/profilePhotoEditor/components/AnalysisDialog/AnalysisDialog.tsx:39 | a text not starting with `d` is unchanged wherever a header occurs later (the `^` anchor) |
| `AnalysisDialog.IsIt` | src/webparts/profilePhotoEditor/components/AnalysisDialog/AnalysisDialog.tsx:65 | `is` exactly for true and `isn't` exactly for false |
| `AnalysisDialog.AnalysisDialogContent.constructor` | src/webparts/profilePhotoEditor/components/AnalysisDialog/AnalysisDialog.tsx:26-32 | the state starts analysing with no analysis |
| `AnalysisDialog.AnalysisDialogContent.Request` | src/webparts/profilePhotoEditor/components/AnalysisDialog/AnalysisDialog.tsx:36-53 | the vision call carries the stripped base64 text (the component sends the bytes `Buffer` decodes from it), the dialog's key and endpoint, and the eight requested features |
| `AnalysisDialog.AnalysisDialogContent.ComponentDidMount` | src/webparts/profilePhotoEditor/components/AnalysisDialog/AnalysisDialog.tsx:34-61 | while analysing, a successful call sets `isAnalyzing` false and the analysis together; a rejected call, or a later mount, changes nothing |
| `AnalysisDialog.AnalysisDialogContent.PortraitShown` | src/webparts/profilePhotoEditor/components/AnalysisDialog/AnalysisDialog.tsx:69 | the Portrait line can only say yes once an analysis is held |
| `AnalysisDialog.AnalysisPanelDialog.constructor` | src/webparts/profilePhotoEditor/components/AnalysisDialog/AnalysisDialog.tsx:139-145 | keeps the image URL, key and endpoint it is given |
| `AnalysisDialog.AnalysisPanelDialog.Render` | src/webparts/profilePhotoEditor/components/AnalysisDialog/AnalysisDialog.tsx:159-167 | renders a fresh content component, analysing, with the dialog's image URL, key and endpoint |
| `ProfilePhotoEditor.ErrorMessage` | src/webparts/profilePhotoEditor/components/ProfilePhotoEditor.tsx:93-104 | `unsupportedFileType`, `maxSizeExceeded` and `multipleNotAllowed` each get their own label, each in both directions; every other type, and only those, gets `UnexpectedErrorLabel` |
| `ProfilePhotoEditor.ErrorMessages` | src/webparts/profilePhotoEditor/components/ProfilePhotoEditor.tsx:91-108 | one message per error, in the errors' order |
| `ProfilePhotoEditor.SaveCommandFor` | src/webparts/profilePhotoEditor/components/ProfilePhotoEditor.tsx:225-226 | Save is disabled iff no file is loaded, and its title switches on the same test |
| `ProfilePhotoEditor.ProfilePhotoEditor.constructor` | src/webparts/profilePhotoEditor/components/ProfilePhotoEditor.tsx:51-63 | no file, no cropped image, no errors, cropper off, configuration and `hasConfiguration` undefined |
| `ProfilePhotoEditor.ProfilePhotoEditor.ComponentDidMount` | src/webparts/profilePhotoEditor/components/ProfilePhotoEditor.tsx:65-78 | only while `hasConfiguration` is undefined: stores the `azurekey` and `azureendpoint` lookups and sets `hasConfiguration` to "both defined"; a rejected lookup rejects the mount and changes nothing, leaving the flag undefined; once the flag is set, nothing changes |
| `ProfilePhotoEditor.ProfilePhotoEditor.HandleSuccess` | src/webparts/profilePhotoEditor/components/ProfilePhotoEditor.tsx:170-172 | `file` becomes `files[0]` (undefined for no files) and the errors are cleared; nothing else changes |
| `ProfilePhotoEditor.ProfilePhotoEditor.HandleErrors` | src/webparts/profilePhotoEditor/components/ProfilePhotoEditor.tsx:177-180 | `file` becomes undefined and the errors are replaced by the given list; Save is disabled, and the error bar shows iff the list is non-empty |
| `ProfilePhotoEditor.ProfilePhotoEditor.ResetFiles` | src/webparts/profilePhotoEditor/components/ProfilePhotoEditor.tsx:185-192 | file and cropped image undefined, no errors, cropper off; key, endpoint and `hasConfiguration` unchanged |
| `ProfilePhotoEditor.ProfilePhotoEditor.ErrorBarShown` | src/webparts/profilePhotoEditor/components/ProfilePhotoEditor.tsx:83 | the error bar is shown iff there are errors |
| `ProfilePhotoEditor.ProfilePhotoEditor.SubmitPhoto` | src/webparts/profilePhotoEditor/components/ProfilePhotoEditor.tsx:256-261 | opens the older dialog on the cropped image with the key and endpoint held, whether or not the configuration was found |
| `ProfilePhotoEditor.ConfigurationSurvivesEditing` | src/webparts/profilePhotoEditor/components/ProfilePhotoEditor.tsx:61-78 | uploads, errors and resets never touch the configuration; after a successful first lookup a later mount keeps it, and after a rejected one the next mount looks again |

## Left out

- Remote calls are not modelled. Their results are parameters, or the order of requests is recorded as a list:
  - the storage-entity lookup (`GetStorageEntity`);
  - the profile reads and writes of the Update handler;
  - `setMyProfilePic`;
  - the vision service call.
- `IAnalysisDialogContentProps` does not declare the props `context` and `blob`, which the Update handler reads. The model lets either be undefined, and only whether each was supplied matters. What `setMyProfilePic` does with an undefined blob is not modelled.
- The older dialog sends `new Buffer(base64data, 'base64')`, the decoded bytes of the stripped text. `VisionRequest` carries the text that `Buffer` decodes, not the bytes.
- The storage service's own behaviour is left out. `StorageEntityService` is not part of this model: a lookup is only its awaited outcome. Each other remote call's own behaviour and error handling are left out, including the logging-only failure handlers. `onDismiss` after a successful upload is left out too.
- The choice between the real and the mock analysis service by runtime environment is left out. So is the case where neither branch picks a service. `AnalysisServices` is not part of this model.
- `atob` is a parameter. Base64 decoding is not modelled. In JavaScript, `atob("undefined")` always throws, because a 9-character input is not valid base64. So a URL without a comma whose MIME type matches always ends in `DecodeFailed` in the source. The model's unconstrained `atob` could return a blob there instead.
- The browser's `Blob` constructor normalises its `type` string. That is not modelled: the blob carries the matched text as is.
- `Text.ToLower`: lower-cases only the ASCII letters A–Z. JavaScript's `toLowerCase` also maps other Unicode letters, so the model can be wrong in three ways:
  - It can miss a match. Keyword `É` matches tag `é` in JavaScript, but not here.
  - It can report an extra match. Keyword `É` matches tag `É` here, but not in JavaScript, which compares `é` with `É`.
  - It always keeps the length. JavaScript's `toLowerCase` can change it: `İ` (U+0130) becomes two code points. The length part of `ToLower`'s contract, and the length clause of `TagMatches`, therefore hold only for ASCII-style lower-casing.
- Strings are sequences of Unicode scalar values. `DataUrlToBlob` takes the decoded text as UTF-16 code units from `atob`.
- `VisionAnalysis.IsPortrait`: the falsy `undefined` of the source reads as `false`. An undefined `isPortraitValid` therefore makes `isValid` false rather than undefined. That changes nothing for the `isValid !== true` gate.
- The model always carries `faces`, `tags`, `imageType` and `adult`. The source reads them only in certain cases:
  - `faces` is always read, so a response without it throws.
  - `tags` is read only when the keyword list is non-empty.
  - `imageType` and `adult` are read only for criteria whose `allow*` flag is false.
- So a response that lacks `tags`, `imageType` or `adult` gets through the evaluation when those fields are not read. The dialog then fails to render: once `isAnalyzing` is false, the checklist (lines 196-201) reads `analysis.imageType` and `analysis.adult` unconditionally. Such responses are not represented in the model.
- Category scores, adult and racy scores and captions are not modelled. They are only displayed or logged. The faces' age and gender are carried in `Face`, but no rule reads them.
- Rendering, the Panel and CommandBar markup, the property pane and the localised strings are left out. Labels are datatype constructors, not English text.
- The cropper, the canvas `toDataURL` (a parameter of `SubmitPhoto`), and the upload widget's size and type limits are left out. These are foreign libraries.
- With no cropper available, `getCroppedCanvas` would throw in `submitPhoto`. That is not modelled.
- Float formatting with `toFixed`, `console.log` and the `new Date()` in the written property value are left out.
- Splitting the raw `forbiddenKeywords` text of the web part into a list is left out. No shown code does it, and the evaluator receives a list.
- React's asynchronous `setState` and any interleaving of the two unawaited picture uploads are not modelled. Each handler's state change is atomic.
