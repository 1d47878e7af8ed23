/**
 * The parts of the Computer Vision "analyze image" response that the dialogs
 * read, and the portrait rule both dialogs apply to it.
 */
module VisionAnalysis {
  import opened Wrappers
  import opened JsArray

  datatype Category = Category(name: string)

  /** A detected face; only the count matters to the policy, age and gender are shown. */
  datatype Face = Face(age: nat, gender: string)

  /** Ordinals from the backend: 0 means "not clip art" / "not a line drawing". */
  datatype ImageType = ImageType(clipArtType: nat, lineDrawingType: nat)

  datatype AdultInfo = AdultInfo(isAdultContent: bool, isRacyContent: bool, isGoryContent: bool)

  datatype Tag = Tag(name: string)

  /** `categories` may be missing from a response; the other lists are always read directly. */
  datatype Analysis = Analysis(
    categories: Option<seq<Category>>,
    faces: seq<Face>,
    imageType: ImageType,
    adult: AdultInfo,
    tags: seq<Tag>)

  const PortraitCategory: string := "people_portrait"

  predicate IsPortraitCategory(c: Category) {
    c.name == PortraitCategory
  }

  /** `analysis && analysis.categories && analysis.categories.filter(c => c.name === "people_portrait").length > 0`,
      with the falsy outcomes (`undefined`, `false`) both read as false. */
  function IsPortrait(analysis: Option<Analysis>): (r: bool)
    ensures r <==> analysis.Some? && analysis.value.categories.Some?
                   && exists i :: 0 <= i < |analysis.value.categories.value|
                                  && analysis.value.categories.value[i].name == PortraitCategory
  {
    if analysis.Some? && analysis.value.categories.Some? then
      FilterNonEmpty(analysis.value.categories.value, IsPortraitCategory);
      |Filter(analysis.value.categories.value, IsPortraitCategory)| > 0
    else
      false
  }
}
