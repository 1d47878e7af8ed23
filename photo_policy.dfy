/**
 * The photo-requirements policy and its evaluation against an image
 * analysis, as the newer analysis dialog computes it when it mounts.
 * `Evaluate` is the pure verdict; `Accepts` is an independent, declarative
 * statement of when a photo is acceptable, and the lemmas connect the two.
 */
module PhotoPolicy {
  import opened Wrappers
  import opened JsArray
  import opened Text
  import opened VisionAnalysis

  /** `IPhotoRequirements`; the keyword list may be absent. */
  datatype Policy = Policy(
    requirePortrait: bool,
    allowClipart: bool,
    allowLinedrawing: bool,
    allowRacy: bool,
    allowAdult: bool,
    allowGory: bool,
    forbiddenKeywords: Option<seq<string>>)

  /** The per-criterion breakdown the dialog keeps in its state, plus the aggregate. */
  datatype Verdict = Verdict(
    isPortrait: bool,
    isPortraitValid: bool,
    onlyOnePersonValid: bool,
    isClipartValid: bool,
    isLinedrawingValid: bool,
    isAdultValid: bool,
    isRacyValid: bool,
    isGoryValid: bool,
    keywordsValid: bool,
    invalidKeywords: seq<string>,
    isValid: bool)

  /** The forbidden keywords, an absent list read as no keywords. */
  function Keywords(p: Policy): (ks: seq<string>)
    ensures p.forbiddenKeywords.None? ==> ks == []
    ensures p.forbiddenKeywords.Some? ==> ks == p.forbiddenKeywords.value
  {
    if p.forbiddenKeywords.Some? then p.forbiddenKeywords.value else []
  }

  /** Only the keyword is lower-cased; the tag name is compared as the backend spelled it. */
  predicate TagMatches(keyword: string, tag: Tag)
    ensures TagMatches(keyword, tag) ==> |tag.name| == |keyword|
    ensures TagMatches(keyword, tag) ==> forall i :: 0 <= i < |tag.name| ==> !IsAsciiUpper(tag.name[i])
  {
    ToLower(keyword) == tag.name
  }

  function TagMatcher(keyword: string): Tag -> bool {
    t => TagMatches(keyword, t)
  }

  /** `analysis.tags.filter(tag => keyword.toLowerCase() === tag.name).length > 0`. */
  predicate HasMatchingTag(keyword: string, tags: seq<Tag>)
    ensures HasMatchingTag(keyword, tags) <==> exists i :: 0 <= i < |tags| && tags[i].name == ToLower(keyword)
  {
    FilterNonEmpty(tags, TagMatcher(keyword));
    |Filter(tags, TagMatcher(keyword))| > 0
  }

  function KeywordHit(tags: seq<Tag>): string -> bool {
    k => HasMatchingTag(k, tags)
  }

  /** The keywords, in list order and with their own spelling, that some tag matches. */
  function InvalidKeywords(keywords: seq<string>, tags: seq<Tag>): (r: seq<string>)
    ensures |r| <= |keywords|
    ensures forall i :: 0 <= i < |r| ==> r[i] in keywords && HasMatchingTag(r[i], tags)
  {
    Filter(keywords, KeywordHit(tags))
  }

  /** Checking one more keyword appends it exactly when a tag matches it. */
  lemma InvalidKeywordsSnoc(keywords: seq<string>, k: string, tags: seq<Tag>)
    ensures InvalidKeywords(keywords + [k], tags)
         == InvalidKeywords(keywords, tags) + (if HasMatchingTag(k, tags) then [k] else [])
  {
    FilterSnoc(keywords, k, KeywordHit(tags));
  }

  /** A keyword is reported exactly when it is in the list and its lower-cased
      form is the name of some tag. */
  lemma InvalidKeywordsMember(keywords: seq<string>, tags: seq<Tag>, k: string)
    ensures k in InvalidKeywords(keywords, tags)
        <==> k in keywords && exists t :: t in tags && t.name == ToLower(k)
  {
    FilterMember(keywords, KeywordHit(tags), k);
    if exists t :: t in tags && t.name == ToLower(k) {
      var t :| t in tags && t.name == ToLower(k);
      var i :| 0 <= i < |tags| && tags[i] == t;
    }
  }

  /** The report keeps list order: it is the reports of the two halves, one after the other. */
  lemma InvalidKeywordsConcat(a: seq<string>, b: seq<string>, tags: seq<Tag>)
    ensures InvalidKeywords(a + b, tags) == InvalidKeywords(a, tags) + InvalidKeywords(b, tags)
  {
    FilterConcat(a, b, KeywordHit(tags));
  }

  /** When every keyword is matched, the report is the list itself: spelling and duplicates kept. */
  lemma InvalidKeywordsAllMatched(keywords: seq<string>, tags: seq<Tag>)
    requires forall i :: 0 <= i < |keywords| ==> exists t :: t in tags && t.name == ToLower(keywords[i])
    ensures InvalidKeywords(keywords, tags) == keywords
  {
    forall i | 0 <= i < |keywords|
      ensures KeywordHit(tags)(keywords[i])
    {
      var t :| t in tags && t.name == ToLower(keywords[i]);
      var j :| 0 <= j < |tags| && tags[j] == t;
    }
    FilterAll(keywords, KeywordHit(tags));
  }

  /** The verdict of `componentDidMount`: eight criteria and their conjunction.
      `isPortrait` is reported but is not itself one of the conjuncts. */
  function Evaluate(a: Analysis, p: Policy): (v: Verdict)
    ensures v.isValid <==> (v.isPortraitValid && v.onlyOnePersonValid && v.isClipartValid
                            && v.isLinedrawingValid && v.isAdultValid && v.isRacyValid
                            && v.isGoryValid && v.keywordsValid)
    ensures v.keywordsValid <==> v.invalidKeywords == []
    ensures v.invalidKeywords == InvalidKeywords(Keywords(p), a.tags)
    ensures v.isPortrait == IsPortrait(Some(a))
    ensures v.isPortraitValid <==> (p.requirePortrait ==> v.isPortrait)
    ensures v.onlyOnePersonValid <==> |a.faces| == 1
    ensures v.isClipartValid <==> (p.allowClipart || a.imageType.clipArtType == 0)
    ensures v.isLinedrawingValid <==> (p.allowLinedrawing || a.imageType.lineDrawingType == 0)
    ensures v.isAdultValid <==> (p.allowAdult || !a.adult.isAdultContent)
    ensures v.isRacyValid <==> (p.allowRacy || !a.adult.isRacyContent)
    ensures v.isGoryValid <==> (p.allowGory || !a.adult.isGoryContent)
  {
    var isPortrait := IsPortrait(Some(a));
    var isPortraitValid := if p.requirePortrait then isPortrait else true;
    var onlyOnePersonValid := |a.faces| == 1;
    var isClipartValid := if p.allowClipart then true else a.imageType.clipArtType == 0;
    var isLinedrawingValid := if p.allowLinedrawing then true else a.imageType.lineDrawingType == 0;
    var isAdultValid := if p.allowAdult then true else !a.adult.isAdultContent;
    var isRacyValid := if p.allowRacy then true else !a.adult.isRacyContent;
    var isGoryValid := if p.allowGory then true else !a.adult.isGoryContent;
    var invalidKeywords := InvalidKeywords(Keywords(p), a.tags);
    var keywordsValid := |invalidKeywords| < 1;
    Verdict(isPortrait, isPortraitValid, onlyOnePersonValid, isClipartValid, isLinedrawingValid,
            isAdultValid, isRacyValid, isGoryValid, keywordsValid, invalidKeywords,
            isPortraitValid && onlyOnePersonValid && isClipartValid && isLinedrawingValid
            && isAdultValid && isRacyValid && isGoryValid && keywordsValid)
  }

  /** When a photo is acceptable, stated directly on the analysis and the policy. */
  predicate Accepts(a: Analysis, p: Policy) {
    && (p.requirePortrait ==> a.categories.Some? && exists c :: c in a.categories.value && c.name == PortraitCategory)
    && |a.faces| == 1
    && (!p.allowClipart ==> a.imageType.clipArtType == 0)
    && (!p.allowLinedrawing ==> a.imageType.lineDrawingType == 0)
    && (!p.allowAdult ==> !a.adult.isAdultContent)
    && (!p.allowRacy ==> !a.adult.isRacyContent)
    && (!p.allowGory ==> !a.adult.isGoryContent)
    && forall k, t :: k in Keywords(p) && t in a.tags ==> ToLower(k) != t.name
  }

  /** No forbidden keyword is reported exactly when no keyword's lower-cased form names a tag. */
  lemma NoInvalidKeywordsIff(keywords: seq<string>, tags: seq<Tag>)
    ensures InvalidKeywords(keywords, tags) == []
        <==> forall k, t :: k in keywords && t in tags ==> ToLower(k) != t.name
  {
    if InvalidKeywords(keywords, tags) != [] {
      var k := InvalidKeywords(keywords, tags)[0];
      InvalidKeywordsMember(keywords, tags, k);
    }
    if exists k, t :: k in keywords && t in tags && ToLower(k) == t.name {
      var k, t :| k in keywords && t in tags && ToLower(k) == t.name;
      InvalidKeywordsMember(keywords, tags, k);
    }
  }

  /** The computed aggregate says yes exactly when the photo is acceptable. */
  lemma EvaluateAgreesWithAccepts(a: Analysis, p: Policy)
    ensures Evaluate(a, p).isValid <==> Accepts(a, p)
  {
    NoInvalidKeywordsIff(Keywords(p), a.tags);
    if a.categories.Some? {
      var cats := a.categories.value;
      if exists c :: c in cats && c.name == PortraitCategory {
        var c :| c in cats && c.name == PortraitCategory;
        var i :| 0 <= i < |cats| && cats[i] == c;
      }
    }
  }

  /** `relaxed` allows everything `strict` allows and forbids no keyword `strict` does not. */
  predicate AtLeastAsPermissive(relaxed: Policy, strict: Policy) {
    && (relaxed.requirePortrait ==> strict.requirePortrait)
    && (strict.allowClipart ==> relaxed.allowClipart)
    && (strict.allowLinedrawing ==> relaxed.allowLinedrawing)
    && (strict.allowRacy ==> relaxed.allowRacy)
    && (strict.allowAdult ==> relaxed.allowAdult)
    && (strict.allowGory ==> relaxed.allowGory)
    && forall k :: k in Keywords(relaxed) ==> k in Keywords(strict)
  }

  /** Relaxing the policy never turns an accepted photo into a rejected one. */
  lemma RelaxingPolicyKeepsAcceptance(a: Analysis, strict: Policy, relaxed: Policy)
    requires AtLeastAsPermissive(relaxed, strict)
    requires Evaluate(a, strict).isValid
    ensures Evaluate(a, relaxed).isValid
  {
    EvaluateAgreesWithAccepts(a, strict);
    EvaluateAgreesWithAccepts(a, relaxed);
  }

  /** With every allow flag set, no portrait requirement and no keywords, only the face count decides. */
  lemma PermissivePolicyChecksOnlyFaceCount(a: Analysis, p: Policy)
    requires !p.requirePortrait && p.allowClipart && p.allowLinedrawing
    requires p.allowRacy && p.allowAdult && p.allowGory
    requires Keywords(p) == []
    ensures Evaluate(a, p).isValid <==> |a.faces| == 1
  {
  }

  /** Unless a portrait is required, the categories cannot change the aggregate. */
  lemma CategoriesMatterOnlyWhenPortraitRequired(a: Analysis, p: Policy, categories: Option<seq<Category>>)
    requires !p.requirePortrait
    ensures Evaluate(a.(categories := categories), p).isValid == Evaluate(a, p).isValid
  {
  }

  /** A tag spelled with an ASCII capital is never matched, whatever the keyword. */
  lemma CapitalisedTagNeverMatches(keyword: string, tag: Tag, i: nat)
    requires i < |tag.name| && IsAsciiUpper(tag.name[i])
    ensures !TagMatches(keyword, tag)
  {
  }

  /** The policy used by the scenarios below: everything strict, no keywords. */
  const StrictPolicy: Policy := Policy(true, false, false, false, false, false, Some([]))

  function CleanAnalysis(faces: seq<Face>, tags: seq<Tag>): Analysis {
    Analysis(Some([Category(PortraitCategory)]), faces, ImageType(0, 0), AdultInfo(false, false, false), tags)
  }

  /** A clean single-face portrait passes the strict policy. */
  lemma ScenarioPortraitAccepted()
    ensures Evaluate(CleanAnalysis([Face(30, "female")], []), StrictPolicy).isValid
    ensures Evaluate(CleanAnalysis([Face(30, "female")], []), StrictPolicy).isPortrait
  {
    var cats := [Category(PortraitCategory)];
    assert cats[0].name == PortraitCategory;
  }

  /** The same photo with no face detected fails. */
  lemma ScenarioNoFaceRejected()
    ensures !Evaluate(CleanAnalysis([], []), StrictPolicy).onlyOnePersonValid
    ensures !Evaluate(CleanAnalysis([], []), StrictPolicy).isValid
  {
  }

  /** A forbidden keyword that is also a tag is reported and fails the photo. */
  lemma ScenarioForbiddenTagRejected()
    ensures Evaluate(CleanAnalysis([Face(30, "female")], [Tag("sunset")]),
                     StrictPolicy.(forbiddenKeywords := Some(["sunset"]))).invalidKeywords == ["sunset"]
    ensures !Evaluate(CleanAnalysis([Face(30, "female")], [Tag("sunset")]),
                      StrictPolicy.(forbiddenKeywords := Some(["sunset"]))).isValid
  {
    var tags := [Tag("sunset")];
    assert ToLower("sunset") == "sunset";
    assert tags[0].name == ToLower("sunset");
    InvalidKeywordsAllMatched(["sunset"], tags);
  }

  /** The keyword side is lower-cased ("Beach" hits the tag "beach"), the tag side
      is not ("beach" misses the tag "Beach"). */
  lemma KeywordCaseIsFoldedTagCaseIsNot()
    ensures TagMatches("Beach", Tag("beach"))
    ensures !TagMatches("beach", Tag("Beach"))
  {
    assert ToLower("Beach") == "beach";
    assert ToLower("beach") == "beach";
  }
}
