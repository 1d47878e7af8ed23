/**
 * The newer analysis dialog: its state, the one-shot evaluation it runs when
 * it mounts, the gate on its Update button and the requests its Update
 * handler issues. The verdict it stores is the one `PhotoPolicy.Evaluate`
 * defines; the keyword list is built by a loop, as in the component.
 */
module EvaluationDialog {
  import opened Wrappers
  import opened VisionAnalysis
  import opened PhotoPolicy
  import DataUrl

  /** The `forEach` / `push` loop over the forbidden keywords, guarded by
      `forbiddenKeywords && forbiddenKeywords.length > 0`. */
  method CollectInvalidKeywords(forbiddenKeywords: Option<seq<string>>, tags: seq<Tag>)
    returns (invalidKeywords: seq<string>)
    ensures invalidKeywords == InvalidKeywords(if forbiddenKeywords.Some? then forbiddenKeywords.value else [], tags)
  {
    invalidKeywords := [];
    if forbiddenKeywords.Some? && |forbiddenKeywords.value| > 0 {
      var keywords := forbiddenKeywords.value;
      var i := 0;
      while i < |keywords|
        invariant 0 <= i <= |keywords|
        invariant invalidKeywords == InvalidKeywords(keywords[..i], tags)
      {
        var keyword := keywords[i];
        assert keywords[..i + 1] == keywords[..i] + [keyword];
        InvalidKeywordsSnoc(keywords[..i], keyword, tags);
        if HasMatchingTag(keyword, tags) {
          invalidKeywords := invalidKeywords + [keyword];
        }
        i := i + 1;
      }
      assert keywords[..i] == keywords;
    }
  }

  /** The remote requests of the Update handler, in the order they are started;
      `Await` marks where the handler waits for a request to settle. */
  datatype ProfileRequest =
    | GetAboutMe          // getValue: read the AboutMe profile property
    | SetAboutMe          // updateSingleUPValue: write the AboutMe profile property
    | PostProfilePicture  // updateProfilePic: REST upload of the picture
    | SetMyProfilePic     // sp.profiles.setMyProfilePic, whose success dismisses the dialog

  datatype RequestEvent = Start(request: ProfileRequest) | Await(request: ProfileRequest)

  /** The start of one of the two picture uploads. */
  predicate IsPictureUpload(e: RequestEvent) {
    e.Start? && (e.request == PostProfilePicture || e.request == SetMyProfilePic)
  }

  /** The part of the web part context the Update handler reads: the site URL and the
      user's login name. Only whether it was supplied decides which requests start. */
  datatype SiteContext = SiteContext(absoluteUrl: string, loginName: string)

  /** What the Update handler starts, and whether its own promise rejects. */
  datatype UpdateOutcome = UpdateOutcome(events: seq<RequestEvent>, rejected: bool)

  /** The handler's outcome for the two props it reads and the props type does not declare. */
  function UpdateTrace(hasContext: bool, hasBlob: bool): (o: UpdateOutcome)
    ensures o.rejected <==> !hasContext
    ensures !hasContext ==> o.events == []
    ensures hasContext && hasBlob ==>
              o.events == [Start(GetAboutMe), Await(GetAboutMe), Start(SetAboutMe), Await(SetAboutMe),
                           Start(PostProfilePicture), Start(SetMyProfilePic)]
    ensures hasContext && !hasBlob ==>
              o.events == [Start(GetAboutMe), Await(GetAboutMe), Start(SetAboutMe), Await(SetAboutMe),
                           Start(SetMyProfilePic)]
  {
    if !hasContext then UpdateOutcome([], true)
    else if hasBlob then
      UpdateOutcome([Start(GetAboutMe), Await(GetAboutMe), Start(SetAboutMe), Await(SetAboutMe),
                     Start(PostProfilePicture), Start(SetMyProfilePic)], false)
    else
      UpdateOutcome([Start(GetAboutMe), Await(GetAboutMe), Start(SetAboutMe), Await(SetAboutMe),
                     Start(SetMyProfilePic)], false)
  }

  class AnalysisDialogContent {
    const photoRequirements: Policy
    /** `props.context` and `props.blob`, read by the Update handler; either may be undefined. */
    const context: Option<SiteContext>
    const blob: Option<DataUrl.Blob>
    var isAnalyzing: bool
    var analysis: Option<Analysis>
    var isValid: bool
    /** The per-criterion fields of the state, all undefined until the evaluation ran. */
    var verdict: Option<Verdict>

    /** The state only ever holds the initial values or one stored evaluation. */
    ghost predicate Valid()
      reads this
    {
      && (isAnalyzing <==> verdict.None?)
      && (analysis.Some? <==> verdict.Some?)
      && (verdict.Some? ==> verdict.value == Evaluate(analysis.value, photoRequirements))
      && isValid == (verdict.Some? && verdict.value.isValid)
    }

    constructor (photoRequirements: Policy, context: Option<SiteContext>, blob: Option<DataUrl.Blob>)
      ensures Valid()
      ensures this.photoRequirements == photoRequirements && this.context == context && this.blob == blob
      ensures isAnalyzing && analysis == None && !isValid && verdict == None
    {
      this.photoRequirements := photoRequirements;
      this.context := context;
      this.blob := blob;
      isAnalyzing := true;
      analysis := None;
      isValid := false;
      verdict := None;
    }

    /** `componentDidMount`, given what the analysis service resolved to. An
        absent response makes the read of `analysis.faces` throw: the promise
        rejects (`rejected`) and the state is left as it was. */
    method ComponentDidMount(response: Option<Analysis>) returns (rejected: bool)
      requires Valid()
      modifies this
      ensures Valid()
      ensures rejected <==> old(isAnalyzing) && response.None?
      ensures old(isAnalyzing) && response.Some? ==>
                && !isAnalyzing
                && analysis == response
                && verdict == Some(Evaluate(response.value, photoRequirements))
      ensures !(old(isAnalyzing) && response.Some?) ==> unchanged(this)
    {
      rejected := false;
      if isAnalyzing {
        if response.None? {
          rejected := true;
          return;
        }
        var a := response.value;
        var policy := photoRequirements;
        var isPortrait := IsPortrait(response);
        var isPortraitValid := if policy.requirePortrait then isPortrait else true;
        var onlyOnePersonValid := |a.faces| == 1;
        var isClipartValid := if policy.allowClipart then true else a.imageType.clipArtType == 0;
        var isLinedrawingValid := if policy.allowLinedrawing then true else a.imageType.lineDrawingType == 0;
        var isAdultValid := if policy.allowAdult then true else !a.adult.isAdultContent;
        var isRacyValid := if policy.allowRacy then true else !a.adult.isRacyContent;
        var isGoryValid := if policy.allowGory then true else !a.adult.isGoryContent;
        var invalidKeywords := CollectInvalidKeywords(policy.forbiddenKeywords, a.tags);
        var keywordsValid := |invalidKeywords| < 1;
        var valid := isPortraitValid && onlyOnePersonValid && isClipartValid && isLinedrawingValid
                     && isAdultValid && isRacyValid && isGoryValid && keywordsValid;
        isAnalyzing := false;
        analysis := response;
        isValid := valid;
        verdict := Some(Verdict(isPortrait, isPortraitValid, onlyOnePersonValid, isClipartValid,
                                isLinedrawingValid, isAdultValid, isRacyValid, isGoryValid,
                                keywordsValid, invalidKeywords, valid));
      }
    }

    /** `disabled={this.state.isValid !== true}` on the Update button. */
    function UpdateButtonDisabled(): (disabled: bool)
      requires Valid()
      reads this
      ensures !disabled <==> analysis.Some? && Accepts(analysis.value, photoRequirements)
    {
      if analysis.Some? then
        EvaluateAgreesWithAccepts(analysis.value, photoRequirements);
        isValid != true
      else
        isValid != true
    }

    /** `onUpdateProfilePhoto`: it does not consult `isValid`, so whoever calls it
        issues the same requests. Only the first two are awaited; the REST
        upload and `setMyProfilePic` are started one after the other and left
        running, and a failure of any of them is only logged.
        Without a context, `getValue` throws at its first read of it: the handler
        rejects (`rejected`) before any request starts. Without a blob, the
        unawaited `updateProfilePic` throws at `buffer.byteLength` before it posts,
        and the handler goes on to start `setMyProfilePic`. */
    method OnUpdateProfilePhoto() returns (events: seq<RequestEvent>, rejected: bool)
      ensures UpdateOutcome(events, rejected) == UpdateTrace(context.Some?, blob.Some?)
      // the property update has settled before either picture upload starts
      ensures forall i, j ::
                (0 <= i < |events| && 0 <= j < |events| && events[i] == Await(SetAboutMe) && IsPictureUpload(events[j]))
                ==> i < j
      // every request waited for was started earlier
      ensures forall j :: 0 <= j < |events| && events[j].Await? ==>
                exists i :: 0 <= i < j && events[i] == Start(events[j].request)
      // only the two property requests are waited for
      ensures forall k :: 0 <= k < |events| && events[k].Await? ==>
                events[k].request == GetAboutMe || events[k].request == SetAboutMe
      // a picture upload starts only when the context was there
      ensures (exists j :: 0 <= j < |events| && IsPictureUpload(events[j])) ==> context.Some?
    {
      events := [];
      rejected := false;
      if context.None? {
        rejected := true;
        return;
      }
      events := [Start(GetAboutMe), Await(GetAboutMe)];
      events := events + [Start(SetAboutMe), Await(SetAboutMe)];
      if blob.Some? {
        events := events + [Start(PostProfilePicture)];
      }
      events := events + [Start(SetMyProfilePic)];
      assert events[0] == Start(GetAboutMe) && events[2] == Start(SetAboutMe);
    }
  }

  /** A fresh dialog has its Update button disabled; after one evaluation the button
      is enabled exactly when the photo is acceptable, and a second mount changes nothing. */
  method EvaluationRunsOnce(
    policy: Policy, context: Option<SiteContext>, blob: Option<DataUrl.Blob>,
    response: Analysis, later: Option<Analysis>)
    returns (d: AnalysisDialogContent)
    ensures d.Valid() && d.verdict == Some(Evaluate(response, policy))
    ensures !d.UpdateButtonDisabled() <==> Accepts(response, policy)
  {
    d := new AnalysisDialogContent(policy, context, blob);
    assert d.UpdateButtonDisabled();
    var rejected := d.ComponentDidMount(Some(response));
    assert !rejected;
    rejected := d.ComponentDidMount(later);
    assert !rejected;
  }
}
