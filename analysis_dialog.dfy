/**
 * The older analysis dialog, the one the editor opens: it strips the data-URL
 * header from the cropped image, sends the base64 payload to the vision
 * service once, and shows whether the result is a portrait.
 */
module AnalysisDialog {
  import opened Wrappers
  import opened Text
  import opened VisionAnalysis

  const PngPrefix: string := "data:image/png;base64,"
  const JpegPrefix: string := "data:image/jpeg;base64,"
  const JpgPrefix: string := "data:image/jpg;base64,"

  /** The alternatives of the regular expression, in the order it tries them
      (the JPEG alternative is written twice). */
  const PrefixAlternatives: seq<string> := [PngPrefix, JpegPrefix, JpgPrefix, JpegPrefix]

  /** The first alternative that matches at index 0 is removed; nothing else is. */
  function RemoveLeadingAlternative(url: string, alternatives: seq<string>): (r: string)
    ensures r == url
         || exists i :: 0 <= i < |alternatives| && StartsWith(url, alternatives[i]) && r == url[|alternatives[i]|..]
    ensures forall i :: 0 <= i < |alternatives| && StartsWith(url, alternatives[i])
                        && (forall j :: 0 <= j < i ==> !StartsWith(url, alternatives[j]))
                        ==> r == url[|alternatives[i]|..]
    ensures (forall i :: 0 <= i < |alternatives| ==> !StartsWith(url, alternatives[i])) ==> r == url
  {
    if alternatives == [] then url
    else if StartsWith(url, alternatives[0]) then url[|alternatives[0]|..]
    else
      var r := RemoveLeadingAlternative(url, alternatives[1..]);
      assert forall i :: 0 <= i < |alternatives[1..]| ==> alternatives[1..][i] == alternatives[i + 1];
      r
  }

  /** The letters that tell the three headers apart: index 11 is `p` or `j`, and
      for the two `j` headers index 13 is `e` or `g`. So at most one header begins a text. */
  lemma HeaderLetters(url: string)
    ensures StartsWith(url, PngPrefix) ==> url[11] == 'p'
    ensures StartsWith(url, JpegPrefix) ==> url[11] == 'j' && url[13] == 'e'
    ensures StartsWith(url, JpgPrefix) ==> url[11] == 'j' && url[13] == 'g'
  {
    if StartsWith(url, PngPrefix) {
      assert url[..|PngPrefix|][11] == url[11];
    }
    if StartsWith(url, JpegPrefix) {
      assert url[..|JpegPrefix|][11] == url[11] && url[..|JpegPrefix|][13] == url[13];
    }
    if StartsWith(url, JpgPrefix) {
      assert url[..|JpgPrefix|][11] == url[11] && url[..|JpgPrefix|][13] == url[13];
    }
  }

  /** `imageUrl.replace(/^data:image\/png;base64,|^data:image\/jpeg;base64,|^data:image\/jpg;base64,|^data:image\/jpeg;base64,/, '')`:
      the pattern is anchored and has no `g` flag, so at most one header is removed, and only at the start. */
  function StripDataUrlPrefix(url: string): (r: string)
    ensures forall p :: p in PrefixAlternatives && StartsWith(url, p) ==> r == url[|p|..]
    ensures (forall p :: p in PrefixAlternatives ==> !StartsWith(url, p)) ==> r == url
  {
    var alts := PrefixAlternatives;
    HeaderLetters(url);
    assert forall p :: p in alts <==> p == alts[0] || p == alts[1] || p == alts[2] || p == alts[3];
    RemoveLeadingAlternative(url, alts)
  }

  /** Removing the header of a PNG, JPEG or JPG data URL gives back exactly the
      payload, even when the payload itself starts with such a header. */
  lemma StripAfterPrefixRoundTrip(prefix: string, body: string)
    requires prefix == PngPrefix || prefix == JpegPrefix || prefix == JpgPrefix
    ensures StripDataUrlPrefix(prefix + body) == body
  {
    var url := prefix + body;
    assert url[..|prefix|] == prefix;
    assert url[|prefix|..] == body;
  }

  /** A GIF data URL matches none of the alternatives and is left as it is. */
  lemma GifDataUrlUnchanged(body: string)
    ensures StripDataUrlPrefix("data:image/gif;base64," + body) == "data:image/gif;base64," + body
  {
    var url := "data:image/gif;base64," + body;
    assert url[11] == 'g';
    assert !StartsWith(url, PngPrefix) && !StartsWith(url, JpegPrefix) && !StartsWith(url, JpgPrefix);
  }

  /** A text that does not begin with `d` is never changed, wherever a header occurs later in it. */
  lemma NotAtStartUnchanged(url: string)
    requires url != [] && url[0] != 'd'
    ensures StripDataUrlPrefix(url) == url
  {
    assert !StartsWith(url, PngPrefix) && !StartsWith(url, JpegPrefix) && !StartsWith(url, JpgPrefix);
  }

  /** `isIt`: the word used in the log lines for a yes/no flag. */
  function IsIt(flag: bool): (r: string)
    ensures flag <==> r == "is"
    ensures !flag <==> r == "isn't"
  {
    if flag then "is" else "isn't"
  }

  /** The visual features requested from the vision service. */
  const VisualFeatures: seq<string> :=
    ["Categories", "Adult", "Tags", "Description", "Faces", "Color", "ImageType", "Objects"]

  /** One `analyzeImageInStream` call: credentials, base64 payload and features.
      The component sends the bytes `Buffer` decodes from `base64Data`; base64
      decoding is not modelled, so the request carries the text. */
  datatype VisionRequest = VisionRequest(
    azureKey: Option<string>,
    azureEndpoint: Option<string>,
    base64Data: string,
    visualFeatures: seq<string>)

  class AnalysisDialogContent {
    const imageUrl: string
    const azureKey: Option<string>
    const azureEndpoint: Option<string>
    var isAnalyzing: bool
    var analysis: Option<Analysis>

    /** The two state fields change together: analysing until an analysis is held. */
    ghost predicate Valid()
      reads this
    {
      isAnalyzing <==> analysis.None?
    }

    constructor (imageUrl: string, azureKey: Option<string>, azureEndpoint: Option<string>)
      ensures Valid()
      ensures this.imageUrl == imageUrl && this.azureKey == azureKey && this.azureEndpoint == azureEndpoint
      ensures isAnalyzing && analysis == None
    {
      this.imageUrl := imageUrl;
      this.azureKey := azureKey;
      this.azureEndpoint := azureEndpoint;
      isAnalyzing := true;
      analysis := None;
    }

    /** The request `componentDidMount` sends: the stripped payload, with the dialog's credentials. */
    function Request(): (q: VisionRequest)
      reads this
      ensures q.base64Data == StripDataUrlPrefix(imageUrl) && q.visualFeatures == VisualFeatures
      ensures q.azureKey == azureKey && q.azureEndpoint == azureEndpoint
    {
      VisionRequest(azureKey, azureEndpoint, StripDataUrlPrefix(imageUrl), VisualFeatures)
    }

    /** `componentDidMount`, with the vision service as a parameter: `None` is a
        rejected call, after which the state stays as it was. */
    method ComponentDidMount(analyzeImageInStream: VisionRequest -> Option<Analysis>)
      requires Valid()
      modifies this
      ensures Valid()
      ensures old(isAnalyzing) && analyzeImageInStream(Request()).Some? ==>
                !isAnalyzing && analysis == analyzeImageInStream(Request())
      ensures !(old(isAnalyzing) && analyzeImageInStream(Request()).Some?) ==> unchanged(this)
    {
      if isAnalyzing {
        var base64data := StripDataUrlPrefix(imageUrl);
        var response := analyzeImageInStream(VisionRequest(azureKey, azureEndpoint, base64data, VisualFeatures));
        if response.Some? {
          isAnalyzing := false;
          analysis := response;
        }
      }
    }

    /** The "Portrait" line of the rendered list: false while no analysis is held. */
    function PortraitShown(): (portrait: bool)
      reads this
      ensures portrait ==> analysis.Some?
    {
      IsPortrait(analysis)
    }
  }

  /** `AnalysisPanelDialog`: holds what the editor passes and renders the content with it. */
  class AnalysisPanelDialog {
    const imageUrl: string
    const azureKey: Option<string>
    const azureEndpoint: Option<string>

    constructor (imageUrl: string, azureKey: Option<string>, azureEndpoint: Option<string>)
      ensures this.imageUrl == imageUrl && this.azureKey == azureKey && this.azureEndpoint == azureEndpoint
    {
      this.imageUrl := imageUrl;
      this.azureKey := azureKey;
      this.azureEndpoint := azureEndpoint;
    }

    method Render() returns (content: AnalysisDialogContent)
      ensures fresh(content) && content.Valid() && content.isAnalyzing
      ensures content.imageUrl == imageUrl && content.azureKey == azureKey && content.azureEndpoint == azureEndpoint
    {
      content := new AnalysisDialogContent(imageUrl, azureKey, azureEndpoint);
    }
  }
}
