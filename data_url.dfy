/**
 * `dataURLtoBlob` of the newer analysis dialog: split a data URL at its
 * commas, read the MIME type with the regular expression `/:(.*?);/`, decode
 * the payload with `atob` and copy the decoded code units into a byte array.
 * `atob` is not modelled: it is a parameter, `None` standing for the
 * exception it throws on malformed input.
 */
module DataUrl {
  import opened Wrappers
  import opened Text

  newtype byte = x: int | 0 <= x < 0x100

  /** One UTF-16 code unit, what `charCodeAt` returns. */
  newtype CodeUnit = x: int | 0 <= x < 0x1_0000

  /** The characters `.` does not match in a JavaScript regular expression. */
  predicate IsLineTerminator(c: char) {
    c == '\n' || c == '\r' || c == '\U{2028}' || c == '\U{2029}'
  }

  /** `.*?` may run over `t`: no line terminator in it. */
  predicate OnOneLine(t: string) {
    forall k :: 0 <= k < |t| ==> !IsLineTerminator(t[k])
  }

  /** The pattern can match with its `:` at index `p`: a `;` follows on the same line. */
  predicate MatchesAt(s: string, p: nat) {
    p < |s| && s[p] == ':' && exists j :: p < j < |s| && s[j] == ';' && OnOneLine(s[p + 1..j])
  }

  /** `m` is the captured group of a match whose `:` is at `p`: the shortest run up to a `;`. */
  predicate GroupAt(s: string, p: nat, m: string) {
    && p + |m| + 1 < |s|
    && s[p] == ':'
    && s[p + 1..p + 1 + |m|] == m
    && s[p + 1 + |m|] == ';'
    && ';' !in m
    && OnOneLine(m)
  }

  /** The lazy `(.*?);` from index `i`: the index of the first `;`, unless a line
      terminator or the end of the text comes first. */
  function LazyGroupEnd(s: string, i: nat): (r: Option<nat>)
    decreases |s| - i
    ensures r.Some? ==> i <= r.value < |s| && s[r.value] == ';' && ';' !in s[i..r.value] && OnOneLine(s[i..r.value])
    ensures r.None? ==> forall j :: i <= j < |s| && s[j] == ';' ==> !OnOneLine(s[i..j])
  {
    if i >= |s| then None
    else if s[i] == ';' then Some(i)
    else if IsLineTerminator(s[i]) then
      assert forall j :: i < j < |s| ==> s[i..j][0] == s[i];
      None
    else
      var r := LazyGroupEnd(s, i + 1);
      if r.Some? then
        assert s[i..r.value] == [s[i]] + s[i + 1..r.value];
        r
      else
        assert forall j :: i < j < |s| ==> s[i..j][1..] == s[i + 1..j];
        r
  }

  /** The search of `String.prototype.match`, trying each start position from `p` on. */
  function MatchFrom(s: string, p: nat): (r: Option<string>)
    decreases |s| - p
    ensures r.Some? ==> exists q :: p <= q && GroupAt(s, q, r.value) && forall q' :: p <= q' < q ==> !MatchesAt(s, q')
    ensures r.None? ==> forall q :: p <= q < |s| ==> !MatchesAt(s, q)
  {
    if p >= |s| then None
    else if s[p] == ':' && LazyGroupEnd(s, p + 1).Some? then
      var end := LazyGroupEnd(s, p + 1).value;
      assert GroupAt(s, p, s[p + 1..end]);
      Some(s[p + 1..end])
    else
      MatchFrom(s, p + 1)
  }

  /** `s.match(/:(.*?);/)`, reduced to its group 1; `None` when there is no match. */
  function MimeMatch(s: string): (r: Option<string>)
    ensures r.Some? ==> ';' !in r.value && OnOneLine(r.value)
    ensures r.Some? ==> exists q: nat :: GroupAt(s, q, r.value) && forall q': nat :: q' < q ==> !MatchesAt(s, q')
    ensures r.None? <==> forall q: nat :: q < |s| ==> !MatchesAt(s, q)
  {
    var r := MatchFrom(s, 0);
    if r.Some? then
      var q :| 0 <= q && GroupAt(s, q, r.value) && forall q' :: 0 <= q' < q ==> !MatchesAt(s, q');
      assert MatchesAt(s, q) by {
        assert s[q + 1..q + 1 + |r.value|] == r.value;
      }
      r
    else
      r
  }

  datatype Blob = Blob(bytes: seq<byte>, mimeType: string)

  datatype BlobError =
    | NoMimeType    // `match` returned null, so taking `[1]` throws
    | DecodeFailed  // `atob` threw

  /** `arr[1]` as `atob` receives it: without a comma it is `undefined`, which
      `atob` turns into the string "undefined". */
  function Payload(dataurl: string): (b: string)
    ensures |Split(dataurl, ',')| >= 2 ==> b == Split(dataurl, ',')[1]
    ensures ',' !in dataurl ==> b == "undefined"
    ensures ',' !in b
  {
    var arr := Split(dataurl, ',');
    if ',' !in dataurl then
      SplitWithoutSeparator(dataurl, ',');
      "undefined"
    else if |arr| >= 2 then arr[1]
    else "undefined"
  }

  /** Storing a code unit into a `Uint8Array` keeps its low eight bits. */
  function ToByte(u: CodeUnit): (b: byte)
    ensures b as int == u as int % 256
  {
    (u as int % 256) as byte
  }

  method DataUrlToBlob(dataurl: string, atob: string -> Option<seq<CodeUnit>>)
    returns (r: Result<Blob, BlobError>)
    ensures MimeMatch(Split(dataurl, ',')[0]).None? ==> r == Err(NoMimeType)
    ensures MimeMatch(Split(dataurl, ',')[0]).Some? && atob(Payload(dataurl)).None? ==> r == Err(DecodeFailed)
    ensures MimeMatch(Split(dataurl, ',')[0]).Some? && atob(Payload(dataurl)).Some? ==>
              && r.Ok?
              && r.value.mimeType == MimeMatch(Split(dataurl, ',')[0]).value
              && |r.value.bytes| == |atob(Payload(dataurl)).value|
              && forall i :: 0 <= i < |r.value.bytes| ==>
                   r.value.bytes[i] as int == atob(Payload(dataurl)).value[i] as int % 256
  {
    var arr := Split(dataurl, ',');
    var mime := MimeMatch(arr[0]);
    if mime.None? {
      return Err(NoMimeType);
    }
    var decoded := atob(if |arr| >= 2 then arr[1] else "undefined");
    if decoded.None? {
      return Err(DecodeFailed);
    }
    var bstr := decoded.value;
    var n := |bstr|;
    var u8arr := new byte[n];
    while n != 0
      invariant 0 <= n <= |bstr| == u8arr.Length
      invariant forall k :: n <= k < |bstr| ==> u8arr[k] as int == bstr[k] as int % 256
    {
      n := n - 1;
      u8arr[n] := ToByte(bstr[n]);
    }
    return Ok(Blob(u8arr[..], mime.value));
  }

  /** `LazyGroupEnd` over a run with no `;` and no line terminator stops at the `;` after it. */
  lemma {:induction false} LazyGroupEndOverRun(s: string, i: nat, j: nat)
    requires i <= j < |s| && s[j] == ';'
    requires forall k :: i <= k < j ==> s[k] != ';' && !IsLineTerminator(s[k])
    ensures LazyGroupEnd(s, i) == Some(j)
    decreases j - i
  {
    if i < j {
      LazyGroupEndOverRun(s, i + 1, j);
    }
  }

  /** The part before the first comma of `data:<mime>;base64` yields `<mime>`. */
  lemma {:induction false} HeaderMimeMatch(head: string, mime: string)
    requires ';' !in mime && OnOneLine(mime)
    requires head == "data:" + mime + ";base64"
    ensures MimeMatch(head) == Some(mime)
  {
    assert forall k :: 5 <= k < 5 + |mime| ==> head[k] == mime[k - 5];
    LazyGroupEndOverRun(head, 5, 5 + |mime|);
    assert head[5..5 + |mime|] == mime;
    assert MatchFrom(head, 4) == Some(mime);
    assert MatchFrom(head, 0) == MatchFrom(head, 1) == MatchFrom(head, 2) == MatchFrom(head, 3);
  }

  /** A data URL built from a MIME type and a comma-free payload reads back as
      that MIME type and that payload. */
  lemma {:induction false} WellFormedDataUrlReadsBack(url: string, mime: string, body: string)
    requires ',' !in mime && ';' !in mime && OnOneLine(mime)
    requires ',' !in body
    requires url == "data:" + mime + ";base64," + body
    ensures MimeMatch(Split(url, ',')[0]) == Some(mime)
    ensures Payload(url) == body
  {
    var head := "data:" + mime + ";base64";
    assert url == head + "," + body;
    assert url[|head|] == ',';
    assert url[..|head|] == head;
    assert url[|head| + 1..] == body;
    SplitAtFirst(url, ',', |head|);
    SplitWithoutSeparator(body, ',');
    assert Split(url, ',')[0] == head;
    assert Split(url, ',')[1] == body;
    HeaderMimeMatch(head, mime);
  }

  /** The canvas output of the editor: a PNG data URL yields the MIME type `image/png`. */
  lemma PngDataUrlMimeType(url: string, body: string)
    requires ',' !in body
    requires url == "data:image/png;base64," + body
    ensures MimeMatch(Split(url, ',')[0]) == Some("image/png")
    ensures Payload(url) == body
  {
    var mime := "image/png";
    assert ',' !in mime && ';' !in mime && OnOneLine(mime);
    assert url == "data:" + mime + ";base64," + body;
    WellFormedDataUrlReadsBack(url, mime, body);
  }
}
