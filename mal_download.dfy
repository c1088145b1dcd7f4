/** Downloading a cover from MyAnimeList (src/content/myanimelist/index.ts,
    `downloadCover`): the image URL read from the element, the candidate URLs
    probed with HEAD requests best first, a GET of the original URL as the
    last resort, the file extension from the content type, the cleaned file
    name, and the download of the chosen URL. The network is three functions
    from a URL to a reply, one per kind of request; the toasts shown are
    returned as a list. */
module MalDownload {
  import opened Wrappers
  import opened Strings
  import opened Seqs
  import MalUrls

  /** What a request comes back with: a response with its status, its
      `content-type` header when there is one and the size of its body, or a
      thrown error with its message. */
  datatype Reply = Response(status: nat, contentType: Option<string>, size: nat) | NetworkError(message: string)

  /** `response.ok`: a status from 200 to 299. */
  predicate IsOk(r: Reply) {
    r.Response? && 200 <= r.status <= 299
  }

  /** The test applied to each candidate: its HEAD reply is ok. */
  function AnswersHead(head: string -> Reply): string -> bool {
    (u: string) => IsOk(head(u))
  }

  /** `err?.message || 'Unknown error'`. */
  function MessageOr(m: string): (r: string)
    ensures r != []
    ensures m != [] ==> r == m
  {
    if m == [] then "Unknown error" else m
  }

  /** The attributes the image URL is read from. An absent attribute is
      `None`; a present but empty one counts as absent, as `||` does. */
  datatype ImageAttrs = ImageAttrs(datasetSrc: Option<string>, dataSrc: Option<string>, dataImage: Option<string>,
                                   src: string)

  predicate Truthy(o: Option<string>) {
    o.Some? && o.value != []
  }

  /** `dataset.src || data-src || data-image || src`, and the error when all
      of them are empty. */
  function PickImageUrl(img: ImageAttrs): (r: Result<string>)
    ensures r.Ok? <==> Truthy(img.datasetSrc) || Truthy(img.dataSrc) || Truthy(img.dataImage) || img.src != []
    ensures r.Ok? ==> r.value != []
    ensures Truthy(img.datasetSrc) ==> r == Ok(img.datasetSrc.value)
    ensures !Truthy(img.datasetSrc) && Truthy(img.dataSrc) ==> r == Ok(img.dataSrc.value)
    ensures !Truthy(img.datasetSrc) && !Truthy(img.dataSrc) && Truthy(img.dataImage) ==> r == Ok(img.dataImage.value)
    ensures r.Err? ==> r.message == "Could not find image URL"
  {
    if Truthy(img.datasetSrc) then Ok(img.datasetSrc.value)
    else if Truthy(img.dataSrc) then Ok(img.dataSrc.value)
    else if Truthy(img.dataImage) then Ok(img.dataImage.value)
    else if img.src != [] then Ok(img.src)
    else Err("Could not find image URL")
  }

  /** The URL chosen to download from and the reply it was chosen on. */
  datatype Source = Source(url: string, contentType: Option<string>)

  /** The outcome of the probing: the first candidate whose HEAD reply is
      ok; when there is none, the original URL if a GET of it is ok; the
      error that ends the download otherwise. */
  function ProbeOutcome(possibleUrls: seq<string>, imgUrl: string, head: string -> Reply, get: string -> Reply)
    : (r: Result<Source>)
    ensures r.Ok? ==> r.value.url in possibleUrls || (r.value.url == imgUrl && IsOk(get(imgUrl)))
  {
    var k := FindIndex(possibleUrls, AnswersHead(head));
    if k != -1 then Ok(Source(possibleUrls[k], head(possibleUrls[k]).contentType))
    else
      match get(imgUrl)
      case Response(status, contentType, _) =>
        if 200 <= status <= 299 then Ok(Source(imgUrl, contentType))
        else Err("All image URLs failed: Failed to fetch image: HTTP " + NatToString(status))
      case NetworkError(m) => Err("All image URLs failed: " + MessageOr(m))
  }

  /** The error that ends the probing when the GET of the original URL
      fails: the network error's message, or the HTTP status. */
  function ProbeError(reply: Reply): (m: string)
    ensures m != []
  {
    match reply
    case Response(status, _, _) => "All image URLs failed: Failed to fetch image: HTTP " + NatToString(status)
    case NetworkError(m) => "All image URLs failed: " + MessageOr(m)
  }

  /** The probing loop and its fallback. One message is logged for every
      candidate that failed before the chosen one, or for all of them when
      none answered. */
  method SelectSource(possibleUrls: seq<string>, imgUrl: string, head: string -> Reply, get: string -> Reply)
    returns (r: Result<Source>, errorMessages: seq<string>)
    ensures r == ProbeOutcome(possibleUrls, imgUrl, head, get)
    ensures var k := FindIndex(possibleUrls, AnswersHead(head));
            |errorMessages| == if k == -1 then |possibleUrls| else k
  {
    var response: Option<Reply> := None;
    var highQualityUrl: Option<string> := None;
    errorMessages := [];
    var i := 0;
    while i < |possibleUrls|
      invariant 0 <= i <= |possibleUrls|
      invariant forall j :: 0 <= j < i ==> !IsOk(head(possibleUrls[j]))
      invariant |errorMessages| == i
      invariant highQualityUrl == None
      invariant response.Some? ==> response.value.Response?
    {
      var url := possibleUrls[i];
      var reply := head(url);
      if reply.Response? {
        response := Some(reply);
        if IsOk(reply) {
          highQualityUrl := Some(url);
          break;
        }
        errorMessages := errorMessages + ["URL " + url + " returned status " + NatToString(reply.status)];
      } else {
        errorMessages := errorMessages + ["Error fetching " + url + ": " + MessageOr(reply.message)];
      }
      i := i + 1;
    }
    if highQualityUrl.None? {
      var reply := get(imgUrl);
      if reply.NetworkError? {
        r := Err("All image URLs failed: " + MessageOr(reply.message));
        return;
      }
      response := Some(reply);
      if IsOk(reply) {
        highQualityUrl := Some(imgUrl);
      } else {
        r := Err("All image URLs failed: Failed to fetch image: HTTP " + NatToString(reply.status));
        return;
      }
    }
    // The `!response` guard of the source never fires: every path that gets
    // here has stored the reply it succeeded on.
    assert response.Some? && IsOk(response.value);
    r := Ok(Source(highQualityUrl.value, response.value.contentType));
  }

  /** `headers.get('content-type') || 'image/jpeg'`. */
  function ContentTypeOr(contentType: Option<string>): (t: string)
    ensures t != []
    ensures Truthy(contentType) ==> t == contentType.value
  {
    if Truthy(contentType) then contentType.value else "image/jpeg"
  }

  /** The file extension for a content type: the first of `png`, `webp` and
      `gif` that the type mentions, `.jpg` otherwise. */
  function ExtensionFor(contentType: string): (ext: string)
    ensures ext in [".png", ".webp", ".gif", ".jpg"]
    ensures forall i :: 0 <= i < |ext| ==> !IsReserved(ext[i])
    ensures ext == ".png" <==> Contains(contentType, "png")
    ensures ext == ".webp" <==> !Contains(contentType, "png") && Contains(contentType, "webp")
    ensures ext == ".gif" <==> !Contains(contentType, "png") && !Contains(contentType, "webp") && Contains(contentType, "gif")
  {
    if Contains(contentType, "png") then ".png"
    else if Contains(contentType, "webp") then ".webp"
    else if Contains(contentType, "gif") then ".gif"
    else ".jpg"
  }

  /** PNG and WebP replies get their own extension. */
  lemma ExtensionOfPngAndWebp()
    ensures ExtensionFor("image/png") == ".png"
    ensures ExtensionFor("image/webp") == ".webp"
  {
    assert OccursAt("image/png", "png", 6);
    MissingCharNotContained("image/webp", "png", 'n');
    assert OccursAt("image/webp", "webp", 6);
  }

  /** GIF replies get `.gif`. */
  lemma ExtensionOfGif()
    ensures ExtensionFor("image/gif") == ".gif"
  {
    MissingCharNotContained("image/gif", "png", 'n');
    MissingCharNotContained("image/gif", "webp", 'w');
    assert OccursAt("image/gif", "gif", 6);
  }

  /** JPEG replies, and replies without a content type, are saved as
      `.jpg`. */
  lemma ExtensionOfJpeg()
    ensures ExtensionFor("image/jpeg") == ".jpg"
    ensures ExtensionFor(ContentTypeOr(None)) == ".jpg"
  {
    JpegMentionsNoOther();
    assert ContentTypeOr(None) == "image/jpeg";
  }

  lemma JpegMentionsNoOther()
    ensures !Contains("image/jpeg", "png") && !Contains("image/jpeg", "webp") && !Contains("image/jpeg", "gif")
  {
    MissingCharNotContained("image/jpeg", "png", 'n');
    MissingCharNotContained("image/jpeg", "webp", 'w');
    MissingCharNotContained("image/jpeg", "gif", 'f');
  }

  /** The characters `/[\\/:*?"<>|]/` matches: those file systems refuse in
      a file name. */
  predicate IsReserved(c: char) {
    c == '\\' || c == '/' || c == ':' || c == '*' || c == '?' || c == '"' || c == '<' || c == '>' || c == '|'
  }

  /** The title with every reserved character turned into `_` and the
      surrounding whitespace trimmed. */
  function CleanTitle(title: string): (t: string)
    ensures forall i :: 0 <= i < |t| ==> !IsReserved(t[i])
    ensures |t| <= |title|
    ensures t == [] || (!IsWhitespace(t[0]) && !IsWhitespace(t[|t| - 1]))
  {
    var replaced := ReplaceChars(title, IsReserved, '_');
    TrimKeepsUnreserved(replaced);
    Trim(replaced)
  }

  /** Trimming a string free of reserved characters leaves one. */
  lemma TrimKeepsUnreserved(s: string)
    requires forall i :: 0 <= i < |s| ==> !IsReserved(s[i])
    ensures forall i :: 0 <= i < |Trim(s)| ==> !IsReserved(Trim(s)[i])
  {
    var t := Trim(s);
    var k := LeadingSpace(s);
    TrimIsSlice(s);
    forall i | 0 <= i < |t|
      ensures !IsReserved(t[i])
    {
      assert t[i] == s[k + i];
    }
  }

  /** What cleaning keeps: the title without the whitespace around it, one
      character for one, every reserved character turned into `_` and every
      other character unchanged. */
  lemma CleanTitleKeepsCharacters(title: string)
    ensures var t, k := CleanTitle(title), LeadingSpace(title);
            && |t| == |Trim(title)| && k + |t| <= |title|
            && (forall i :: 0 <= i < |t| ==> t[i] == if IsReserved(title[k + i]) then '_' else title[k + i])
            && AllWhitespace(title[..k]) && AllWhitespace(title[k + |t|..])
  {
    CleanTitleIsReplacedSlice(title);
    var t, k := CleanTitle(title), LeadingSpace(title);
    assert |t| == |Trim(title)|;
    TrimIsSlice(title);
  }

  /** The cleaned title is the slice of the replaced title that trimming the
      original title keeps. */
  lemma CleanTitleIsReplacedSlice(title: string)
    ensures var t, k := CleanTitle(title), LeadingSpace(title);
            && |t| == |Trim(title)| && k + |t| <= |title|
            && (forall i :: 0 <= i < |t| ==> t[i] == if IsReserved(title[k + i]) then '_' else title[k + i])
  {
    TrimReplaceChars(title, IsReserved, '_');
  }

  /** Cleaning a cleaned title changes nothing. */
  lemma CleanTitleIdempotent(title: string)
    ensures CleanTitle(CleanTitle(title)) == CleanTitle(title)
  {
    var t := CleanTitle(title);
    var replaced := ReplaceChars(title, IsReserved, '_');
    assert ReplaceChars(t, IsReserved, '_') == t;
    TrimIdempotent(replaced);
  }

  /** How a download ends: saved under a file name, from a URL, with the
      type and size of the data; or failed with the message of the error. */
  datatype Outcome = Saved(filename: string, url: string, contentType: string, size: nat) | Failed(message: string)

  datatype ToastKind = Default | Info | Warning | Error

  datatype Toast = Toast(message: string, kind: ToastKind)

  /** The last step of a download: the GET of the chosen URL, which must be
      ok and not empty, saved under the cleaned title with the extension of
      the content type. */
  function SaveFrom(source: Source, title: string, download: string -> Reply): (o: Outcome)
    ensures o.Saved? ==> o.url == source.url && o.size > 0 && IsOk(download(source.url))
    ensures o.Saved? ==> o.filename == CleanTitle(title) + ExtensionFor(o.contentType)
  {
    var contentType := ContentTypeOr(source.contentType);
    var filename := CleanTitle(title) + ExtensionFor(contentType);
    match download(source.url)
    case NetworkError(m) => Failed(MessageOr(m))
    case Response(status, _, size) =>
      if !(200 <= status <= 299) then Failed("Failed to download image: HTTP " + NatToString(status))
      else if size == 0 then Failed("Downloaded image is empty")
      else Saved(filename, source.url, contentType, size)
  }

  /** The outcome of a download, step by step as the source goes: the image
      URL, the probing of its candidates, then the GET of the chosen URL. */
  function DownloadOutcome(img: ImageAttrs, title: string, head: string -> Reply, get: string -> Reply,
                           download: string -> Reply): (o: Outcome)
    ensures PickImageUrl(img).Err? ==> o == Failed("Could not find image URL")
    ensures o.Saved? ==> PickImageUrl(img).Ok?
  {
    match PickImageUrl(img)
    case Err(m) => Failed(m)
    case Ok(imgUrl) =>
      match ProbeOutcome(MalUrls.Candidates(imgUrl), imgUrl, head, get)
      case Err(m) => Failed(m)
      case Ok(source) => SaveFrom(source, title, download)
  }

  /** The toast that closes a download. */
  function FinalToast(outcome: Outcome, title: string): Toast {
    match outcome
    case Saved(_, _, _, _) => Toast("Cover for \"" + title + "\" downloaded successfully!", Default)
    case Failed(m) => Toast("Failed to download: " + MessageOr(m), Error)
  }

  /** `downloadCover`: every error is caught and shown as a toast, so the
      caller always gets control back. */
  method DownloadCover(img: ImageAttrs, title: string, head: string -> Reply, get: string -> Reply,
                       download: string -> Reply)
    returns (outcome: Outcome, toasts: seq<Toast>)
    ensures outcome == DownloadOutcome(img, title, head, get, download)
    ensures toasts == [Toast("Preparing to download cover for \"" + title + "\"...", Info), FinalToast(outcome, title)]
  {
    toasts := [Toast("Preparing to download cover for \"" + title + "\"...", Info)];
    var picked := PickImageUrl(img);
    if picked.Err? {
      outcome := Failed(picked.message);
    } else {
      var imgUrl := picked.value;
      var possibleUrls := MalUrls.BuildCandidateUrls(imgUrl);
      var probe, _ := SelectSource(possibleUrls, imgUrl, head, get);
      if probe.Err? {
        outcome := Failed(probe.message);
      } else {
        var contentType := ContentTypeOr(probe.value.contentType);
        var filename := CleanTitle(title) + ExtensionFor(contentType);
        var imgResponse := download(probe.value.url);
        if imgResponse.NetworkError? {
          outcome := Failed(MessageOr(imgResponse.message));
        } else if !IsOk(imgResponse) {
          outcome := Failed("Failed to download image: HTTP " + NatToString(imgResponse.status));
        } else if imgResponse.size == 0 {
          outcome := Failed("Downloaded image is empty");
        } else {
          outcome := Saved(filename, probe.value.url, contentType, imgResponse.size);
        }
      }
    }
    toasts := toasts + [FinalToast(outcome, title)];
  }

  /** A successful probe picks the first candidate whose HEAD reply is ok,
      every better one having failed, or, when no candidate answered, the
      original URL (the last candidate) answering a GET. */
  lemma ProbeChoosesFirstAnswering(possibleUrls: seq<string>, imgUrl: string, head: string -> Reply, get: string -> Reply)
    requires possibleUrls != [] && possibleUrls[|possibleUrls| - 1] == imgUrl
    requires ProbeOutcome(possibleUrls, imgUrl, head, get).Ok?
    ensures var c, url := possibleUrls, ProbeOutcome(possibleUrls, imgUrl, head, get).value.url;
            url in c &&
            ((exists k :: 0 <= k < |c| && c[k] == url && IsOk(head(url)) && forall j :: 0 <= j < k ==> !IsOk(head(c[j])))
             || (url == imgUrl && IsOk(get(imgUrl)) && forall j :: 0 <= j < |c| ==> !IsOk(head(c[j]))))
  {
    var k := FindIndex(possibleUrls, AnswersHead(head));
    if k != -1 {
      assert AnswersHead(head)(possibleUrls[k]);
    } else {
      assert possibleUrls[|possibleUrls| - 1] == imgUrl;
    }
  }

  /** The probe fails exactly when no candidate answers its HEAD request
      and the GET of the original URL is not ok either; the error then
      carries that GET's failure. */
  lemma ProbeFailsOnlyWhenNothingAnswers(possibleUrls: seq<string>, imgUrl: string, head: string -> Reply,
                                         get: string -> Reply)
    ensures var r := ProbeOutcome(possibleUrls, imgUrl, head, get);
            && (r.Err? <==> (forall j :: 0 <= j < |possibleUrls| ==> !IsOk(head(possibleUrls[j]))) && !IsOk(get(imgUrl)))
            && (r.Err? ==> r.message == ProbeError(get(imgUrl)))
  {
    var k := FindIndex(possibleUrls, AnswersHead(head));
    if k != -1 {
      assert AnswersHead(head)(possibleUrls[k]);
    } else {
      NoneAnswers(possibleUrls, head);
    }
  }

  /** When the search finds no candidate, none answered its HEAD request. */
  lemma NoneAnswers(possibleUrls: seq<string>, head: string -> Reply)
    requires FindIndex(possibleUrls, AnswersHead(head)) == -1
    ensures forall j :: 0 <= j < |possibleUrls| ==> !IsOk(head(possibleUrls[j]))
  {
    forall j | 0 <= j < |possibleUrls|
      ensures !IsOk(head(possibleUrls[j]))
    {
      assert !AnswersHead(head)(possibleUrls[j]);
    }
  }

  /** A saved file comes from one of the candidate URLs of the image, chosen
      as the probe chooses. */
  lemma SavedFromFirstAnsweringCandidate(img: ImageAttrs, title: string, head: string -> Reply, get: string -> Reply,
                                         download: string -> Reply)
    requires DownloadOutcome(img, title, head, get, download).Saved?
    ensures PickImageUrl(img).Ok?
    ensures var imgUrl := PickImageUrl(img).value;
            var probe := ProbeOutcome(MalUrls.Candidates(imgUrl), imgUrl, head, get);
            probe.Ok? && DownloadOutcome(img, title, head, get, download).url == probe.value.url &&
            probe.value.url in MalUrls.Candidates(imgUrl)
  {
    var imgUrl := PickImageUrl(img).value;
    var c := MalUrls.Candidates(imgUrl);
    var probe := ProbeOutcome(c, imgUrl, head, get);
    assert probe.Ok?;
    SavedKeepsSourceUrl(probe.value, title, download);
    ProbeChoosesFirstAnswering(c, imgUrl, head, get);
  }

  /** A saved file records the URL it was fetched from. */
  lemma SavedKeepsSourceUrl(source: Source, title: string, download: string -> Reply)
    ensures SaveFrom(source, title, download).Saved? ==> SaveFrom(source, title, download).url == source.url
  {
  }

  /** Two strings free of reserved characters make one. */
  lemma ConcatUnreserved(t: string, ext: string)
    requires forall i :: 0 <= i < |t| ==> !IsReserved(t[i])
    requires forall i :: 0 <= i < |ext| ==> !IsReserved(ext[i])
    ensures forall i :: 0 <= i < |t + ext| ==> !IsReserved((t + ext)[i])
  {
    forall i | 0 <= i < |t + ext|
      ensures !IsReserved((t + ext)[i])
    {
      if i >= |t| {
        assert (t + ext)[i] == ext[i - |t|];
      }
    }
  }

  /** What a successful last step produced: data, from the chosen URL, under
      a name free of reserved characters whose extension agrees with the
      content type. */
  lemma SavedFileIsWellFormed(source: Source, title: string, download: string -> Reply)
    requires SaveFrom(source, title, download).Saved?
    ensures var o := SaveFrom(source, title, download);
            o.size > 0 && o.url == source.url && IsOk(download(source.url)) &&
            o.filename == CleanTitle(title) + ExtensionFor(o.contentType) &&
            forall i :: 0 <= i < |o.filename| ==> !IsReserved(o.filename[i])
  {
    var o := SaveFrom(source, title, download);
    ConcatUnreserved(CleanTitle(title), ExtensionFor(o.contentType));
  }

  /** An element without any image URL fails with that message before any
      request, whatever the network would have answered. */
  lemma NoImageUrlFails(img: ImageAttrs, title: string, head: string -> Reply, get: string -> Reply,
                        download: string -> Reply)
    requires !Truthy(img.datasetSrc) && !Truthy(img.dataSrc) && !Truthy(img.dataImage) && img.src == []
    ensures DownloadOutcome(img, title, head, get, download) == Failed("Could not find image URL")
  {
  }
}
