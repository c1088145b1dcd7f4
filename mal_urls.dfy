/** The higher-resolution URLs the MyAnimeList cover downloader tries
    (src/content/myanimelist/index.ts, `downloadCover`): from the image URL it
    derives, in order of preference, a `/anime/` variant of a user-image URL,
    giant and large variants, a variant without the size letter, a variant
    without the `/r/WxH/` resize path, and last the URL itself. */
module MalUrls {
  import opened Wrappers
  import opened Strings

  predicate IsDigit(c: char) {
    '0' <= c <= '9'
  }

  /** The end of the run of digits starting at `k`. */
  function DigitRunEnd(s: string, k: nat): (r: nat)
    requires k <= |s|
    ensures k <= r <= |s|
    ensures forall i :: k <= i < r ==> IsDigit(s[i])
    ensures r == |s| || !IsDigit(s[r])
    decreases |s| - k
  {
    if k < |s| && IsDigit(s[k]) then DigitRunEnd(s, k + 1) else k
  }

  /** Where a match of `/\/r\/\d+x\d+\//` starting at `p` ends, if one does.
      Each digit run must be followed by a non-digit, so the match at `p` is
      unique: `/r/`, the whole digit run, `x`, the whole next run, `/`. */
  function ResizeMatchEnd(s: string, p: nat): (e: Option<nat>)
    ensures e.Some? ==> p + 7 <= e.value <= |s| && OccursAt(s, "/r/", p) && s[e.value - 1] == '/'
  {
    if !OccursAt(s, "/r/", p) then None
    else
      var a := p + 3;
      var b := DigitRunEnd(s, a);
      if b == a || b >= |s| || s[b] != 'x' then None
      else
        var c := DigitRunEnd(s, b + 1);
        if c == b + 1 || c >= |s| || s[c] != '/' then None
        else Some(c + 1)
  }

  /** The leftmost position from `from` on where the resize path matches. */
  function FirstResizeMatch(s: string, from: nat): (p: Option<nat>)
    ensures p.Some? ==> from <= p.value && ResizeMatchEnd(s, p.value).Some?
    ensures p.Some? ==> forall q :: from <= q < p.value ==> ResizeMatchEnd(s, q).None?
    ensures p.None? ==> forall q :: from <= q ==> ResizeMatchEnd(s, q).None?
    decreases |s| - from
  {
    if from + 3 > |s| then
      assert forall q :: from <= q ==> !OccursAt(s, "/r/", q);
      None
    else if ResizeMatchEnd(s, from).Some? then Some(from)
    else FirstResizeMatch(s, from + 1)
  }

  /** `url.replace(/\/r\/\d+x\d+\//, '/')`: the leftmost resize path replaced
      by a single slash; a URL without one is returned unchanged. */
  function StripResize(url: string): (r: string)
    ensures (forall q :: ResizeMatchEnd(url, q).None?) ==> r == url
    ensures forall p: nat :: ResizeMatchEnd(url, p).Some? && (forall q: nat :: q < p ==> ResizeMatchEnd(url, q).None?) ==>
              r == url[..p] + "/" + url[ResizeMatchEnd(url, p).value..]
  {
    match FirstResizeMatch(url, 0)
    case None => url
    case Some(p) =>
      LeftmostMatchUnique(url, p);
      url[..p] + "/" + url[ResizeMatchEnd(url, p).value..]
  }

  /** Only one position is a match with no match before it. */
  lemma LeftmostMatchUnique(url: string, p: nat)
    requires FirstResizeMatch(url, 0) == Some(p)
    ensures forall p': nat :: ResizeMatchEnd(url, p').Some? && (forall q: nat :: q < p' ==> ResizeMatchEnd(url, q).None?) ==>
              p' == p
  {
    forall p': nat | ResizeMatchEnd(url, p').Some? && (forall q: nat :: q < p' ==> ResizeMatchEnd(url, q).None?)
      ensures p' == p
    {
      assert p < p' ==> ResizeMatchEnd(url, p).None?;
    }
  }

  /** A filename base ends in one of the given letters (a `/[...]$/` test). */
  predicate EndsIn(base: string, letters: string) {
    base != [] && base[|base| - 1] in letters
  }

  /** `/anime_userimages/` rewritten to `/anime/`, when the URL has it. */
  function UserImagesVariant(url: string): (r: seq<string>)
    ensures |r| <= 1
    ensures r != [] <==> Contains(url, "/anime_userimages/")
  {
    if Contains(url, "/anime_userimages/") then [ReplaceFirst(url, "/anime_userimages/", "/anime/")] else []
  }

  /** The base with a trailing `t`, `v` or `s` dropped, or the whole base when
      that would leave nothing. */
  function SizeStem(base: string): (b: string)
    ensures b != [] || base == []
    ensures b == base || (EndsIn(base, "tvs") && |base| > 1 && b == base[..|base| - 1])
  {
    var stripped := if EndsIn(base, "tvs") then base[..|base| - 1] else base;
    if stripped == [] then base else stripped
  }

  /** The giant and the large variant, in that order, unless the base already
      ends in `l` or `g`: the dot-separated parts of the URL with the part
      before the extension replaced by the stem plus `g` or `l`. */
  function SizeVariants(url: string): (r: seq<string>)
    ensures |r| == 0 || |r| == 2
  {
    var parts := Split(url, '.');
    if |parts| <= 1 then []
    else
      var ext, base := parts[|parts| - 1], parts[|parts| - 2];
      if EndsIn(base, "lg") then []
      else
        var stem := SizeStem(base);
        var head := parts[..|parts| - 2];
        [Join(head + [stem + "g", ext], '.'), Join(head + [stem + "l", ext], '.')]
  }

  /** The URL with the size letter (`t`, `v`, `l`, `s`, `j`, `c` or `g`) at
      the end of the base dropped. */
  function NoSizeVariant(url: string): (r: seq<string>)
    ensures |r| <= 1
  {
    var parts := Split(url, '.');
    if |parts| <= 1 then []
    else
      var base := parts[|parts| - 2];
      if EndsIn(base, "tvlsjcg") then [Join(parts[|parts| - 2 := base[..|base| - 1]], '.')] else []
  }

  /** The URL with its resize path removed, when it has `/r/` at all. A URL
      with `/r/` but no full `/r/WxH/` yields itself here. */
  function StripVariant(url: string): (r: seq<string>)
    ensures |r| <= 1
    ensures r != [] <==> Contains(url, "/r/")
  {
    if Contains(url, "/r/") then [StripResize(url)] else []
  }

  /** The list of URLs to try, best first. */
  function Candidates(url: string): (r: seq<string>)
    ensures 1 <= |r| <= 6
    ensures r[|r| - 1] == url
  {
    UserImagesVariant(url) + (SizeVariants(url) + (NoSizeVariant(url) + (StripVariant(url) + [url])))
  }

  /** The builder as the source runs it: the URL pushed, then each variant
      `unshift`ed in front as it is found. */
  method BuildCandidateUrls(imgUrl: string) returns (possibleUrls: seq<string>)
    ensures possibleUrls == Candidates(imgUrl)
  {
    possibleUrls := [imgUrl];
    if Contains(imgUrl, "/r/") {
      possibleUrls := [StripResize(imgUrl)] + possibleUrls;
    }
    assert possibleUrls == StripVariant(imgUrl) + [imgUrl];
    possibleUrls := AddSizeVariants(imgUrl, possibleUrls);
    ghost var rest := possibleUrls;
    if Contains(imgUrl, "/anime_userimages/") {
      var userImageUrl := ReplaceFirst(imgUrl, "/anime_userimages/", "/anime/");
      possibleUrls := [userImageUrl] + possibleUrls;
    }
    assert possibleUrls == UserImagesVariant(imgUrl) + rest;
  }

  /** The middle of the builder: the dot-separated parts rewritten in place
      for the variant without the size letter, then the large and giant
      variants built from the rewritten parts, each put in front. */
  method AddSizeVariants(imgUrl: string, urls: seq<string>) returns (possibleUrls: seq<string>)
    ensures possibleUrls == SizeVariants(imgUrl) + (NoSizeVariant(imgUrl) + urls)
  {
    possibleUrls := urls;
    var urlParts := Split(imgUrl, '.');
    if |urlParts| > 1 {
      var extension := urlParts[|urlParts| - 1];
      var filenameBase := urlParts[|urlParts| - 2];
      ghost var head := urlParts[..|urlParts| - 2];
      assert urlParts == head + [filenameBase, extension];
      if EndsIn(filenameBase, "tvlsjcg") {
        var baseWithoutSize := filenameBase[..|filenameBase| - 1];
        ReplaceBase(head, filenameBase, extension, baseWithoutSize);
        urlParts := urlParts[|urlParts| - 2 := baseWithoutSize];
        possibleUrls := [Join(urlParts, '.')] + possibleUrls;
      }
      assert possibleUrls == NoSizeVariant(imgUrl) + urls;
      assert urlParts[..|urlParts| - 2] == head;
      if !EndsIn(filenameBase, "lg") {
        var baseWithoutSize := SizeStem(filenameBase);
        var largeUrl := Join(urlParts[..|urlParts| - 2] + [baseWithoutSize + "l", extension], '.');
        possibleUrls := [largeUrl] + possibleUrls;
        var giantUrl := Join(urlParts[..|urlParts| - 2] + [baseWithoutSize + "g", extension], '.');
        possibleUrls := [giantUrl] + possibleUrls;
      }
    }
  }

  /** The order of the list: the `/anime/` variant first when there is one,
      the giant variant right before the large one when they exist, the
      original URL last. */
  lemma CandidateOrder(url: string)
    ensures var c := Candidates(url);
            var u := UserImagesVariant(url);
            (Contains(url, "/anime_userimages/") ==> c[0] == ReplaceFirst(url, "/anime_userimages/", "/anime/")) &&
            (SizeVariants(url) != [] ==> c[|u|] == SizeVariants(url)[0] && c[|u| + 1] == SizeVariants(url)[1]) &&
            c[|c| - 1] == url
  {
  }

  /** Splitting a URL joined from dot-free parts gives the parts back. */
  lemma SplitOfParts(url: string, head: seq<string>, base: string, ext: string)
    requires url == Join(head + [base, ext], '.')
    requires forall i :: 0 <= i < |head| ==> '.' !in head[i]
    requires '.' !in base && '.' !in ext
    ensures Split(url, '.') == head + [base, ext]
  {
    var parts := head + [base, ext];
    forall i | 0 <= i < |parts|
      ensures '.' !in parts[i]
    {
      if i < |head| {
        assert parts[i] == head[i];
      }
    }
    SplitOfJoin(url, parts, '.');
  }

  /** The variant without the size letter of a URL made of dot-free parts,
      `head`, the base `stem` plus `letter`, and the extension. */
  lemma NoSizeOfParts(url: string, head: seq<string>, stem: string, letter: char, ext: string)
    requires url == Join(head + [stem + [letter], ext], '.')
    requires forall i :: 0 <= i < |head| ==> '.' !in head[i]
    requires '.' !in stem && '.' !in ext && letter in "tvlsjcg"
    ensures NoSizeVariant(url) == [Join(head + [stem, ext], '.')]
  {
    assert letter != '.';
    SplitOfParts(url, head, stem + [letter], ext);
    NoSizeOfSplit(url, head, stem, letter, ext);
  }

  lemma NoSizeOfSplit(url: string, head: seq<string>, stem: string, letter: char, ext: string)
    requires Split(url, '.') == head + [stem + [letter], ext]
    requires letter in "tvlsjcg"
    ensures NoSizeVariant(url) == [Join(head + [stem, ext], '.')]
  {
    ReplaceBase(head, stem + [letter], ext, stem);
    assert (stem + [letter])[..|stem|] == stem;
  }

  /** Replacing the second-to-last part. */
  lemma ReplaceBase(head: seq<string>, base: string, ext: string, newBase: string)
    ensures var parts := head + [base, ext];
            parts[|parts| - 2] == base && parts[|parts| - 1] == ext && parts[..|parts| - 2] == head &&
            parts[|parts| - 2 := newBase] == head + [newBase, ext]
  {
    var parts := head + [base, ext];
    assert parts[..|parts| - 2] == head;
    assert parts[|parts| - 2 := newBase] == head + [newBase, ext];
  }

  /** The size variants of such a URL: none for a large or giant base, the
      giant and the large one built on the stem for a thumbnail base. */
  lemma SizesOfParts(url: string, head: seq<string>, stem: string, letter: char, ext: string)
    requires url == Join(head + [stem + [letter], ext], '.')
    requires forall i :: 0 <= i < |head| ==> '.' !in head[i]
    requires '.' !in stem && '.' !in ext && stem != [] && letter in "tvslg"
    ensures letter in "lg" ==> SizeVariants(url) == []
    ensures letter in "tvs" ==> SizeVariants(url) == [Join(head + [stem + "g", ext], '.'), Join(head + [stem + "l", ext], '.')]
  {
    assert letter != '.';
    SplitOfParts(url, head, stem + [letter], ext);
    SizesOfSplit(url, head, stem, letter, ext);
  }

  lemma SizesOfSplit(url: string, head: seq<string>, stem: string, letter: char, ext: string)
    requires Split(url, '.') == head + [stem + [letter], ext]
    requires stem != [] && letter in "tvslg"
    ensures letter in "lg" ==> SizeVariants(url) == []
    ensures letter in "tvs" ==> SizeVariants(url) == [Join(head + [stem + "g", ext], '.'), Join(head + [stem + "l", ext], '.')]
  {
    var base := stem + [letter];
    ReplaceBase(head, base, ext, stem);
    if letter in "tvs" {
      assert base[..|base| - 1] == stem;
      assert !EndsIn(base, "lg");
      assert SizeStem(base) == stem;
    }
  }

  /** A base already ending in `l` or `g` (large or giant) gets no size
      variants: only the variant without the letter is tried before the URL. */
  lemma LargeBaseCandidates(url: string, head: seq<string>, stem: string, letter: char, ext: string)
    requires url == Join(head + [stem + [letter], ext], '.')
    requires forall i :: 0 <= i < |head| ==> '.' !in head[i]
    requires '.' !in stem && '.' !in ext && stem != [] && letter in "lg"
    requires !Contains(url, "/r/") && !Contains(url, "/anime_userimages/")
    ensures Candidates(url) == [Join(head + [stem, ext], '.'), url]
  {
    NoSizeOfParts(url, head, stem, letter, ext);
    SizesOfParts(url, head, stem, letter, ext);
  }

  /** A thumbnail base (ending in `t`, `v` or `s`) gets the giant, the large
      and the letterless variant, in that order, before the URL itself. */
  lemma ThumbnailBaseCandidates(url: string, head: seq<string>, stem: string, letter: char, ext: string)
    requires url == Join(head + [stem + [letter], ext], '.')
    requires forall i :: 0 <= i < |head| ==> '.' !in head[i]
    requires '.' !in stem && '.' !in ext && stem != [] && letter in "tvs"
    requires !Contains(url, "/r/") && !Contains(url, "/anime_userimages/")
    ensures Candidates(url) == [Join(head + [stem + "g", ext], '.'), Join(head + [stem + "l", ext], '.'),
                                Join(head + [stem, ext], '.'), url]
  {
    NoSizeOfParts(url, head, stem, letter, ext);
    SizesOfParts(url, head, stem, letter, ext);
  }
}
