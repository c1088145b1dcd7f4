/** How the MyAnimeList cover downloader names a cover
    (src/content/myanimelist/index.ts): the cascade for images in a fancybox
    popup, the one for covers found on a page, and the title of an anime's
    own page. What the page's elements hold is passed in: attribute values,
    the text of the heading, the titles found near images, the document
    title and the location. */
module MalTitles {
  import opened Wrappers
  import opened Strings
  import MalUrls

  /** The first non-empty candidate, or the fallback when all are empty:
      a chain of `if (!animeTitle && ...)` steps. */
  function FirstNonEmpty(candidates: seq<string>, fallback: string): (r: string)
    ensures r == fallback || r in candidates
  {
    if candidates == [] then fallback
    else if candidates[0] != [] then candidates[0]
    else FirstNonEmpty(candidates[1..], fallback)
  }

  /** The candidate chosen is the first non-empty one, and the fallback is
      chosen only when every candidate is empty. */
  lemma {:induction false} FirstNonEmptyIsFirst(candidates: seq<string>, fallback: string)
    ensures forall i :: 0 <= i < |candidates| && candidates[i] != [] && (forall j :: 0 <= j < i ==> candidates[j] == []) ==>
              FirstNonEmpty(candidates, fallback) == candidates[i]
    ensures (forall i :: 0 <= i < |candidates| ==> candidates[i] == []) ==> FirstNonEmpty(candidates, fallback) == fallback
  {
    if candidates != [] && candidates[0] == [] {
      FirstNonEmptyIsFirst(candidates[1..], fallback);
      forall i | 0 <= i < |candidates| && candidates[i] != [] && (forall j :: 0 <= j < i ==> candidates[j] == [])
        ensures FirstNonEmpty(candidates, fallback) == candidates[i]
      {
        assert candidates[1..][i - 1] == candidates[i];
        forall j | 0 <= j < i - 1
          ensures candidates[1..][j] == []
        {
          assert candidates[1..][j] == candidates[j + 1];
        }
      }
      if forall i :: 0 <= i < |candidates| ==> candidates[i] == [] {
        forall j | 0 <= j < |candidates| - 1
          ensures candidates[1..][j] == []
        {
          assert candidates[1..][j] == candidates[j + 1];
        }
      }
    }
  }

  /** `url.split('/')` and its last part: the file name of an image URL. */
  function LastSegment(url: string): (r: string)
    ensures '/' !in r
  {
    var parts := Split(url, '/');
    SplitJoinsBack(url, '/');
    parts[|parts| - 1]
  }

  /** A letter `[tvlsg]` matches under the `i` flag. */
  predicate IsSizeLetter(c: char) {
    c in "tvlsgTVLSG"
  }

  /** `(?:jpg|png|webp|gif)` matches at `k` under the `i` flag. */
  predicate ImageExtAt(s: string, k: nat) {
    var lower := ToLower(s);
    OccursAt(lower, "jpg", k) || OccursAt(lower, "png", k) || OccursAt(lower, "webp", k) || OccursAt(lower, "gif", k)
  }

  /** What group 1 of `/(\d+)([tvlsg])\.(?:jpg|png|webp|gif)/i` captures when
      the match starts at `p`. The digits run must be followed by a letter,
      which no digit is, so the group is the whole run from `p`. */
  function ImageIdAt(s: string, p: nat): (r: Option<string>)
    ensures r.Some? ==> r.value != [] && forall i :: 0 <= i < |r.value| ==> MalUrls.IsDigit(r.value[i])
  {
    if p < |s| && MalUrls.IsDigit(s[p]) then
      var q := MalUrls.DigitRunEnd(s, p);
      if q + 1 < |s| && IsSizeLetter(s[q]) && s[q + 1] == '.' && ImageExtAt(s, q + 2) then Some(s[p..q]) else None
    else None
  }

  /** The group of the leftmost match from `from` on. */
  function ImageId(s: string, from: nat): (r: Option<string>)
    ensures r.Some? ==> exists p :: from <= p < |s| && ImageIdAt(s, p) == r
    ensures r.None? ==> forall p :: from <= p ==> ImageIdAt(s, p).None?
    decreases |s| - from
  {
    if from >= |s| then None
    else if ImageIdAt(s, from).Some? then ImageIdAt(s, from)
    else ImageId(s, from + 1)
  }

  /** A MyAnimeList file name, digits, a size letter and an image
      extension, yields its digits. */
  lemma ImageIdOfSizedFile(id: string, letter: char, ext: string)
    requires id != [] && forall i :: 0 <= i < |id| ==> MalUrls.IsDigit(id[i])
    requires IsSizeLetter(letter) && ext in ["jpg", "png", "webp", "gif"]
    ensures ImageId(id + [letter] + "." + ext, 0) == Some(id)
  {
    var s := id + [letter] + "." + ext;
    assert s[|id|] == letter && s[|id| + 1] == '.';
    assert !MalUrls.IsDigit(letter);
    assert MalUrls.DigitRunEnd(s, 0) == |id| by {
      DigitRunOf(s, id);
    }
    var lower := ToLower(s);
    assert lower[|id| + 2..] == ext;
    assert OccursAt(lower, ext, |id| + 2);
    assert s[0..|id|] == id;
  }

  /** A run of digits followed by a non-digit ends there. */
  lemma DigitRunOf(s: string, id: string)
    requires id <= s && |id| < |s| && !MalUrls.IsDigit(s[|id|])
    requires forall i :: 0 <= i < |id| ==> MalUrls.IsDigit(id[i])
    ensures MalUrls.DigitRunEnd(s, 0) == |id|
  {
  }

  /** `document.title.replace(' - MyAnimeList.net', '')`: the site's suffix
      removed where it first occurs. */
  function StripSiteSuffix(docTitle: string): (r: string)
    ensures !Contains(docTitle, " - MyAnimeList.net") ==> r == docTitle
    ensures Contains(docTitle, " - MyAnimeList.net") ==> |r| + |" - MyAnimeList.net"| == |docTitle|
  {
    ReplaceFirst(docTitle, " - MyAnimeList.net", "")
  }

  /** A page title made of any name that does not itself hold the site's
      suffix, followed by the suffix, gives back the name. The suffix
      overlaps itself nowhere, so no occurrence can start inside the name. */
  lemma SiteSuffixRemoved(name: string)
    requires !Contains(name, " - MyAnimeList.net")
    ensures StripSiteSuffix(name + " - MyAnimeList.net") == name
  {
    var suffix := " - MyAnimeList.net";
    var s := name + suffix;
    assert OccursAt(s, suffix, |name|);
    forall i: nat | i < |name|
      ensures !OccursAt(s, suffix, i)
    {
      if i + |suffix| <= |name| {
        assert s[i..i + |suffix|] == name[i..i + |suffix|];
        assert !OccursAt(name, suffix, i);
      } else {
        var d := |name| - i;
        var w := s[i..i + |suffix|];
        assert w[d] == s[|name|] == ' ';
        assert d == 2 ==> w[3] == s[|name| + 1] == '-';
        SuffixSpaces(d);
      }
    }
    assert IndexOf(s, suffix) == |name|;
  }

  /** The site's suffix has a space only at positions 0 and 2, and a dash
      after the first only. */
  lemma SuffixSpaces(d: nat)
    ensures var suffix := " - MyAnimeList.net";
            d < |suffix| && suffix[d] == ' ' ==> d == 0 || d == 2
  {
  }

  /** A popup image's attributes. An absent aria label is `None`. */
  datatype PopupImage = PopupImage(alt: string, title: string, ariaLabel: Option<string>, src: string)

  /** Step 4 of the popup cascade: the titles near the page's images whose
      `data-src` holds the number in the popup image's file name, the first
      non-empty one. `nearby` gives them, in document order, for a number. */
  function UrlTitle(src: string, nearby: string -> seq<string>): string {
    if src == [] then []
    else
      match ImageId(LastSegment(src), 0)
      case None => []
      case Some(id) => FirstNonEmpty(nearby(id), [])
  }

  /** The popup cascade: trimmed alt, trimmed title, trimmed aria label, the
      title near an image with the same number, and last the document title
      without the site's suffix. */
  function PopupTitleOf(img: PopupImage, nearby: string -> seq<string>, docTitle: string): string {
    FirstNonEmpty([Trim(img.alt), Trim(img.title), Trim(img.ariaLabel.GetOr([])), UrlTitle(img.src, nearby)],
                  StripSiteSuffix(docTitle))
  }

  /** The first non-empty of four candidates, spelled out. */
  lemma FirstOfFour(a: string, b: string, c: string, d: string, fallback: string)
    ensures FirstNonEmpty([a, b, c, d], fallback) ==
            if a != [] then a else if b != [] then b else if c != [] then c else if d != [] then d else fallback
  {
    assert [a, b, c, d][1..] == [b, c, d];
    assert [b, c, d][1..] == [c, d];
    assert [c, d][1..] == [d];
    assert [d][1..] == [];
    assert FirstNonEmpty([d], fallback) == if d != [] then d else fallback;
    assert FirstNonEmpty([c, d], fallback) == if c != [] then c else FirstNonEmpty([d], fallback);
    assert FirstNonEmpty([b, c, d], fallback) == if b != [] then b else FirstNonEmpty([c, d], fallback);
  }

  /** A non-blank alt text always wins, and the popup gets no title only
      when the document title is empty once the site's suffix is gone. */
  lemma PopupTitleOrder(img: PopupImage, nearby: string -> seq<string>, docTitle: string)
    ensures Trim(img.alt) != [] ==> PopupTitleOf(img, nearby, docTitle) == Trim(img.alt)
    ensures PopupTitleOf(img, nearby, docTitle) == [] ==> StripSiteSuffix(docTitle) == []
  {
    FirstOfFour(Trim(img.alt), Trim(img.title), Trim(img.ariaLabel.GetOr([])), UrlTitle(img.src, nearby),
                StripSiteSuffix(docTitle));
  }

  /** The popup cascade as the source runs it, one guarded assignment after
      another, with a loop over the images that share the number. */
  method PopupTitle(img: PopupImage, nearby: string -> seq<string>, docTitle: string) returns (animeTitle: string)
    ensures animeTitle == PopupTitleOf(img, nearby, docTitle)
  {
    ghost var alt, title, aria := Trim(img.alt), Trim(img.title), Trim(img.ariaLabel.GetOr([]));
    assert Trim([]) == [];
    animeTitle := [];
    if img.alt != [] && Trim(img.alt) != [] {
      animeTitle := Trim(img.alt);
    }
    assert animeTitle == alt;
    if animeTitle == [] && img.title != [] && Trim(img.title) != [] {
      animeTitle := Trim(img.title);
    }
    assert animeTitle == if alt != [] then alt else title;
    if animeTitle == [] && img.ariaLabel.Some? && img.ariaLabel.value != [] {
      animeTitle := Trim(img.ariaLabel.value);
    }
    ghost var found := animeTitle;
    assert found == if alt != [] then alt else if title != [] then title else aria;
    if animeTitle == [] {
      animeTitle := NearbyTitle(img.src, nearby);
    }
    assert animeTitle == if found != [] then found else UrlTitle(img.src, nearby);
    if animeTitle == [] {
      animeTitle := StripSiteSuffix(docTitle);
    }
    FirstOfFour(alt, title, aria, UrlTitle(img.src, nearby), StripSiteSuffix(docTitle));
  }

  /** Step 4 of the popup cascade as the source runs it: the file name of the
      image URL, the number in it, and the titles near the images with that
      number. */
  method NearbyTitle(src: string, nearby: string -> seq<string>) returns (animeTitle: string)
    ensures animeTitle == UrlTitle(src, nearby)
  {
    animeTitle := [];
    if src != [] {
      var filenameWithExt := LastSegment(src);
      var id := ImageId(filenameWithExt, 0);
      if id.Some? {
        animeTitle := FirstNearbyTitle(nearby(id.value));
      }
    }
  }

  /** The loop over the images that share the number: the first non-empty
      nearby title, or none. */
  method FirstNearbyTitle(titles: seq<string>) returns (animeTitle: string)
    ensures animeTitle == FirstNonEmpty(titles, [])
  {
    animeTitle := [];
    var i := 0;
    while i < |titles|
      invariant 0 <= i <= |titles|
      invariant FirstNonEmpty(titles, []) == FirstNonEmpty(titles[i..], [])
    {
      if titles[i] != [] {
        animeTitle := titles[i];
        return;
      }
      assert titles[i..] == [titles[i]] + titles[i + 1..];
      i := i + 1;
    }
  }

  /** The title of an anime's own page:
      `h1.title-name` text trimmed, or the document title. */
  function DetailPageTitle(heading: Option<string>, docTitle: string): (t: string)
    ensures heading.Some? && Trim(heading.value) != [] ==> t == Trim(heading.value)
    ensures !(heading.Some? && Trim(heading.value) != []) ==> t == docTitle
  {
    if heading.Some? && Trim(heading.value) != [] then Trim(heading.value) else docTitle
  }

  /** What the page tells about itself: whether the URL is an anime's page
      (`/anime/<digits>/`); the text of the `h1.title-name` heading, which
      titles the cover of an anime's page; the text of the first heading
      matching `h1.title-name, h1.h1_anime_title, h1.h1`, which the cover
      cascade falls back to (`None` when there is no such heading); and the
      path of the location. */
  datatype PageInfo = PageInfo(isDetailPage: bool, titleNameHeading: Option<string>,
                               anyTitleHeading: Option<string>, pathname: string)

  /** The file name of an image URL up to its first dot, used as a title only
      when it is longer than three characters. */
  function FileTitle(src: string): (t: string)
    ensures t == [] || (|t| > 3 && '.' !in t && '/' !in t)
  {
    if src == [] then []
    else
      var filename := Split(LastSegment(src), '.')[0];
      assert '/' !in filename by {
        var parts := Split(LastSegment(src), '.');
        SplitJoinsBack(LastSegment(src), '.');
        JoinHeadIn(parts, '.', '/');
      }
      if |filename| > 3 then filename else []
  }

  /** A character absent from a join is absent from its first part. */
  lemma JoinHeadIn(parts: seq<string>, sep: char, c: char)
    requires parts != [] && c !in Join(parts, sep)
    ensures c !in parts[0]
  {
    if |parts| > 1 {
      assert Join(parts, sep) == parts[0] + [sep] + Join(parts[1..], sep);
      assert forall k :: 0 <= k < |parts[0]| ==> parts[0][k] == Join(parts, sep)[k];
    }
  }

  /** The path segment the source reads a title from, as written:
      the last segment, or the one before it when the last is empty. A
      segment `pics` is rejected, so on a `/pics` page the anime's name in
      front of it is never tried. */
  function PathSegmentAsWritten(pathname: string): (seg: string)
    ensures seg == [] || (seg != "pics" && |seg| > 1 && '/' !in seg)
  {
    var parts := Split(pathname, '/');
    SplitJoinsBack(pathname, '/');
    if |parts| < 3 then []
    else
      var seg := if parts[|parts| - 1] != [] then parts[|parts| - 1] else parts[|parts| - 2];
      if seg != [] && seg != "pics" && |seg| > 1 then seg else []
  }

  /** The segment the check against `pics` evidently aims at: a trailing
      empty or `pics` segment is skipped in favour of the one before it. */
  function PathSegment(pathname: string): (seg: string)
    ensures seg == [] || (seg != "pics" && |seg| > 1 && '/' !in seg)
    ensures PathSegmentAsWritten(pathname) != [] ==> seg == PathSegmentAsWritten(pathname)
  {
    var parts := Split(pathname, '/');
    SplitJoinsBack(pathname, '/');
    if |parts| < 3 then []
    else
      var last := parts[|parts| - 1];
      var seg := if last != [] && last != "pics" then last else parts[|parts| - 2];
      if seg != [] && seg != "pics" && |seg| > 1 then seg else []
  }

  /** On an anime's pictures page, a path whose segments end in the anime's
      name and `pics`, the rule as written finds no title in the path. */
  lemma PicsPageAsWritten(pathname: string, dirs: seq<string>, name: string)
    requires Split(pathname, '/') == dirs + [name, "pics"]
    ensures PathSegmentAsWritten(pathname) == []
  {
    var parts := dirs + [name, "pics"];
    assert parts[|parts| - 1] == "pics";
  }

  /** The intended rule never settles on `pics`, and gives the anime's name
      whether the path ends in `/<name>/pics` or in `/<name>`. */
  lemma PathSegmentSkipsPics(pathname: string, dirs: seq<string>, name: string, pics: bool)
    requires Split(pathname, '/') == dirs + [name] + (if pics then ["pics"] else [])
    requires |name| > 1 && name != "pics" && |dirs| >= 2
    ensures PathSegment(pathname) == name
  {
    var parts := dirs + [name] + (if pics then ["pics"] else []);
    if pics {
      assert parts[|parts| - 1] == "pics" && parts[|parts| - 2] == name;
    } else {
      assert parts[|parts| - 1] == name;
    }
  }

  /** The path of an anime's pictures page, `/anime/<id>/<name>/pics`, as in
      `/anime/1/Cowboy_Bebop/pics`. */
  function AnimePicsPath(id: string, name: string): string {
    Join(["", "anime", id, name, "pics"], '/')
  }

  /** On every pictures page the rule as written finds nothing in the path,
      while the intended rule finds the anime's name. */
  lemma AnimePicsPageSegment(id: string, name: string)
    requires '/' !in id && '/' !in name
    requires |name| > 1 && name != "pics"
    ensures PathSegmentAsWritten(AnimePicsPath(id, name)) == []
    ensures PathSegment(AnimePicsPath(id, name)) == name
  {
    var dirs := ["", "anime", id];
    var parts := dirs + [name, "pics"];
    assert parts == ["", "anime", id, name, "pics"];
    assert forall i :: 0 <= i < |parts| ==> '/' !in parts[i];
    SplitJoin(parts, '/');
    assert parts == dirs + [name] + ["pics"];
    PicsPageAsWritten(AnimePicsPath(id, name), dirs, name);
    PathSegmentSkipsPics(AnimePicsPath(id, name), dirs, name, true);
  }

  /** `decodeURIComponent(segment.replace(/_/g, ' '))` of the segment the
      source picks, with the decoding passed in. */
  function PathTitle(pathname: string, decode: string -> string): (t: string)
    ensures PathSegmentAsWritten(pathname) == [] ==> t == []
  {
    var seg := PathSegmentAsWritten(pathname);
    if seg == [] then [] else decode(Underscored(seg))
  }

  /** The path title under the intended segment rule, which skips a
      trailing `pics`. */
  function IntendedPathTitle(pathname: string, decode: string -> string): (t: string)
    ensures PathSegmentAsWritten(pathname) != [] ==> t == PathTitle(pathname, decode)
  {
    var seg := PathSegment(pathname);
    if seg == [] then [] else decode(Underscored(seg))
  }

  /** `replace(/_/g, ' ')`. */
  function Underscored(seg: string): string {
    ReplaceChars(seg, (c: char) => c == '_', ' ')
  }

  /** What the cascade takes from the page once the image gave nothing: on
      an anime's page the trimmed text of the first title heading, or, when
      that heading is missing or empty, the title in the path. */
  function PageTitle(page: PageInfo, pathTitle: string): string {
    if !page.isDetailPage then []
    else if page.anyTitleHeading.Some? && page.anyTitleHeading.value != [] then Trim(page.anyTitleHeading.value)
    else pathTitle
  }

  /** The cover cascade as written: the title found by walking up from the
      container (`walkTitle`, empty when none), the trimmed alt text, the
      image's file name, then on an anime's own page its first title
      heading, or when there is none the name in its path; and last `anime_`
      and the time in milliseconds. */
  function CoverTitleOf(walkTitle: string, alt: string, src: string, page: PageInfo, decode: string -> string,
                        now: nat): (t: string)
    ensures t != []
    ensures walkTitle != [] ==> t == walkTitle
  {
    var fromPage := PageTitle(page, PathTitle(page.pathname, decode));
    FirstOfFour(walkTitle, Trim(alt), FileTitle(src), fromPage, "anime_" + NatToString(now));
    FirstNonEmpty([walkTitle, Trim(alt), FileTitle(src), fromPage], "anime_" + NatToString(now))
  }

  /** The cover cascade with the intended segment rule. It differs from the
      cascade as written only where the rule as written finds nothing in
      the path. */
  function IntendedCoverTitleOf(walkTitle: string, alt: string, src: string, page: PageInfo,
                                decode: string -> string, now: nat): (t: string)
    ensures t != []
    ensures PathSegmentAsWritten(page.pathname) != [] ==> t == CoverTitleOf(walkTitle, alt, src, page, decode, now)
  {
    var fromPage := PageTitle(page, IntendedPathTitle(page.pathname, decode));
    FirstOfFour(walkTitle, Trim(alt), FileTitle(src), fromPage, "anime_" + NatToString(now));
    FirstNonEmpty([walkTitle, Trim(alt), FileTitle(src), fromPage], "anime_" + NatToString(now))
  }

  /** On an anime's pictures page without a title heading, a cover that has
      no title of its own is named `anime_<time>` by the cascade as written,
      and after the anime by the intended cascade. */
  lemma PicsPageCoverTitle(id: string, name: string, titleName: Option<string>, src: string,
                           decode: string -> string, now: nat)
    requires '/' !in id && '/' !in name
    requires |name| > 1 && name != "pics"
    requires FileTitle(src) == []
    ensures var page := PageInfo(true, titleName, None, AnimePicsPath(id, name));
            var fromName := decode(Underscored(name));
            CoverTitleOf([], [], src, page, decode, now) == "anime_" + NatToString(now) &&
            IntendedCoverTitleOf([], [], src, page, decode, now) ==
              if fromName != [] then fromName else "anime_" + NatToString(now)
  {
    var page := PageInfo(true, titleName, None, AnimePicsPath(id, name));
    AnimePicsPageSegment(id, name);
    assert Trim([]) == [];
    var fallback := "anime_" + NatToString(now);
    FirstOfFour([], [], FileTitle(src), PageTitle(page, PathTitle(page.pathname, decode)), fallback);
    FirstOfFour([], [], FileTitle(src), PageTitle(page, IntendedPathTitle(page.pathname, decode)), fallback);
  }

  /** The cover cascade as the source runs it. */
  method CoverTitle(walkTitle: string, alt: string, src: string, page: PageInfo, decode: string -> string, now: nat)
    returns (animeTitle: string)
    ensures animeTitle == CoverTitleOf(walkTitle, alt, src, page, decode, now)
  {
    animeTitle := walkTitle;
    if animeTitle == [] && alt != [] {
      animeTitle := Trim(alt);
    }
    if animeTitle == [] && src != [] {
      var filenameWithExt := LastSegment(src);
      var filename := Split(filenameWithExt, '.')[0];
      if |filename| > 3 {
        animeTitle := filename;
      }
      assert animeTitle == FileTitle(src);
    }
    if animeTitle == [] && page.isDetailPage {
      if page.anyTitleHeading.Some? && page.anyTitleHeading.value != [] {
        animeTitle := Trim(page.anyTitleHeading.value);
      } else {
        var titleFromUrl := PathSegmentAsWritten(page.pathname);
        if titleFromUrl != [] {
          animeTitle := decode(ReplaceChars(titleFromUrl, (c: char) => c == '_', ' '));
        }
        assert animeTitle == PathTitle(page.pathname, decode);
      }
    }
    if animeTitle == [] {
      animeTitle := "anime_" + NatToString(now);
    }
    assert Trim([]) == [];
    FirstOfFour(walkTitle, Trim(alt), FileTitle(src), PageTitle(page, PathTitle(page.pathname, decode)),
                "anime_" + NatToString(now));
  }
}
