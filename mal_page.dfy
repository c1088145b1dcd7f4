/** The page-level state of the MyAnimeList content script
    (src/content/myanimelist/index.ts): the downloader settings, the download
    buttons the script has put into image containers, the containers'
    positions, and the flag that keeps two cover scans from overlapping.
    Containers are named by numbers; what the DOM queries find on the page is
    passed to the scan as values. */
module MalPage {
  import opened Wrappers
  import opened Strings
  import MalTitles

  type ContainerId = nat

  const StandardStyle := "standard"
  const MinimalStyle := "minimal"

  /** A download button as the script styles it: the container it sits in,
      its tooltip, the image URL it downloads, and the inline styles the
      script sets (`display`, `opacity`, `padding`, and the `display` of its
      text span). */
  datatype DownloadButton = DownloadButton(container: ContainerId, tooltip: string, imageUrl: string,
                                           display: string, opacity: string, padding: string,
                                           textDisplay: string)

  /** The opacity and padding of the chosen style: `standard`, and anything
      else as `minimal`. */
  function Opacity(buttonStyle: string): string {
    if buttonStyle == StandardStyle then "0.9" else "0.75"
  }

  function Padding(buttonStyle: string): string {
    if buttonStyle == StandardStyle then "4px 8px" else "2px 6px"
  }

  function TextDisplay(showText: bool): string {
    if showText then "" else "none"
  }

  /** A button as `addDownloadButton` creates it: hidden until the mouse
      enters its container, styled after the current settings. */
  function NewButton(container: ContainerId, animeTitle: string, imageUrl: string, buttonStyle: string,
                     showText: bool): (b: DownloadButton)
    ensures b.container == container && b.imageUrl == imageUrl && b.display == "none"
    ensures b.tooltip == "Download cover for " + animeTitle
  {
    DownloadButton(container, "Download cover for " + animeTitle, imageUrl, "none",
                   Opacity(buttonStyle), Padding(buttonStyle), TextDisplay(showText))
  }

  /** What `updateExistingButtons` does to one button: hide it when the
      feature is off; otherwise clear its `display` and restyle it and its
      text after the settings. */
  function Restyle(b: DownloadButton, enabled: bool, buttonStyle: string, showText: bool): (r: DownloadButton)
    ensures r.container == b.container && r.tooltip == b.tooltip && r.imageUrl == b.imageUrl
    ensures !enabled ==> r == b.(display := "none")
    ensures enabled ==> r.display == "" && r.opacity == Opacity(buttonStyle) &&
                        r.padding == Padding(buttonStyle) && r.textDisplay == TextDisplay(showText)
  {
    if !enabled then b.(display := "none")
    else b.(display := "", textDisplay := TextDisplay(showText),
            opacity := Opacity(buttonStyle), padding := Padding(buttonStyle))
  }

  function RestyleAll(buttons: seq<DownloadButton>, enabled: bool, buttonStyle: string, showText: bool)
    : (r: seq<DownloadButton>)
    ensures |r| == |buttons|
    ensures forall i :: 0 <= i < |buttons| ==> r[i] == Restyle(buttons[i], enabled, buttonStyle, showText)
  {
    seq(|buttons|, i requires 0 <= i < |buttons| => Restyle(buttons[i], enabled, buttonStyle, showText))
  }

  /** The `display` every button of one container gets from a hover
      handler. */
  function SetDisplay(buttons: seq<DownloadButton>, c: ContainerId, display: string): (r: seq<DownloadButton>)
    ensures |r| == |buttons|
    ensures forall i :: 0 <= i < |buttons| ==>
              r[i] == if buttons[i].container == c then buttons[i].(display := display) else buttons[i]
  {
    seq(|buttons|, i requires 0 <= i < |buttons| =>
      if buttons[i].container == c then buttons[i].(display := display) else buttons[i])
  }

  predicate HasButtonIn(buttons: seq<DownloadButton>, c: ContainerId) {
    exists i :: 0 <= i < |buttons| && buttons[i].container == c
  }

  /** At most one button per container. */
  predicate OnePerContainer(buttons: seq<DownloadButton>) {
    forall i, j :: 0 <= i < j < |buttons| ==> buttons[i].container != buttons[j].container
  }

  predicate AllHidden(buttons: seq<DownloadButton>) {
    forall i :: 0 <= i < |buttons| ==> buttons[i].display == "none"
  }

  /** `mouseenter` as written: the container's button is shown whatever the
      settings say. */
  function ShowOnHoverAsWritten(buttons: seq<DownloadButton>, c: ContainerId): (r: seq<DownloadButton>)
    ensures |r| == |buttons|
  {
    SetDisplay(buttons, c, "block")
  }

  /** `mouseenter` as intended: the container's button is shown only while
      the feature is on. */
  function ShowOnHover(buttons: seq<DownloadButton>, c: ContainerId, enabled: bool): (r: seq<DownloadButton>)
    ensures |r| == |buttons|
    ensures enabled ==> r == SetDisplay(buttons, c, "block")
    ensures !enabled ==> r == buttons
  {
    if enabled then SetDisplay(buttons, c, "block") else buttons
  }

  /** After the feature is switched off every button is hidden, but moving
      the mouse into a container shows its button again with the handler as
      written; the intended handler keeps it hidden. */
  lemma HoverShowsDisabledButton(buttons: seq<DownloadButton>, c: ContainerId)
    requires HasButtonIn(buttons, c)
    ensures !AllHidden(ShowOnHoverAsWritten(RestyleAll(buttons, false, StandardStyle, true), c))
    ensures AllHidden(ShowOnHover(RestyleAll(buttons, false, StandardStyle, true), c, false))
  {
    var i :| 0 <= i < |buttons| && buttons[i].container == c;
    assert ShowOnHoverAsWritten(RestyleAll(buttons, false, StandardStyle, true), c)[i].display == "block";
  }

  /** Restyling twice with the same settings is restyling once. */
  lemma RestyleAllIdempotent(buttons: seq<DownloadButton>, enabled: bool, buttonStyle: string, showText: bool)
    ensures var once := RestyleAll(buttons, enabled, buttonStyle, showText);
            RestyleAll(once, enabled, buttonStyle, showText) == once
  {
  }

  /** Once the feature is on, a button created under earlier settings and
      restyled looks like one created under the new settings, except that it
      is no longer hidden until hovered. */
  lemma RestyledMatchesNew(container: ContainerId, animeTitle: string, imageUrl: string,
                           oldStyle: string, oldShowText: bool, buttonStyle: string, showText: bool)
    ensures Restyle(NewButton(container, animeTitle, imageUrl, oldStyle, oldShowText), true, buttonStyle, showText) ==
            NewButton(container, animeTitle, imageUrl, buttonStyle, showText).(display := "")
  {
  }

  /** Restyling and hovering keep the containers of the buttons, so the
      one-button-per-container rule survives them. */
  lemma RestyleKeepsContainers(buttons: seq<DownloadButton>, enabled: bool, buttonStyle: string, showText: bool,
                               c: ContainerId, display: string)
    requires OnePerContainer(buttons)
    ensures OnePerContainer(RestyleAll(buttons, enabled, buttonStyle, showText))
    ensures OnePerContainer(SetDisplay(buttons, c, display))
    ensures forall d :: HasButtonIn(RestyleAll(buttons, enabled, buttonStyle, showText), d) <==> HasButtonIn(buttons, d)
  {
    var r := RestyleAll(buttons, enabled, buttonStyle, showText);
    forall d
      ensures HasButtonIn(r, d) <==> HasButtonIn(buttons, d)
    {
      if HasButtonIn(buttons, d) {
        var i :| 0 <= i < |buttons| && buttons[i].container == d;
        assert r[i].container == d;
      }
      if HasButtonIn(r, d) {
        var i :| 0 <= i < |r| && r[i].container == d;
        assert buttons[i].container == d;
      }
    }
  }

  /** A button found in a list is found in any longer list it begins. */
  lemma PrefixKeepsButton(a: seq<DownloadButton>, b: seq<DownloadButton>, c: ContainerId)
    requires a <= b && HasButtonIn(a, c)
    ensures HasButtonIn(b, c)
  {
    var i :| 0 <= i < |a| && a[i].container == c;
    assert b[i] == a[i];
  }

  /** The positions once a button is added to container `c`: a statically
      positioned container becomes relatively positioned, and no other
      container changes. */
  function Positioned(positions: map<ContainerId, string>, c: ContainerId): (r: map<ContainerId, string>)
    ensures r.Keys == positions.Keys
    ensures forall d :: d in r && d != c ==> r[d] == positions[d]
    ensures c in r ==> r[c] == if positions[c] == "static" then "relative" else positions[c]
  {
    if c in positions && positions[c] == "static" then positions[c := "relative"] else positions
  }

  /** The stored settings: a missing `enabled` or `showText` means on, a
      missing or empty style means `minimal`. */
  function StoredFlag(v: Option<bool>): (r: bool)
    ensures r <==> v != Some(false)
  {
    !(v.Some? && !v.value)
  }

  function StoredStyle(v: Option<string>): (r: string)
    ensures v.Some? && v.value != [] ==> r == v.value
    ensures !(v.Some? && v.value != []) ==> r == MinimalStyle
  {
    if v.Some? && v.value != [] then v.value else MinimalStyle
  }

  /** A cover found by the general scan: the container, and the image found
      in it, in its parent, or as the container itself, if any, with its
      `src`, its alt text and the title the walk through the surrounding
      elements found (empty when none). */
  datatype CoverImage = CoverImage(src: string, alt: string, walkTitle: string)
  datatype CoverCandidate = CoverCandidate(container: ContainerId, image: Option<CoverImage>)

  /** The cover of an anime's own page: the centred block in `.leftside` and
      the image in its link. */
  datatype DetailCover = DetailCover(container: ContainerId, src: string)

  /** An open image popup and the image in it, if any. */
  datatype PopupCandidate = PopupCandidate(container: ContainerId, image: Option<MalTitles.PopupImage>)

  class ContentScript {
    var enabled: bool
    var buttonStyle: string
    var showText: bool
    /** The scan lock. */
    var isProcessing: bool
    /** The script's buttons, in the order they were added. */
    var buttons: seq<DownloadButton>
    /** The computed `position` of each container that is an HTML element. */
    var positions: map<ContainerId, string>

    ghost predicate Valid()
      reads this
    {
      OnePerContainer(buttons)
    }

    /** `container.querySelector('.harmoni-download-btn')` finds one. */
    predicate HasButton(c: ContainerId)
      reads this
    {
      HasButtonIn(buttons, c)
    }

    /** While the feature is off, no button shows. */
    predicate HiddenWhileDisabled()
      reads this
    {
      !enabled ==> AllHidden(buttons)
    }

    /** The script as it starts: the default settings, no buttons, no scan
        running. */
    constructor (positions: map<ContainerId, string>)
      ensures enabled && buttonStyle == MinimalStyle && showText
      ensures !isProcessing && buttons == [] && this.positions == positions
      ensures Valid() && HiddenWhileDisabled()
    {
      enabled := true;
      buttonStyle := MinimalStyle;
      showText := true;
      isProcessing := false;
      buttons := [];
      this.positions := positions;
    }

    /** The answer from synced storage replaces the settings; buttons that
        already exist are left as they are. */
    method LoadSettings(storedEnabled: Option<bool>, storedStyle: Option<string>, storedShowText: Option<bool>)
      modifies this
      ensures enabled == StoredFlag(storedEnabled) && buttonStyle == StoredStyle(storedStyle)
      ensures showText == StoredFlag(storedShowText)
      ensures buttons == old(buttons) && positions == old(positions) && isProcessing == old(isProcessing)
    {
      enabled := StoredFlag(storedEnabled);
      buttonStyle := StoredStyle(storedStyle);
      showText := StoredFlag(storedShowText);
    }

    /** `updateExistingButtons`: every button restyled after the current
        settings, in place. */
    method UpdateExistingButtons()
      modifies this
      requires Valid()
      ensures buttons == RestyleAll(old(buttons), enabled, buttonStyle, showText)
      ensures enabled == old(enabled) && buttonStyle == old(buttonStyle) && showText == old(showText)
      ensures positions == old(positions) && isProcessing == old(isProcessing)
      ensures Valid() && HiddenWhileDisabled()
    {
      var i := 0;
      while i < |buttons|
        invariant 0 <= i <= |buttons| == |old(buttons)|
        invariant forall k :: 0 <= k < i ==> buttons[k] == Restyle(old(buttons)[k], enabled, buttonStyle, showText)
        invariant forall k :: i <= k < |buttons| ==> buttons[k] == old(buttons)[k]
        invariant enabled == old(enabled) && buttonStyle == old(buttonStyle) && showText == old(showText)
        invariant positions == old(positions) && isProcessing == old(isProcessing)
      {
        buttons := buttons[i := Restyle(buttons[i], enabled, buttonStyle, showText)];
        i := i + 1;
      }
      RestyleKeepsContainers(old(buttons), enabled, buttonStyle, showText, 0, "");
    }

    /** The `updateMALDownloaderSettings` message: each setting the message
        carries replaces the current one, then every button is restyled.
        Other messages leave the downloader alone. */
    method OnSettingsMessage(action: string, newEnabled: Option<bool>, newStyle: Option<string>,
                             newShowText: Option<bool>)
      returns (handled: bool)
      modifies this
      requires Valid()
      ensures handled <==> action == "updateMALDownloaderSettings"
      ensures !handled ==> enabled == old(enabled) && buttonStyle == old(buttonStyle) &&
                           showText == old(showText) && buttons == old(buttons)
      ensures handled ==> enabled == old(newEnabled.GetOr(enabled)) &&
                          buttonStyle == old(newStyle.GetOr(buttonStyle)) &&
                          showText == old(newShowText.GetOr(showText))
      ensures handled ==> buttons == RestyleAll(old(buttons), enabled, buttonStyle, showText) && HiddenWhileDisabled()
      ensures positions == old(positions) && isProcessing == old(isProcessing)
      ensures Valid()
    {
      if action != "updateMALDownloaderSettings" {
        return false;
      }
      if newEnabled.Some? {
        enabled := newEnabled.value;
      }
      if newStyle.Some? {
        buttonStyle := newStyle.value;
      }
      if newShowText.Some? {
        showText := newShowText.value;
      }
      UpdateExistingButtons();
      handled := true;
    }

    /** `addDownloadButton`: nothing happens when the container already has a
        button or the feature is off; otherwise one new hidden button is
        appended to it, and a statically positioned container becomes
        relatively positioned. */
    method AddDownloadButton(container: ContainerId, imageUrl: string, animeTitle: string)
      modifies this
      requires Valid()
      ensures old(HasButton(container)) || !enabled ==> buttons == old(buttons) && positions == old(positions)
      ensures !old(HasButton(container)) && enabled ==>
                buttons == old(buttons) + [NewButton(container, animeTitle, imageUrl, buttonStyle, showText)]
      ensures !old(HasButton(container)) && enabled ==> positions == Positioned(old(positions), container)
      ensures enabled ==> HasButton(container)
      ensures enabled == old(enabled) && buttonStyle == old(buttonStyle) && showText == old(showText)
      ensures isProcessing == old(isProcessing)
      ensures Valid()
      ensures old(HiddenWhileDisabled()) ==> HiddenWhileDisabled()
    {
      if HasButton(container) || !enabled {
        return;
      }
      var b := NewButton(container, animeTitle, imageUrl, buttonStyle, showText);
      if container in positions && positions[container] == "static" {
        positions := positions[container := "relative"];
      }
      buttons := buttons + [b];
      assert buttons[|buttons| - 1].container == container;
    }

    /** The `mouseenter` handler, as intended: it shows the container's
        button only while the feature is on. */
    method MouseEnter(container: ContainerId)
      modifies this
      requires Valid()
      ensures buttons == ShowOnHover(old(buttons), container, enabled)
      ensures enabled == old(enabled) && buttonStyle == old(buttonStyle) && showText == old(showText)
      ensures positions == old(positions) && isProcessing == old(isProcessing)
      ensures Valid() && (old(HiddenWhileDisabled()) ==> HiddenWhileDisabled())
    {
      if enabled {
        buttons := SetDisplay(buttons, container, "block");
        RestyleKeepsContainers(old(buttons), enabled, buttonStyle, showText, container, "block");
      }
    }

    /** The `mouseleave` handler: the container's button is hidden again. */
    method MouseLeave(container: ContainerId)
      modifies this
      requires Valid()
      ensures buttons == SetDisplay(old(buttons), container, "none")
      ensures enabled == old(enabled) && buttonStyle == old(buttonStyle) && showText == old(showText)
      ensures positions == old(positions) && isProcessing == old(isProcessing)
      ensures Valid() && (old(HiddenWhileDisabled()) ==> HiddenWhileDisabled())
    {
      buttons := SetDisplay(buttons, container, "none");
      RestyleKeepsContainers(old(buttons), enabled, buttonStyle, showText, container, "none");
    }

    /** The `forEach` callback of `handleFancyboxPopups` for one popup: a
        popup that has no button yet and shows an image gets one, titled by
        the popup cascade. */
    method ProcessPopup(popup: PopupCandidate, nearby: string -> seq<string>, docTitle: string)
      modifies this
      requires Valid()
      ensures popup.image.None? || old(HasButton(popup.container)) || !enabled ==>
                buttons == old(buttons) && positions == old(positions)
      ensures popup.image.Some? && !old(HasButton(popup.container)) && enabled ==>
                && buttons == old(buttons) + [NewButton(popup.container,
                                                        MalTitles.PopupTitleOf(popup.image.value, nearby, docTitle),
                                                        popup.image.value.src, buttonStyle, showText)]
                && positions == Positioned(old(positions), popup.container)
      ensures enabled && popup.image.Some? ==> HasButton(popup.container)
      ensures old(buttons) <= buttons && |buttons| <= |old(buttons)| + 1
      ensures |buttons| == |old(buttons)| + 1 ==> buttons[|old(buttons)|].container == popup.container
      ensures |buttons| == |old(buttons)| + 1 ==> popup.image.Some?
      ensures positions == old(positions) || (positions == Positioned(old(positions), popup.container) && popup.image.Some?)
      ensures enabled == old(enabled) && buttonStyle == old(buttonStyle) && showText == old(showText)
      ensures isProcessing == old(isProcessing)
      ensures Valid() && (old(HiddenWhileDisabled()) ==> HiddenWhileDisabled())
    {
      if HasButton(popup.container) || popup.image.None? {
        return;
      }
      var animeTitle := MalTitles.PopupTitle(popup.image.value, nearby, docTitle);
      AddDownloadButton(popup.container, popup.image.value.src, animeTitle);
    }

    /** `handleFancyboxPopups`: every open popup without a button gets one
        for its image, titled by the popup cascade. */
    method HandleFancyboxPopups(popups: seq<PopupCandidate>, nearby: string -> seq<string>, docTitle: string)
      modifies this
      requires Valid()
      ensures old(buttons) <= buttons
      ensures enabled ==> forall k :: 0 <= k < |popups| && popups[k].image.Some? ==> HasButton(popups[k].container)
      ensures GainedOnly(old(buttons), buttons, PopupTargets(popups))
      ensures PositionsFrame(old(positions), positions, PopupTargets(popups))
      ensures !enabled ==> buttons == old(buttons) && positions == old(positions)
      ensures enabled == old(enabled) && buttonStyle == old(buttonStyle) && showText == old(showText)
      ensures isProcessing == old(isProcessing)
      ensures Valid() && (old(HiddenWhileDisabled()) ==> HiddenWhileDisabled())
    {
      var i := 0;
      while i < |popups|
        invariant 0 <= i <= |popups|
        invariant Valid() && old(buttons) <= buttons
        invariant enabled ==> PopupsCovered(buttons, popups, i)
        invariant GainedOnly(old(buttons), buttons, PopupTargets(popups))
        invariant PositionsFrame(old(positions), positions, PopupTargets(popups))
        invariant !enabled ==> buttons == old(buttons) && positions == old(positions)
        invariant enabled == old(enabled) && buttonStyle == old(buttonStyle) && showText == old(showText)
        invariant isProcessing == old(isProcessing)
        invariant old(HiddenWhileDisabled()) ==> HiddenWhileDisabled()
      {
        ghost var before, beforePositions := buttons, positions;
        ProcessPopup(popups[i], nearby, docTitle);
        if popups[i].image.Some? {
          assert popups[i].container in PopupTargets(popups);
        }
        PopupStep(old(buttons), before, buttons, popups, i, enabled);
        Reposition(old(positions), beforePositions, positions, popups[i].container, PopupTargets(popups));
        i := i + 1;
      }
    }

    /** The `forEach` callback of `findAnimeCovers` for one container: a
        container where an image was found gets a button, titled by the
        cover cascade, unless it already has one. */
    method ProcessCover(cover: CoverCandidate, page: MalTitles.PageInfo, decode: string -> string, now: nat)
      modifies this
      requires Valid()
      ensures cover.image.None? || old(HasButton(cover.container)) || !enabled ==>
                buttons == old(buttons) && positions == old(positions)
      ensures cover.image.Some? && !old(HasButton(cover.container)) && enabled ==>
                var img := cover.image.value;
                && buttons == old(buttons) + [NewButton(cover.container,
                                                        MalTitles.CoverTitleOf(img.walkTitle, img.alt, img.src,
                                                                               page, decode, now),
                                                        img.src, buttonStyle, showText)]
                && positions == Positioned(old(positions), cover.container)
      ensures enabled && cover.image.Some? ==> HasButton(cover.container)
      ensures old(buttons) <= buttons && |buttons| <= |old(buttons)| + 1
      ensures |buttons| == |old(buttons)| + 1 ==> buttons[|old(buttons)|].container == cover.container
      ensures |buttons| == |old(buttons)| + 1 ==> cover.image.Some?
      ensures positions == old(positions) || (positions == Positioned(old(positions), cover.container) && cover.image.Some?)
      ensures enabled == old(enabled) && buttonStyle == old(buttonStyle) && showText == old(showText)
      ensures isProcessing == old(isProcessing)
      ensures Valid() && (old(HiddenWhileDisabled()) ==> HiddenWhileDisabled())
    {
      if cover.image.None? {
        return;
      }
      var img := cover.image.value;
      var animeTitle := MalTitles.CoverTitle(img.walkTitle, img.alt, img.src, page, decode, now);
      if !HasButton(cover.container) {
        AddDownloadButton(cover.container, img.src, animeTitle);
      }
    }

    /** `findAnimeCovers`: skipped while a scan holds the lock; otherwise it
        takes the lock, adds a button to the cover of an anime's own page,
        to open popups and to every container in which an image was found,
        and leaves the lock to be released by a timer. */
    method FindAnimeCovers(page: MalTitles.PageInfo, detail: Option<DetailCover>, docTitle: string,
                           popups: seq<PopupCandidate>, covers: seq<CoverCandidate>,
                           nearby: string -> seq<string>, decode: string -> string, now: nat)
      returns (ran: bool)
      modifies this
      requires Valid()
      ensures ran <==> !old(isProcessing)
      ensures !ran ==> buttons == old(buttons) && positions == old(positions)
      ensures isProcessing
      ensures old(buttons) <= buttons
      ensures ran && enabled ==> forall k :: 0 <= k < |covers| && covers[k].image.Some? ==> HasButton(covers[k].container)
      ensures ran && enabled ==> forall k :: 0 <= k < |popups| && popups[k].image.Some? ==> HasButton(popups[k].container)
      ensures ran && enabled && page.isDetailPage && detail.Some? ==> HasButton(detail.value.container)
      ensures GainedOnly(old(buttons), buttons, ScanTargets(page, detail, popups, covers))
      ensures PositionsFrame(old(positions), positions, ScanTargets(page, detail, popups, covers))
      ensures !enabled ==> buttons == old(buttons) && positions == old(positions)
      ensures enabled == old(enabled) && buttonStyle == old(buttonStyle) && showText == old(showText)
      ensures Valid() && (old(HiddenWhileDisabled()) ==> HiddenWhileDisabled())
    {
      if isProcessing {
        return false;
      }
      isProcessing := true;
      ran := true;
      ghost var targets := ScanTargets(page, detail, popups, covers);
      if page.isDetailPage && detail.Some? {
        var animeTitle := MalTitles.DetailPageTitle(page.titleNameHeading, docTitle);
        AddDownloadButton(detail.value.container, detail.value.src, animeTitle);
        Reposition(old(positions), old(positions), positions, detail.value.container, targets);
      }
      ghost var afterDetail, positionsAfterDetail := buttons, positions;
      assert GainedOnly(old(buttons), afterDetail, targets);
      HandleFancyboxPopups(popups, nearby, docTitle);
      if page.isDetailPage && detail.Some? && enabled {
        PrefixKeepsButton(afterDetail, buttons, detail.value.container);
      }
      GainedOnlyTrans(old(buttons), afterDetail, buttons, PopupTargets(popups), targets);
      PositionsFrameTrans(old(positions), positionsAfterDetail, positions, PopupTargets(popups), targets);
      ghost var afterPopups, positionsAfterPopups := buttons, positions;
      ProcessCovers(covers, page, decode, now);
      LaterStepsKeepCovered(afterPopups, buttons, popups, detail);
      GainedOnlyTrans(old(buttons), afterPopups, buttons, CoverTargets(covers), targets);
      PositionsFrameTrans(old(positions), positionsAfterPopups, positions, CoverTargets(covers), targets);
    }

    /** The `forEach` over the containers the scan found: each one in which
        an image was found gets a button unless it has one. */
    method ProcessCovers(covers: seq<CoverCandidate>, page: MalTitles.PageInfo, decode: string -> string, now: nat)
      modifies this
      requires Valid()
      ensures old(buttons) <= buttons
      ensures enabled ==> CoversCovered(buttons, covers, |covers|)
      ensures GainedOnly(old(buttons), buttons, CoverTargets(covers))
      ensures PositionsFrame(old(positions), positions, CoverTargets(covers))
      ensures !enabled ==> buttons == old(buttons) && positions == old(positions)
      ensures enabled == old(enabled) && buttonStyle == old(buttonStyle) && showText == old(showText)
      ensures isProcessing == old(isProcessing)
      ensures Valid() && (old(HiddenWhileDisabled()) ==> HiddenWhileDisabled())
    {
      var i := 0;
      while i < |covers|
        invariant 0 <= i <= |covers|
        invariant Valid() && old(buttons) <= buttons
        invariant enabled ==> CoversCovered(buttons, covers, i)
        invariant GainedOnly(old(buttons), buttons, CoverTargets(covers))
        invariant PositionsFrame(old(positions), positions, CoverTargets(covers))
        invariant !enabled ==> buttons == old(buttons) && positions == old(positions)
        invariant enabled == old(enabled) && buttonStyle == old(buttonStyle) && showText == old(showText)
        invariant isProcessing == old(isProcessing)
        invariant old(HiddenWhileDisabled()) ==> HiddenWhileDisabled()
      {
        ghost var before, beforePositions := buttons, positions;
        ProcessCover(covers[i], page, decode, now);
        if covers[i].image.Some? {
          assert covers[i].container in CoverTargets(covers);
        }
        StillCovered(before, buttons, covers, i, enabled);
        GainedOnlyTrans(old(buttons), before, buttons, CoverTargets(covers), CoverTargets(covers));
        Reposition(old(positions), beforePositions, positions, covers[i].container, CoverTargets(covers));
        i := i + 1;
      }
    }

    /** The lock is released by the timer the scan sets. */
    method ReleaseLock()
      modifies this
      ensures !isProcessing
      ensures enabled == old(enabled) && buttonStyle == old(buttonStyle) && showText == old(showText)
      ensures buttons == old(buttons) && positions == old(positions)
    {
      isProcessing := false;
    }
  }

  /** Every button beyond the first `|before|` sits in one of the target
      containers. */
  predicate GainedOnly(before: seq<DownloadButton>, after: seq<DownloadButton>, targets: set<ContainerId>) {
    forall k :: |before| <= k < |after| ==> after[k].container in targets
  }

  /** The same containers have a position, and the only change is a target
      container going from `static` to `relative`. */
  predicate PositionsFrame(before: map<ContainerId, string>, after: map<ContainerId, string>,
                           targets: set<ContainerId>) {
    && after.Keys == before.Keys
    && forall c :: c in after && c in before ==>
         after[c] == before[c] || (c in targets && before[c] == "static" && after[c] == "relative")
  }

  /** The popups that show an image. */
  function PopupTargets(popups: seq<PopupCandidate>): set<ContainerId> {
    set j | 0 <= j < |popups| && popups[j].image.Some? :: popups[j].container
  }

  /** The containers in which the scan found an image. */
  function CoverTargets(covers: seq<CoverCandidate>): set<ContainerId> {
    set j | 0 <= j < |covers| && covers[j].image.Some? :: covers[j].container
  }

  /** The containers a scan may add a button to: the cover of an anime's
      page, the popups with an image and the containers with an image. */
  function ScanTargets(page: MalTitles.PageInfo, detail: Option<DetailCover>, popups: seq<PopupCandidate>,
                       covers: seq<CoverCandidate>): set<ContainerId> {
    (if page.isDetailPage && detail.Some? then {detail.value.container} else {})
    + PopupTargets(popups) + CoverTargets(covers)
  }

  /** Buttons gained in two appending steps, each within its targets. */
  lemma GainedOnlyTrans(a: seq<DownloadButton>, b: seq<DownloadButton>, c: seq<DownloadButton>,
                        s: set<ContainerId>, t: set<ContainerId>)
    requires b <= c && GainedOnly(a, b, t) && GainedOnly(b, c, s) && s <= t
    ensures GainedOnly(a, c, t)
  {
    forall k | |a| <= k < |c|
      ensures c[k].container in t
    {
      if k < |b| {
        assert c[k] == b[k];
      }
    }
  }

  /** Two changes of positions, each within its targets. */
  lemma PositionsFrameTrans(a: map<ContainerId, string>, b: map<ContainerId, string>, c: map<ContainerId, string>,
                            s: set<ContainerId>, t: set<ContainerId>)
    requires PositionsFrame(a, b, t) && PositionsFrame(b, c, s) && s <= t
    ensures PositionsFrame(a, c, t)
  {
  }

  /** Adding a button to a target container, or leaving the positions
      alone, keeps the change within the targets. */
  lemma Reposition(origin: map<ContainerId, string>, before: map<ContainerId, string>,
                   after: map<ContainerId, string>, c: ContainerId, targets: set<ContainerId>)
    requires PositionsFrame(origin, before, targets)
    requires after == before || (after == Positioned(before, c) && c in targets)
    ensures PositionsFrame(origin, after, targets)
  {
  }

  /** Every popup before the `n`th that has an image has a button. */
  predicate PopupsCovered(buttons: seq<DownloadButton>, popups: seq<PopupCandidate>, n: nat) {
    forall k :: 0 <= k < n && k < |popups| && popups[k].image.Some? ==> HasButtonIn(buttons, popups[k].container)
  }

  /** Every cover before the `n`th that has an image has a button. */
  predicate CoversCovered(buttons: seq<DownloadButton>, covers: seq<CoverCandidate>, n: nat) {
    forall k :: 0 <= k < n && k < |covers| && covers[k].image.Some? ==> HasButtonIn(buttons, covers[k].container)
  }

  /** One round of the popup loop: appending at most a button for popup `i`
      keeps the earlier popups covered, covers popup `i` when the feature is
      on, and accounts for the new button. */
  lemma PopupStep(origin: seq<DownloadButton>, before: seq<DownloadButton>, after: seq<DownloadButton>,
                  popups: seq<PopupCandidate>, i: nat, on: bool)
    requires i < |popups| && origin <= before <= after
    requires |after| <= |before| + 1
    requires |after| == |before| + 1 ==> after[|before|].container == popups[i].container
    requires |after| == |before| + 1 ==> popups[i].image.Some?
    requires GainedOnly(origin, before, PopupTargets(popups))
    requires on ==> PopupsCovered(before, popups, i)
    requires on && popups[i].image.Some? ==> HasButtonIn(after, popups[i].container)
    ensures GainedOnly(origin, after, PopupTargets(popups))
    ensures on ==> PopupsCovered(after, popups, i + 1)
  {
    forall c | HasButtonIn(before, c)
      ensures HasButtonIn(after, c)
    {
      PrefixKeepsButton(before, after, c);
    }
    forall k | |origin| <= k < |after|
      ensures after[k].container in PopupTargets(popups)
    {
      if k < |before| {
        assert after[k] == before[k];
      } else {
        assert popups[i].container == after[k].container;
      }
    }
  }

  /** One round of the cover loop: appending at most a button keeps every
      container found so far covered, and covers cover `i` when the feature
      is on. */
  lemma StillCovered(before: seq<DownloadButton>, after: seq<DownloadButton>, covers: seq<CoverCandidate>,
                     i: nat, on: bool)
    requires before <= after && i < |covers|
    requires on ==> CoversCovered(before, covers, i)
    requires on && covers[i].image.Some? ==> HasButtonIn(after, covers[i].container)
    ensures on ==> CoversCovered(after, covers, i + 1)
  {
    forall c | HasButtonIn(before, c)
      ensures HasButtonIn(after, c)
    {
      PrefixKeepsButton(before, after, c);
    }
  }

  /** Later steps of a scan only append, so the popups and the cover of an
      anime's page keep their buttons. */
  lemma LaterStepsKeepCovered(before: seq<DownloadButton>, after: seq<DownloadButton>,
                              popups: seq<PopupCandidate>, detail: Option<DetailCover>)
    requires before <= after
    ensures PopupsCovered(before, popups, |popups|) ==> PopupsCovered(after, popups, |popups|)
    ensures detail.Some? && HasButtonIn(before, detail.value.container) ==> HasButtonIn(after, detail.value.container)
  {
    forall c | HasButtonIn(before, c)
      ensures HasButtonIn(after, c)
    {
      PrefixKeepsButton(before, after, c);
    }
  }
}
