/** The download history of the MyAnimeList cover downloader and the click
    handler of a download button (src/content/myanimelist/index.ts): after a
    download the item goes to the front of the stored history, which keeps
    the latest 50. The storage is a value passed in and returned. */
module MalHistory {
  import opened Wrappers
  import Seqs
  import MalDownload

  /** One recorded download; the time stamp is an ISO string supplied by the
      caller. */
  datatype HistoryItem = HistoryItem(title: string, url: string, downloadedAt: string)

  const HistoryLimit: nat := 50

  /** `slice(0, 50)`: the first 50 items, or all of them. */
  function KeepLatest(s: seq<HistoryItem>): (r: seq<HistoryItem>)
    ensures |r| <= HistoryLimit
    ensures r <= s
    ensures |r| == if |s| <= HistoryLimit then |s| else HistoryLimit
  {
    if |s| <= HistoryLimit then s else s[..HistoryLimit]
  }

  /** `result.malDownloaderHistory || []`. */
  function StoredHistory(stored: Option<seq<HistoryItem>>): seq<HistoryItem> {
    stored.GetOr([])
  }

  /** `[downloadItem, ...history].slice(0, 50)`: the new item first, then the
      older items in their order, as many as fit. */
  function AddToHistory(item: HistoryItem, history: seq<HistoryItem>): (r: seq<HistoryItem>)
    ensures 1 <= |r| <= HistoryLimit
    ensures r[0] == item
    ensures r[1..] <= history
    ensures |r| == if |history| < HistoryLimit then |history| + 1 else HistoryLimit
  {
    KeepLatest([item] + history)
  }

  function Reverse(s: seq<HistoryItem>): (r: seq<HistoryItem>)
    ensures |r| == |s|
  {
    if s == [] then [] else Reverse(s[1..]) + [s[0]]
  }

  /** The history after the given downloads, oldest first. */
  function RecordAll(items: seq<HistoryItem>, history: seq<HistoryItem>): seq<HistoryItem>
    decreases |items|
  {
    if items == [] then history else RecordAll(items[1..], AddToHistory(items[0], history))
  }

  /** Cutting the tail early does not change the first 50. */
  lemma KeepLatestAbsorbs(a: seq<HistoryItem>, b: seq<HistoryItem>)
    ensures KeepLatest(a + KeepLatest(b)) == KeepLatest(a + b)
  {
    if |b| > HistoryLimit {
      if |a| >= HistoryLimit {
        assert (a + KeepLatest(b))[..HistoryLimit] == a[..HistoryLimit] == (a + b)[..HistoryLimit];
      } else {
        assert (a + KeepLatest(b))[..HistoryLimit] == a + b[..HistoryLimit - |a|] == (a + b)[..HistoryLimit];
      }
    }
  }

  /** Whatever the number of downloads, the history holds the latest 50
      items, newest first, followed by what was stored before as far as it
      fits. */
  lemma {:induction false} RecordAllKeepsNewest(items: seq<HistoryItem>, history: seq<HistoryItem>)
    requires |history| <= HistoryLimit
    ensures RecordAll(items, history) == KeepLatest(Reverse(items) + history)
    decreases |items|
  {
    if items != [] {
      var h := AddToHistory(items[0], history);
      assert RecordAll(items, history) == RecordAll(items[1..], h);
      RecordAllKeepsNewest(items[1..], h);
      var rest := Reverse(items[1..]);
      KeepLatestAbsorbs(rest, [items[0]] + history);
      assert Reverse(items) == rest + [items[0]];
      Seqs.ConcatAssoc(rest, [items[0]], history);
    } else {
      assert Reverse(items) + history == history;
    }
  }

  /** The stored history after a click, as written: `downloadCover` catches
      every error, so the item is recorded whether or not the file was
      saved. */
  function HistoryAfterClickAsWritten(outcome: MalDownload.Outcome, item: HistoryItem, history: seq<HistoryItem>)
    : (r: seq<HistoryItem>)
    ensures |r| >= 1 && r[0] == item && r[1..] <= history && |r| <= HistoryLimit
  {
    AddToHistory(item, history)
  }

  /** The stored history after a click, as intended: only a saved download
      is recorded. */
  function HistoryAfterClick(outcome: MalDownload.Outcome, item: HistoryItem, history: seq<HistoryItem>)
    : (r: seq<HistoryItem>)
    ensures outcome.Failed? ==> r == history
    ensures outcome.Saved? ==> |r| >= 1 && r[0] == item && r[1..] <= history && |r| <= HistoryLimit
  {
    if outcome.Saved? then AddToHistory(item, history) else history
  }

  /** An image element without any URL fails to download, yet the handler as
      written records it in the history; the intended handler does not. */
  lemma FailedDownloadIsRecorded(title: string, now: string, history: seq<HistoryItem>,
                                 head: string -> MalDownload.Reply, get: string -> MalDownload.Reply,
                                 download: string -> MalDownload.Reply)
    ensures var img := MalDownload.ImageAttrs(None, None, None, "");
            var o := MalDownload.DownloadOutcome(img, title, head, get, download);
            var item := HistoryItem(title, "", now);
            o.Failed? && HistoryAfterClickAsWritten(o, item, history)[0] == item &&
            HistoryAfterClick(o, item, history) == history
  {
  }

  /** The click handler with the intended recording: the download runs, and
      only a saved file is added to the history and announced to the popup.
      The history item records the URL the button was made for, not the URL
      the file came from. */
  method OnDownloadClick(img: MalDownload.ImageAttrs, title: string, imageUrl: string, now: string,
                         stored: Option<seq<HistoryItem>>,
                         head: string -> MalDownload.Reply, get: string -> MalDownload.Reply,
                         download: string -> MalDownload.Reply)
    returns (outcome: MalDownload.Outcome, toasts: seq<MalDownload.Toast>, history: seq<HistoryItem>, notified: bool)
    ensures outcome == MalDownload.DownloadOutcome(img, title, head, get, download)
    ensures notified <==> outcome.Saved?
    ensures history == HistoryAfterClick(outcome, HistoryItem(title, imageUrl, now), StoredHistory(stored))
    ensures |toasts| == 2 && toasts[1] == MalDownload.FinalToast(outcome, title)
  {
    outcome, toasts := MalDownload.DownloadCover(img, title, head, get, download);
    history := StoredHistory(stored);
    notified := false;
    if outcome.Saved? {
      history := AddToHistory(HistoryItem(title, imageUrl, now), history);
      notified := true;
    }
  }
}
