/**
  The per-link loop of the archive job: each anchor of the bulletin page is
  classified, its canonical URL is checked against the download history,
  and a document seen for the first time is downloaded and, on success,
  recorded in the history and in the list of the day's new items.

  The loop sees each anchor as a `Link`: its candidate URL (see
  `Links.Candidate`) and its text. `Step` and `RunUpTo` specify the loop
  over the classified anchors; `ProcessLinks` is the loop itself.
*/
module History {

  import opened Wrappers
  import opened Text
  import opened Links

  /** A history record, keyed by canonical URL in the history map. */
  datatype Entry = Entry(firstSeen: string, localPath: string, linkText: string)

  /** A document downloaded in this run, as reported in the memo. */
  datatype Item = Item(text: string, url: string, file: string)

  /** One call of the downloader: the URL, the local file name, and whether it succeeded. */
  datatype Attempt = Attempt(url: string, file: string, ok: bool)

  /** The loop's state: the history, the new items, and the downloads tried so far. */
  datatype JobState = JobState(history: map<string, Entry>, newItems: seq<Item>, attempts: seq<Attempt>)

  /**
    What a run learns from outside: the date string of the run, the MD5 hex
    digest, and, for the anchor at each position, whether the download
    started while processing it succeeds.
  */
  datatype World = World(today: string, md5: string -> string, download: nat -> bool)

  /** An anchor as the loop sees it: the URL to download, if it is a candidate, and the link text. */
  datatype Link = Link(url: Option<string>, text: string)

  /** The anchors of the page, classified one by one. */
  function Classify(anchors: seq<Anchor>): (r: seq<Link>)
    ensures |r| == |anchors|
  {
    seq(|anchors|, j requires 0 <= j < |anchors| => Link(Candidate(anchors[j]), anchors[j].text))
  }

  /** Link `j` carries anchor `j`'s candidate URL and its text. */
  lemma ClassifyAt(anchors: seq<Anchor>, j: nat)
    requires j < |anchors|
    ensures Classify(anchors)[j] == Link(Candidate(anchors[j]), anchors[j].text)
  {
  }

  /** `h` keeps every key of `h0` with the same entry. */
  predicate Extends(h0: map<string, Entry>, h: map<string, Entry>)
  {
    forall k :: k in h0 ==> k in h && h[k] == h0[k]
  }

  function Urls(items: seq<Item>): (r: seq<string>)
    ensures |r| == |items|
  {
    seq(|items|, i requires 0 <= i < |items| => items[i].url)
  }

  predicate DistinctUrls(items: seq<Item>)
  {
    forall i, j :: 0 <= i < j < |items| ==> items[i].url != items[j].url
  }

  /** The URLs of the downloads that succeeded, in call order. */
  function SucceededUrls(attempts: seq<Attempt>): seq<string>
  {
    if attempts == [] then []
    else
      var last := attempts[|attempts| - 1];
      SucceededUrls(attempts[..|attempts| - 1]) + (if last.ok then [last.url] else [])
  }

  /** Appending a download appends its URL to the successful ones exactly when it succeeded. */
  lemma SucceededUrlsAppend(attempts: seq<Attempt>, t: Attempt)
    ensures SucceededUrls(attempts + [t]) == SucceededUrls(attempts) + if t.ok then [t.url] else []
  {
    assert (attempts + [t])[..|attempts|] == attempts;
  }

  /** One anchor: skip it, or try to download its URL and record it on success. */
  function Step(w: World, st: JobState, link: Link, ok: bool): (r: JobState)
    ensures Extends(st.history, r.history)
    ensures !ok ==> r.history == st.history && r.newItems == st.newItems
    ensures link.url.None? || link.url.value in st.history ==> r == st
  {
    match link.url
    case None => st
    case Some(url) =>
      if url in st.history then st
      else
        var file := LocalFilename(w.today, w.md5, url);
        var attempts := st.attempts + [Attempt(url, file, ok)];
        if ok then
          JobState(st.history[url := Entry(w.today, file, link.text)],
                   st.newItems + [Item(link.text, url, file)],
                   attempts)
        else
          JobState(st.history, st.newItems, attempts)
  }

  /**
    The state after the first `n` links, starting from history `h0`: the
    starting history is kept, each anchor causes at most one download, and
    each new item comes from one download.
  */
  function RunUpTo(w: World, h0: map<string, Entry>, links: seq<Link>, n: nat): (r: JobState)
    requires n <= |links|
    ensures Extends(h0, r.history)
    ensures |r.newItems| <= |r.attempts| <= n
  {
    if n == 0 then JobState(h0, [], [])
    else Step(w, RunUpTo(w, h0, links, n - 1), links[n - 1], w.download(n - 1))
  }

  /** The whole loop: the starting history is kept and no anchor is downloaded twice. */
  function Run(w: World, h0: map<string, Entry>, anchors: seq<Anchor>): (r: JobState)
    ensures Extends(h0, r.history)
    ensures |r.attempts| <= |anchors|
  {
    RunUpTo(w, h0, Classify(anchors), |anchors|)
  }

  /** `it` is new with respect to `h0` and `h` holds the record the job writes for it. */
  predicate Recorded(w: World, h0: map<string, Entry>, h: map<string, Entry>, it: Item)
  {
    && it.url !in h0
    && it.url in h
    && h[it.url] == Entry(w.today, it.file, it.text)
    && it.file == LocalFilename(w.today, w.md5, it.url)
  }

  /**
    What holds of the history and the new items at every anchor: the
    starting history is kept, the keys added are exactly the new items'
    URLs, each new item has its record, and no URL is reported twice.
  */
  ghost predicate ItemsConsistent(w: World, h0: map<string, Entry>, st: JobState)
  {
    && Extends(h0, st.history)
    && (forall k :: k in st.history <==> k in h0 || k in Urls(st.newItems))
    && (forall it :: it in st.newItems ==> Recorded(w, h0, st.history, it))
    && DistinctUrls(st.newItems)
  }

  /**
    What holds of the downloads tried at every anchor: no known URL is ever
    downloaded, every successful download is in the history, no URL is
    downloaded again after a successful download, and the new items are
    the successful downloads in call order.
  */
  ghost predicate AttemptsConsistent(w: World, h0: map<string, Entry>, st: JobState)
  {
    && (forall t :: t in st.attempts ==> t.url !in h0 && t.file == LocalFilename(w.today, w.md5, t.url))
    && (forall t :: t in st.attempts && t.ok ==> t.url in st.history)
    && (forall i, j :: 0 <= i < j < |st.attempts| && st.attempts[i].url == st.attempts[j].url ==> !st.attempts[i].ok)
    && Urls(st.newItems) == SucceededUrls(st.attempts)
  }

  ghost predicate Consistent(w: World, h0: map<string, Entry>, st: JobState)
  {
    ItemsConsistent(w, h0, st) && AttemptsConsistent(w, h0, st)
  }

  /** Some link among the first `n` is a candidate at `url` whose download succeeds. */
  predicate SucceededBefore(w: World, links: seq<Link>, url: string, n: nat)
    requires n <= |links|
  {
    exists j | 0 <= j < n :: links[j].url == Some(url) && w.download(j)
  }

  /** Link `j` is the first successful download of a URL not in `h0`. */
  predicate FirstSuccess(w: World, h0: map<string, Entry>, links: seq<Link>, j: nat)
    requires j < |links|
  {
    match links[j].url
    case None => false
    case Some(url) => w.download(j) && url !in h0 && !SucceededBefore(w, links, url, j)
  }

  /**
    A reference definition of the new items that does not follow the loop:
    one item per first successful download of an unknown URL, in anchor order.
  */
  function FreshDocuments(w: World, h0: map<string, Entry>, links: seq<Link>, n: nat): seq<Item>
    requires n <= |links|
  {
    if n == 0 then []
    else if FirstSuccess(w, h0, links, n - 1) then
      var url := links[n - 1].url.value;
      FreshDocuments(w, h0, links, n - 1) + [Item(links[n - 1].text, url, LocalFilename(w.today, w.md5, url))]
    else FreshDocuments(w, h0, links, n - 1)
  }

  /** One anchor keeps the history and the new items consistent. */
  lemma StepKeepsItemsConsistent(w: World, h0: map<string, Entry>, st: JobState, link: Link, ok: bool)
    requires ItemsConsistent(w, h0, st)
    ensures ItemsConsistent(w, h0, Step(w, st, link, ok))
  {
    var r := Step(w, st, link, ok);
    if link.url.Some? && link.url.value !in st.history && ok {
      var url := link.url.value;
      var it := Item(link.text, url, LocalFilename(w.today, w.md5, url));
      assert r.newItems == st.newItems + [it];
      assert Urls(r.newItems) == Urls(st.newItems) + [url];
      forall k
        ensures k in r.history <==> k in h0 || k in Urls(r.newItems)
      {
        assert k in Urls(r.newItems) <==> k in Urls(st.newItems) || k == url;
      }
      forall x | x in r.newItems
        ensures Recorded(w, h0, r.history, x)
      {
        if x != it {
          assert x in st.newItems && x.url in st.history;
        }
      }
      forall i, j | 0 <= i < j < |r.newItems|
        ensures r.newItems[i].url != r.newItems[j].url
      {
        assert r.newItems[i] == st.newItems[i] && r.newItems[i] in st.newItems;
        if j < |st.newItems| {
          assert r.newItems[j] == st.newItems[j];
        }
      }
    }
  }

  /** One anchor keeps the record of downloads consistent. */
  lemma StepKeepsAttemptsConsistent(w: World, h0: map<string, Entry>, st: JobState, link: Link, ok: bool)
    requires ItemsConsistent(w, h0, st) && AttemptsConsistent(w, h0, st)
    ensures AttemptsConsistent(w, h0, Step(w, st, link, ok))
  {
    var r := Step(w, st, link, ok);
    if link.url.Some? && link.url.value !in st.history {
      var url := link.url.value;
      var t := Attempt(url, LocalFilename(w.today, w.md5, url), ok);
      assert r.attempts == st.attempts + [t];
      forall u | u in r.attempts
        ensures u.url !in h0 && u.file == LocalFilename(w.today, w.md5, u.url)
        ensures u.ok ==> u.url in r.history
      {
        if u != t {
          assert u in st.attempts;
        }
      }
      forall i, j | 0 <= i < j < |r.attempts| && r.attempts[i].url == r.attempts[j].url
        ensures !r.attempts[i].ok
      {
        assert r.attempts[i] == st.attempts[i];
        if j == |st.attempts| {
          assert st.attempts[i] in st.attempts;
        } else {
          assert r.attempts[j] == st.attempts[j];
        }
      }
      SucceededUrlsAppend(st.attempts, t);
      if ok {
        assert r.newItems == st.newItems + [Item(link.text, url, t.file)];
        assert Urls(r.newItems) == Urls(st.newItems) + [url];
      }
    }
  }

  /** One anchor keeps the loop state consistent. */
  lemma StepConsistent(w: World, h0: map<string, Entry>, st: JobState, link: Link, ok: bool)
    requires Consistent(w, h0, st)
    ensures Consistent(w, h0, Step(w, st, link, ok))
  {
    StepKeepsItemsConsistent(w, h0, st, link, ok);
    StepKeepsAttemptsConsistent(w, h0, st, link, ok);
  }

  /** The loop state is consistent after any number of links. */
  lemma {:induction false} RunConsistent(w: World, h0: map<string, Entry>, links: seq<Link>, n: nat)
    requires n <= |links|
    ensures Consistent(w, h0, RunUpTo(w, h0, links, n))
  {
    if n > 0 {
      RunConsistent(w, h0, links, n - 1);
      StepConsistent(w, h0, RunUpTo(w, h0, links, n - 1), links[n - 1], w.download(n - 1));
    }
  }

  /** The whole loop leaves a consistent state. */
  lemma RunIsConsistent(w: World, h0: map<string, Entry>, anchors: seq<Anchor>)
    ensures Consistent(w, h0, Run(w, h0, anchors))
  {
    RunConsistent(w, h0, Classify(anchors), |anchors|);
  }

  /** History only grows: a later state keeps every entry of an earlier one. */
  lemma {:induction false} HistoryOnlyGrows(w: World, h0: map<string, Entry>, links: seq<Link>, m: nat, n: nat)
    requires m <= n <= |links|
    ensures Extends(RunUpTo(w, h0, links, m).history, RunUpTo(w, h0, links, n).history)
  {
    if m < n {
      HistoryOnlyGrows(w, h0, links, m, n - 1);
    }
  }

  /** One anchor adds a key only for its own URL, and only when the download succeeds. */
  lemma StepKeys(w: World, st: JobState, link: Link, ok: bool, k: string)
    ensures k in Step(w, st, link, ok).history <==> k in st.history || (link.url == Some(k) && ok)
  {
  }

  /** One anchor appends an item exactly when its URL is unknown so far and its download succeeds. */
  lemma StepNewItems(w: World, st: JobState, link: Link, ok: bool)
    ensures Step(w, st, link, ok).newItems
         == st.newItems + if link.url.Some? && link.url.value !in st.history && ok
                          then [Item(link.text, link.url.value, LocalFilename(w.today, w.md5, link.url.value))]
                          else []
  {
  }

  /** A successful candidate among the first `n` links is one among the first `n - 1`, or the last one. */
  lemma SucceededBeforeStep(w: World, links: seq<Link>, url: string, n: nat)
    requires 0 < n <= |links|
    ensures SucceededBefore(w, links, url, n)
        <==> SucceededBefore(w, links, url, n - 1) || (links[n - 1].url == Some(url) && w.download(n - 1))
  {
    if SucceededBefore(w, links, url, n) {
      var j :| 0 <= j < n && links[j].url == Some(url) && w.download(j);
      if j < n - 1 {
        assert links[j].url == Some(url) && w.download(j);
      }
    }
    if SucceededBefore(w, links, url, n - 1) {
      var j :| 0 <= j < n - 1 && links[j].url == Some(url) && w.download(j);
      assert links[j].url == Some(url) && w.download(j);
    }
    if links[n - 1].url == Some(url) && w.download(n - 1) {
      assert links[n - 1].url == Some(url) && w.download(n - 1);
    }
  }

  /**
    A URL is a key after `n` links exactly when it was already known or
    some candidate at that URL among the first `n` downloaded
    successfully: a failed download leaves no trace, and a later anchor at
    the same URL is tried again.
  */
  lemma {:induction false} KeysCharacterised(w: World, h0: map<string, Entry>, links: seq<Link>, n: nat)
    requires n <= |links|
    ensures forall k :: k in RunUpTo(w, h0, links, n).history <==> k in h0 || SucceededBefore(w, links, k, n)
  {
    if n > 0 {
      KeysCharacterised(w, h0, links, n - 1);
      var st := RunUpTo(w, h0, links, n - 1);
      forall k
        ensures k in RunUpTo(w, h0, links, n).history <==> k in h0 || SucceededBefore(w, links, k, n)
      {
        StepKeys(w, st, links[n - 1], w.download(n - 1), k);
        SucceededBeforeStep(w, links, k, n);
      }
    }
  }

  /**
    The `n`-th link is the first successful download of an unknown URL
    exactly when the loop finds its URL missing from the history and the
    download succeeds.
  */
  lemma FirstSuccessIsUnknownUrl(w: World, h0: map<string, Entry>, links: seq<Link>, n: nat)
    requires 0 < n <= |links|
    ensures FirstSuccess(w, h0, links, n - 1)
        <==> links[n - 1].url.Some? && links[n - 1].url.value !in RunUpTo(w, h0, links, n - 1).history && w.download(n - 1)
  {
    KeysCharacterised(w, h0, links, n - 1);
  }

  /**
    The new items are exactly the first successful downloads of unknown
    URLs, in the order of the anchors on the page.
  */
  lemma {:induction false} NewItemsAreFreshDocuments(w: World, h0: map<string, Entry>, links: seq<Link>, n: nat)
    requires n <= |links|
    ensures RunUpTo(w, h0, links, n).newItems == FreshDocuments(w, h0, links, n)
  {
    if n > 0 {
      NewItemsAreFreshDocuments(w, h0, links, n - 1);
      FirstSuccessIsUnknownUrl(w, h0, links, n);
      StepNewItems(w, RunUpTo(w, h0, links, n - 1), links[n - 1], w.download(n - 1));
    }
  }

  /** When every candidate URL is already known, the run changes nothing and downloads nothing. */
  lemma {:induction false} KnownUrlsChangeNothing(w: World, h0: map<string, Entry>, links: seq<Link>, n: nat)
    requires n <= |links|
    requires forall j :: 0 <= j < n ==> links[j].url.None? || links[j].url.value in h0
    ensures RunUpTo(w, h0, links, n) == JobState(h0, [], [])
  {
    if n > 0 {
      KnownUrlsChangeNothing(w, h0, links, n - 1);
    }
  }

  /** When every download succeeds, every document URL on the page ends up in the history. */
  lemma AllDocumentsRecorded(w: World, h0: map<string, Entry>, anchors: seq<Anchor>)
    requires forall j :: 0 <= j < |anchors| ==> w.download(j)
    ensures forall j :: 0 <= j < |anchors| && Candidate(anchors[j]).Some? ==> Candidate(anchors[j]).value in Run(w, h0, anchors).history
  {
    var links := Classify(anchors);
    KeysCharacterised(w, h0, links, |links|);
    forall j | 0 <= j < |anchors| && Candidate(anchors[j]).Some?
      ensures Candidate(anchors[j]).value in Run(w, h0, anchors).history
    {
      ClassifyAt(anchors, j);
      assert SucceededBefore(w, links, links[j].url.value, |links|);
    }
  }

  /**
    Rerunning on an unchanged page after a run whose downloads all succeeded
    finds nothing new, downloads nothing, and leaves the history as it is.
  */
  lemma RerunFindsNothing(w1: World, w2: World, h0: map<string, Entry>, anchors: seq<Anchor>)
    requires forall j :: 0 <= j < |anchors| ==> w1.download(j)
    ensures Run(w2, Run(w1, h0, anchors).history, anchors) == JobState(Run(w1, h0, anchors).history, [], [])
  {
    var links := Classify(anchors);
    AllDocumentsRecorded(w1, h0, anchors);
    forall j | 0 <= j < |links|
      ensures links[j].url.None? || links[j].url.value in Run(w1, h0, anchors).history
    {
      ClassifyAt(anchors, j);
    }
    KnownUrlsChangeNothing(w2, Run(w1, h0, anchors).history, links, |links|);
  }

  /**
    The body of the loop for the anchor at position `i`: classify it,
    normalise its href, and download it when it is a document whose URL is
    not in the history yet.
  */
  method VisitAnchor(w: World, anchors: seq<Anchor>, i: nat,
                     history: map<string, Entry>, newItems: seq<Item>, attempts: seq<Attempt>)
    returns (history': map<string, Entry>, newItems': seq<Item>, attempts': seq<Attempt>)
    requires i < |anchors|
    ensures JobState(history', newItems', attempts')
         == Step(w, JobState(history, newItems, attempts), Classify(anchors)[i], w.download(i))
  {
    ClassifyAt(anchors, i);
    history', newItems', attempts' := history, newItems, attempts;
    var href, text := anchors[i].href, anchors[i].text;
    var isDocument := false;
    if EndsWith(Lower(href), ".pdf") {
      isDocument := true;
    } else if Contains(Lower(text), "file.pdf") {
      isDocument := true;
    }
    var fullUrl: string;
    if StartsWith(href, "/") {
      fullUrl := BASE_DOMAIN + href;
    } else if StartsWith(href, "http") {
      fullUrl := href;
    } else {
      assert Canonicalize(href) == None;
      return;
    }
    assert Canonicalize(href) == Some(fullUrl);
    assert isDocument == IsDocument(anchors[i]);
    if isDocument && fullUrl !in history {
      var localFilename := LocalFilename(w.today, w.md5, fullUrl);
      var ok := w.download(i);
      attempts' := attempts + [Attempt(fullUrl, localFilename, ok)];
      if ok {
        history' := history[fullUrl := Entry(w.today, localFilename, text)];
        newItems' := newItems + [Item(text, fullUrl, localFilename)];
      }
    }
  }

  /**
    The loop of the archive job over the page's anchors, in document order.
    `download` is consulted once for each document whose URL is not yet in
    the history.
  */
  method ProcessLinks(w: World, h0: map<string, Entry>, anchors: seq<Anchor>)
    returns (history: map<string, Entry>, newItems: seq<Item>, attempts: seq<Attempt>)
    ensures JobState(history, newItems, attempts) == Run(w, h0, anchors)
  {
    ghost var links := Classify(anchors);
    history, newItems, attempts := h0, [], [];
    for i := 0 to |anchors|
      invariant JobState(history, newItems, attempts) == RunUpTo(w, h0, links, i)
    {
      assert RunUpTo(w, h0, links, i + 1) == Step(w, RunUpTo(w, h0, links, i), links[i], w.download(i));
      history, newItems, attempts := VisitAnchor(w, anchors, i, history, newItems, attempts);
    }
  }

}
