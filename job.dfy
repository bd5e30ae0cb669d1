/**
  One run of the archiver: fetch the bulletin page, process its links
  against the stored history, then save the history and write the memo.
*/
module Job {

  import opened Wrappers
  import opened Links
  import opened History
  import opened Memo

  /** What a run leaves behind: nothing when the page fetch failed. */
  datatype Outcome =
    | FetchFailed
    | Completed(history: map<string, Entry>, memo: seq<string>, attempts: seq<Attempt>)

  /**
    `fetched` is whether the page fetch succeeded, and `anchors` the anchors
    with an href parsed from the page, in document order. A failed fetch
    ends the run before anything is written; otherwise the saved history is
    the loop's final history and the memo lists exactly the URLs added to it.
  */
  method ArchiveJob(fetched: bool, w: World, h0: map<string, Entry>, anchors: seq<Anchor>) returns (out: Outcome)
    ensures out == FetchFailed <==> !fetched
    ensures out.Completed? ==> out.history == Run(w, h0, anchors).history
    ensures out.Completed? ==> out.attempts == Run(w, h0, anchors).attempts
    ensures out.Completed? ==> out.memo == MemoLines(w.today, Run(w, h0, anchors).newItems)
    ensures out.Completed? ==> Extends(h0, out.history)
    ensures out.Completed? ==> ReadMemo(w.today, out.memo) == Some(Run(w, h0, anchors).newItems)
    ensures out.Completed? ==> forall u :: u in out.history && u !in h0 <==> u in Urls(ReadMemo(w.today, out.memo).value)
  {
    if !fetched {
      return FetchFailed;
    }
    var history, newItems, attempts := ProcessLinks(w, h0, anchors);
    RunIsConsistent(w, h0, anchors);
    var memo := ComposeMemo(w.today, newItems);
    forall u | u in Urls(newItems)
      ensures u in history && u !in h0
    {
      var i :| 0 <= i < |newItems| && Urls(newItems)[i] == u;
      assert newItems[i] in newItems;
    }
    out := Completed(history, memo, attempts);
  }

  /**
    Running the job again on an unchanged page, after a run whose downloads
    all succeeded, downloads nothing, keeps the saved history and writes a
    memo that reports no new document.
  */
  lemma RerunReportsNothing(w1: World, w2: World, h0: map<string, Entry>, anchors: seq<Anchor>)
    requires forall j :: 0 <= j < |anchors| ==> w1.download(j)
    ensures var h1 := Run(w1, h0, anchors).history;
            && Run(w2, h1, anchors).history == h1
            && Run(w2, h1, anchors).attempts == []
            && MemoLines(w2.today, Run(w2, h1, anchors).newItems)[4..] == [NOTHING_NEW]
  {
    RerunFindsNothing(w1, w2, h0, anchors);
    MemoShape(w2.today, []);
  }

}
