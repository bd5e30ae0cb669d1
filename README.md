# Bulletin-board PDF archiver — Dafny model

The archiver visits one public-administration bulletin page (the "albo
pretorio" of ARPAS on sardegnaambiente.it), finds the links to PDF notices,
downloads each document whose canonical URL is not yet in its JSON history,
records it in the history, and writes a daily memo listing the day's new
documents.

This project models the deterministic core of `archiver.py`:

- `wrappers.dfy` — `Option`.
- `text.dfy` (module `Text`) — the string operations the script relies on:
  ASCII `lower()`, `startswith`, `endswith`, substring `in`, and `str(n)` for
  the memo count, with a decimal reader as its round-trip partner.
- `links.dfy` (module `Links`) — the per-anchor decisions: the document
  test, the canonical absolute URL (`BASE_DOMAIN` prefix for root-relative
  hrefs, unchanged `http…` hrefs, skip otherwise) and the local file name
  `<date>_<md5(url)>.pdf`.
- `history.dfy` (module `History`) — the loop of `main` over the page's
  anchors. The specification sees each anchor as a `Link`: its candidate
  URL, if any, and its text. `Step` and `RunUpTo` specify the loop over
  these links. `ProcessLinks` is the loop itself, over a
  `map<string, Entry>` history and a `seq<Item>` of new items, and
  `VisitAnchor` is its body for one anchor.
  The loop also returns the list of download calls it made (`attempts`),
  so that "a known URL is never downloaded again" can be stated.
- `memo.dfy` (module `Memo`) — the memo as a sequence of lines, the loop
  that writes it (`ComposeMemo`), and `ReadMemo`, which reads the items back.
- `job.dfy` (module `Job`) — `main` as a whole: a failed page fetch writes
  nothing; otherwise the history is saved and the memo written.

The outside world enters as a `World` value:
- `today` is the run's `%Y-%m-%d` date string.
- `md5` is the MD5 hex digest function, left uninterpreted.
- `download(j)` is the value `download_file` returns when it is called while
  processing the anchor at position `j`. Each anchor causes at most one call,
  so this is as general as one outcome per call.

The page fetch becomes a boolean. The parsed page becomes the sequence of
anchors that carry an `href`, each with its visible text, in document order.

Three facts about `archiver.py` fix what the model does, where a reader
might expect otherwise:
- Classification tests for the literal substring `"file.pdf"` in the
  lower-cased link text (line 93), not for "file" and "pdf" appearing
  separately. `Links.SeparateFileAndPdfWordsAreNotAMarker` shows this on a
  concrete text.
- The local file name is `<date>_<md5 hex of the URL>.pdf` (lines 38 and
  111). It is not derived from the link title; there is no embedded-date
  extraction and no `_vN` collision suffix.
- No text next to the link is captured: a history entry holds only
  `first_seen`, `local_path` and `link_text` (lines 117-121).

## Model

| member | source | states |
|---|---|---|
| `Text.Decimal` | archiver.py:146 | Decimal(n) is a non-empty string of the digits 0-9 whose first digit is 0 only when n is 0. |
| `Text.DecimalRoundTrip` | archiver.py:146 | reading back the count written in the memo gives the number of new items |
| `Text.DecimalInjective` | archiver.py:146 | different counts give different count lines |
| `Text.Lower` | archiver.py:91-93 | `lower()` on ASCII letters: the result has the same length, each upper-case ASCII letter becomes its lower-case letter (code point + 32), and every other character is unchanged |
| `Text.StartsWith` | archiver.py:97-99 | `startswith` is the occurrence of the prefix at position 0, the same test the substring search uses at every position |
| `Text.StartsWithIsPrefix` | archiver.py:97-99 | `s.startswith(p)` holds exactly when s = p + t for some string t |
| `Text.EndsWith` | archiver.py:91 | `endswith` is the occurrence of the suffix at the last possible position, the same test the substring search uses at every position |
| `Text.EndsWithIsSuffix` | archiver.py:91 | `s.endswith(p)` holds exactly when s = t + p for some string t |
| `Text.Contains` | archiver.py:93 | the substring test `in` holds whenever the pattern is a prefix or a suffix, and never for a pattern longer than the string |
| `Text.ContainsIsInfix` | archiver.py:93 | `p in s` holds exactly when s = a + p + b for some strings a and b |
| `Links.Canonicalize` | archiver.py:97-103 | an href starting with "/" becomes BASE_DOMAIN + href; one starting with "http" is kept; anything else has no URL; every URL starts with "http" |
| `Links.CanonicalKeepsHref` | archiver.py:97-100 | a canonical URL ends with the href it was made from |
| `Links.IsDocument` | archiver.py:90-94 | a lower-cased href ending in ".pdf" or a lower-cased text containing "file.pdf" makes an anchor a document, and a document has an href of at least 4 or a text of at least 8 characters |
| `Links.CanonicalIsFixedPoint` | archiver.py:97-103 | a canonical URL is its own canonical form, so history keys are stable under normalisation |
| `Links.Candidate` | archiver.py:90-105 | an anchor is processed exactly when it is a document and its href has a canonical URL; a document with any other href is skipped |
| `Links.IsDocumentIgnoresCase` | archiver.py:90-94 | classification gives the same answer after lower-casing href and text |
| `Links.UppercaseExtensionIsDocument` | archiver.py:91-92 | "/docs/notice.PDF" is a document, at BASE_DOMAIN + "/docs/notice.PDF" |
| `Links.ScriptLinkIsSkipped` | archiver.py:101-103 | a "javascript:" href is skipped whatever its text says |
| `Links.SeparateFileAndPdfWordsAreNotAMarker` | archiver.py:93 | a text that mentions FILE and PDF only as separate words does not make a link a document |
| `Links.FilenameFromUrl` | archiver.py:34-38 | the name is the URL's digest followed by ".pdf" |
| `Links.LocalFilename` | archiver.py:111 | the local file name starts with the run date and "_", continues with the digest, ends in ".pdf", and has exactly the length of those parts, so it is the date, "_", the digest and ".pdf" with nothing in between |
| `Links.LocalFilenameInjective` | archiver.py:111 | for dates of equal length, equal local names mean equal dates and equal digests |
| `History.Classify` | archiver.py:84-86 | there is exactly one link per anchor of the page |
| `History.ClassifyAt` | archiver.py:84-105 | link j carries anchor j's candidate URL and anchor j's text |
| `History.Step` | archiver.py:105-131 | one link never removes or overwrites an entry; a failed download leaves history and new items unchanged; a link with no candidate URL, or whose URL is known, changes nothing and downloads nothing |
| `History.StepKeys` | archiver.py:105-121 | one link adds a key only for its own candidate URL, and only when its download succeeded |
| `History.StepNewItems` | archiver.py:105-128 | one link appends an item, with its text, URL and local file name, exactly when its URL is not yet in the history and its download succeeds |
| `History.RunUpTo` | archiver.py:84-131 | after any number of anchors the starting history is kept, there is at most one download per anchor, and at most one new item per download |
| `History.Run` | archiver.py:84-131 | the whole loop keeps the starting history and makes at most one download per anchor |
| `History.SucceededBeforeStep` | archiver.py:84-115 | a successful download of a URL among the first n links is one among the first n-1 or the n-th |
| `History.StepKeepsItemsConsistent` | archiver.py:107-128 | one anchor preserves: old entries kept, added keys equal to the new items' URLs, each new item recorded with first_seen = today, local_path = its file, link_text = its text, no URL reported twice |
| `History.StepKeepsAttemptsConsistent` | archiver.py:107-128 | one anchor preserves: no known URL downloaded, each successful download recorded, no URL downloaded again after success, new items equal to the successful downloads in call order |
| `History.StepConsistent` | archiver.py:107-128 | one anchor preserves the whole loop invariant |
| `History.RunConsistent` | archiver.py:84-131 | the loop invariant holds after any number of links |
| `History.RunIsConsistent` | archiver.py:84-131 | the state after the whole loop satisfies the loop invariant |
| `History.HistoryOnlyGrows` | archiver.py:117 | a later history keeps every entry of an earlier one |
| `History.KeysCharacterised` | archiver.py:107-121 | a URL is a key exactly when it was known or some link at that URL had a successful download |
| `History.FirstSuccessIsUnknownUrl` | archiver.py:107-115 | the loop downloads a link successfully while its URL is missing from the history exactly when that link is the first successful download of a URL not known at the start |
| `History.NewItemsAreFreshDocuments` | archiver.py:107-128 | the new items are exactly the first successful downloads of unknown URLs, in anchor order |
| `History.KnownUrlsChangeNothing` | archiver.py:105-107 | when every candidate URL is known, the run downloads nothing and changes nothing |
| `History.AllDocumentsRecorded` | archiver.py:115-121 | when every download succeeds, every document URL on the page is in the final history |
| `History.RerunFindsNothing` | archiver.py:84-131 | after a run whose downloads all succeeded, a second run on the same page finds, downloads and adds nothing |
| `History.VisitAnchor` | archiver.py:85-131 | the body of the loop, with its inline document test, URL normalisation, duplicate check and download, does what the specification step does for that anchor's link |
| `History.ProcessLinks` | archiver.py:84-131 | the loop computes the specified run, whose properties are the lemmas above |
| `Memo.Blocks` | archiver.py:147-151 | each item takes exactly four lines |
| `Memo.BlocksAppend` | archiver.py:147-151 | the blocks of a longer list are the blocks so far followed by the last item's block |
| `Memo.MemoLines` | archiver.py:141-153 | the memo opens with the four header lines; it has 5 lines when there is no new item and 6 + 4n lines for n items; its fifth line is the nothing-new line exactly when there is no new item |
| `Memo.ReadBlocksRoundTrip` | archiver.py:147-151 | the strict block reader, which checks the Titolo:/URL:/Salvato come: labels and the dashed separator, gives back every item in order |
| `Memo.MemoRoundTrip` | archiver.py:140-153 | the strict memo reader, which checks the dated header, the nothing-new line or the count line and the blank line, gives back exactly the run's new items in order |
| `Memo.ReadBlocksExact` | archiver.py:147-151 | any lines that the block reader accepts as some items are exactly the blocks written for those items |
| `Memo.ReadMemoExact` | archiver.py:140-153 | any lines that the memo reader accepts as some items are exactly the memo written for those items |
| `Memo.MemoShape` | archiver.py:141-153 | the memo opens with the dated title; with no new items its body is the single "Nessun nuovo documento trovato oggi." line; otherwise it has a count line reading back as the number of items, then four lines per item |
| `Memo.ComposeMemo` | archiver.py:140-153 | the line-by-line writing produces the specified memo, from which the items read back |
| `Job.ArchiveJob` | archiver.py:53-155 | a failed fetch writes nothing; otherwise the saved history, the download calls and the memo are those of the specified run, the saved history extends the old one, and the memo reads back as the new items, whose URLs are exactly the keys added |
| `Job.RerunReportsNothing` | archiver.py:84-153 | the second run on an unchanged page after a fully successful run keeps the history, downloads nothing and reports "Nessun nuovo documento trovato oggi." |

## Left out

- HTTP: the page fetch and the streamed download (`requests`, timeouts, status checks, writing chunks). These are network I/O. The fetch is a boolean and each download an outcome taken from `World.download`.
- HTML parsing with BeautifulSoup, including `get_text(" ", strip=True)`. This is a foreign library. Anchors arrive already parsed, with their visible text.
- Loading and saving the JSON history, writing the HTML snapshot and writing the memo file. These are file I/O. The history is an input map and the saved history is a result value; the memo is its sequence of lines, and a title containing a newline is not split into several lines.
- MD5 itself. It is a foreign cryptographic function, so it is a parameter.
- `datetime.now()` becomes the `today` string. `time.sleep(1)` and `print` have no modelled effect.
- Creating the data directories at import time. This is process setup.
- Text.Lower: `lower()` is modelled for ASCII letters only. Python's full Unicode lower-casing of other characters is not modelled.
- Links.IsDocument: the contract states that each of the two tests suffices; that nothing else makes an anchor a document is given by its definition, not by a separate clause.
- `Links.LocalFilenameInjective`: stated for a given digest function; collisions of MD5 itself are not modelled.
