/**
  The per-anchor decisions of the archiver: whether an anchor points at a
  document, the canonical absolute URL it stands for, and the local file name
  a downloaded document is stored under.
*/
module Links {

  import opened Wrappers
  import opened Text

  /** The site that root-relative links are resolved against. */
  const BASE_DOMAIN: string := "https://www.sardegnaambiente.it"

  /** An `<a>` element that carries an `href`, with its visible text. */
  datatype Anchor = Anchor(href: string, text: string)

  /**
    An anchor is a document when its href ends in ".pdf" or its text holds
    the marker "file.pdf", both compared case-insensitively.
  */
  predicate IsDocument(a: Anchor): (r: bool)
    ensures EndsWith(Lower(a.href), ".pdf") ==> r
    ensures Contains(Lower(a.text), "file.pdf") ==> r
    ensures r ==> |a.href| >= 4 || |a.text| >= 8
  {
    EndsWith(Lower(a.href), ".pdf") || Contains(Lower(a.text), "file.pdf")
  }

  /**
    The absolute URL an href stands for: root-relative hrefs are prefixed
    with the base domain, hrefs starting with "http" are kept, and anything
    else (script pseudo-links, in-page anchors, bare relative paths) has none.
  */
  function Canonicalize(href: string): (r: Option<string>)
    ensures StartsWith(href, "/") ==> r == Some(BASE_DOMAIN + href)
    ensures !StartsWith(href, "/") && StartsWith(href, "http") ==> r == Some(href)
    ensures r == None <==> !StartsWith(href, "/") && !StartsWith(href, "http")
    ensures r.Some? ==> StartsWith(r.value, "http")
  {
    if StartsWith(href, "/") then
      var url := BASE_DOMAIN + href;
      assert url[..4] == BASE_DOMAIN[..4] == "http";
      Some(url)
    else if StartsWith(href, "http") then Some(href)
    else None
  }

  /**
    The URL of the document an anchor is processed as, if any: the anchor
    must be a document AND its href must have a canonical form; a document
    whose href has none is skipped like any other anchor.
  */
  function Candidate(a: Anchor): (r: Option<string>)
    ensures r.Some? <==> IsDocument(a) && Canonicalize(a.href).Some?
    ensures r.Some? ==> r == Canonicalize(a.href)
  {
    if IsDocument(a) then Canonicalize(a.href) else None
  }

  /** `get_filename_from_url`: the hex digest of the URL followed by ".pdf". */
  function FilenameFromUrl(md5: string -> string, url: string): (r: string)
    ensures StartsWith(r, md5(url)) && EndsWith(r, ".pdf")
    ensures |r| == |md5(url)| + 4
  {
    md5(url) + ".pdf"
  }

  /** The local name of a document downloaded on day `today`. */
  function LocalFilename(today: string, md5: string -> string, url: string): (r: string)
    ensures StartsWith(r, today + "_") && EndsWith(r, ".pdf")
    ensures StartsWith(r[|today| + 1..], md5(url))
    ensures |r| == |today| + |md5(url)| + 5
  {
    var r := today + "_" + FilenameFromUrl(md5, url);
    assert r[..|today| + 1] == today + "_";
    assert r[|today| + 1..] == FilenameFromUrl(md5, url);
    r
  }

  /** A canonical URL ends with the href it was made from: normalisation only ever prepends the site's domain. */
  lemma CanonicalKeepsHref(href: string)
    requires Canonicalize(href).Some?
    ensures EndsWith(Canonicalize(href).value, href)
  {
    var url := Canonicalize(href).value;
    assert url[|url| - |href|..] == href;
  }

  /** A canonical URL is its own canonical form. */
  lemma CanonicalIsFixedPoint(href: string)
    requires Canonicalize(href).Some?
    ensures Canonicalize(Canonicalize(href).value) == Canonicalize(href)
  {
    var url := Canonicalize(href).value;
    assert url[..1] != "/" by {
      assert url[..4] == "http";
      assert url[0] == 'h';
    }
  }

  /** Classification ignores the case of href and text. */
  lemma IsDocumentIgnoresCase(href: string, text: string)
    ensures IsDocument(Anchor(href, text)) <==> IsDocument(Anchor(Lower(href), Lower(text)))
  {
    LowerIdempotent(href);
    LowerIdempotent(text);
  }

  /**
    Two local names written on dates of the same length are equal only when
    the dates and the digests are: the name can be split back into both.
  */
  lemma {:induction false} LocalFilenameInjective(today1: string, today2: string, md5: string -> string, url1: string, url2: string)
    requires |today1| == |today2|
    requires LocalFilename(today1, md5, url1) == LocalFilename(today2, md5, url2)
    ensures today1 == today2 && md5(url1) == md5(url2)
  {
    var f1, f2 := LocalFilename(today1, md5, url1), LocalFilename(today2, md5, url2);
    assert today1 == f1[..|today1|];
    assert today2 == f2[..|today2|];
    assert md5(url1) == f1[|today1| + 1..|f1| - 4];
    assert md5(url2) == f2[|today2| + 1..|f2| - 4];
  }

  /** An uppercase ".PDF" extension on a root-relative href still marks a document. */
  lemma UppercaseExtensionIsDocument()
    ensures Candidate(Anchor("/docs/notice.PDF", "Avviso")) == Some(BASE_DOMAIN + "/docs/notice.PDF")
  {
    var lowered := Lower("/docs/notice.PDF");
    assert lowered[|lowered| - 4..] == ".pdf";
  }

  /** A script pseudo-link is skipped whatever its text says. */
  lemma ScriptLinkIsSkipped(text: string)
    ensures Candidate(Anchor("javascript:void(0)", text)) == None
  {
    var href := "javascript:void(0)";
    assert href[..1][0] == 'j' != "/"[0];
    assert href[..4][0] == 'j' != "http"[0];
  }

  /**
    The marker must be the literal "file.pdf": text that only mentions a
    file and PDF format separately does not make a link a document.
  */
  lemma SeparateFileAndPdfWordsAreNotAMarker()
    ensures !IsDocument(Anchor("/albo/avviso", "Scarica il FILE in formato PDF"))
  {
    var text := Lower("Scarica il FILE in formato PDF");
    assert '.' !in text by {
      forall i | 0 <= i < |text| ensures text[i] != '.' {
        assert text[i] == LowerChar("Scarica il FILE in formato PDF"[i]);
      }
    }
    if Contains(text, "file.pdf") {
      ContainsKeepsChars(text, "file.pdf", '.');
      assert false;
    }
    var href := Lower("/albo/avviso");
    assert href[|href| - 4..][0] == href[8] == LowerChar('v') != ".pdf"[0];
  }

}
