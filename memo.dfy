/**
  The daily memo: a header, then either a "nothing new" line or a count
  followed by one block of four lines per new item, in order. Lines are the
  strings written before each newline.
*/
module Memo {

  import opened Wrappers
  import opened Text
  import opened History

  const TARGET_URL: string := "https://www.sardegnaambiente.it/arpas/arpas/albopretorio/"
  const NOTHING_NEW: string := "Nessun nuovo documento trovato oggi."
  const TOTAL_PREFIX: string := "Totale Nuovi Documenti: "
  const TITLE_PREFIX: string := "Titolo: "
  const URL_PREFIX: string := "URL: "
  const FILE_PREFIX: string := "Salvato come: "

  function Header(today: string): seq<string>
  {
    ["MEMO GIORNALIERO - " + today, "Fonte: " + TARGET_URL, Repeat('=', 40), ""]
  }

  function ItemBlock(it: Item): seq<string>
  {
    [TITLE_PREFIX + it.text, URL_PREFIX + it.url, FILE_PREFIX + it.file, Repeat('-', 20)]
  }

  function Blocks(items: seq<Item>): (r: seq<string>)
    ensures |r| == 4 * |items|
  {
    if items == [] then [] else ItemBlock(items[0]) + Blocks(items[1..])
  }

  function Body(items: seq<Item>): seq<string>
  {
    if items == [] then [NOTHING_NEW]
    else [TOTAL_PREFIX + Decimal(|items|), ""] + Blocks(items)
  }

  /**
    The memo of a run dated `today` whose new items are `items`: the
    four header lines, then the "nothing new" line alone, or a count line,
    an empty line and four lines per item.
  */
  function MemoLines(today: string, items: seq<Item>): (r: seq<string>)
    ensures |r| == if items == [] then 5 else 6 + 4 * |items|
    ensures r[..4] == Header(today)
    ensures items == [] <==> r[4] == NOTHING_NEW
  {
    var r := Header(today) + Body(items);
    assert items != [] ==> r[4][0] == 'T' != NOTHING_NEW[0];
    r
  }

  /**
    Reads items back from consecutive four-line blocks. Each block must carry
    the "Titolo: ", "URL: " and "Salvato come: " labels and the dashed
    separator; anything else, including a partial block, is rejected.
  */
  function ReadBlocks(lines: seq<string>): Option<seq<Item>>
    decreases |lines|
  {
    if lines == [] then Some([])
    else if |lines| < 4 then None
    else if !StartsWith(lines[0], TITLE_PREFIX) || !StartsWith(lines[1], URL_PREFIX)
         || !StartsWith(lines[2], FILE_PREFIX) || lines[3] != Repeat('-', 20) then None
    else
      match ReadBlocks(lines[4..])
      case None => None
      case Some(rest) =>
        Some([Item(lines[0][|TITLE_PREFIX|..], lines[1][|URL_PREFIX|..], lines[2][|FILE_PREFIX|..])] + rest)
  }

  /**
    Reads the items back from the memo of a run dated `today`: the header
    must be that run's header, and then either the "nothing new" line alone,
    or a count line matching the number of blocks, an empty line and at
    least one block.
  */
  function ReadMemo(today: string, lines: seq<string>): Option<seq<Item>>
  {
    if |lines| < 5 || lines[..4] != Header(today) then None
    else if lines[4..] == [NOTHING_NEW] then Some([])
    else if |lines| < 6 || lines[5] != "" then None
    else
      match ReadBlocks(lines[6..])
      case None => None
      case Some(items) =>
        if items != [] && lines[4] == TOTAL_PREFIX + Decimal(|items|) then Some(items) else None
  }

  lemma {:induction false} BlocksAppend(items: seq<Item>, it: Item)
    ensures Blocks(items + [it]) == Blocks(items) + ItemBlock(it)
    decreases |items|
  {
    if items != [] {
      assert (items + [it])[1..] == items[1..] + [it];
      BlocksAppend(items[1..], it);
    } else {
      assert [it][1..] == [];
    }
  }

  /** The labelled blocks give back the items, in order. */
  lemma {:induction false} ReadBlocksRoundTrip(items: seq<Item>)
    ensures ReadBlocks(Blocks(items)) == Some(items)
    decreases |items|
  {
    if items != [] {
      var it := items[0];
      var lines := Blocks(items);
      assert lines[..4] == ItemBlock(it);
      assert lines[4..] == Blocks(items[1..]);
      assert lines[0][..|TITLE_PREFIX|] == TITLE_PREFIX && lines[0][|TITLE_PREFIX|..] == it.text;
      assert lines[1][..|URL_PREFIX|] == URL_PREFIX && lines[1][|URL_PREFIX|..] == it.url;
      assert lines[2][..|FILE_PREFIX|] == FILE_PREFIX && lines[2][|FILE_PREFIX|..] == it.file;
      assert StartsWith(lines[0], TITLE_PREFIX) && StartsWith(lines[1], URL_PREFIX);
      assert StartsWith(lines[2], FILE_PREFIX) && lines[3] == Repeat('-', 20);
      ReadBlocksRoundTrip(items[1..]);
      assert items == [it] + items[1..];
    }
  }

  /** Only the blocks the memo writes are accepted: whatever reads back as `items` is exactly their blocks. */
  lemma {:induction false} ReadBlocksExact(lines: seq<string>, items: seq<Item>)
    requires ReadBlocks(lines) == Some(items)
    ensures lines == Blocks(items)
    decreases |lines|
  {
    if lines != [] {
      var rest := ReadBlocks(lines[4..]).value;
      ReadBlocksExact(lines[4..], rest);
      assert items == [items[0]] + rest;
      assert items[1..] == rest;
      assert lines[0] == TITLE_PREFIX + items[0].text;
      assert lines[1] == URL_PREFIX + items[0].url;
      assert lines[2] == FILE_PREFIX + items[0].file;
      assert lines == lines[..4] + lines[4..];
    }
  }

  /** Every item of the run can be read back from its memo, in order. */
  lemma MemoRoundTrip(today: string, items: seq<Item>)
    ensures ReadMemo(today, MemoLines(today, items)) == Some(items)
  {
    var lines := MemoLines(today, items);
    if items != [] {
      var count := TOTAL_PREFIX + Decimal(|items|);
      assert lines == Header(today) + ([count, ""] + Blocks(items));
      assert lines[4] == count && lines[5] == "";
      assert lines[4..][0] != [NOTHING_NEW][0];
      assert lines[6..] == Blocks(items);
      ReadBlocksRoundTrip(items);
    } else {
      assert lines[4..] == [NOTHING_NEW];
    }
  }

  /** A memo that reads back as `items` is exactly the memo written for them. */
  lemma ReadMemoExact(today: string, lines: seq<string>, items: seq<Item>)
    requires ReadMemo(today, lines) == Some(items)
    ensures lines == MemoLines(today, items)
  {
    if lines[4..] == [NOTHING_NEW] {
      assert lines == lines[..4] + lines[4..];
    } else {
      ReadBlocksExact(lines[6..], items);
      assert lines == lines[..4] + [lines[4], lines[5]] + lines[6..];
    }
  }

  /**
    The shape of the memo: with no new items the body is the single
    "nothing new" line; otherwise it opens with the count of the items,
    which reads back as that number, and has one four-line block per item.
  */
  lemma MemoShape(today: string, items: seq<Item>)
    ensures MemoLines(today, items)[0] == "MEMO GIORNALIERO - " + today
    ensures items == [] ==> MemoLines(today, items)[4..] == [NOTHING_NEW]
    ensures items != [] ==> |MemoLines(today, items)| == 6 + 4 * |items|
    ensures items != [] ==> StartsWith(MemoLines(today, items)[4], TOTAL_PREFIX)
    ensures items != [] ==> ParseDecimal(MemoLines(today, items)[4][|TOTAL_PREFIX|..]) == |items|
  {
    if items != [] {
      var line := MemoLines(today, items)[4];
      assert line == TOTAL_PREFIX + Decimal(|items|);
      assert line[..|TOTAL_PREFIX|] == TOTAL_PREFIX;
      assert line[|TOTAL_PREFIX|..] == Decimal(|items|);
      DecimalRoundTrip(|items|);
    }
  }

  /** Writing the memo line by line, as the job does. */
  method ComposeMemo(today: string, items: seq<Item>) returns (lines: seq<string>)
    ensures lines == MemoLines(today, items)
    ensures ReadMemo(today, lines) == Some(items)
  {
    lines := ["MEMO GIORNALIERO - " + today, "Fonte: " + TARGET_URL, Repeat('=', 40), ""];
    if items != [] {
      lines := lines + [TOTAL_PREFIX + Decimal(|items|), ""];
      for i := 0 to |items|
        invariant lines == Header(today) + [TOTAL_PREFIX + Decimal(|items|), ""] + Blocks(items[..i])
      {
        var it := items[i];
        lines := lines + [TITLE_PREFIX + it.text, URL_PREFIX + it.url, FILE_PREFIX + it.file, Repeat('-', 20)];
        assert items[..i + 1] == items[..i] + [it];
        BlocksAppend(items[..i], it);
      }
      assert items[..|items|] == items;
    } else {
      lines := lines + [NOTHING_NEW];
    }
    MemoRoundTrip(today, items);
  }

}
