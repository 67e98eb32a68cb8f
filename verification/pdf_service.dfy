/** The backend's page-level PDF operations: merge, split, watermark,
    placeholder text extraction and the information record. Pages are
    values, so copying a page never changes its source document. */
module PdfService {
  import opened Wrappers
  import opened PdfDocument
  import Decimal
  import opened Text

  // ---------------------------------------------------------------------
  // Merge

  /** Reference definition of a merge: every input's pages, input after
      input, each in its own order. */
  function AllPages(docs: seq<Document>): seq<Page>
  {
    if |docs| == 0 then [] else AllPages(docs[..|docs| - 1]) + docs[|docs| - 1].pages
  }

  /** Sum of the page counts of the inputs. */
  function TotalPages(docs: seq<Document>): nat
  {
    if |docs| == 0 then 0 else TotalPages(docs[..|docs| - 1]) + |docs[|docs| - 1].pages|
  }

  /** Index at which the pages of `docs[j]` start inside the merge. */
  function Offset(docs: seq<Document>, j: nat): nat
    requires j <= |docs|
  {
    TotalPages(docs[..j])
  }

  /** Merging: a fresh document receives, for each input in turn, copies of
      all its pages in page order. */
  method MergePDFs(docs: seq<Document>) returns (merged: Document)
    ensures merged.pages == AllPages(docs)
    ensures |merged.pages| == TotalPages(docs)
    ensures merged.meta == NoMetadata
  {
    merged := Empty;
    var i := 0;
    while i < |docs|
      invariant 0 <= i <= |docs|
      invariant merged.pages == AllPages(docs[..i])
      invariant |merged.pages| == TotalPages(docs[..i])
      invariant merged.meta == NoMetadata
    {
      var copied := docs[i].pages;
      var j := 0;
      while j < |copied|
        invariant 0 <= j <= |copied|
        invariant merged.pages == AllPages(docs[..i]) + copied[..j]
        invariant merged.meta == NoMetadata
      {
        merged := merged.(pages := merged.pages + [copied[j]]);
        assert copied[..j + 1] == copied[..j] + [copied[j]];
        j := j + 1;
      }
      assert copied[..j] == copied;
      assert docs[..i + 1][..i] == docs[..i];
      i := i + 1;
    }
    assert docs[..i] == docs;
  }

  /** The merge has as many pages as all inputs together. */
  lemma {:induction false} AllPagesLength(docs: seq<Document>)
    ensures |AllPages(docs)| == TotalPages(docs)
    decreases |docs|
  {
    if |docs| > 0 {
      AllPagesLength(docs[..|docs| - 1]);
    }
  }

  /** Merging two documents puts the first one's pages before the second's. */
  lemma MergeTwo(a: Document, b: Document)
    ensures AllPages([a, b]) == a.pages + b.pages
  {
    assert [a, b][..1] == [a];
    assert [a][..0] == [];
    assert AllPages([a]) == AllPages([]) + a.pages;
    assert AllPages([a, b]) == AllPages([a]) + b.pages;
  }

  /** Page `k` of input `j` lands at position `Offset(docs, j) + k` of the
      merge: input order and page order are both kept. */
  lemma {:induction false} MergedPageAt(docs: seq<Document>, j: nat, k: nat)
    requires j < |docs| && k < |docs[j].pages|
    ensures Offset(docs, j) + k < |AllPages(docs)|
    ensures AllPages(docs)[Offset(docs, j) + k] == docs[j].pages[k]
    decreases |docs|
  {
    var n := |docs|;
    var init := docs[..n - 1];
    AllPagesLength(init);
    AllPagesLength(docs);
    if j == n - 1 {
      assert docs[..j] == init;
    } else {
      assert init[..j] == docs[..j];
      MergedPageAt(init, j, k);
    }
  }

  // ---------------------------------------------------------------------
  // Split

  /** `Array.from({ length: end - start + 1 }, (_, i) => start - 1 + i)`:
      the 0-based indices of the 1-based range; a negative length counts
      as zero. */
  function SplitIndices(start: int, end: int): (idx: seq<int>)
    ensures start > end ==> idx == []
    ensures start <= end ==> |idx| == end - start + 1 && idx[0] == start - 1 && idx[|idx| - 1] == end - 1
    ensures forall i :: 0 <= i < |idx| ==> start - 1 <= idx[i] <= end - 1
    ensures forall i :: 0 <= i < |idx| - 1 ==> idx[i + 1] == idx[i] + 1
  {
    seq(if end - start + 1 > 0 then end - start + 1 else 0, i => start - 1 + i)
  }

  /** The library's page copy: one copy per requested index, or a failure at
      the first index with no page behind it. */
  function CopyPages(doc: Document, idx: seq<int>): (r: Result<seq<Page>, PdfError>)
    ensures r.Success? <==> forall i :: 0 <= i < |idx| ==> 0 <= idx[i] < |doc.pages|
    ensures r.Success? ==> |r.value| == |idx|
    ensures r.Success? ==> forall i :: 0 <= i < |idx| ==> r.value[i] == doc.pages[idx[i]]
    ensures r.Failure? ==> exists i :: 0 <= i < |idx| && r.error == MissingPage(idx[i])
                                       && !(0 <= idx[i] < |doc.pages|)
  {
    if |idx| == 0 then Success([])
    else if !(0 <= idx[0] < |doc.pages|) then Failure(MissingPage(idx[0]))
    else
      match CopyPages(doc, idx[1..])
      case Success(rest) => Success([doc.pages[idx[0]]] + rest)
      case Failure(e) => Failure(e)
  }

  /** Splitting: a fresh document holding copies of pages `start..end`
      (1-based, inclusive). The range itself is never checked here. */
  function SplitPDF(doc: Document, start: int, end: int): (r: Result<Document, PdfError>)
    ensures r.Success? ==> r.value.meta == NoMetadata
  {
    match CopyPages(doc, SplitIndices(start, end))
    case Success(pages) => Success(Document(pages, NoMetadata))
    case Failure(e) => Failure(e)
  }

  /** The index list has `end - start + 1` entries (none for an inverted
      range) and entry `i` is `start - 1 + i`. */
  lemma SplitIndicesShape(start: int, end: int)
    ensures start <= end ==> |SplitIndices(start, end)| == end - start + 1
    ensures end < start ==> SplitIndices(start, end) == []
    ensures forall i :: 0 <= i < |SplitIndices(start, end)| ==> SplitIndices(start, end)[i] == start - 1 + i
  {
  }

  /** A range inside the document copies exactly `end - start + 1` pages;
      result page `i` is source page `start - 1 + i`. */
  lemma SplitInRange(doc: Document, start: int, end: int)
    requires 1 <= start <= end <= |doc.pages|
    ensures SplitPDF(doc, start, end).Success?
    ensures |SplitPDF(doc, start, end).value.pages| == end - start + 1
    ensures SplitPDF(doc, start, end).value.pages == doc.pages[start - 1..end]
  {
    var idx := SplitIndices(start, end);
    var r := CopyPages(doc, idx);
    assert r.Success?;
    assert r.value == doc.pages[start - 1..end];
  }

  /** An inverted range is not rejected: it yields a document with no pages. */
  lemma SplitInverted(doc: Document, start: int, end: int)
    requires end < start
    ensures SplitPDF(doc, start, end) == Success(Empty)
  {
  }

  /** The split succeeds exactly for inverted ranges and for ranges inside
      the document; every other range fails inside the library. */
  lemma SplitSucceedsIff(doc: Document, start: int, end: int)
    ensures SplitPDF(doc, start, end).Success? <==> end < start || (1 <= start && end <= |doc.pages|)
  {
    var idx := SplitIndices(start, end);
    if start <= end && !(1 <= start && end <= |doc.pages|) {
      if start < 1 {
        assert idx[0] == start - 1;
      } else {
        assert idx[end - start] == end - 1;
      }
    }
  }

  // ---------------------------------------------------------------------
  // Watermark

  datatype Position = TopLeft | TopRight | BottomLeft | BottomRight | Center

  /** The `switch (position)`: the four corner names, and `center` for
      `'center'` and for every other string. */
  function ParsePosition(p: string): (r: Position)
    ensures r == TopLeft <==> p == "top-left"
    ensures r == TopRight <==> p == "top-right"
    ensures r == BottomLeft <==> p == "bottom-left"
    ensures r == BottomRight <==> p == "bottom-right"
    ensures r == Center <==> p !in {"top-left", "top-right", "bottom-left", "bottom-right"}
  {
    if p == "top-left" then TopLeft
    else if p == "top-right" then TopRight
    else if p == "bottom-left" then BottomLeft
    else if p == "bottom-right" then BottomRight
    else Center
  }

  /** Where the watermark text starts on a page of the given size. */
  function Anchor(p: Position, width: real, height: real): (xy: (real, real))
    ensures p == TopLeft || p == BottomLeft ==> xy.0 == 50.0
    ensures p == TopRight || p == BottomRight ==> width - xy.0 == 200.0
    ensures p == TopLeft || p == TopRight ==> height - xy.1 == 50.0
    ensures p == BottomLeft || p == BottomRight ==> xy.1 == 50.0
    ensures p == Center ==> 2.0 * (xy.0 + 100.0) == width && 2.0 * xy.1 == height
  {
    match p
    case TopLeft => (50.0, height - 50.0)
    case TopRight => (width - 200.0, height - 50.0)
    case BottomLeft => (50.0, 50.0)
    case BottomRight => (width - 200.0, 50.0)
    case Center => (width / 2.0 - 100.0, height / 2.0)
  }

  const WatermarkSize: real := 20.0
  const WatermarkOpacity: real := 0.5
  const WatermarkGray: real := 0.7

  function Stamp(page: Page, text: string, p: Position): (r: Page)
  {
    var xy := Anchor(p, page.width, page.height);
    page.(drawings := page.drawings + [TextDrawing(text, xy.0, xy.1, WatermarkSize, WatermarkOpacity, WatermarkGray)])
  }

  /** Every page with the text drawn once more at the anchor for `p`. */
  function StampAll(doc: Document, text: string, p: Position): Document
  {
    doc.(pages := seq(|doc.pages|, i requires 0 <= i < |doc.pages| => Stamp(doc.pages[i], text, p)))
  }

  /** Watermarking draws the text once on every page, at the anchor for the
      requested position; pages, sizes, earlier drawings and the
      information dictionary are kept. Drawing with the standard Helvetica
      font throws at the first character its encoding lacks, so a document
      with at least one page fails for such text; a document with no page
      never draws and never fails. */
  function AddWatermark(doc: Document, text: string, position: string): (r: Result<Document, PdfError>)
    ensures r.Success? <==> |doc.pages| == 0 || Encodable(text)
    ensures r.Failure? ==> exists i :: 0 <= i < |text| && r.error == Unencodable(text[i])
                                       && !Drawable(text[i]) && forall j :: 0 <= j < i ==> Drawable(text[j])
    ensures r.Success? ==> |r.value.pages| == |doc.pages|
    ensures r.Success? ==> r.value.meta == doc.meta
    ensures r.Success? ==> forall i :: 0 <= i < |r.value.pages| ==>
      && r.value.pages[i].width == doc.pages[i].width
      && r.value.pages[i].height == doc.pages[i].height
      && |r.value.pages[i].drawings| == |doc.pages[i].drawings| + 1
      && r.value.pages[i].drawings[..|doc.pages[i].drawings|] == doc.pages[i].drawings
      && r.value.pages[i].drawings[|doc.pages[i].drawings|]
         == TextDrawing(text,
                        Anchor(ParsePosition(position), doc.pages[i].width, doc.pages[i].height).0,
                        Anchor(ParsePosition(position), doc.pages[i].width, doc.pages[i].height).1,
                        20.0, 0.5, 0.7)
  {
    if |doc.pages| == 0 || Encodable(text) then Success(StampAll(doc, text, ParsePosition(position)))
    else Failure(Unencodable(text[FirstUnencodable(text)]))
  }

  /** Text outside the font's repertoire, such as Chinese, fails on any
      document with a page. */
  lemma ChineseWatermarkFails(doc: Document)
    requires |doc.pages| > 0
    ensures AddWatermark(doc, "\U{673A}\U{5BC6}", "center") == Failure(Unencodable('\U{673A}'))
  {
    assert !Drawable("\U{673A}\U{5BC6}"[0]);
  }

  /** The position table: corners at 50 points from the edges (200 from the
      right edge), the centre 100 points left of the middle. */
  lemma AnchorTable(width: real, height: real)
    ensures Anchor(ParsePosition("top-left"), width, height) == (50.0, height - 50.0)
    ensures Anchor(ParsePosition("top-right"), width, height) == (width - 200.0, height - 50.0)
    ensures Anchor(ParsePosition("bottom-left"), width, height) == (50.0, 50.0)
    ensures Anchor(ParsePosition("bottom-right"), width, height) == (width - 200.0, 50.0)
    ensures Anchor(ParsePosition("center"), width, height) == (width / 2.0 - 100.0, height / 2.0)
  {
  }

  /** Any string other than the four corner names places the text exactly
      as `center` does. */
  lemma UnknownPositionIsCenter(p: string)
    requires p !in {"top-left", "top-right", "bottom-left", "bottom-right"}
    ensures ParsePosition(p) == ParsePosition("center") == Center
  {
  }

  /** On a page at least 250 wide and 100 high every anchor lies on the page. */
  lemma AnchorOnPage(p: Position, width: real, height: real)
    requires width >= 250.0 && height >= 100.0
    ensures 0.0 <= Anchor(p, width, height).0 <= width
    ensures 0.0 <= Anchor(p, width, height).1 <= height
  {
  }

  // ---------------------------------------------------------------------
  // Information and text extraction

  datatype PdfInfo = PdfInfo(
    pageCount: nat,
    title: string,
    author: string,
    subject: string,
    creator: string,
    producer: string,
    creationDate: Option<string>,
    modificationDate: Option<string>)

  /** `date?.toISOString() || null`. */
  function DateOrNull(d: Option<string>): (r: Option<string>)
    ensures Falsy(d) <==> r.None?
    ensures r.Some? ==> r == d
  {
    if Falsy(d) then None else d
  }

  /** The information record: page count, and each entry of the
      information dictionary with its fallback. */
  function GetPDFInfo(doc: Document): (info: PdfInfo)
    ensures info.pageCount == |doc.pages|
    ensures info.title != "" && info.author != ""
    ensures Falsy(doc.meta.title) ==> info.title == "Untitled"
    ensures !Falsy(doc.meta.title) ==> info.title == doc.meta.title.value
    ensures Falsy(doc.meta.author) ==> info.author == "Unknown"
    ensures !Falsy(doc.meta.author) ==> info.author == doc.meta.author.value
    ensures info.subject == doc.meta.subject.GetOr("")
    ensures info.creator == doc.meta.creator.GetOr("")
    ensures info.producer == doc.meta.producer.GetOr("")
    ensures doc.meta.creationDate.None? ==> info.creationDate.None?
    ensures doc.meta.modificationDate.None? ==> info.modificationDate.None?
  {
    PdfInfo(
      |doc.pages|,
      OrElse(doc.meta.title, "Untitled"),
      OrElse(doc.meta.author, "Unknown"),
      OrElse(doc.meta.subject, ""),
      OrElse(doc.meta.creator, ""),
      OrElse(doc.meta.producer, ""),
      DateOrNull(doc.meta.creationDate),
      DateOrNull(doc.meta.modificationDate))
  }

  const ExtractPrefix := "Extracted text from "
  const ExtractSuffix := " pages. This is a mock implementation. In production, this would contain the actual extracted text from the PDF."

  /** The placeholder "extracted" text: a fixed sentence around the page count. */
  function ExtractText(doc: Document): (text: string)
    ensures StartsWith(text, ExtractPrefix) && EndsWith(text, ExtractSuffix)
    ensures |text| == |ExtractPrefix| + |Decimal.NatToString(|doc.pages|)| + |ExtractSuffix|
    ensures text[|ExtractPrefix|..|text| - |ExtractSuffix|] == Decimal.NatToString(|doc.pages|)
  {
    var text := ExtractPrefix + Decimal.NatToString(|doc.pages|) + ExtractSuffix;
    assert text[..|ExtractPrefix|] == ExtractPrefix;
    assert text[|text| - |ExtractSuffix|..] == ExtractSuffix;
    assert text[|ExtractPrefix|..|text| - |ExtractSuffix|] == Decimal.NatToString(|doc.pages|);
    text
  }

  /** The page count is the only thing the placeholder text depends on, and
      it can be read back from it: two documents get the same text exactly
      when they have the same number of pages. */
  lemma ExtractTextOnlyCount(a: Document, b: Document)
    ensures ExtractText(a) == ExtractText(b) <==> |a.pages| == |b.pages|
  {
    var m := Decimal.NatToString(|a.pages|);
    var n := Decimal.NatToString(|b.pages|);
    if ExtractText(a) == ExtractText(b) {
      var p := |ExtractPrefix|;
      assert |m| == |n|;
      assert m == ExtractText(a)[p..p + |m|];
      assert n == ExtractText(b)[p..p + |n|];
    }
    Decimal.NatToStringInjective(|a.pages|, |b.pages|);
  }
}
