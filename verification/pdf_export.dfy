/**
 * PDF export (src/components/pdf-exporter.tsx): the canvas is rasterised,
 * scaled to the width of an A4 page, and cut into pages by placing the same
 * image on each page, shifted up by one page height per page; the file is
 * named after the document and the export time.
 */
module PdfExport {
  import opened Wrappers

  /** A4 in millimetres. */
  const PageWidth: real := 210.0
  const PageHeight: real := 297.0

  const DefaultTitle: string := "documento"

  /** The rasterised canvas, in pixels. */
  datatype Raster = Raster(width: nat, height: nat)

  /** The image height on the page, keeping the canvas's aspect ratio. */
  function ImageHeight(r: Raster): (h: real)
    requires r.width > 0
    ensures h * (r.width as real) == (r.height as real) * PageWidth
    ensures h >= 0.0
  {
    (r.height as real) * PageWidth / (r.width as real)
  }

  /**
   * `n` pages hold an image of height `h`: at least one page, enough pages
   * to reach the bottom, and no page that starts below it.
   */
  predicate Pages(h: real, n: int) {
    n >= 1 && h <= PageHeight * (n as real) && (n == 1 || PageHeight * ((n - 1) as real) < h)
  }

  /** ceil(h / 297), and one page for an image no taller than a page. */
  function PageCount(h: real): (n: int)
    ensures Pages(h, n)
  {
    if h <= PageHeight then 1 else -((-h / PageHeight).Floor)
  }

  /** The page count is determined by the image height. */
  lemma PagesUnique(h: real, n: int, m: int)
    requires Pages(h, n) && Pages(h, m)
    ensures n == m
  {
    if m > 1 {
      assert PageHeight * ((m - 1) as real) < PageHeight * (n as real);
    }
    if n > 1 {
      assert PageHeight * ((n - 1) as real) < PageHeight * (m as real);
    }
  }

  /**
   * The pagination loop: the first page at offset 0, then while some of the
   * image is left, another page at `heightLeft - imgHeight`. Page `k` sits
   * at `-297 k`, and the number of pages is ceil(imgHeight / 297).
   */
  method Paginate(r: Raster) returns (imgHeight: real, offsets: seq<real>)
    requires r.width > 0
    ensures imgHeight == ImageHeight(r)
    ensures |offsets| >= 1 && offsets[0] == 0.0
    ensures forall k :: 0 <= k < |offsets| ==> offsets[k] == -PageHeight * (k as real)
    ensures Pages(imgHeight, |offsets|)
    ensures |offsets| == PageCount(imgHeight)
  {
    imgHeight := ImageHeight(r);
    var heightLeft := imgHeight;
    offsets := [0.0];
    heightLeft := heightLeft - PageHeight;
    while heightLeft > 0.0
      invariant |offsets| >= 1 && offsets[0] == 0.0
      invariant heightLeft == imgHeight - PageHeight * (|offsets| as real)
      invariant forall k :: 0 <= k < |offsets| ==> offsets[k] == -PageHeight * (k as real)
      invariant |offsets| == 1 || PageHeight * ((|offsets| - 1) as real) < imgHeight
      decreases heightLeft.Floor
    {
      var position := heightLeft - imgHeight;
      offsets := offsets + [position];
      heightLeft := heightLeft - PageHeight;
    }
    PagesUnique(imgHeight, |offsets|, PageCount(imgHeight));
  }

  /** An image 2.4 pages tall takes three pages, the last at -594. */
  method PaginateExample() returns (offsets: seq<real>)
    ensures offsets == [0.0, -297.0, -594.0]
  {
    var h;
    h, offsets := Paginate(Raster(1050, 3564));
    assert h == 712.8;
    assert Pages(h, 3);
    PagesUnique(h, |offsets|, 3);
  }

  // ---------------------------------------------------------------------
  // File name

  predicate IsSeparator(c: char) {
    c == ':' || c == '.'
  }

  /** `replace(/[:.]/g, "-")`. */
  function Dashes(s: string): (r: string)
    ensures |r| == |s|
    ensures forall i :: 0 <= i < |s| ==> !IsSeparator(r[i])
    ensures forall i :: 0 <= i < |s| && !IsSeparator(s[i]) ==> r[i] == s[i]
    ensures forall i :: 0 <= i < |s| && IsSeparator(s[i]) ==> r[i] == '-'
  {
    if |s| == 0 then []
    else [if IsSeparator(s[0]) then '-' else s[0]] + Dashes(s[1..])
  }

  /** The time stamp: the first 19 characters of the ISO time with separators dashed. */
  function Stamp(iso: string): (r: string)
    ensures |r| == if |iso| < 19 then |iso| else 19
    ensures forall i :: 0 <= i < |r| ==> !IsSeparator(r[i])
    ensures forall i :: 0 <= i < |r| && !IsSeparator(iso[i]) ==> r[i] == iso[i]
    ensures forall i :: 0 <= i < |r| && IsSeparator(iso[i]) ==> r[i] == '-'
  {
    var d := Dashes(iso);
    if |d| < 19 then d else d[..19]
  }

  /** `${fileName}-${timestamp}.pdf`, with "documento" when no name is passed. */
  function FileName(title: Option<string>, iso: string): (r: string)
    ensures var t := title.GetOr(DefaultTitle);
            |r| == |t| + 1 + |Stamp(iso)| + 4 &&
            r[..|t|] == t && r[|t|] == '-' && r[|t| + 1..|r| - 4] == Stamp(iso) && r[|r| - 4..] == ".pdf"
  {
    title.GetOr(DefaultTitle) + "-" + Stamp(iso) + ".pdf"
  }

  /** Two exports of the same document at different seconds get different names. */
  lemma FileNameDistinguishesTimes(title: Option<string>, iso1: string, iso2: string)
    requires FileName(title, iso1) == FileName(title, iso2)
    ensures Stamp(iso1) == Stamp(iso2)
  {
    var t := title.GetOr(DefaultTitle);
    var r := FileName(title, iso1);
    assert Stamp(iso1) == r[|t| + 1..|r| - 4];
  }

  /** The stamp of an export at 2024-05-01T10:20:30.123Z. */
  lemma StampExample(iso: string)
    requires iso == "2024-05-01T10:20:30.123Z"
    ensures Stamp(iso) == "2024-05-01T10-20-30"
  {
    var d := Dashes(iso);
    assert forall i :: 0 <= i < 19 ==> d[i] == "2024-05-01T10-20-30"[i];
  }

  /** Without a name the file is called "documento-<stamp>.pdf"; an empty name is kept as it is. */
  lemma FileNameExample(iso: string, stamp: string)
    requires iso == "2024-05-01T10:20:30.123Z" && stamp == "2024-05-01T10-20-30"
    ensures FileName(None, iso) == "documento" + "-" + stamp + ".pdf"
    ensures FileName(Some(""), iso) == "" + "-" + stamp + ".pdf"
  {
    StampExample(iso);
  }

  // ---------------------------------------------------------------------
  // The export button

  datatype Outcome =
    | Ignored                                      // the button is disabled while busy
    | NoContent                                    // no canvas node: an error toast, nothing else
    | Failed                                       // rasterising or writing threw: an error toast
    | Saved(fileName: string, offsets: seq<real>)  // the PDF is saved

  /**
   * One press of the export button. `rendered` is the raster, or None when
   * rasterising or writing the PDF throws. `busy` lists the values the busy
   * flag is set to, in order.
   */
  method Export(pressedWhileBusy: bool, mounted: bool, rendered: Option<Raster>, title: Option<string>, iso: string)
    returns (outcome: Outcome, busy: seq<bool>)
    requires rendered.Some? ==> rendered.value.width > 0
    ensures pressedWhileBusy ==> outcome.Ignored? && busy == []
    ensures !pressedWhileBusy && !mounted ==> outcome.NoContent? && busy == []
    ensures !pressedWhileBusy && mounted ==> busy == [true, false]
    ensures !pressedWhileBusy && mounted && rendered.None? ==> outcome.Failed?
    ensures !pressedWhileBusy && mounted && rendered.Some? ==>
              outcome.Saved? && outcome.fileName == FileName(title, iso) &&
              |outcome.offsets| == PageCount(ImageHeight(rendered.value))
    ensures busy == [] || busy[|busy| - 1] == false
  {
    if pressedWhileBusy {
      return Ignored, [];
    }
    if !mounted {
      return NoContent, [];
    }
    busy := [true];
    match rendered {
      case None =>
        outcome := Failed;
      case Some(r) =>
        var h, offsets := Paginate(r);
        outcome := Saved(FileName(title, iso), offsets);
    }
    busy := busy + [false];
  }
}
