/** The pure pieces of plotly.go: the names of the image types, the checks
    Fig2File makes before it writes anything, toSlice, and the titles
    Plotter puts on the layout. */
module Plotly {
  import opened Results
  import Text
  import Helpers
  import Dynamic

  // ---------------------------------------------------------------- PlotlyImage

  /** PlotlyImage is a Go int; the named values are 0 to 7. */
  type PlotlyImage = int

  const PlotlyJPEG: PlotlyImage := 0
  const PlotlyPNG: PlotlyImage := 1
  const PlotlyHTML: PlotlyImage := 2
  const PlotlyPDF: PlotlyImage := 3
  const PlotlyWEBP: PlotlyImage := 4
  const PlotlySVG: PlotlyImage := 5
  const PlotlyEPS: PlotlyImage := 6
  const PlotlyEMF: PlotlyImage := 7

  /** PlotlyImage.String: the file type's name, "" outside the named values. */
  function ImageName(pi: PlotlyImage): (r: string)
    ensures r == "" <==> !(PlotlyJPEG <= pi <= PlotlyEMF)
    ensures '.' !in r && '/' !in r
  {
    if pi == PlotlyJPEG then "jpeg"
    else if pi == PlotlyPNG then "png"
    else if pi == PlotlyHTML then "html"
    else if pi == PlotlyPDF then "pdf"
    else if pi == PlotlyWEBP then "webp"
    else if pi == PlotlySVG then "svg"
    else if pi == PlotlyEPS then "eps"
    else if pi == PlotlyEMF then "emf"
    else ""
  }

  /** The image type a name stands for, if any: the inverse of ImageName. */
  function ImageOfName(name: string): (r: Option<PlotlyImage>)
  {
    if name == "jpeg" then Some(PlotlyJPEG)
    else if name == "png" then Some(PlotlyPNG)
    else if name == "html" then Some(PlotlyHTML)
    else if name == "pdf" then Some(PlotlyPDF)
    else if name == "webp" then Some(PlotlyWEBP)
    else if name == "svg" then Some(PlotlySVG)
    else if name == "eps" then Some(PlotlyEPS)
    else if name == "emf" then Some(PlotlyEMF)
    else None
  }

  /** The eight names tell the eight types apart: each reads back as the
      type that printed it. */
  lemma {:induction false} ImageNameRoundTrip(pi: PlotlyImage)
    requires PlotlyJPEG <= pi <= PlotlyEMF
    ensures ImageOfName(ImageName(pi)) == Some(pi)
  {
  }

  /** ... and every name read back prints as itself. */
  lemma {:induction false} ImageOfNameRoundTrip(name: string)
    requires ImageOfName(name).Some?
    ensures ImageName(ImageOfName(name).value) == name
  {
  }

  /** So the names are pairwise distinct. */
  lemma {:induction false} ImageNamesDistinct(a: PlotlyImage, b: PlotlyImage)
    requires PlotlyJPEG <= a <= PlotlyEMF && PlotlyJPEG <= b <= PlotlyEMF && a != b
    ensures ImageName(a) != ImageName(b)
  {
    ImageNameRoundTrip(a);
    ImageNameRoundTrip(b);
  }

  // ---------------------------------------------------------------- Fig2File

  /** What Fig2File goes on to write once its checks pass: an HTML page
      through offline.ToHtml, or an image that orca writes into a
      directory. */
  datatype Target = HtmlPage(fileName: string) | OrcaImage(dir: string, fileName: string)

  /** Fig2File's checks, in order: a "." in outFile fails, then a type
      outside 0..7. The HTML page goes to Slash(outDir), which reads the
      last byte of outDir; orca is told the directory and the file name
      with the type's extension. */
  function Fig2File(plotType: PlotlyImage, outDir: string, outFile: string): (r: Result<Target>)
    requires '.' !in outFile && plotType == PlotlyHTML ==> |outDir| > 0
    ensures r == Err(NoExtension) <==> '.' in outFile
    ensures r == Err(IllegalPlotType) <==> '.' !in outFile && !(PlotlyJPEG <= plotType <= PlotlyEMF)
    ensures r.Ok? || r == Err(NoExtension) || r == Err(IllegalPlotType)
    ensures r.Ok? && plotType == PlotlyHTML ==>
      r.value == HtmlPage(Helpers.Slash(outDir) + outFile + ".html")
    ensures r.Ok? && plotType != PlotlyHTML ==>
      r.value == OrcaImage(outDir, outFile + "." + ImageName(plotType)) && ImageName(plotType) != ""
  {
    Text.ContainsChar(outFile, '.');
    if Text.Contains(outFile, ".") then Err(NoExtension)
    else if plotType < 0 || plotType > PlotlyEMF then Err(IllegalPlotType)
    else if plotType == PlotlyHTML then Ok(HtmlPage(Helpers.Slash(outDir) + outFile + ".html"))
    else Ok(OrcaImage(outDir, outFile + "." + ImageName(plotType)))
  }

  /** Every file Fig2File writes has exactly one ".", the one before the
      type's name, so the name Fig2File checked is the file's base name. */
  lemma {:induction false} Fig2FileExtension(plotType: PlotlyImage, outDir: string, outFile: string)
    requires '.' !in outFile && plotType == PlotlyHTML ==> |outDir| > 0
    requires Fig2File(plotType, outDir, outFile).Ok? && plotType != PlotlyHTML
    ensures var f := Fig2File(plotType, outDir, outFile).value.fileName;
      f[..|outFile|] == outFile && f[|outFile|] == '.' &&
      '.' !in outFile && '.' !in f[|outFile| + 1..] &&
      ImageOfName(f[|outFile| + 1..]) == Some(plotType)
  {
    var f := outFile + "." + ImageName(plotType);
    assert f[..|outFile|] == outFile && f[|outFile| + 1..] == ImageName(plotType);
    ImageNameRoundTrip(plotType);
  }

  // ---------------------------------------------------------------- toSlice

  /** toSlice: column `col` of the rows, one element per row, in row order.
      Go indexes every row at col, so every row must be that wide. */
  method ToSlice(x: seq<seq<Dynamic.Dyn>>, col: nat) returns (out: seq<Dynamic.Dyn>)
    requires forall i :: 0 <= i < |x| ==> col < |x[i]|
    ensures |out| == |x|
    ensures forall i :: 0 <= i < |x| ==> out[i] == x[i][col]
  {
    out := [];
    var ind := 0;
    while ind < |x|
      invariant 0 <= ind <= |x| && |out| == ind
      invariant forall i :: 0 <= i < ind ==> out[i] == x[i][col]
    {
      out := out + [x[ind][col]];
      ind := ind + 1;
    }
  }

  // ---------------------------------------------------------------- Plotter's titles

  /** A title with each newline turned into a "<br>". */
  function Breaks(title: string): (r: string)
    ensures '\n' !in r
  {
    Text.ReplaceAllRemoves(title, '\n', "<br>");
    Text.ReplaceAll(title, "\n", "<br>")
  }

  /** A title without newlines is left as it is, so Breaks is idempotent. */
  lemma {:induction false} BreaksIdempotent(title: string)
    ensures '\n' !in title ==> Breaks(title) == title
    ensures Breaks(Breaks(title)) == Breaks(title)
  {
    Text.ContainsChar(title, '\n');
    Text.ContainsChar(Breaks(title), '\n');
  }

  /** The x-axis title Plotter sets, if any: XTitle, with "<br>" and the
      sub-title after it when there is one. */
  function XAxisTitle(xTitle: string, sTitle: string): (r: Option<string>)
    ensures r.None? <==> xTitle == ""
    ensures r.Some? ==> |r.value| >= |xTitle| && r.value[..|xTitle|] == xTitle
    ensures r.Some? && sTitle == "" ==> r.value == xTitle
    ensures r.Some? && sTitle != "" ==> r.value[|xTitle|..] == "<br>" + sTitle
  {
    if xTitle == "" then None
    else if sTitle != "" then Some(xTitle + ("<br>" + sTitle))
    else Some(xTitle)
  }

  /** The layout features Plotter sets; widths and heights are floats and
      are not modelled. */
  datatype Layout = Layout(title: Option<string>, xTitle: Option<string>, yTitle: Option<string>,
                           yShowLine: bool, showLegend: Option<bool>)

  /** A nil layout: nothing set. */
  const EmptyLayout := Layout(None, None, None, false, None)

  /** What Plotter does to the layout, given the titles after the
      newlines are replaced: each non-empty title replaces the layout's,
      a y-axis title also shows the axis line, and no legend hides it. */
  function Laid(lay: Layout, title: string, xTitle: string, yTitle: string, sTitle: string, legend: bool): (r: Layout)
    ensures r.title == if title != "" then Some(title) else lay.title
    ensures r.yTitle == if yTitle != "" then Some(yTitle) else lay.yTitle
    ensures r.yShowLine == (yTitle != "" || lay.yShowLine)
    ensures r.xTitle == if xTitle != "" then XAxisTitle(xTitle, sTitle) else lay.xTitle
    ensures r.showLegend == if legend then lay.showLegend else Some(false)
  {
    var l1 := if title != "" then lay.(title := Some(title)) else lay;
    var l2 := if yTitle != "" then l1.(yTitle := Some(yTitle), yShowLine := true) else l1;
    var l3 := if xTitle != "" then l2.(xTitle := XAxisTitle(xTitle, sTitle)) else l2;
    if !legend then l3.(showLegend := Some(false)) else l3
  }

  /** A sub-title without an x-axis title sets no x-axis title. */
  lemma {:induction false} SubTitleAlone(lay: Layout, title: string, yTitle: string, sTitle: string, legend: bool)
    ensures Laid(lay, title, "", yTitle, sTitle, legend).xTitle == lay.xTitle
  {
  }

  /** No title Plotter sets has a newline left in it. */
  lemma {:induction false} LaidWithoutNewlines(title: string, xTitle: string, yTitle: string, sTitle: string, legend: bool)
    ensures var r := Laid(EmptyLayout, Breaks(title), Breaks(xTitle), Breaks(yTitle), Breaks(sTitle), legend);
      (r.title.Some? ==> '\n' !in r.title.value) &&
      (r.xTitle.Some? ==> '\n' !in r.xTitle.value) &&
      (r.yTitle.Some? ==> '\n' !in r.yTitle.value)
  {
    var x, s := Breaks(xTitle), Breaks(sTitle);
    if x != "" && s != "" {
      assert x + ("<br>" + s) == (x + "<br>") + s;
    }
  }

  /** PlotDef's fields that Plotter reads and rewrites. */
  class PlotDef {
    var Title: string
    var XTitle: string
    var YTitle: string
    var STitle: string
    var Legend: bool

    constructor(title: string, xTitle: string, yTitle: string, sTitle: string, legend: bool)
      ensures Title == title && XTitle == xTitle && YTitle == yTitle && STitle == sTitle && Legend == legend
    {
      Title, XTitle, YTitle, STitle, Legend := title, xTitle, yTitle, sTitle, legend;
    }

    /** Plotter up to the output: the titles in the PlotDef have their
        newlines replaced in place, then the layout (EmptyLayout for a nil
        one) gets the titles and the legend setting. */
    method Plotter(lay: Layout) returns (out: Layout)
      modifies this
      ensures Title == Breaks(old(Title)) && STitle == Breaks(old(STitle))
      ensures XTitle == Breaks(old(XTitle)) && YTitle == Breaks(old(YTitle))
      ensures Legend == old(Legend)
      ensures out == Laid(lay, Title, XTitle, YTitle, STitle, Legend)
    {
      Title := Text.ReplaceAll(Title, "\n", "<br>");
      STitle := Text.ReplaceAll(STitle, "\n", "<br>");
      XTitle := Text.ReplaceAll(XTitle, "\n", "<br>");
      YTitle := Text.ReplaceAll(YTitle, "\n", "<br>");
      out := lay;
      if Title != "" {
        out := out.(title := Some(Title));
      }
      if YTitle != "" {
        out := out.(yTitle := Some(YTitle), yShowLine := true);
      }
      if XTitle != "" {
        var xTitle := XTitle;
        if STitle != "" {
          xTitle := xTitle + ("<br>" + STitle);
        }
        out := out.(xTitle := Some(xTitle));
      }
      if !Legend {
        out := out.(showLegend := Some(false));
      }
    }
  }
}
