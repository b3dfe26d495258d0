/** The canvas half of the image generator: a white RGB canvas five times the
    logical grid size, on which each pixel record is stamped in list order. */
module Canvas {
  import opened Wrappers
  import opened Errors

  /** Every logical grid cell is five pixels wide and five pixels high. */
  const Scale := 5

  type Channel = c: int | 0 <= c < 256

  datatype Rgb = Rgb(red: Channel, green: Channel, blue: Channel)

  /** The background colour the canvas is created with. */
  const White := Rgb(255, 255, 255)

  /** The colour table, which turns a colour name or `#rrggbb` text into an
      RGB triple, or rejects it. Its contents are not part of this model, so
      every operation takes it as a parameter. */
  type Resolver = string -> Option<Rgb>

  /** One plotting instruction: absolute pixel coordinates and a colour string. */
  datatype PixelRecord = PixelRecord(x: nat, y: nat, c: string)

  /** The logical grid size; the canvas is `width * Scale` by `height * Scale`. */
  datatype CanvasSize = CanvasSize(width: int, height: int)

  /** A canvas as a value: `g[x][y]` is the pixel in column `x`, row `y`. */
  type Grid = seq<seq<Rgb>>

  predicate IsCanvas(g: Grid, w: nat, h: nat) {
    |g| == w && forall x :: 0 <= x < w ==> |g[x]| == h
  }

  /** The freshly created canvas: `w` columns of `h` white pixels. */
  function Blank(w: nat, h: nat): (g: Grid)
    ensures IsCanvas(g, w, h)
    ensures forall x, y :: 0 <= x < w && 0 <= y < h ==> g[x][y] == White
  {
    seq(w, _ => seq(h, _ => White))
  }

  /** One pixel write: the pixel at `(x, y)` becomes `c`, every other pixel
      keeps its colour. */
  function Paint(g: Grid, x: nat, y: nat, c: Rgb): (g': Grid)
    requires x < |g| && y < |g[x]|
    ensures |g'| == |g| && forall p :: 0 <= p < |g| ==> |g'[p]| == |g[p]|
    ensures g'[x][y] == c
    ensures forall p, q :: 0 <= p < |g| && 0 <= q < |g[p]| && (p != x || q != y) ==> g'[p][q] == g[p][q]
  {
    g[x := g[x][y := c]]
  }

  /** A record can be stamped on a `w` by `h` canvas: its colour resolves and
      its pixel lies on the canvas. */
  predicate Plottable(rec: PixelRecord, w: nat, h: nat, resolve: Resolver) {
    resolve(rec.c).Some? && rec.x < w && rec.y < h
  }

  /** The error a record that is not plottable raises. The colour is resolved
      before the pixel is written, so a bad colour is reported first. */
  function RecordError(rec: PixelRecord, w: nat, h: nat, resolve: Resolver): Error {
    if resolve(rec.c).None? then InvalidColour(rec.c) else OutOfRange(rec.x, rec.y)
  }

  /** One iteration of the plotting loop. */
  function PlotRecord(g: Grid, rec: PixelRecord, w: nat, h: nat, resolve: Resolver): (r: Result<Grid, Error>)
    requires IsCanvas(g, w, h)
    ensures r.Ok? <==> Plottable(rec, w, h, resolve)
    ensures r.Ok? ==> IsCanvas(r.value, w, h)
  {
    match resolve(rec.c)
    case None => Err(InvalidColour(rec.c))
    case Some(colour) =>
      if rec.x < w && rec.y < h then Ok(Paint(g, rec.x, rec.y, colour))
      else Err(OutOfRange(rec.x, rec.y))
  }

  /** The canvas after stamping `records` in list order onto a blank canvas,
      or the error of the first record that cannot be stamped. */
  function Plotted(records: seq<PixelRecord>, w: nat, h: nat, resolve: Resolver): (r: Result<Grid, Error>)
    ensures r.Ok? ==> IsCanvas(r.value, w, h)
    ensures r.Err? ==> r.error.InvalidColour? || r.error.OutOfRange?
    decreases |records|
  {
    if records == [] then Ok(Blank(w, h))
    else
      match Plotted(records[..|records| - 1], w, h, resolve)
      case Err(e) => Err(e)
      case Ok(g) => PlotRecord(g, records[|records| - 1], w, h, resolve)
  }

  /** The whole of `convert_data_to_image` as a value: the size check of the
      canvas library, then the plotting. */
  function ConvertedImage(records: seq<PixelRecord>, size: CanvasSize, resolve: Resolver): (r: Result<Grid, Error>)
    ensures r.Ok? ==> size.width >= 0 && size.height >= 0
    ensures r.Ok? ==> IsCanvas(r.value, size.width * Scale, size.height * Scale)
    ensures size.width < 0 || size.height < 0 ==> r == Err(NegativeSize)
    ensures r.Err? ==> r.error.NegativeSize? || r.error.InvalidColour? || r.error.OutOfRange?
  {
    if size.width < 0 || size.height < 0 then Err(NegativeSize)
    else Plotted(records, size.width * Scale, size.height * Scale, resolve)
  }

  predicate Names(rec: PixelRecord, x: nat, y: nat) {
    rec.x == x && rec.y == y
  }

  /** The position of the last record that names pixel `(x, y)`, if any does. */
  function LastNaming(records: seq<PixelRecord>, x: nat, y: nat): (k: Option<nat>)
    ensures k.Some? ==> k.value < |records| && Names(records[k.value], x, y)
    ensures k.Some? ==> forall j :: k.value < j < |records| ==> !Names(records[j], x, y)
    ensures k.None? ==> forall j :: 0 <= j < |records| ==> !Names(records[j], x, y)
    decreases |records|
  {
    if records == [] then None
    else if Names(records[|records| - 1], x, y) then Some(|records| - 1)
    else LastNaming(records[..|records| - 1], x, y)
  }

  /** Plotting succeeds exactly when every record is plottable. */
  lemma {:induction false} PlottedOkIff(records: seq<PixelRecord>, w: nat, h: nat, resolve: Resolver)
    ensures Plotted(records, w, h, resolve).Ok? <==>
      forall i :: 0 <= i < |records| ==> Plottable(records[i], w, h, resolve)
  {
    if records != [] {
      var prefix := records[..|records| - 1];
      PlottedOkIff(prefix, w, h, resolve);
      assert forall i :: 0 <= i < |prefix| ==> prefix[i] == records[i];
    }
  }

  /** When plotting fails, it fails with the error of the first record that is
      not plottable. */
  lemma {:induction false} PlottedFailsAtFirstBad(records: seq<PixelRecord>, w: nat, h: nat, resolve: Resolver, k: nat)
    requires k < |records| && !Plottable(records[k], w, h, resolve)
    requires forall i :: 0 <= i < k ==> Plottable(records[i], w, h, resolve)
    ensures Plotted(records, w, h, resolve) == Err(RecordError(records[k], w, h, resolve))
  {
    var prefix := records[..|records| - 1];
    assert forall i :: 0 <= i < |prefix| ==> prefix[i] == records[i];
    if k == |records| - 1 {
      PlottedOkIff(prefix, w, h, resolve);
    } else {
      PlottedFailsAtFirstBad(prefix, w, h, resolve, k);
    }
  }

  /** After a successful plot each pixel holds the resolved colour of the last
      record that names it, and is white when no record names it. */
  lemma {:induction false} PlottedPixel(records: seq<PixelRecord>, w: nat, h: nat, resolve: Resolver, x: nat, y: nat)
    requires Plotted(records, w, h, resolve).Ok?
    requires x < w && y < h
    ensures LastNaming(records, x, y).None? || resolve(records[LastNaming(records, x, y).value].c).Some?
    ensures Plotted(records, w, h, resolve).value[x][y] ==
      match LastNaming(records, x, y)
      case None => White
      case Some(k) => resolve(records[k].c).value
  {
    PlottedOkIff(records, w, h, resolve);
    if records != [] {
      var prefix := records[..|records| - 1];
      PlottedPixel(prefix, w, h, resolve, x, y);
      if !Names(records[|records| - 1], x, y) {
        assert LastNaming(records, x, y) == LastNaming(prefix, x, y);
        assert forall i :: 0 <= i < |prefix| ==> prefix[i] == records[i];
      }
    }
  }

  /** Last write wins: a pixel named by one or more records ends up with the
      colour of the last of them in list order. */
  lemma LastWriteWins(records: seq<PixelRecord>, w: nat, h: nat, resolve: Resolver, k: nat)
    requires Plotted(records, w, h, resolve).Ok?
    requires k < |records|
    requires forall j :: k < j < |records| ==> !Names(records[j], records[k].x, records[k].y)
    ensures Plottable(records[k], w, h, resolve)
    ensures Plotted(records, w, h, resolve).value[records[k].x][records[k].y] == resolve(records[k].c).value
  {
    PlottedOkIff(records, w, h, resolve);
    PlottedPixel(records, w, h, resolve, records[k].x, records[k].y);
  }

  /** A pixel no record names keeps the white background. */
  lemma UnnamedPixelStaysWhite(records: seq<PixelRecord>, w: nat, h: nat, resolve: Resolver, x: nat, y: nat)
    requires Plotted(records, w, h, resolve).Ok?
    requires x < w && y < h
    requires forall j :: 0 <= j < |records| ==> !Names(records[j], x, y)
    ensures Plotted(records, w, h, resolve).value[x][y] == White
  {
    PlottedPixel(records, w, h, resolve, x, y);
  }

  /** The canvas held in an array, as a value. */
  function Pixels(a: array2<Rgb>): (g: Grid)
    reads a
    ensures IsCanvas(g, a.Length0, a.Length1)
    ensures forall x, y :: 0 <= x < a.Length0 && 0 <= y < a.Length1 ==> g[x][y] == a[x, y]
  {
    seq(a.Length0, x requires 0 <= x < a.Length0 reads a =>
      seq(a.Length1, y requires 0 <= y < a.Length1 reads a => a[x, y]))
  }

  /** Two canvases of the same size with the same pixels are the same canvas. */
  lemma GridExtensionality(g: Grid, g': Grid, w: nat, h: nat)
    requires IsCanvas(g, w, h) && IsCanvas(g', w, h)
    requires forall x, y :: 0 <= x < w && 0 <= y < h ==> g[x][y] == g'[x][y]
    ensures g == g'
  {
    forall x | 0 <= x < w ensures g[x] == g'[x] {
      assert forall y :: 0 <= y < h ==> g[x][y] == g'[x][y];
    }
  }

  /** `convert_data_to_image`: allocates a white canvas of `width * Scale` by
      `height * Scale` pixels and writes the resolved colour of each record to
      its pixel, in list order. The first bad record aborts the run. */
  method ConvertDataToImage(records: seq<PixelRecord>, size: CanvasSize, resolve: Resolver)
    returns (r: Result<array2<Rgb>, Error>)
    ensures r.Ok? <==> ConvertedImage(records, size, resolve).Ok?
    ensures r.Err? ==> r.error == ConvertedImage(records, size, resolve).error
    ensures r.Ok? ==> fresh(r.value) && Pixels(r.value) == ConvertedImage(records, size, resolve).value
  {
    if size.width < 0 || size.height < 0 {
      return Err(NegativeSize);
    }
    var w: nat, h: nat := size.width * Scale, size.height * Scale;
    var img := new Rgb[w, h]((_, _) => White);
    var i := 0;
    while i < |records|
      invariant 0 <= i <= |records|
      invariant img.Length0 == w && img.Length1 == h
      invariant Plotted(records[..i], w, h, resolve).Ok?
      invariant forall x, y :: 0 <= x < w && 0 <= y < h ==>
        img[x, y] == Plotted(records[..i], w, h, resolve).value[x][y]
    {
      var rec := records[i];
      PlottedOkIff(records[..i], w, h, resolve);
      assert forall j :: 0 <= j < i ==> records[..i][j] == records[j];
      var colour := resolve(rec.c);
      if colour.None? {
        PlottedFailsAtFirstBad(records, w, h, resolve, i);
        return Err(InvalidColour(rec.c));
      }
      if rec.x >= w || rec.y >= h {
        PlottedFailsAtFirstBad(records, w, h, resolve, i);
        return Err(OutOfRange(rec.x, rec.y));
      }
      img[rec.x, rec.y] := colour.value;
      assert records[..i + 1][..i] == records[..i];
      i := i + 1;
    }
    assert records[..i] == records;
    GridExtensionality(Pixels(img), Plotted(records, w, h, resolve).value, w, h);
    return Ok(img);
  }
}
