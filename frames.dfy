/** The frame half of the image generator: the output file named after the
    frame index, the optional deletion of the previous frame's file, and the
    order in which the run builds the image, deletes and saves. The file
    system is a map from file names to saved canvases. */
module Frames {
  import opened Wrappers
  import opened Errors
  import opened Decimal
  import opened Canvas

  const Prefix := "output_image"
  const Suffix := ".png"

  /** The name of the file frame `index` is saved as. */
  function FrameName(index: int): string {
    Prefix + IntToDecimal(index) + Suffix
  }

  /** The frame index a file name stands for, if it is a frame file name. */
  function FrameIndex(name: string): Option<int> {
    if |name| >= |Prefix| + |Suffix| && name[..|Prefix|] == Prefix && name[|name| - |Suffix|..] == Suffix
    then ParseInt(name[|Prefix|..|name| - |Suffix|])
    else None
  }

  lemma FrameNameRoundTrip(index: int)
    ensures FrameIndex(FrameName(index)) == Some(index)
  {
    var name := FrameName(index);
    assert name[..|Prefix|] == Prefix;
    assert name[|name| - |Suffix|..] == Suffix;
    assert name[|Prefix|..|name| - |Suffix|] == IntToDecimal(index);
    IntToDecimalRoundTrip(index);
  }

  /** Distinct frames are saved under distinct names; in particular the file a
      run deletes is never the one it saves. */
  lemma FrameNameInjective(i: int, j: int)
    requires FrameName(i) == FrameName(j)
    ensures i == j
  {
    FrameNameRoundTrip(i);
    FrameNameRoundTrip(j);
  }

  /** An effect on the file system, in the order the run performs it. */
  datatype FileAction = Delete(name: string) | Save(name: string, image: Grid)

  type FileSystem = map<string, Grid>

  /** The file system after a run, and the error that stopped it, if any. */
  datatype Outcome = Outcome(files: FileSystem, failure: Option<Error>)

  /** Whether a run with this frame index and fourth argument deletes the
      previous frame: the index exceeds one and the argument is present and
      non-empty. */
  predicate DeletesPrevious(index: int, cleanup: Option<string>) {
    index > 1 && cleanup.Some? && cleanup.value != ""
  }

  /** The file actions that follow a successfully built image. The fourth
      argument is read only when the index exceeds one, and reading it when
      it is absent fails; a deletion comes before the save. */
  function FrameActions(index: int, cleanup: Option<string>, image: Grid): (r: Result<seq<FileAction>, Error>)
    ensures r.Err? <==> index > 1 && cleanup.None?
    ensures r.Err? ==> r.error == MissingCleanupArgument
  {
    if index > 1 then
      match cleanup
      case None => Err(MissingCleanupArgument)
      case Some(flag) =>
        if flag != "" then Ok([Delete(FrameName(index - 1)), Save(FrameName(index), image)])
        else Ok([Save(FrameName(index), image)])
    else Ok([Save(FrameName(index), image)])
  }

  /** Everything one run does, as a plan: build the image, then the file
      actions. A bad record or size fails before any file action. */
  function Plan(records: seq<PixelRecord>, size: CanvasSize, index: int, cleanup: Option<string>, resolve: Resolver)
    : Result<seq<FileAction>, Error>
  {
    match ConvertedImage(records, size, resolve)
    case Err(e) => Err(e)
    case Ok(image) => FrameActions(index, cleanup, image)
  }

  /** Whether a canvas can be written as a PNG file: the format has no room
      for an image with zero columns or zero rows. */
  predicate Saveable(image: Grid) {
    |image| > 0 && |image[0]| > 0
  }

  /** Carries out file actions in order. Deleting a file that does not exist,
      or saving a canvas that is not saveable, fails and stops the run; no
      later action happens, and what earlier actions did stays done. */
  function Perform(actions: seq<FileAction>, files: FileSystem): Outcome
    decreases |actions|
  {
    if actions == [] then Outcome(files, None)
    else
      match actions[0]
      case Delete(name) =>
        if name in files then Perform(actions[1..], files - {name})
        else Outcome(files, Some(MissingFile(name)))
      case Save(name, image) =>
        if Saveable(image) then Perform(actions[1..], files[name := image])
        else Outcome(files, Some(UnsavableImage(name)))
  }

  /** One run of the program on a given file system. */
  function Run(records: seq<PixelRecord>, size: CanvasSize, index: int, cleanup: Option<string>,
               resolve: Resolver, files: FileSystem): Outcome
  {
    match Plan(records, size, index, cleanup, resolve)
    case Err(e) => Outcome(files, Some(e))
    case Ok(actions) => Perform(actions, files)
  }

  /** The script body: build the image, then decide the file actions. */
  method RenderFrame(records: seq<PixelRecord>, size: CanvasSize, index: int, cleanup: Option<string>,
                     resolve: Resolver)
    returns (r: Result<seq<FileAction>, Error>)
    ensures r == Plan(records, size, index, cleanup, resolve)
  {
    var image := ConvertDataToImage(records, size, resolve);
    if image.Err? {
      return Err(image.error);
    }
    var grid := Pixels(image.value);
    r := FrameActions(index, cleanup, grid);
  }

  /** The shape of a successful plan: at most one deletion, of the previous
      frame's file and only when requested, and then the save of this frame. */
  lemma FrameActionsOrder(index: int, cleanup: Option<string>, image: Grid)
    requires FrameActions(index, cleanup, image).Ok?
    ensures var actions := FrameActions(index, cleanup, image).value;
      |actions| == (if DeletesPrevious(index, cleanup) then 2 else 1) &&
      actions[|actions| - 1] == Save(FrameName(index), image) &&
      (|actions| == 2 ==> actions[0] == Delete(FrameName(index - 1)))
  {
  }

  /** With an index of at most one the fourth argument is never read: whether
      it is absent, empty or set makes no difference. */
  lemma FirstFrameIgnoresCleanup(records: seq<PixelRecord>, size: CanvasSize, index: int,
                                 cleanup: Option<string>, cleanup': Option<string>,
                                 resolve: Resolver, files: FileSystem)
    requires index <= 1
    ensures Run(records, size, index, cleanup, resolve, files) == Run(records, size, index, cleanup', resolve, files)
  {
  }

  /** The file system after carrying out the actions that follow a built
      image: the deletion, when requested, fails on a missing file before
      anything is saved; an unsaveable canvas fails after the deletion;
      otherwise the image is saved under this frame's name. */
  lemma PerformFrameActions(index: int, cleanup: Option<string>, image: Grid, files: FileSystem)
    requires FrameActions(index, cleanup, image).Ok?
    ensures var prev, name := FrameName(index - 1), FrameName(index);
      var kept := if DeletesPrevious(index, cleanup) then files - {prev} else files;
      Perform(FrameActions(index, cleanup, image).value, files) ==
        if DeletesPrevious(index, cleanup) && prev !in files then Outcome(files, Some(MissingFile(prev)))
        else if !Saveable(image) then Outcome(kept, Some(UnsavableImage(name)))
        else Outcome(kept[name := image], None)
  {
    var prev, name := FrameName(index - 1), FrameName(index);
    var actions := FrameActions(index, cleanup, image).value;
    var save := Save(name, image);
    if Saveable(image) {
      assert Perform([save], files) == Perform([], files[name := image]);
    }
    if DeletesPrevious(index, cleanup) {
      assert actions == [Delete(prev), save];
      assert actions[1..] == [save];
      if Saveable(image) {
        assert Perform([save], files - {prev}) == Perform([], (files - {prev})[name := image]);
      }
    }
  }

  /** A built canvas is saveable exactly when the grid size is positive in
      both directions. */
  lemma ConvertedImageSaveable(records: seq<PixelRecord>, size: CanvasSize, resolve: Resolver)
    requires ConvertedImage(records, size, resolve).Ok?
    ensures Saveable(ConvertedImage(records, size, resolve).value) <==> size.width > 0 && size.height > 0
  {
    var image := ConvertedImage(records, size, resolve).value;
    if size.width > 0 {
      assert |image[0]| == size.height * Scale;
    }
  }

  /** A run fails exactly when the image cannot be built, or the fourth
      argument is needed and absent, or the previous frame's file to delete
      is missing, or the canvas has no columns or no rows and so cannot be
      saved. */
  lemma RunFailsIff(records: seq<PixelRecord>, size: CanvasSize, index: int, cleanup: Option<string>,
                    resolve: Resolver, files: FileSystem)
    ensures Run(records, size, index, cleanup, resolve, files).failure.Some? <==>
      || ConvertedImage(records, size, resolve).Err?
      || (index > 1 && cleanup.None?)
      || (DeletesPrevious(index, cleanup) && FrameName(index - 1) !in files)
      || size.width == 0 || size.height == 0
  {
    if ConvertedImage(records, size, resolve).Ok? {
      ConvertedImageSaveable(records, size, resolve);
      if !(index > 1 && cleanup.None?) {
        PerformFrameActions(index, cleanup, ConvertedImage(records, size, resolve).value, files);
      }
    }
  }

  /** A failed run writes no file. A bad record or size, a missing fourth
      argument and a failed deletion all stop the run before any file
      changes; only a failed save comes after the deletion, and then the
      previous frame's file is gone with no new file in its place. */
  lemma FailedRunWritesNothing(records: seq<PixelRecord>, size: CanvasSize, index: int, cleanup: Option<string>,
                               resolve: Resolver, files: FileSystem)
    requires Run(records, size, index, cleanup, resolve, files).failure.Some?
    ensures var outcome := Run(records, size, index, cleanup, resolve, files);
      outcome.files ==
        if outcome.failure == Some(UnsavableImage(FrameName(index))) && DeletesPrevious(index, cleanup)
        then files - {FrameName(index - 1)}
        else files
  {
    if ConvertedImage(records, size, resolve).Ok? && !(index > 1 && cleanup.None?) {
      PerformFrameActions(index, cleanup, ConvertedImage(records, size, resolve).value, files);
    }
  }

  /** A successful run saves the image under this frame's name and, when
      requested, removes the previous frame's file; no other file changes. */
  lemma SuccessfulRun(records: seq<PixelRecord>, size: CanvasSize, index: int, cleanup: Option<string>,
                      resolve: Resolver, files: FileSystem)
    requires Run(records, size, index, cleanup, resolve, files).failure.None?
    ensures ConvertedImage(records, size, resolve).Ok?
    ensures var image := ConvertedImage(records, size, resolve).value;
      var kept := if DeletesPrevious(index, cleanup) then files - {FrameName(index - 1)} else files;
      Run(records, size, index, cleanup, resolve, files).files == kept[FrameName(index) := image]
    ensures DeletesPrevious(index, cleanup) ==>
      FrameName(index - 1) in files && FrameName(index - 1) !in Run(records, size, index, cleanup, resolve, files).files
  {
    RunFailsIff(records, size, index, cleanup, resolve, files);
    ConvertedImageSaveable(records, size, resolve);
    PerformFrameActions(index, cleanup, ConvertedImage(records, size, resolve).value, files);
    if DeletesPrevious(index, cleanup) && FrameName(index - 1) == FrameName(index) {
      FrameNameInjective(index - 1, index);
    }
  }

  /** Running again with the same arguments and no deletion leaves the file
      system exactly as the first run left it. */
  lemma RerunWithoutCleanupIsIdempotent(records: seq<PixelRecord>, size: CanvasSize, index: int, cleanup: Option<string>,
                                        resolve: Resolver, files: FileSystem)
    requires !DeletesPrevious(index, cleanup)
    requires Run(records, size, index, cleanup, resolve, files).failure.None?
    ensures var after := Run(records, size, index, cleanup, resolve, files).files;
      Run(records, size, index, cleanup, resolve, after) == Outcome(after, None)
  {
    var after := Run(records, size, index, cleanup, resolve, files).files;
    SuccessfulRun(records, size, index, cleanup, resolve, files);
    RunFailsIff(records, size, index, cleanup, resolve, files);
    RunFailsIff(records, size, index, cleanup, resolve, after);
    SuccessfulRun(records, size, index, cleanup, resolve, after);
  }

  /** A 2 by 2 grid with one red record at the origin and frame index 1
      gives a 10 by 10 white canvas, red at the origin, saved as
      `output_image1.png`. */
  lemma RedOriginExample(resolve: Resolver, files: FileSystem)
    requires resolve("#ff0000") == Some(Rgb(255, 0, 0))
    ensures var records := [PixelRecord(0, 0, "#ff0000")];
      var image := ConvertedImage(records, CanvasSize(2, 2), resolve);
      && image.Ok? && IsCanvas(image.value, 10, 10)
      && image.value[0][0] == Rgb(255, 0, 0)
      && (forall x, y :: 0 <= x < 10 && 0 <= y < 10 && (x, y) != (0, 0) ==> image.value[x][y] == White)
      && Run(records, CanvasSize(2, 2), 1, None, resolve, files) ==
           Outcome(files["output_image1.png" := image.value], None)
  {
    var records := [PixelRecord(0, 0, "#ff0000")];
    PlottedOkIff(records, 10, 10, resolve);
    LastWriteWins(records, 10, 10, resolve, 0);
    forall x: nat, y: nat | x < 10 && y < 10 && (x, y) != (0, 0)
      ensures Plotted(records, 10, 10, resolve).value[x][y] == White
    {
      UnnamedPixelStaysWhite(records, 10, 10, resolve, x, y);
    }
    assert IntToDecimal(1) == "1";
    assert FrameName(1) == "output_image1.png";
    ConvertedImageSaveable(records, CanvasSize(2, 2), resolve);
    PerformFrameActions(1, None, Plotted(records, 10, 10, resolve).value, files);
  }

  /** A record far outside a 10 by 10 canvas aborts the run with no file
      written. */
  lemma OutOfRangeExample(resolve: Resolver, files: FileSystem, cleanup: Option<string>)
    requires resolve("red") == Some(Rgb(255, 0, 0))
    ensures Run([PixelRecord(100, 100, "red")], CanvasSize(2, 2), 1, cleanup, resolve, files) ==
      Outcome(files, Some(OutOfRange(100, 100)))
  {
    PlottedFailsAtFirstBad([PixelRecord(100, 100, "red")], 10, 10, resolve, 0);
  }
}
