# One-frame image generator, modelled in Dafny

The program renders one frame of a PuzzleScript game as a PNG file. It takes a
list of pixel records `(x, y, colour string)`, a logical grid size and a frame
index. It creates a white RGB canvas five times the grid size in each
direction. It stamps each record's resolved colour on its pixel, in list order.
Then, when the index exceeds one and the fourth command-line argument is
non-empty, it deletes the previous frame's file `output_image{index-1}.png`.
Finally it saves the canvas as `output_image{index}.png`.

The model has four modules:

- `Wrappers` (`wrappers.dfy`): `Option` and `Result`. `Errors` (same file): every way a run aborts.
- `Decimal` (`decimal.dfy`): Python's decimal text of an `int`, as an f-string writes it, and its inverse.
- `Canvas` (`canvas.dfy`): the canvas as a value (`Grid`, indexed `g[x][y]`), the plotting as a
  left-to-right function `Plotted`, an independent reference (`LastNaming`) for which record
  decides a pixel, and `ConvertDataToImage`, a method that fills an `array2` in a loop and is
  proved equal to `ConvertedImage`.
- `Frames` (`frames.dfy`): the file name of a frame, the ordered file actions (`Delete`, then
  `Save`), their execution against a file system given as a map from names to canvases, and
  what a whole run does to that file system.

The colour table is a parameter `resolve: string -> Option<Rgb>`. `None` means the
table rejects the string.

## Model

| member | source | states |
|---|---|---|
| `Canvas.Blank` | bin/PuzzleScript/Interface/ImageGenerator.py:13 | the new canvas has `w` columns of `h` pixels, all white |
| `Canvas.Paint` | bin/PuzzleScript/Interface/ImageGenerator.py:18 | one pixel write sets `(x, y)` to the colour, keeps every other pixel and the dimensions |
| `Canvas.PlotRecord` | bin/PuzzleScript/Interface/ImageGenerator.py:17-18 | one loop iteration succeeds exactly when the colour resolves and the pixel is on the canvas, and keeps the canvas size |
| `Canvas.Plotted` | bin/PuzzleScript/Interface/ImageGenerator.py:13-18 | a successful plot yields a canvas of exactly `w` by `h` pixels |
| `Canvas.ConvertedImage` | bin/PuzzleScript/Interface/ImageGenerator.py:13-20 | a successful conversion yields a canvas of `width*5` columns and `height*5` rows; a negative size fails with `NegativeSize` |
| `Canvas.LastNaming` | bin/PuzzleScript/Interface/ImageGenerator.py:16-18 | reference: the index of the last record naming a pixel, or none when no record names it |
| `Canvas.RecordError` | bin/PuzzleScript/Interface/ImageGenerator.py:17-18 | the error a bad record raises: the colour is resolved before the pixel is written, so a bad colour wins over a bad position; stated by `PlottedFailsAtFirstBad` |
| `Canvas.PlottedOkIff` | bin/PuzzleScript/Interface/ImageGenerator.py:16-18 | plotting succeeds if and only if every record's colour resolves and its pixel is on the canvas |
| `Canvas.PlottedFailsAtFirstBad` | bin/PuzzleScript/Interface/ImageGenerator.py:16-18 | plotting fails with the error of the first bad record; a bad colour is reported before a bad position |
| `Canvas.PlottedPixel` | bin/PuzzleScript/Interface/ImageGenerator.py:13-18 | after plotting, each pixel holds the colour of the last record naming it, or white |
| `Canvas.LastWriteWins` | bin/PuzzleScript/Interface/ImageGenerator.py:16-18 | for duplicate coordinates the last record in list order decides the pixel |
| `Canvas.UnnamedPixelStaysWhite` | bin/PuzzleScript/Interface/ImageGenerator.py:13-18 | a pixel named by no record is still white after plotting |
| `Canvas.ConvertDataToImage` | bin/PuzzleScript/Interface/ImageGenerator.py:8-20 | the in-place loop over a fresh array succeeds, fails and fills pixels exactly as `ConvertedImage` |
| `Decimal.DigitsValueOfNatToDecimal` | bin/PuzzleScript/Interface/ImageGenerator.py:26 | reading back the decimal text of a natural number gives that number |
| `Decimal.IntToDecimal` | bin/PuzzleScript/Interface/ImageGenerator.py:25-26 | the text an f-string writes for an integer index: at least one character, a leading minus sign exactly for a negative index, digits otherwise |
| `Decimal.IntToDecimalRoundTrip` | bin/PuzzleScript/Interface/ImageGenerator.py:26 | parsing the formatted text of any integer, negative ones included, gives that integer |
| `Decimal.IntToDecimalInjective` | bin/PuzzleScript/Interface/ImageGenerator.py:26 | distinct integers are formatted as distinct text |
| `Frames.FrameName` | bin/PuzzleScript/Interface/ImageGenerator.py:25-26 | the file name `output_image{index}.png` of a frame; `FrameNameRoundTrip` and `FrameNameInjective` state its meaning |
| `Frames.DeletesPrevious` | bin/PuzzleScript/Interface/ImageGenerator.py:25 | the deletion condition `index > 1 and sys.argv[4]`, with an empty argument falsy; `FrameActionsOrder` and `SuccessfulRun` state its effect |
| `Frames.FrameActions` | bin/PuzzleScript/Interface/ImageGenerator.py:25-26 | the file actions after the image is built fail exactly when the index exceeds one and the fourth argument is absent, and then with `MissingCleanupArgument` |
| `Frames.Perform` | bin/PuzzleScript/Interface/ImageGenerator.py:25-26 | the effects of `os.remove` and the save on a file system, stopping at the first failure; stated by `PerformFrameActions` |
| `Frames.Plan` | bin/PuzzleScript/Interface/ImageGenerator.py:22-26 | the run as a plan: the image-building error, or the file actions; `RenderFrame` computes it |
| `Frames.Run` | bin/PuzzleScript/Interface/ImageGenerator.py:22-26 | one whole run on a file system; stated by `RunFailsIff`, `FailedRunWritesNothing` and `SuccessfulRun` |
| `Frames.ConvertedImageSaveable` | bin/PuzzleScript/Interface/ImageGenerator.py:13-26 | a built canvas can be saved as a PNG file exactly when the width and height are both positive |
| `Frames.FrameNameRoundTrip` | bin/PuzzleScript/Interface/ImageGenerator.py:25-26 | `output_image{index}.png` can be read back to the index it was made from |
| `Frames.FrameNameInjective` | bin/PuzzleScript/Interface/ImageGenerator.py:25-26 | distinct frames get distinct file names, so the deleted file is never the saved one |
| `Frames.FrameActionsOrder` | bin/PuzzleScript/Interface/ImageGenerator.py:25-26 | the actions are at most one deletion of `output_image{index-1}.png`, exactly when requested, then the save of `output_image{index}.png` |
| `Frames.FirstFrameIgnoresCleanup` | bin/PuzzleScript/Interface/ImageGenerator.py:25 | with `index <= 1` the fourth argument is never read: absent, empty or set give the same run |
| `Frames.PerformFrameActions` | bin/PuzzleScript/Interface/ImageGenerator.py:25-26 | a deletion of a missing file fails before the save; an unsaveable canvas fails after the deletion; otherwise the image is saved and the previous file removed when requested |
| `Frames.RenderFrame` | bin/PuzzleScript/Interface/ImageGenerator.py:22-26 | the script body returns exactly the plan: the image-building error, or the ordered file actions |
| `Frames.RunFailsIff` | bin/PuzzleScript/Interface/ImageGenerator.py:22-26 | a run fails if and only if the image cannot be built, or the fourth argument is needed and absent, or the file to delete is missing, or the width or height is zero so the PNG cannot be written |
| `Frames.FailedRunWritesNothing` | bin/PuzzleScript/Interface/ImageGenerator.py:23-26 | a failed run writes no file; every failure but a failed save leaves the files unchanged, and a failed save leaves only the requested deletion done |
| `Frames.SuccessfulRun` | bin/PuzzleScript/Interface/ImageGenerator.py:23-26 | a successful run saves the image as this frame's file, removes the previous frame's file exactly when requested, and changes nothing else |
| `Frames.RerunWithoutCleanupIsIdempotent` | bin/PuzzleScript/Interface/ImageGenerator.py:13-26 | a second run with the same arguments and no deletion succeeds and leaves the files unchanged |
| `Frames.RedOriginExample` | bin/PuzzleScript/Interface/ImageGenerator.py:13-26 | a 2 by 2 grid with one red record at the origin gives a 10 by 10 white canvas, red at the origin, saved as `output_image1.png` |
| `Frames.OutOfRangeExample` | bin/PuzzleScript/Interface/ImageGenerator.py:16-23 | a record at `(100, 100)` on a 2 by 2 grid aborts with `OutOfRange` and writes no file |

The previous frame's file is deleted before the new file is saved (line 25
comes before line 26), so a failed deletion leaves no new file. A save that
fails after the deletion leaves neither file.

## Left out

- Decoding of the three JSON arguments (lines 10, 11, 22) is not modelled. The inputs are already-decoded records, a size and an integer index; missing keys and values of other JSON types are not modelled.
- The colour table behind `ImageColor.getcolor` (line 17) is not part of this model; it is the parameter `resolve`.
- Negative pixel coordinates are excluded by typing `x` and `y` as `nat`. The imaging library's own handling of negative indices is not modelled.
- The imaging library's internals are reduced to a grid of RGB triples: a negative width or height fails with `NegativeSize`, as that library refuses it. A zero width or height gives an empty canvas, which the save then rejects with `UnsavableImage`.
- PNG encoding and the `quality` and `subsampling` options of the save (line 26) are not modelled; a saved file holds the canvas value. Whatever partial file a failed save may leave under the new name is not modelled: a failed save leaves the file system as it was just before the save.
- The real file system and `os.remove` (line 25) are a map from file names to canvases. Only the missing-file failure of a deletion is modelled; permission errors and races between concurrent runs are not.
