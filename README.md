# cryoCLEM Fiji plugin: a verified model of its core

This project models the two commands of the cryoCLEM Fiji plugin and the
utility classes beneath them.

- **Stitch TileScan** (`StitchTileScan.java`) opens the chosen image files.
  It offers one stitching job for each file and each distinct tile-group
  name, and runs the jobs the user ticks. A job does five things:
  - it writes a Grid/Collection tile configuration (`dim = 2`, then one
    `<title>;;(<x>, <y>)` line per tile) into a `.max_projections` scratch
    directory;
  - it runs the Grid/Collection stitcher on that configuration, with the
    `invert_x`/`invert_y` options the user chose;
  - it removes the placeholder ROIs named `... file=unknown file <n>`;
  - it saves the ROI set, the stitched TIFF and optionally a PNG next to the
    image file;
  - it deletes the scratch directory.
- **Get ZStacks from Stitch** (`RoiExtractor.java`) does two things:
  - It autofills its form from the stitched file or from the original file.
  - When one ROI is clicked, it reads the tile's series index back out of
    the ROI label (`..._mp_<index>.tif`). It then writes that tile's z-stack
    as one TIFF per channel, `<base>_zstack_<roi>_channel_<c>.tif`, and
    never overwrites an existing file.
- **Utility classes** (`util/ImageFile.java`, `util/Series.java`,
  `util/Channel.java`):
  - an opened image file with its base name and its series;
  - per-series metadata (sanitised name, projection title, calibrated stage
    position, channel colours);
  - the fixed colour palette.

Modules, one per source file plus two shared ones:

| module | file | models |
|---|---|---|
| `Text` | text.dfy | digits and `Integer.toString`, `indexOf`/`lastIndexOf`, `String.replace`, `Stream.distinct` |
| `Paths` | paths.dfy | `File.getName`, `File.getParent`, path joining |
| `ChannelPalette` | channel.dfy | `util/Channel.java` |
| `SeriesInfo` | series.dfy | `util/Series.java` |
| `ImageFiles` | image_file.dfy | `util/ImageFile.java` |
| `TileConfig` | tile_config.dfy | the tile-configuration text and a reader for it |
| `StitchTileScan` | stitch_tile_scan.dfy | `StitchTileScan.java` |
| `RoiExtractor` | roi_extractor.dfy | `RoiExtractor.java` |

How the model represents the environment:

- The filesystem is the set of paths that exist.
- The Bio-Formats reader is replaced by the metadata it reports
  (`SeriesMeta`), or by `None` when opening fails.
- What happens during a stitching job is given as a `JobEnv`:
  - whether the config file can be created;
  - whether the wait is interrupted;
  - which projections throw;
  - which saves fail. `saveAsTiff`, `saveAsPng` and the ROI manager's
    "Save" return false without throwing, the source ignores that result,
    and the job carries on without the file.
- The dialog's checkboxes are a sequence of answers, or `None` when the
  dialog is cancelled.
- Each loop of the imperative parts is a method proved equal to a
  specification function. The read-only searches (the palette lookup, the
  channel lookup by series name, the click handler's selection check) and
  the channel array of a series are functions with their own contracts. The
  properties are lemmas about those functions.

The model follows the code where a reader might expect otherwise:

- Tile-configuration lines come in submission order, not completion order.
- The extracted channel files are written flat into the output directory,
  not into a subfolder per ROI.
- The read and write thread pools of `RoiExtractor` are never used.

The form's stitched-image autofill looks for `<base>_*_stitch.png`, but the
stitcher writes `_stitch.tif` and `_stitched.png`. The model keeps the
pattern as written. `RoiExtractor.StitcherOutputsNotListedAsStitch` proves
that this autofill never picks up one of the stitcher's own results.

## Model

| member | source | states |
|---|---|---|
| ChannelPalette.FirstMatch | fiji_plugin/src/main/java/util/Channel.java:20-26 | the search returns null exactly when no entry's R, G, B equal the colour's; otherwise it returns the first entry that matches |
| ChannelPalette.PaletteTriplesDistinct | fiji_plugin/src/main/java/util/Channel.java:9-11 | the palette has seven entries and no two share an RGB triple |
| ChannelPalette.FirstMatchUnique | fiji_plugin/src/main/java/util/Channel.java:20-26 | in a table with distinct triples, the search returns an entry exactly when that entry is in the table and matches |
| ChannelPalette.GetChannelExact | fiji_plugin/src/main/java/util/Channel.java:20-26 | get_channel returns a palette entry exactly when that entry's RGB equals the colour's |
| ChannelPalette.BlackIsUnmapped | fiji_plugin/src/main/java/util/Channel.java:20-26 | black, with any alpha, has no channel (null) |
| ChannelPalette.FirstMatchIgnoresAlpha | fiji_plugin/src/main/java/util/Channel.java:22 | two colours with the same red, green and blue get the same answer, whatever their alpha |
| SeriesInfo.CollapseSpaces | fiji_plugin/src/main/java/util/Series.java:39 | the collapse of whitespace runs leaves no whitespace |
| SeriesInfo.CollapseMaximalRun | fiji_plugin/src/main/java/util/Series.java:39 | a maximal whitespace run between non-whitespace turns into exactly one '_' |
| SeriesInfo.CollapseRun | fiji_plugin/src/main/java/util/Series.java:39 | a string that opens with a maximal run collapses to '_' followed by the collapse of the rest |
| SeriesInfo.CollapseConcat | fiji_plugin/src/main/java/util/Series.java:39 | the collapse distributes over a split point that is not inside a whitespace run |
| SeriesInfo.CollapseNoSlash | fiji_plugin/src/main/java/util/Series.java:39 | the collapse introduces no '/' |
| SeriesInfo.CollapseNoSpace | fiji_plugin/src/main/java/util/Series.java:39 | a string without whitespace is left unchanged |
| SeriesInfo.SanitizeClean | fiji_plugin/src/main/java/util/Series.java:39 | a sanitised series name has no '/' and no whitespace |
| SeriesInfo.SanitizeIdempotent | fiji_plugin/src/main/java/util/Series.java:39 | sanitising a sanitised name changes nothing |
| SeriesInfo.MpTitle | fiji_plugin/src/main/java/util/Series.java:40 | the projection title starts with the series name and ends in ".tif" |
| SeriesInfo.HasAxisEitherCase | fiji_plugin/src/main/java/util/Series.java:51 | the upper-cased dimension order has X (Y) exactly when the original has X or x (Y or y) |
| SeriesInfo.SeriesPosition | fiji_plugin/src/main/java/util/Series.java:51-60 | each coordinate is location × 10^6 / physical size X when its axis letter is present and the size is non-null and non-zero; otherwise it is 0 |
| SeriesInfo.PositionUnavailable | fiji_plugin/src/main/java/util/Series.java:43-49 | when getPlanePosition throws, the series sits at (0, 0) |
| SeriesInfo.PhysicalSizeYUnused | fiji_plugin/src/main/java/util/Series.java:57-58 | Y is calibrated by the X physical size, so the reported Y size has no effect on the series |
| SeriesInfo.SeriesFields | fiji_plugin/src/main/java/util/Series.java:35-69 | the constructor gives the index, the file and the sanitised name; the title is name + "_mp_" + index + ".tif"; there is one channel per colour, null exactly for colours outside the palette, otherwise the matching palette entry |
| SeriesInfo.CopySeries | fiji_plugin/src/main/java/util/Series.java:31-33 | the copy constructor yields an equal series |
| ImageFiles.RemoveExtension | fiji_plugin/src/main/java/util/ImageFile.java:74-77 | the result is a prefix of the path; it strips exactly from the last '.' when that dot is not at position 0; the path is unchanged exactly when it has no dot after position 0 |
| ImageFiles.RemoveExtensionSplit | fiji_plugin/src/main/java/util/ImageFile.java:74-77 | when something is stripped, the path is the result, '.', and an extension without a dot |
| ImageFiles.SubfolderKeepsName | fiji_plugin/src/main/java/util/ImageFile.java:28-31 | moving into the subfolder keeps the file name and the base name; the new parent is the path minus its extension |
| ImageFiles.DotInDirectoryName | fiji_plugin/src/main/java/util/ImageFile.java:28 | the extension is stripped from the whole path: for any file name without a dot in a directory with a dot after its first character, the cut falls in the directory, and the file moves to <directory minus its extension>/<name> (e.g. "/data/run.2/scan" becomes "/data/run/scan") |
| ImageFiles.EmptyPathHasNoParent | fiji_plugin/src/main/java/util/ImageFile.java:28-30 | the empty path, with or without the subfolder move, has no parent directory |
| ImageFiles.Open | fiji_plugin/src/main/java/util/ImageFile.java:26-60 | the constructor's loop produces exactly OpenSpec: the three error guards, then one series per reported series |
| ImageFiles.OpenSpecShape | fiji_plugin/src/main/java/util/ImageFile.java:26-60 | each error arises exactly under its guard (no parent, working directory is a file, reader fails); an opened file is well formed, has the original's base name and one series per reported series, in order |
| ImageFiles.SeriesListShape | fiji_plugin/src/main/java/util/ImageFile.java:56-58 | series i has index i, belongs to the file, has a clean name and carries its title |
| ImageFiles.UniqueSeriesSpec | fiji_plugin/src/main/java/util/ImageFile.java:62-64 | unique_series has no duplicates, holds exactly the series names, and lists them in first-occurrence order |
| ImageFiles.ChannelsOf | fiji_plugin/src/main/java/util/ImageFile.java:66-72 | null exactly when no series has the name; otherwise the channels of the first series that has it |
| Text.DistinctSpec | fiji_plugin/src/main/java/util/ImageFile.java:63 | distinct() keeps every element exactly once, in first-occurrence order |
| Text.ReplaceSuffix | fiji_plugin/src/main/java/RoiExtractor.java:67 | String.replace on a string whose only occurrence is its suffix swaps just that suffix |
| TileConfig.RoundHalfUp | fiji_plugin/src/main/java/StitchTileScan.java:150 | rounding half up gives the integer n with n ≤ a + 0.5 < n + 1 |
| TileConfig.ParseNumeral | fiji_plugin/src/main/java/StitchTileScan.java:150 | a "%.6f" numeral reads back as exactly the signed number of millionths it was built from |
| TileConfig.Fixed6Accurate | fiji_plugin/src/main/java/StitchTileScan.java:150 | a value rendered with "%.6f" reads back within 0.0000005 of the value |
| TileConfig.NumeralFree | fiji_plugin/src/main/java/StitchTileScan.java:150 | a rendered numeral contains nothing but digits, '.' and '-' |
| TileConfig.SplitEntryText | fiji_plugin/src/main/java/StitchTileScan.java:150 | whatever the title holds, ';' included, a line cuts back into its title and its two numerals |
| TileConfig.EntryLineRoundTrip | fiji_plugin/src/main/java/StitchTileScan.java:150 | round trip: a tile line reads back as the same title and the coordinates to six decimals |
| TileConfig.ConfigText | fiji_plugin/src/main/java/StitchTileScan.java:146-151 | the file is the header "dim = 2" followed by one line per tile, in list order |
| TileConfig.ConfigTextRoundTrip | fiji_plugin/src/main/java/StitchTileScan.java:146-151 | every line after the header reads back as its tile's title and position |
| StitchTileScan.LoadFiles | fiji_plugin/src/main/java/StitchTileScan.java:58-68 | the loading loop yields LoadSpec: None (an uncaught NullPointerException) when a path has no parent, otherwise the files that open, in order |
| StitchTileScan.OpenedFilesSpec | fiji_plugin/src/main/java/StitchTileScan.java:58-68 | there are at most as many files as paths; every opened file is well formed and is what one of the paths opens to |
| StitchTileScan.CreateJobs | fiji_plugin/src/main/java/StitchTileScan.java:71-79 | the nested loop builds JobsOf: the files in order, then each file's groups in unique_series order |
| StitchTileScan.JobsOfSpec | fiji_plugin/src/main/java/StitchTileScan.java:73-79 | a job exists exactly for each opened file and each of its distinct series names |
| StitchTileScan.Members | fiji_plugin/src/main/java/StitchTileScan.java:132-133 | the filter keeps exactly the series with the job's name |
| StitchTileScan.MembersOrdered | fiji_plugin/src/main/java/StitchTileScan.java:132-133 | the filter keeps series order |
| StitchTileScan.JobHasTiles | fiji_plugin/src/main/java/StitchTileScan.java:113-133 | every job has at least one tile, in index order, and its channels are non-null |
| StitchTileScan.FirstFailure | fiji_plugin/src/main/java/StitchTileScan.java:147-148 | the position of the first failed projection, or the tile count when none fails |
| StitchTileScan.WriteTileConfig | fiji_plugin/src/main/java/StitchTileScan.java:144-152 | the writer gets the header and the lines of the tiles before the first failed get(); the loop fails exactly when some projection fails |
| StitchTileScan.ConfigTextSnoc | fiji_plugin/src/main/java/StitchTileScan.java:150 | one more tile appends its line at the end of the file |
| StitchTileScan.ConfigWrittenPrefix | fiji_plugin/src/main/java/StitchTileScan.java:147-151 | what is written is always a prefix of the complete file: the header plus one line per tile before the failure |
| StitchTileScan.ConfigComplete | fiji_plugin/src/main/java/StitchTileScan.java:146-151 | with no failure, every line after the header reads back as its tile's title and position |
| StitchTileScan.InvertOption | fiji_plugin/src/main/java/StitchTileScan.java:153-159 | the option is exactly "invert_x " if X is inverted followed by "invert_y " if Y is; so "invert_x" occurs exactly when X is inverted and "invert_y" exactly when Y is, and the result is empty or ends in a space |
| StitchTileScan.InvertKeys | fiji_plugin/src/main/java/StitchTileScan.java:153-159 | each of the four option strings holds exactly the keys of its flags |
| StitchTileScan.TrailingDigits | fiji_plugin/src/main/java/StitchTileScan.java:184 | the length of the maximal run of digits ending the name |
| StitchTileScan.UnknownRoiByDigitRun | fiji_plugin/src/main/java/StitchTileScan.java:184-186 | the trailing-digit test decides matches() of ".*file=unknown file \d+$" exactly, both directions |
| StitchTileScan.UnknownIndicesSpec | fiji_plugin/src/main/java/StitchTileScan.java:185-187 | the indices to remove are exactly the positions of the placeholder ROIs, strictly increasing |
| StitchTileScan.KeepKnown | fiji_plugin/src/main/java/StitchTileScan.java:185-191 | the ROIs left are exactly those that are not placeholders |
| StitchTileScan.DeleteUnknownIsFilter | fiji_plugin/src/main/java/StitchTileScan.java:188-190 | deleting the found positions removes exactly the placeholders and keeps the order of the rest |
| StitchTileScan.KeepKnownAll | fiji_plugin/src/main/java/StitchTileScan.java:188 | without placeholders nothing is removed |
| StitchTileScan.AllIndices | fiji_plugin/src/main/java/StitchTileScan.java:191 | "Select All" selects positions 0 .. n-1 |
| StitchTileScan.RoiManager.constructor | fiji_plugin/src/main/java/StitchTileScan.java:170 | the manager holds the stitcher's ROIs with nothing selected |
| StitchTileScan.RoiManager.SetSelectedIndexes | fiji_plugin/src/main/java/StitchTileScan.java:189 | the selection becomes the given positions; the ROIs are unchanged |
| StitchTileScan.RoiManager.Delete | fiji_plugin/src/main/java/StitchTileScan.java:190 | the selected ROIs go and the selection is cleared |
| StitchTileScan.RoiManager.SelectAll | fiji_plugin/src/main/java/StitchTileScan.java:191 | every ROI is selected |
| StitchTileScan.RoiManager.RemoveUnknownRois | fiji_plugin/src/main/java/StitchTileScan.java:183-192 | afterwards the manager holds exactly the non-placeholder ROIs, in order; all are selected when something was removed; otherwise the selection is unchanged |
| StitchTileScan.MpTitleNoSeparator | fiji_plugin/src/main/java/util/Series.java:40 | a title built from a clean name holds no '/' |
| StitchTileScan.ScratchLayout | fiji_plugin/src/main/java/StitchTileScan.java:116-139 | .max_projections sits beside the image file; the tile config and every projection are directly inside it |
| StitchTileScan.ScratchDirPlace | fiji_plugin/src/main/java/StitchTileScan.java:116 | the scratch directory's parent is the image file's, and its name is ".max_projections" |
| StitchTileScan.ConfigInScratch | fiji_plugin/src/main/java/StitchTileScan.java:117 | tileconfig_<group>.txt is directly inside the scratch directory |
| StitchTileScan.ProjectionInScratch | fiji_plugin/src/main/java/StitchTileScan.java:139 | each projection is saved directly inside the scratch directory |
| StitchTileScan.BaseNameNoSeparator | fiji_plugin/src/main/java/util/ImageFile.java:31 | the base name of an opened file holds no '/' |
| StitchTileScan.OutputLayout | fiji_plugin/src/main/java/StitchTileScan.java:195-205 | the ROI set, the TIFF and the PNG are beside the image file, and are neither the scratch directory nor inside it |
| StitchTileScan.CleanedUp | fiji_plugin/src/main/java/StitchTileScan.java:208-222 | a path remains exactly when it existed and is neither the directory nor one of its entries |
| StitchTileScan.Cleanup | fiji_plugin/src/main/java/StitchTileScan.java:208-222 | the delete loop and the final delete leave exactly CleanedUp |
| StitchTileScan.RunJob | fiji_plugin/src/main/java/StitchTileScan.java:121-229 | StitchingJob.run yields RunJobSpec: result, config lines handed to the writer, and the resulting filesystem for each exception path and for completion |
| StitchTileScan.RunJobResult | fiji_plugin/src/main/java/StitchTileScan.java:121-152 | the result depends only on the job and its environment: no config file, interruption, a failed projection, or completion |
| StitchTileScan.ScratchContents | fiji_plugin/src/main/java/StitchTileScan.java:128-139 | the config and every projection a task tries to save are directly inside the scratch directory |
| StitchTileScan.CompletedJobConfig | fiji_plugin/src/main/java/StitchTileScan.java:145-152 | a completed job wrote the whole configuration, and each tile line reads back as its tile |
| StitchTileScan.CompletedJobFiles | fiji_plugin/src/main/java/StitchTileScan.java:194-222 | after completion every result whose save did not fail exists, the scratch directory and the config are gone, and every path outside the scratch directory exists exactly when it did before or is a result whose save did not fail (a failed save is ignored, so the job still completes) |
| StitchTileScan.JobAddsInScratch | fiji_plugin/src/main/java/StitchTileScan.java:128-139 | all that a job adds before stitching (the scratch directory, the config and the projections whose save did not fail) is the scratch directory or inside it |
| StitchTileScan.OutputsOutsideScratch | fiji_plugin/src/main/java/StitchTileScan.java:195-205 | no result is the scratch directory or inside it |
| StitchTileScan.CleanupAfterJob | fiji_plugin/src/main/java/StitchTileScan.java:208-222 | removing the scratch directory keeps the results and every earlier path outside it |
| StitchTileScan.FailedJob | fiji_plugin/src/main/java/StitchTileScan.java:121-152 | a job that throws leaves its scratch directory and creates no result; the lines it handed to the writer are a prefix of the configuration (the writer is never closed, so whether they reach the file is not modelled) |
| StitchTileScan.FailedJobFiles | fiji_plugin/src/main/java/StitchTileScan.java:128-152 | a job that throws keeps its scratch directory and adds no result path |
| StitchTileScan.RunSelected | fiji_plugin/src/main/java/StitchTileScan.java:80-104 | a cancelled dialog does nothing; otherwise the loop yields RunFrom, which skips unticked jobs, goes on after other exceptions and stops after an interruption |
| StitchTileScan.RunSchedule | fiji_plugin/src/main/java/StitchTileScan.java:85-104 | a job runs exactly when it is ticked and no earlier ticked job was interrupted; it logs its own result; jobs run in list order |
| StitchTileScan.RunLogSound | fiji_plugin/src/main/java/StitchTileScan.java:85-104 | every logged job was ticked, logs its own result and ran after no interruption |
| StitchTileScan.RunLogComplete | fiji_plugin/src/main/java/StitchTileScan.java:85-104 | every ticked job with no interruption before it is logged |
| StitchTileScan.RunLogOrdered | fiji_plugin/src/main/java/StitchTileScan.java:85 | the log lists the jobs in strictly increasing positions |
| StitchTileScan.Run | fiji_plugin/src/main/java/StitchTileScan.java:55-105 | the command does nothing when loading dies or the dialog is cancelled; otherwise it runs the ticked jobs of JobsOf(loaded files) |
| StitchTileScan.LoadedJobs | fiji_plugin/src/main/java/StitchTileScan.java:58-79 | every job built is for a well-formed file and a group name without '/' |
| RoiExtractor.DigitRun | fiji_plugin/src/main/java/RoiExtractor.java:124 | the greedy \d+ run: all digits, followed by a non-digit or the end |
| RoiExtractor.MatchAtBacktracking | fiji_plugin/src/main/java/RoiExtractor.java:124 | a digit run followed by ".tif" is a match exactly when it is the greedy run, so backtracking never finds another match |
| RoiExtractor.FindFrom | fiji_plugin/src/main/java/RoiExtractor.java:133 | find() returns the first matching position from i on, or none when no position matches |
| RoiExtractor.SeriesIndexOfSpec | fiji_plugin/src/main/java/RoiExtractor.java:124-134 | no index exactly when the label has no match; otherwise the index is the value of the digits of the first match |
| RoiExtractor.SeriesIndexOfMpTitle | fiji_plugin/src/main/java/RoiExtractor.java:124-134 | round trip with mp_title: for a name without "_mp_", the index read back from the title is the one it was built with |
| RoiExtractor.OnClick | fiji_plugin/src/main/java/RoiExtractor.java:127-135 | the click is ignored exactly when getSelectedRoisAsArray returns other than one ROI; it throws exactly when that call returns null; it submits exactly when the one label holds an index; the task has that index and ROI number = position + 1 |
| RoiExtractor.ClickOnTile | fiji_plugin/src/main/java/RoiExtractor.java:128-135 | clicking a ROI labelled with a tile's title submits that tile's series index |
| RoiExtractor.ChannelPathInjective | fiji_plugin/src/main/java/RoiExtractor.java:146 | different channels of one ROI get different file paths |
| RoiExtractor.ChannelPathsDistinct | fiji_plugin/src/main/java/RoiExtractor.java:138-146 | a channel file path determines both the ROI number and the channel |
| RoiExtractor.ChannelPathPlace | fiji_plugin/src/main/java/RoiExtractor.java:138-146 | channel files are directly in the output directory, named <base_name>_zstack_<roi>_channel_<c>.tif |
| RoiExtractor.WriteChannels | fiji_plugin/src/main/java/RoiExtractor.java:145-150 | the channel loop adds exactly the files of the channels that were not refused, and logs one error per refused channel, in order |
| RoiExtractor.NotYetWritten | fiji_plugin/src/main/java/RoiExtractor.java:146-147 | channel c's file is not among those that earlier channels wrote |
| RoiExtractor.WriteChannelsOutcome | fiji_plugin/src/main/java/RoiExtractor.java:145-150 | no overwriting: new files were absent before; each channel gets its file exactly when it is not refused, and an error line exactly when it is; there are at most count errors |
| RoiExtractor.SaveErrorsNames | fiji_plugin/src/main/java/RoiExtractor.java:147-148 | the error lines name exactly the refused channels, and nothing else |
| RoiExtractor.ErrorLines | fiji_plugin/src/main/java/RoiExtractor.java:148 | one error log line per message, in order |
| RoiExtractor.Extract | fiji_plugin/src/main/java/RoiExtractor.java:137-155 | the submitted task yields ExtractSpec: the caught exception when the series index is out of range or the stack cannot be opened; otherwise the channel files, their errors and "Done writing ROI <n>" |
| RoiExtractor.ExtractOutcome | fiji_plugin/src/main/java/RoiExtractor.java:137-155 | nothing is removed; a failure adds nothing and logs one exception; a success ends with the report, and each new file is one of this ROI's channel files in the output directory |
| RoiExtractor.LifScanSpec | fiji_plugin/src/main/java/RoiExtractor.java:58-64 | from an underscore on, the scan yields the first underscore whose <prefix>.lif is a file, or nothing when there is none |
| RoiExtractor.LifCandidateSpec | fiji_plugin/src/main/java/RoiExtractor.java:58-64 | no scan when the first underscore is at 0 or missing; otherwise the candidate of the first underscore whose .lif file exists, and none exactly when no underscore has one |
| RoiExtractor.LifFromStitchedName | fiji_plugin/src/main/java/RoiExtractor.java:54-64 | a stitched path <x>_<rest> finds <x>.lif when that file exists |
| RoiExtractor.RoiSetForStitcherOutput | fiji_plugin/src/main/java/RoiExtractor.java:65-68 | the stitcher's TIFF leads to the stitcher's ROI set |
| RoiExtractor.StitcherOutputName | fiji_plugin/src/main/java/StitchTileScan.java:195 | a stitcher result is in the image file's directory and is named <base_name>_<group><suffix> |
| RoiExtractor.NameMatchesParts | fiji_plugin/src/main/java/RoiExtractor.java:78 | <base>_<mid><suffix> matches the listing pattern |
| RoiExtractor.StitcherRoiSetListed | fiji_plugin/src/main/java/RoiExtractor.java:78-79 | the ROI set the stitcher saved is among the matches of the original file's listing |
| RoiExtractor.StitcherOutputsNotListedAsStitch | fiji_plugin/src/main/java/RoiExtractor.java:81-82 | no result of the stitcher matches the "_stitch.png" listing |
| RoiExtractor.NotListedAsStitch | fiji_plugin/src/main/java/RoiExtractor.java:81 | each of the three result names fails the "_stitch.png" pattern |
| RoiExtractor.NotStitchPng | fiji_plugin/src/main/java/RoiExtractor.java:81 | a name ending in a result suffix does not end in "_stitch.png" |
| RoiExtractor.Form.constructor | fiji_plugin/src/main/java/RoiExtractor.java:43-50 | the fields are not persisted, so the form opens with all four empty |
| RoiExtractor.Form.StitchedFileChanged | fiji_plugin/src/main/java/RoiExtractor.java:52-72 | nothing changes without a stitched file; otherwise the original file becomes the first .lif candidate if any, the ROI file becomes the replaced path if it is a file, and the output directory becomes <parent>/zstacks |
| RoiExtractor.Form.OriginalFileChanged | fiji_plugin/src/main/java/RoiExtractor.java:74-88 | nothing happens without an original file; no field changes when it has no parent or its parent is not a directory; otherwise each of the ROI file and the stitched file is filled exactly when there is one match, and the output directory is set |
| RoiExtractor.Form.Fill | fiji_plugin/src/main/java/RoiExtractor.java:78-84 | each field takes its unique match or keeps its value; the output directory is <dir>/zstacks |
| RoiExtractor.OriginalOutcome | fiji_plugin/src/main/java/RoiExtractor.java:76-88 | NullPointerException exactly when there is no parent; IllegalArgumentException exactly when the parent is not a directory |
| RoiExtractor.FillIfUnique | fiji_plugin/src/main/java/RoiExtractor.java:79 | the field takes the match when there is exactly one, and keeps its value otherwise |

## Left out

- Bio-Formats reading, `ZStack`, `MaxProjection` and `ChannelSplitter` are outside the model. The reader's metadata is passed in (`SeriesMeta`). The channel count of an opened z-stack is passed in as `stack`. Failing projections are a set of tile positions.
- Moving the image file into its subfolder (`renameTo`, including the `.lifext` companion) and `mkdirs` of the working directory are left out. Only the resulting path is modelled.
- The GUI is left out: `GenericDialog`, the dialog messages, mouse events other than clicks, `IJ.run` calls to the stitcher, the lookup tables and contrast, the PNG conversion, and window closing. The dialog's answers are an input. When there are fewer answers than jobs, the missing ones count as unticked.
- The stitcher's option string beyond `invert_xy` is left out, because it is a constant text for `IJ.run`.
- Threads are left out: the two-thread executor, `invokeAll`, and the unused read and write pools. Projections are modelled as finished by the time their futures are read. An interruption is modelled as happening before any projection is saved.
- Log output other than `RoiExtractor`'s per-ROI error and "Done writing ROI" lines is left out: debug lines, stack traces, and the "Queued extraction" line.
- `UnsupportedEncodingException` cannot occur, because "UTF-8" is always supported, so it is left out. A `FileNotFoundException` for the config file is the `configCreatable` flag.
- Floating point is modelled with reals. `%.6f` is modelled as half-up rounding on the exact value, with '.' as the decimal separator (the locale is not modelled).
- `Integer.parseInt` overflow is left out: the series index is an unbounded natural number.
- `RoiExtractor.run` setup is left out: creating the output directory, opening the stitched image and the ROI set, and opening the image file. Its behaviour depends only on ImageJ and the file opening already modelled in `ImageFiles.Open`.
- `RoiExtractor.OnClick`: `getRoiIndex` of a selected ROI is its position in the manager. A ROI missing from the manager (index -1) is not modelled.
- `RoiExtractor.NameMatches`: the base name is read literally. Regular-expression metacharacters in it, and the resulting `PatternSyntaxException`, are not modelled.
- `RoiExtractor.WriteChannels`: the `String.format` of an error message whose path holds '%' is not modelled. A failed `saveAsTiff` is taken to leave no file.
- `RoiExtractor.LogLine`: the text of a caught exception (`e.toString()`) is not modelled.
- `StitchTileScan.Cleanup`: failed deletes are not modelled. Every entry and the directory itself are removed.
- `getAbsolutePath` of the scratch directory is taken to be the path as built.
- `Paths.Join` builds `dir + "/" + name` without the normalisation that `new File(...)` applies. The paths the command receives are taken as `java.io.File` hands them over, with no doubled or trailing separator. The rule: every path built on a directory that already ends in '/' keeps a doubled separator, and so does every path built from such a path. Three cases follow. For an image file whose name starts with its only dot, such as `/data/.lif`, the subfolder path is `/data//.lif` with parent `/data/`, where Java has `/data/.lif` with parent `/data`. For an image file directly in `/`, the scratch directory is `//.max_projections`, where Java has `/.max_projections`. For a stitched or original file directly in `/`, `Form.StitchedFileChanged` and `Form.Fill` propose the output directory `//zstacks`, where Java has `/zstacks`, and every channel path built on it keeps the `//`.
- `SeriesInfo.MakeSeries`: a null image name or a null channel colour is not modelled (`SeriesMeta` holds a string and colours). In the source, either one throws a NullPointerException (`replaceAll` on a null name, `getRed()` on a null colour). The loading loop does not catch it, so it would end the whole command.
- `ImageFile.remove_extension` is private in the source but is called from `RoiExtractor`. It is modelled once, as `ImageFiles.RemoveExtension`.
