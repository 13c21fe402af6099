# Batch photo resize-and-rename script, modelled in Dafny

The script walks a source directory tree. For every JPEG or PNG file it finds, it
reads the EXIF tags and runs at most one `convert -resize <geometry> <source> <dest>`
call. Three decisions shape that call:

- **Resize planner.** With resizing on, a file missing either size tag is
  skipped. An image that exceeds 2126x1535 in either orientation is scaled so
  its longer side (width when width > height, height otherwise) becomes 2126,
  and the other side is truncated. Every other image keeps its size (`100%`).
- **Name planner.** The destination name is one of:
  - the source name;
  - the `--name-mask` string;
  - the capture time `YYYY:MM:DD HH:MM:SS` rewritten as
    `YYYY-MM-DD HH.MM.SS`, then `.jpg`.

  Timestamp names are made unique within the run by the `counts` dictionary.
  The n-th file with the same capture time gets `-n` before `.jpg`; the first
  gets no suffix.
- **Per-file order.** The steps run in this order:
  1. extension filter;
  2. resize-tag check;
  3. geometry;
  4. name;
  5. converter call.

  Any skip comes before the call. In timestamp mode, a skip also leaves
  `counts` alone.

Files:

- `wrappers.dfy`: `Option`.
- `decimal.dfy`: `str(int)` as `Show` and its inverse `Value`.
- `exif.dfy`: the tags the script reads.
- `resize.dfy`: the resize planner, including the loop over `RESIZE_TAGS_NEEDED`.
- `walker.dfy`: the extension filter.
- `timestamp.dfy`: the `strptime`/`strftime` round through the capture time.
- `naming.dfy`: the name planner and the duplicate counter.
- `batch.dfy`:
  - the loop body as a function `Step`;
  - the run over the files in walk order as `RunWith`/`RunSpec`;
  - the script's mutable state as the class `BatchRun`. Its field `counts` is
    the dictionary, which `NextName` updates in place. Its field `calls` holds
    the converter calls made so far. `PlanFileName`, `ProcessFile` and `Run`
    are proved equal to `Naming.PlanName`, `Step` and `RunSpec`, and
    `Resize.PlanResize` to `Resize.Plan`.

Four points about the code shape the model:

- **Truncation** (process.py:65, 68). `int()` truncates, so a 4000x3000 image
  gives `2126x1594`.
- **Empty mask** (process.py:72). `if args.name_mask:` treats an empty mask as
  false. An empty `--name-mask` therefore falls through to the timestamp path,
  the same as no mask.
- **Unparsable capture time** (process.py:82). `strptime` raises on a capture
  time that is neither `0000…` nor parsable. Nothing catches that error, so it
  ends the whole run. The model has a `Crashed` outcome after which no further
  file is looked at.
- **Sentinel test** (process.py:79). The sentinel check is the string test
  `startswith('0000')`. It is not a test of a parsed year.

## Model

| member | source | states |
|---|---|---|
| Decimal.Show | process.py:87 | `str(n)`: a non-empty digit string without a leading zero, and "0" exactly for 0 |
| Decimal.ValueOfShow | process.py:87 | reading the numeral back gives the number: the suffix a name carries is the count |
| Decimal.ShowInjective | process.py:87 | different counts give different suffixes |
| Resize.CheckResizeTags | process.py:51-56 | the loop over the needed tags reports exactly the missing ones, in order, and stops the file exactly when one is missing |
| Resize.MissingResizeTags | process.py:14 | the missing list is width-tag-if-absent followed by length-tag-if-absent |
| Resize.Target | process.py:63-68 | landscape: width is 2126 and height is the truncation of h*2126/w (within one pixel below the exact value); otherwise height is 2126 and width is truncated the same way; neither side grows; orientation and squareness are kept |
| Resize.Plan | process.py:49-68 | resize off gives "100%" whatever the tags; resize on skips exactly when a size tag is missing, with the missing list; otherwise it scales exactly when the trigger rule holds, and then to `Target` |
| Resize.PlanResize | process.py:49-68 | the script's resize steps, with the tag loop and early `continue`, give exactly `Resize.Plan` |
| Resize.DisabledIgnoresTags | process.py:49-50 | with resize off, any two tag sets give the same decision, "100%" |
| Resize.ParseRender | process.py:65-68 | the `'{}x{}'` geometry string (or "100%") determines the planned geometry: parsing it back gives the plan |
| Resize.LandscapeExample | process.py:61-65 | 4000x3000 triggers and becomes "2126x1594" |
| Resize.SmallExample | process.py:61-62 | 1600x1200 does not trigger and stays "100%" |
| Walker.ExtensionAcceptedChars | process.py:40 | a suffix passes exactly when it has 4 or 5 characters and those after the first spell jpg, jpeg or png in any case |
| Walker.ExtensionExamples | process.py:40 | ".JPG", ".Jpeg" and ".png" pass; ".gif" and "" do not |
| Timestamp.Reformat | process.py:82-83 | the name form keeps every digit of the capture time, and the separators become '-' in the date and '.' in the time |
| Timestamp.RestoreReformat | process.py:82-83 | the rewrite loses nothing: the capture time is recovered from the name form |
| Timestamp.ReformatInjective | process.py:82-83 | different capture times give different base names |
| Timestamp.ReformatExample | process.py:82-83 | "2024:01:01 10:00:00" parses, and becomes "2024-01-01 10.00.00" |
| Timestamp.ZeroYearNotValid | process.py:79-82 | a fixed-width value starting with "0000" is never a parsable date, so the sentinel test only catches values the parser would reject |
| Naming.Next | process.py:85-90 | the base's count goes up by one (to 1 on first use) and no other count changes; the first use gets no suffix, later uses get `-count` |
| Naming.UseOfNameFor | process.py:85-90 | a generated name splits back into its base and its use number |
| Naming.NameForInjective | process.py:85-90 | two generated names are equal only for the same base and the same use number |
| Naming.NextFresh | process.py:85-90 | the next use of a base hands out a name whose use number lies above the old count and within the new one; the counter only grows and stays well formed |
| Naming.DuplicateExample | process.py:85-90 | the second file with one capture time gets "-2.jpg", the first none |
| Naming.PlanName | process.py:70-90 | rename off keeps the source name and a non-empty mask is used verbatim, both with counts unchanged; in timestamp mode it reports a missing date iff absent, a meaningless date iff it starts with "0000", a crash iff otherwise unparsable, and else the counted name of the rewritten timestamp |
| Naming.SentinelRejected | process.py:79-81 | "0000:01:01 00:00:00" is always rejected as meaningless, never used as a name |
| Batch.Step | process.py:40-93 | a rejected suffix is skipped, then missing size tags, then a missing or meaningless date, each with counts unchanged, and an unparsable date crashes; otherwise the file is converted with the geometry of `Resize.Plan` and the name and counter of `Naming.PlanName` (the source name with rename off); counts change only for a converted file in timestamp mode, and the call reads the file's path and writes to `dest_dir + '/' + name` |
| Exif.Has | process.py:52 | the `t in tags` presence test: a size or date tag is present exactly when its value is |
| Walker.ExtensionAccepted | process.py:40 | the test `suffix.lower()[1:] in ['jpg', 'jpeg', 'png']`, lower-casing ASCII letters |
| Resize.Triggered | process.py:61-62 | the trigger rule: width above 2126 and height above 1535, or width above 1535 and height above 2126 |
| Resize.Render | process.py:65 | the geometry string: "100%", or the two sides in decimal around an 'x' as `'{}x{}'.format` writes them |
| Timestamp.ZeroYear | process.py:79 | `str(exifdate).startswith('0000')` |
| Timestamp.Valid | process.py:82 | the values `strptime` accepts with '%Y:%m:%d %H:%M:%S': fixed width, year from 1, a real month and a day of that month, hour up to 23, minutes and seconds up to 59 |
| Naming.MaskActive | process.py:72 | Python truthiness of `args.name_mask`: present and non-empty |
| Batch.Command | process.py:93 | the converter's argument vector: convert, -resize, the geometry, the source, the destination |
| Batch.DestPath | process.py:93 | the destination `args.dest_dir + '/' + new_name` |
| Batch.RunWith | process.py:34-93 | at most one outcome per file, at least one when there are files, and a run that gives fewer outcomes than files ends with a crash |
| Batch.RunCrashEnds | process.py:82 | an uncaught parse error ends the run: a crash can only be the last outcome |
| Batch.RunSpec | process.py:34-93 | the run of the script's own loop body over the files from a given counter |
| Batch.StepExample | process.py:40-93 | a 4000x3000 ".JPG" file with resize on and rename off is converted to 2126x1594 under its own name, with the counter unchanged |
| Batch.ResizeCheckComesFirst | process.py:50-56 | with resize on, a file missing a size tag is skipped with the missing list before any naming, and counts are unchanged |
| Batch.NoResizeIgnoresSizeTags | process.py:49-50 | with resize off, changing the size tags changes nothing about a file's fate, and its geometry is "100%" |
| Batch.MaskNamesEveryFile | process.py:72-73 | with a non-empty mask, a converted file is named by the mask, counts never change, and no date check can skip or crash the file |
| Batch.StepTimestampName | process.py:75-90 | in timestamp mode a converted file had a parsable capture time, and only its base's count went up by one, with the name carrying it |
| Batch.StepWellFormed | process.py:85-89 | one file keeps the counter well formed |
| Batch.StepFresh | process.py:85-90 | one file only grows the counter; in timestamp mode a converted file's name is fresh for that step |
| Batch.ScriptIssuesFresh | process.py:85-90 | the script's loop body hands out only fresh names in timestamp mode |
| Batch.ScriptKeepsWellFormed | process.py:85-89 | the script's loop body keeps the counter well formed |
| Batch.ScriptWritesByName | process.py:93 | each call of the script's loop body writes to the path of its planned name |
| Batch.RunAdvance | process.py:34-93 | the run over the files is the outcome of the next file followed by the run of the rest, and a crash ends it |
| Batch.RunShape | process.py:93 | over a run the counter stays well formed, and the destination paths are those of the names, in order |
| Batch.RunNamesFresh | process.py:85-90 | over a run of fresh-naming steps, the names are pairwise distinct, the counter only grows, and every name is fresh for the whole run |
| Batch.PathsDistinct | process.py:93 | distinct names give distinct destination paths |
| Batch.RunDestinationsDistinct | process.py:24-93 | in timestamp mode, starting from the empty counter, no two converted files of a run get the same name or destination path |
| Batch.BatchRun.constructor | process.py:24 | the run starts with an empty counter and no calls |
| Batch.BatchRun.NextName | process.py:85-90 | the in-place update of `counts` gives exactly `Naming.Next`, and keeps the counter well formed for a timestamp-width base |
| Batch.BatchRun.PlanFileName | process.py:70-90 | the script's naming steps give exactly `Naming.PlanName` from the counter before them; the counter takes the planned value only when a name is produced, and stays well formed |
| Batch.BatchRun.ProcessFile | process.py:40-93 | the loop body with its early `continue`s gives exactly `Step`'s outcome and counter, keeps the counter well formed, and records a call exactly for a converted file |
| Batch.BatchRun.Run | process.py:34-93 | the loop over the files gives exactly `RunSpec`, keeps the counter well formed, records the calls in order, and in timestamp mode gives pairwise distinct names |

## Left out

- Argument parsing (process.py:16-22) is left out. The flags arrive as a `Config` value.
- The directory walk (process.py:26-42) is left out: the queue of directories, `iterdir` order, and the `is_dir`/`is_file` tests. The files arrive as a sequence in walk order. Two consequences:
  - The `format=` keyword on the not-a-directory message (process.py:31) would raise `TypeError`; that is not modelled.
  - Entries that are neither directories nor regular files are not modelled either. The code falls through to `open` for them.
- Path handling: `pathlib`'s extraction of `suffix` and `name` is not modelled. Both arrive as strings in a `FileRecord`.
- Walker.ExtensionAccepted: `lower()` is modelled for ASCII letters only. Python also lower-cases other Unicode letters.
- EXIF reading (process.py:44-45, 58-59) is left out. The tag library is foreign code, so `int(str(tag))` of the size tags arrives as a natural number and the capture time as its string value.
- Resize.Target: the exact floor of `h*2126/w` stands for the script's double-precision `int(h * (2126/w))`. Floating-point rounding, which can differ by one when the exact value is an integer, is not modelled.
- Resize.Target: the aspect-ratio statement as a two-decimal rounding equality is not stated. The model proves the one-pixel truncation bounds it rests on.
- Timestamp.Valid: only fixed-width `YYYY:MM:DD HH:MM:SS` values with ASCII digits parse in the model. `strptime` also accepts unpadded fields, extra whitespace, and non-ASCII decimal digits (its `\d` matches any Unicode decimal digit); the model treats every such value as a crash.
- Timestamp.Reformat: years below 1000 are written zero-padded to four digits. Some platforms' `strftime` writes them unpadded.
- Logging to standard output and standard error is left out. The skip reasons stand for the messages.
- Running the converter (process.py:93) is left out. It is an external process whose exit status the script ignores; each call is recorded as a `Conversion`.
- Destination names are distinct only in timestamp mode. Mask mode writes every converted file to the same path, and rename-off mode reuses source names, which may repeat across directories. The model states the timestamp case (`Batch.RunDestinationsDistinct`) and the mask case (`Batch.MaskNamesEveryFile`).
