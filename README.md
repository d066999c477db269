# CBZXL in Dafny

CBZXL converts the images inside comic-book archives (`.cbz`, i.e. zip files) to
lossless JPEG XL. It keeps a SQLite table, `converted_archives`, of the archives
it has already handled. For each new archive, `cbzxl.py` does the following:

- it extracts the archive and deletes any `*.converted` leftovers;
- it asks `file` for each candidate image's MIME type;
- it corrects a wrong file extension;
- it runs a colour fix first: an ICC strip for PNG, and a CMYK-to-sRGB conversion for a CMYK JPEG;
- it encodes with `cjxl` and, when that succeeds, deletes the original;
- it adds up the bytes saved over a pool of worker threads;
- it repacks the archive only when the total is positive, and marks the archive processed in every case.

`visualise.py` reads the table back and prints totals and a per-status
breakdown. `migrate-db.py` adds a `dominant_type` column to an existing table.

The model has these modules:

- `Text` (`text.dfy`): ASCII lower-casing and suffix tests on strings.
- `PathNames` (`paths.dfy`): the `pathlib` rules for `suffix`, `stem` and
  `with_suffix` that the extension correction and the `.jxl` target depend on.
- `Images` (`cbzxl_images.dfy`): the per-image rules of `cbzxl.py`, as pure
  functions over an extracted directory (`Tree`, a map from path to size) and
  the answers of the external tools (`ToolAnswers`).
- `Schedule` (`cbzxl_schedule.dfy`): `convert_images` as a fold of the
  per-image step along a completion order. It proves that the total is the same
  for every order when no two candidates share a stem. When two do share one,
  a concrete example shows that the total differs between orders.
- `Cbzxl` (`cbzxl_run.dfy`): the stateful side of the program. `WorkingTree` is
  the extraction directory, which the methods of `convert_single_image`,
  `convert_images` and the leftover cleanup change in place. `Library` is the
  archives on disk together with the processed-path store, which `process_cbz`
  and `main` update. Each method is proved against the functions of `Images`
  and `Schedule`.
- `Visualise` (`visualise.dfy`): the query's column check and the row loop of `analyze_conversion_data`,
  proved against prefix-sum and prefix-count functions.
- `MigrateDb` (`migrate_db.dfy`): `migrate_database` on a `Database` class
  holding the table's column list.

The external tools (`file`, `identify`, `magick`, `cjxl`) become inputs. Each
candidate path is given a MIME string, a colorspace string, and an encoder run
(an exit code, plus the size of the `.jxl` file if one exists afterwards).
`Library.Run` takes one such answer map per archive. The database becomes a
`set<string>` of processed paths in `cbzxl.py`, a column list and the query's
rows in `visualise.py`, and a column list in `migrate-db.py`.

The worker pool becomes a loop over an arbitrary remaining candidate, chosen
with `:|`. Each image is converted once, in whatever order the pool completes
the work. A ghost out-parameter records that order.

Points of this revision of the code that the model follows:

- `cbzxl.py` has no failed-archive store, dry run, flattening, effort retry or
  empty-archive deletion;
- the table `cbzxl.py` creates has only a `path` column, so the query of
  `visualise.py`, which selects six columns, fails on it (also after
  `migrate-db.py` has added `dominant_type`);
- an archive is repacked only when the total saving is positive;
- `main` counts every nonzero result as converted, negative ones included,
  although an archive with a negative total is not repacked.

## Model

| member | source | states |
|---|---|---|
| PathNames.LastIndexOf | cbzxl.py:58 | the index of the last occurrence of a character, or -1; nothing after it matches |
| PathNames.Suffix | cbzxl.py:58 | `Path.suffix`: empty, or a dot-led extension with no further dot that ends the name and is shorter than it |
| Text.Lower | cbzxl.py:58 | same length as the input (with `Text.LowerFolds`: no ASCII capital is left) |
| Text.LowerFolds | cbzxl.py:58 | lower-casing leaves no ASCII capital, keeps every other character and is idempotent |
| PathNames.Stem | cbzxl.py:59 | stem followed by suffix rebuilds the name; a nonempty name has a nonempty stem |
| PathNames.WithSuffix | cbzxl.py:59 | a nonempty name that starts with the old stem |
| PathNames.SuffixOfWithSuffix | cbzxl.py:59 | after `with_suffix(ext)` the suffix is exactly `ext` and the stem is unchanged |
| PathNames.StemKeyWithSuffix | cbzxl.py:72 | `with_suffix` keeps the directory and the stem |
| Images.ExtensionFor | cbzxl.py:51-57 | defined exactly for the four MIME types; each mapped extension is a lower-case extension |
| Images.CorrectedPath | cbzxl.py:50-63 | the path is unchanged unless the type is mapped and the lower-cased suffix differs; then only the suffix is replaced by the mapped one |
| Images.CorrectedPathIdempotent | cbzxl.py:58-63 | correcting a corrected path changes nothing |
| Images.JpegBecomesJpg | cbzxl.py:58-59 | `p01.jpeg` of type JPEG becomes `p01.jpg` |
| Images.UpperCaseJpgKept | cbzxl.py:58 | `p01.JPG` of type JPEG is kept as it is |
| Images.MislabelledPngRenamed | cbzxl.py:53-60 | `p01.jpg` of type PNG becomes `p01.png` |
| Images.Preprocessing | cbzxl.py:75-79 | the ICC strip runs iff the image is a PNG, the sRGB conversion iff it is a JPEG whose colorspace is exactly `CMYK`, and nothing runs for other types |
| Images.ImageSavings | cbzxl.py:68-91 | 0 for a type other than JPEG/PNG or a failed encoder run; otherwise the saving plus the `.jxl` size is the original size |
| Images.SavingsSign | cbzxl.py:85-88 | the saving is negative iff the encoder succeeded and its output is larger than the original; it never exceeds the original size |
| Images.Rename | cbzxl.py:60 | the target holds the source's size; the source is gone when it differs from the target; every other file is untouched |
| Images.JxlPath | cbzxl.py:72 | the encoder's target keeps the image's directory and stem, with suffix `.jxl` |
| Images.AfterEncoder | cbzxl.py:81-85 | the `.jxl` exists with the reported size or is absent; no other file changes |
| Images.AfterConversion | cbzxl.py:85-91 | only the image and its `.jxl` can change |
| Images.ConvertStep | cbzxl.py:65-91 | `convert_single_image` as a function; its meaning is stated by `ConvertStepSavings`, `ConvertStepFiles` and `ConvertStepFrame` |
| Images.ConvertStepSavings | cbzxl.py:65-91 | an image's contribution is `ImageSavings` of its size; an absent file or a type other than JPEG/PNG contributes 0, changes nothing and gets no colour fix |
| Images.CorrectedIsNotJxl | cbzxl.py:71-72 | a corrected candidate never has the suffix `.jxl`, so the target never overwrites the source |
| Images.ConvertStepFiles | cbzxl.py:71-91 | the source, under its corrected name, is kept iff the encoder failed, and then with its size; the old name is gone after a rename; the `.jxl` holds the encoder's output |
| Images.AfterConversionFiles | cbzxl.py:81-91 | after encoding, the image is kept iff the encoder failed, then unchanged; a reported output is the `.jxl` with that size |
| Images.ConvertStepFrame | cbzxl.py:65-91 | a step changes no file whose directory and stem differ from the image's |
| Images.IsCandidateName | cbzxl.py:95 | the name ends in one of the five glob suffixes; `CandidateIsNotJxl` and `Candidates` state what follows |
| Images.Candidates | cbzxl.py:95 | exactly the files ending in `.jpg`, `.jpeg`, `.png`, `.webp` or `.avif` |
| Images.WithoutLeftovers | cbzxl.py:118-119 | exactly the files not ending in `.converted` remain, with their sizes |
| Schedule.Fold | cbzxl.py:97-100 | the images converted one after another along a completion order; its meaning is stated by `FoldIsIndependent` and `CompletionOrderIrrelevant` |
| Schedule.FoldIsIndependent | cbzxl.py:97-100 | when stems are pairwise distinct, the folded total is the sum of each image's step on the original directory, and files of other stems are untouched |
| Schedule.IndependentTotalPermutation | cbzxl.py:99-100 | that sum is the same for any permutation of the candidates |
| Schedule.SchedulesArePermutations | cbzxl.py:98-99 | two orders that each visit every candidate once are permutations of each other |
| Schedule.CompletionOrderIrrelevant | cbzxl.py:93-102 | when candidate stems are distinct, every completion order gives the same total, namely the sum of per-image savings |
| Schedule.CollidingJpegRenamed | cbzxl.py:58-60 | in the collision example, `p.jpeg` is renamed onto `p.jpg` |
| Schedule.CollidingJpgKept | cbzxl.py:58-72 | `p.jpg` keeps its name and encodes to `p.jxl` |
| Schedule.CollidingCandidates | cbzxl.py:95 | both files are candidates |
| Schedule.CollidingSchedules | cbzxl.py:98-99 | both orders are valid completion orders |
| Schedule.JpegFirst | cbzxl.py:93-102 | converting `p.jpeg` first saves 90 bytes and leaves only `p.jxl` |
| Schedule.JpgFirst | cbzxl.py:93-102 | converting `p.jpg` first saves 130 bytes and leaves only `p.jxl` |
| Schedule.StemCollisionMakesOrderMatter | cbzxl.py:93-102 | with two candidates of one stem, two valid orders give different totals, and either way one image is lost |
| Cbzxl.WorkingTree.constructor | cbzxl.py:114-115 | the directory holds the archive's contents |
| Cbzxl.WorkingTree.RemoveLeftovers | cbzxl.py:118-119 | the directory becomes `WithoutLeftovers` of itself |
| Cbzxl.WorkingTree.CorrectExtension | cbzxl.py:50-63 | returns `CorrectedPath` and renames the file to it |
| Cbzxl.WorkingTree.ColourFix | cbzxl.py:75-79 | the colour fix chosen is `Preprocessing` of the type and colorspace |
| Cbzxl.WorkingTree.RunEncoder | cbzxl.py:81-83 | the directory afterwards is `AfterEncoder`: the `.jxl` with the reported size, or none |
| Cbzxl.WorkingTree.ConvertSingleImage | cbzxl.py:65-91 | directory, saving and colour fix are those of `ConvertStep` |
| Cbzxl.WorkingTree.ConvertImages | cbzxl.py:93-102 | visits every candidate exactly once in some order; the directory and total are the fold along that order; the flag is `total > 0`; with distinct stems the total is the order-free sum |
| Cbzxl.CountIn | cbzxl.py:158-162 | how many of the first `n` paths are already in the store; at most `n` |
| Cbzxl.CountInAll | cbzxl.py:158-162 | when every path is in the store, all `n` of the first `n` paths are counted |
| Cbzxl.Pending | cbzxl.py:158-166 | the paths among the first `n` not in the store, in order; with `CountIn` they number `n` |
| Cbzxl.PendingEntries | cbzxl.py:158-166 | every pending path is among the first `n` and not in the store, and every such path is pending |
| Cbzxl.PendingDistinct | cbzxl.py:158-166 | distinct paths give distinct pending paths |
| Cbzxl.ExtractAndConvert | cbzxl.py:113-121 | the images of the directory without leftovers are converted along a completion order of its candidates; the saving and the directory are the fold along it; the flag is `saving > 0` |
| Cbzxl.Library.constructor | cbzxl.py:24-32 | the store and the archives are as given |
| Cbzxl.Library.IsProcessed | cbzxl.py:34-35 | the path has a row in the table; `MarkProcessed` makes it hold |
| Cbzxl.Library.MarkProcessed | cbzxl.py:37-39 | inserts the path; a path already present leaves the store as it was; the path is processed afterwards |
| Cbzxl.Library.ProcessCbz | cbzxl.py:104-136 | an archive already processed gives 0 and nothing changes. Otherwise the result is the fold total over the cleaned directory along a completion order of its candidates, only this archive can change, it is rewritten to the fold's directory iff that total is positive, and the path is added to the store |
| Cbzxl.Library.ProcessNext | cbzxl.py:158-166 | handing an unprocessed archive to `process_cbz` adds it to the store and extends the record of rewritten archives by that archive only, keeping the earlier ones |
| Cbzxl.Library.Run | cbzxl.py:138-170 | the skipped count is the number of paths already in the store. The archives handed to `process_cbz` are exactly the others, in order, and for each the result is what `process_cbz` returns: the fold total along a completion order, with the archive rewritten iff it is positive. Converted count is the number of nonzero results and total saved is their sum. Every path ends up in the store. Archives skipped or not listed are unchanged |
| Cbzxl.RerunSkipsEverything | cbzxl.py:158-165 | a second run over the same archives skips all of them, converts none, saves nothing and leaves every archive as the first run left it |
| Visualise.Bucket | visualise.py:79-92 | a bucket name; a status that is a bucket name is its own bucket; `unknown_status` iff the status is NULL or neither an enum name nor `failed` |
| Visualise.ProcessedIsUnknown | visualise.py:87-92 | `processed` is counted under `unknown_status` |
| Visualise.ProcessedCount | visualise.py:74-75 | at most the number of rows |
| Visualise.PositiveSaved | visualise.py:74-77 | never negative, and positive only if some row is processed |
| Visualise.BucketCount | visualise.py:79-92 | at most the number of rows |
| Visualise.BucketsPartitionRows | visualise.py:79-92 | the eight bucket counts add up to the number of rows |
| Visualise.CountRow | visualise.py:68-92 | one pass of the loop body: the overall sum grows by the row's saving (NULL as 0), the processed counters grow only for a `processed` row, and exactly the row's bucket grows by one |
| Visualise.SummarizesStep | visualise.py:68-92 | counting one more row turns the statistics of a prefix into those of the prefix one longer |
| Visualise.SummarizesAll | visualise.py:57-92 | statistics of all rows imply the report's figures, and the eight bucket counts add up to the row count |
| Visualise.CountKind | visualise.py:79-86 | the jxl counter grows iff the row's bucket is `ALREADY_JXL_NO_CONVERTIBLES`; the other-type counter grows iff it is one of the three other-format buckets |
| Visualise.CountStatus | visualise.py:79-92 | exactly the row's bucket grows by one |
| Visualise.AnalyzeRows | visualise.py:57-92 | overall sum with NULL as 0; processed count; positive processed sum (never negative); jxl count is its bucket; other count is the sum of the three buckets; the table has exactly the eight keys, each holding its bucket count, and they add up to the number of rows |
| Visualise.SpaceReport | visualise.py:98-101 | reported as saved iff the total is nonnegative; an increase is reported as a positive amount |
| Visualise.SpaceReportFaithful | visualise.py:98-101 | the printed line's signed amount is the total |
| Visualise.GetDbConnection | visualise.py:21-25 | no connection iff the file is missing |
| Visualise.TableFields | visualise.py:43-44 | the table's column names, or none when the table is missing |
| Visualise.PathOnlyTableFails | visualise.py:50-51 | the query fails on the `path`-only table `cbzxl.py` creates |
| Visualise.MigratedPathTableFails | visualise.py:50-51 | it still fails after `dominant_type` is added to that table |
| Visualise.SelectedColumnsSuffice | visualise.py:50-51 | a table holding each of the six selected columns by name answers the query |
| Visualise.StatusTable | visualise.py:110-111 | the breakdown's rows are the eight bucket names in insertion order, each with its count |
| Visualise.AnalyzeConversionData | visualise.py:34-126 | no database iff the file is missing; a query error iff the table is missing or lacks one of the six selected columns (ignoring ASCII case); no data iff the query runs on no rows; after the connection the field list is the table's columns. Otherwise the row count, the overall total, the positive processed total, the processed count, the jxl and other-type counts, the space line, every bucket's count, the breakdown in insertion order, and a ratio line iff some archive is already JPEG XL or holds other types |
| MigrateDb.Migrated | migrate-db.py:28-42 | existing columns are a prefix and at most one is added; unchanged when `dominant_type` is present, and unchanged when a column matches it only ignoring case (SQLite refuses that ALTER and the error is caught); appended when no column matches it ignoring case; afterwards a matching column exists |
| MigrateDb.MigratedIdempotent | migrate-db.py:28-39 | migrating twice is migrating once |
| MigrateDb.MigratedKeepsColumns | migrate-db.py:37 | every existing column keeps its position |
| MigrateDb.Database.constructor | migrate-db.py:25-26 | the database is as given |
| MigrateDb.Database.TableInfo | migrate-db.py:29-30 | the columns of the table, or none when the table is missing |
| MigrateDb.Database.AddColumn | migrate-db.py:37-38 | succeeds iff the table exists and no column matches ignoring case, and then appends the column |
| MigrateDb.Database.Migrate | migrate-db.py:13-46 | a missing file changes nothing; already present iff the column is in the list; added iff the table exists and no column matches ignoring case; on a database with the table the columns become `Migrated` of the old ones; without the table nothing changes |
| MigrateDb.MigrateTwice | migrate-db.py:28-39 | the first run adds the column and the second reports it present, leaving one added column |

## Left out

- The internals of `file`, `identify`, `magick` and `cjxl`: their answers are inputs. The colour fix is modelled as the choice of fix, not as its effect on the image's bytes or size.
- Zip extraction, repacking, `tempfile`, `shutil.move` and `rmtree`: an archive is its extracted directory, and "rewritten" means the stored directory is replaced by the converted one.
- Exceptions: a corrupt zip, or a file that vanishes between `file` and `cjxl`, raise in the source. The model reads `file`'s answer for a missing path as "not an image", which at that point returns 0.
- Real thread interleaving: workers are modelled as running one after another in completion order. Conversions that overlap on files of one stem are not modelled.
- `Path.resolve`, `os.path.relpath` and the order `rglob` lists files in: paths are already relative. The listing order of the images is covered because `convert_images` lets the pool finish its candidates in any order, and `ConvertImages` allows every order.
- Directories matched by the glob patterns, and symbolic links: the tree holds regular files only.
- Python's Unicode `str.lower`: only ASCII letters are folded.
- Console output, the progress bar, the log file and the float MB/GB/ratio formatting.
- `argparse` in `migrate-db.py` and the unused `FAILED_DB_FILE` constant in `visualise.py`.
- SQL text, connection errors (a file that is not a database), and the values of the columns the query selects but never uses; the rows hold only `path`, `bytes_saved` and `status`.
- Visualise.GetDbConnection: does not model the `sqlite3.connect` failure branch, because connection errors are outside the model.
- Visualise.AnalyzeConversionData: the ratio's value is not modelled, only whether its line appears, because it is floating point.
