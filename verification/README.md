# Lotería card generator — a verified model of the card-page layout and batch

The repository prints 4×4 lotería cards: each card is a letter page at 300 DPI with a centred
title, a right-aligned folio ("Tabla #07"), and sixteen images drawn at random from a pool,
each scaled into its grid cell and captioned with its file name in white text with a black
outline. Two entry points share the same layout code: the library module `loteria_core.py`
(uploads, `generate_loteria_pdf`) and the command-line script `generar_loteria.py`
(`load_images`, `main`), whose `resize_image_to_fit`, `draw_text_with_outline` and
`create_card_image` (generar_loteria.py:131-306) repeat the library's line for line, with the
caption size fixed at 32. One set of Dafny members models both copies; the table cites the
library's lines for them.

The model records a page as the sequence of draw operations applied to it (pastes of fitted
cell boxes and texts), so positions, order and colours can be stated. Decoding an image and
measuring a text are parameters (`decode`, `measure`), as are the random numbers behind
`random.sample` (`rolls`), the result of the folder globs (`found`) and whether an image
opens and verifies (`opens`).

Modules, one file each:

- `layout.dfy` (`Layout`): the page constants, floor-division cell size, cell origins, and the
  facts that the grid stays inside the margins and that different cells never overlap.
- `fit.dfy` (`Fit`): aspect-fit-and-centre in exact rational arithmetic.
- `paths.dfy` (`Paths`): `Path.name`, `Path.suffix`, `Path.stem`, lower-casing of the
  extension, the accepted extensions and POSIX `os.path.join`.
- `folio.dfy` (`Folio`): the folio text `"Tabla #"` plus the number formatted with `02d`.
- `drawing.dfy` (`Drawing`): the canvas class (its `events` field grows with each draw) and
  the outlined-text routine with its nested offset loops.
- `card.dfy` (`Card`): `create_card_image`: header, the row/column loop with its image
  counter, caption placement, and the per-image failure skip.
- `order.dfy` (`Order`): the order of Python strings, `list.sort`, and the order-keeping
  filter loops.
- `sampling.dfy` (`Sampling`): `random.sample` as picks without replacement.
- `sequences.dfy` (`Sequences`): distinctness of a sequence and its multiset reading.
- `batch.dfy` (`Batch`): `load_images_from_uploads`, the card loop, and `generate_loteria_pdf`.
- `cli.dfy` (`Cli`): `load_images` and `main` of the command-line script.
- `wrappers.dfy` (`Wrappers`): `Option` and `Result`.

## Model

| member | source | states |
|---|---|---|
| Layout.CellSize | loteria_core.py:130-131 | the floor-divided cell size is the largest for which n cells and n − 1 gaps fit in the available length: they fit, and one more pixel per cell does not |
| Layout.CellWidth | loteria_core.py:126-130 | the cell width derived from the page width, side margins and gaps is positive |
| Layout.CellHeight | loteria_core.py:127-131 | the cell height derived from the page height, title band, margins, folio band and gaps is positive |
| Layout.CellDimensions | loteria_core.py:126-131 | with the page constants the cells are 551 × 693 pixels |
| Layout.NeighbourOffsets | loteria_core.py:188-189 | the origins of neighbouring columns (rows) differ by exactly one cell width (height) plus the 15-pixel gap |
| Layout.CellInsideGrid | loteria_core.py:170-189 | every cell of the 4×4 grid lies between the side margins and between the title band and the folio band |
| Layout.DistinctCellsDisjoint | loteria_core.py:188-189 | two different (row, column) cells never overlap |
| Fit.ScaledSize | loteria_core.py:65-67 | the scaled size fits the target, reaches it on at least one side, and keeps the image's aspect ratio to within one pixel |
| Fit.ResizeToFit | loteria_core.py:65-78 | fails exactly when the image or its scaled size has a zero side; otherwise the box has exactly the target size, the scaled image lies inside it, non-empty, centred with `(target − new) // 2` (the odd pixel on the far side), fills one side, and keeps the aspect ratio |
| Fit.ScaleIsLargest | loteria_core.py:65-67 | the side with the smaller ratio is filled exactly, the other side is truncated (it does not exceed the exact ratio), and one more pixel on it would, so the scale is the largest that fits and `int()` rounds down |
| Paths.Name | loteria_core.py:245 | the final component holds no separator and is a suffix of the path |
| Paths.NameAfterLastSeparator | loteria_core.py:245 | the final component is everything after the last separator: a separator precedes it whenever it is shorter than the path, and it is the whole path exactly when the path has no separator |
| Paths.StemSuffixSplitName | loteria_core.py:195 | stem followed by suffix gives back the file name; a suffix starts with its only dot and has a character after it; the stem is empty exactly when the name is; a suffix exists exactly when the name's last dot is neither its first nor its last character |
| Paths.Lower | loteria_core.py:245 | lower-casing keeps the length and maps each character on its own |
| Paths.AcceptedNameNotEmpty | loteria_core.py:245-246 | a path whose lower-cased suffix is accepted has a non-empty file name |
| Paths.Join | loteria_core.py:248 | joining a name that does not start with a separator ends the result with that name |
| Paths.JoinShape | loteria_core.py:248 | an absolute name replaces the directory; otherwise the result starts with the directory and ends with the name, with one separator between them exactly when the directory is not empty and does not end with one |
| Paths.JoinKeepsName | loteria_core.py:248 | joining a bare file name onto a directory yields a path whose final component is that file name |
| Folio.Digits | loteria_core.py:162 | the decimal digits of a number: at least one, all digits, no leading zero, one digit exactly below ten |
| Folio.DigitsRoundTrip | loteria_core.py:162 | reading back the printed digits gives the number |
| Folio.FolioText | loteria_core.py:162 | the folio text starts with "Tabla #" and has at least two characters after it |
| Folio.FolioTextRoundTrip | loteria_core.py:162 | for a non-negative folio the text after "Tabla #" is all digits, exactly two below ten and no more than the number's digits otherwise, and reads back as the folio |
| Folio.FolioExamples | loteria_core.py:162 | folios 1, 12 and 100 print as "Tabla #01", "Tabla #12" and "Tabla #100" |
| Drawing.Canvas.constructor | loteria_core.py:122-123 | a new page has the given size and nothing drawn on it |
| Drawing.Canvas.PasteBox | loteria_core.py:192 | a paste adds exactly one paste event at the end and changes nothing else |
| Drawing.Canvas.DrawText | loteria_core.py:151 | a text draw adds exactly one text event at the end and changes nothing else |
| Drawing.DrawTextWithOutline | loteria_core.py:96-105 | the nested offset loops append exactly the outlined text: all halo draws, then the fill draw |
| Drawing.ColumnDrawsCount | loteria_core.py:100-102 | one column of offsets issues one draw per `offset_y`, less the skipped (0, 0) |
| Drawing.ColumnDrawsMembers | loteria_core.py:100-102 | the draws of one column are exactly the halo draws at that `offset_x` below the loop bound |
| Drawing.ColumnDrawsDistinct | loteria_core.py:100-102 | no draw of a column repeats |
| Drawing.HaloDrawsCount | loteria_core.py:99-102 | the first columns of offsets issue columns × (2w + 1) draws, less one once the (0, 0) offset has been skipped |
| Drawing.HaloDrawsMembers | loteria_core.py:99-102 | the draws of the first columns are exactly the halo draws left of the loop bound |
| Drawing.HaloDrawsDistinct | loteria_core.py:99-102 | no halo draw repeats |
| Drawing.OutlinedTextShape | loteria_core.py:99-105 | the outlined text is (2w + 1)² − 1 distinct outline-coloured draws at every non-zero offset of at most w, and nothing else, followed by one fill-coloured draw at (x, y) |
| Card.TitleX | loteria_core.py:147-150 | the title is centred on the page to within one pixel |
| Card.FolioX | loteria_core.py:163-165 | the folio text ends exactly at the right margin |
| Card.LabelPosition | loteria_core.py:207-211 | the caption is centred in its cell to within one pixel, stays inside the cell horizontally when it is no wider than the cell, and ends 35 pixels above the cell's bottom edge |
| Card.DrawCell | loteria_core.py:178-224 | one pass of the grid loop appends nothing when the image fails to open or resize, and otherwise the paste at the cell origin followed by the caption |
| Card.CreateCardImage | loteria_core.py:108-226 | the card is a fresh page of 2550 × 3300 whose draws are the header followed by the 16 cells in row-major order, image k going to row k / 4, column k % 4 |
| Card.CaptionOnlyTexts | loteria_core.py:195-217 | a caption draws only texts, never a paste |
| Card.CellPastes | loteria_core.py:185-192 | a cell's only paste is its own image's fitted box at its own origin, and that paste happens when the image fits |
| Card.GridPastesFromCells | loteria_core.py:174-192 | every paste in the first cells is the fitted image of one of those cells, at that cell's origin |
| Card.GridPastesEveryCell | loteria_core.py:174-224 | every image among the first cells that opens and fits is pasted at its cell's origin, whatever happened to earlier images |
| Card.CardPastes | loteria_core.py:174-224 | on a card, each fitting image k is pasted into cell (k / 4, k % 4), and every paste is of that kind |
| Card.FailedImageLeavesCellBlank | loteria_core.py:221-224 | an image that fails to open or resize leaves its cell without any paste, while every other image that fits is still pasted into its own cell |
| Card.CardPastesInsideGrid | loteria_core.py:188-192 | every paste is exactly cell-sized and inside the grid area, and pastes at different origins never overlap |
| Card.CaptionShape | loteria_core.py:195-217 | a caption exists exactly when the stem is non-empty; it is (2·2 + 1)² draws, the last the stem in white at the caption position and all others black halo copies around it |
| Order.LexLeReflexive | generar_loteria.py:103 | every string is at most itself in Python's string order |
| Order.LexLeTotal | generar_loteria.py:103 | any two strings are comparable |
| Order.LexLeAntisymmetric | generar_loteria.py:103 | two strings each at most the other are equal |
| Order.LexLeTransitive | generar_loteria.py:103 | the string order is transitive |
| Order.Insert | generar_loteria.py:103 | inserting into a sorted list gives a sorted list holding one more occurrence of the element |
| Order.Sort | generar_loteria.py:103 | sorting gives a sorted permutation of the input |
| Order.SortedPermutationsEqual | generar_loteria.py:103 | two sorted permutations of the same list are equal, so any correct sort yields the same list |
| Order.Filter | generar_loteria.py:113-120 | the kept elements are exactly the input's elements that pass, and no more of them than the input has (how many copies: `Order.FilterKeepsEveryCopy`) |
| Order.FilterKeepsEveryCopy | generar_loteria.py:113-120 | every occurrence of a passing element is kept and no occurrence of a failing one, so repeated paths count as often as they occur |
| Order.FilterIsOrderedSubsequence | generar_loteria.py:113-120 | the kept elements keep their relative order, and a sorted input gives a sorted result |
| Sampling.Sample | loteria_core.py:289 | `random.sample(pool, k)` yields exactly k picks |
| Sampling.SampleWithoutReplacement | loteria_core.py:289 | no element is picked more often than it occurs in the pool |
| Sampling.SampleFromPopulation | loteria_core.py:289 | every pick is a member of the pool |
| Sampling.SampleDistinct | loteria_core.py:289 | from a pool without repeats, no element is picked twice |
| Batch.JoinAll | loteria_core.py:248 | each kept name becomes the temporary directory joined with it, in order |
| Batch.LoadImagesFromUploads | loteria_core.py:243-251 | the loop yields the temporary paths of exactly the uploads whose lower-cased extension is accepted, in upload order |
| Batch.UploadsKept | loteria_core.py:243-251 | an upload is kept exactly when its extension is accepted, every upload of an accepted name is kept (same-named uploads all count towards the 16), and the kept uploads are a subsequence of the uploads |
| Batch.UploadPathsKeepNames | loteria_core.py:248 | a kept upload named without a separator keeps its name as the final component of its temporary path |
| Batch.PagesInOrder | loteria_core.py:287-297 | the loop over 1..n yields n pages (none when n ≤ 0), the j-th being page j + 1 |
| Batch.GenerateCards | loteria_core.py:287-297 | the card loop yields exactly the cards 1..n in order |
| Batch.CardForDraw | loteria_core.py:289-292 | card i carries folio i and 16 images drawn from the pool without replacement, distinct when the pool is, and its page is the layout of exactly those images |
| Batch.CardsInOrder | loteria_core.py:287-297 | the cards come with folios 1..n in increasing order, the j-th being card j + 1 |
| Batch.GenerateLoteriaPdf | loteria_core.py:273-297 | fails with the count of accepted uploads exactly when fewer than 16 are accepted, before any card; otherwise yields the cards 1..n drawn from the accepted uploads |
| Cli.KeepOpening | generar_loteria.py:113-120 | the verification loop keeps exactly the paths that open, in order |
| Cli.LoadImages | generar_loteria.py:86-128 | a missing folder, fewer than 16 matches and fewer than 16 opening images fail in that order with their counts; otherwise the opening images of the sorted matches |
| Cli.LoadedImagesSorted | generar_loteria.py:102-126 | a successful load holds at least 16 paths, sorted, a subsequence of the sorted matches, and exactly the matches that open, each as often as the globs found it; fewer than 16 matches fail before any file is opened |
| Cli.RunGenerator | generar_loteria.py:379-422 | a card count of at most zero is refused before the folder is loaded; a load failure stops the run; otherwise the cards 1..n are drawn from the loaded images with caption size 32 |

## Left out

- Pixel work: decoding, RGB conversion, LANCZOS resampling, the pixels a paste or a text
  writes, and `textbbox`. An image is its size (`decode`), and a text's box is `measure`.
- The font fallback chains (loteria_core.py:138-144, 154-160, 197-204): a font is its size.
- Floating point in `resize_image_to_fit`: the scale is exact, so the model's scaled size is
  the exact floor; `int(w · scale)` in floating point may come out one pixel short.
- The distribution of `random.sample`: the random numbers are a parameter, and the model
  states what every outcome guarantees.
- I/O: the temporary directories, writing the uploads, saving each page as `tabla_{i:03d}.png`,
  `img2pdf.convert` and the PDF bytes or file, the cleanup, the output folder, argparse and
  every message printed.
- The folder globs of `load_images` and `Image.verify`: their results are the parameters
  `found` and `opens`. So the duplicates that the upper-case globs can add on a
  case-insensitive filesystem are not modelled.
- `app.py`, the Streamlit front end, is not part of this model.
- `Path` normalisation (repeated or trailing separators) and lower-casing beyond ASCII: only
  extensions are lower-cased, and all accepted extensions are ASCII.
- Errors after a paste: an exception raised while drawing a caption (a failing `measure`)
  would leave the pasted image without a caption; the model's `measure` always answers.
- `BORDER_WIDTH` and `COLOR_BORDER` (generar_loteria.py:47, 52) are unused by the source.
- `list.sort` is modelled by an insertion sort; `Order.SortedPermutationsEqual` shows every
  sorted permutation is the same list, so the result does not depend on the algorithm.
- Card.CreateCardImage: requires at least 16 paths. With fewer, the source's error handler
  itself indexes past the end of the list and the IndexError escapes; both callers pass 16.
- Batch.GenerateCards: requires a pool of at least 16, as `random.sample` raises otherwise;
  both callers check the pool size first.
- Sampling.Sample: requires k no larger than the pool, for the same reason.
- Paths.Stem: follows the rule that a suffix is the part from the last dot when that dot is
  neither the first nor the last character of the name.
- Batch.GenerateLoteriaPdf: with a card count of at most zero no page is made, and the model
  returns the empty list of pages; the source then hands an empty list to the PDF conversion,
  which is not part of this model, so whether that step fails is not captured. The web front
  end's slider (app.py:72-77) keeps the count at least 1.
- Batch.LoadImagesFromUploads: an upload is its name; two uploads with the same name map to
  the same temporary path, so such a pool can repeat a path, and `Batch.CardForDraw` then
  promises no repeats only for a pool without them.
