# Anchored text and event logs: a verified model

Semiont turns PDFs and scans into text plus *items*: character ranges of that text with a rectangle on a page.
The items are packed into line records, kept in a content-addressed file cache, and read back. Annotations
stand on them, so an offset that is off by one is a wrong quotation. Beside it lives an append-only event log
that three one-off scripts rewrite and a fourth one replays to decide which resources to delete.

This project models both and proves what they promise.

- **From geometry to text.** `OcrAssembly`, `OcrStructure`, `OcrGeometry` and `OcrDocument` follow a recognition
  tree to a page, to rectangles, and to a document. `TextLayer` reads native pages, `PdfTables` and
  `TableGeometry` find grids, `TableShift` shows that a grid belongs to its page alone, `TableMarkdown` writes grids
  as rows, `PageShaping` reshapes the pages that hold one, `FormFields` folds in form values, and `PdfExtraction`
  classifies the document and puts the parts together. `OcrPlacement`, `TextLayout` and `DocumentLayout` say what the
  whole text is and where every item stands, `TableUnit` and `TableDetection` what exactly counts as a table.
- **The store.** `LineCodec` packs items, `JsonText` is serialization and parsing, `CacheEntry` the record and its
  shape check, `RecordLayout` how it looks from outside, `StorePaths` and `StoreRecords` the files. `StoreProtocol` and `StoreListing` are a transition
  system: any number of writers, processes, builds, listings, sweeps, I/O failures and crashes, interleaved step
  by step. `AnchoredTextStore` is the object itself, call by call, `StoreCalls` relates its calls to each other,
  `StoreRuns` shows that whole calls are runs of the transition system, and `EndToEnd` composes everything: words of
  a document, through the store and back.
- **The event log.** `EventLog` holds values, lines and the type table, `EventPasses` the three rewriting passes,
  `MigratedFields` what they leave of a line, `EventReplay` the fold and the proof that the passes do not change it,
  `EventCleanup` the verdicts and what they mean for the lines of a stream.
- **Names.** `StorageUri` derives a resource's URI from its name.

Numbers the store receives are real numbers, infinities or NaN; geometry is computed over real numbers. Strings
are sequences of characters, and offsets count them. The stamp, lower-casing, process ids, the recognition trees,
the runs a page reports, and which file operation fails are inputs.

## Where the code and its comments part

- `list()` is documented to return exactly the keys `read()` would hit. An entry with an item that
  holds a NaN or an infinity is listed and never read, because serialization turns the number into `null`
  (`StoreCalls.NonFiniteEntryIsListedNotRead`). That is the only exception besides entries that cannot be opened
  (`StoreCalls.ListedIffReadable`).
- Write-then-rename never exposes half an entry as long as one process id has at most one write of a key on its way
  (`StoreProtocol.TargetsAreNeverTorn`). The temporary name carries the process id only, so two overlapping writes
  of one key under one process id, in one process or in two containers that share the directory, can install an
  empty file (`StoreRuns.SharedTempTearsTheTarget`).
- A number in the provenance that is not finite comes back as `null`
  (`StoreCalls.WriteThenRead`); nothing else of an entry that can be read is altered.
- Line records are as few as possible except when neighbours share a NaN coordinate, which `===` never joins
  (`LineCodec.MinimalIffNoRepeatedNan`).
- Bounding a word by two opposite corners is exact for mirrors, quarter turns and scalings. It is too small exactly
  under a shear or rotation that makes `a*c` or `b*d`, times the signed area of the box, positive
  (`OcrGeometry.CoversIff`).
- `migrate-event-types.ts` says that running twice produces the same output. A second run gives another output exactly
  on the lines named by `EventPasses.Unstable` (`EventPasses.MigrateIsIdempotentIff`). There are three kinds, each
  with a witness: an event without a type that wraps another event (`EventPasses.WrappedTwiceIsUnstable`); an
  envelope around an event whose type is not a string and converts to any name the table lookup finds, old, inherited
  or `__proto__` (`EventPasses.ListTypeIsUnstable`); and a line whose type is, or converts to, an inherited name and
  is lost, so that an envelope is left (`EventPasses.InheritedTypeIsUnstable`). Events with ordinary string types are safe
  (`EventPasses.StringTypesAreStable`).
- A `null` line makes the cleanup script throw; every other line that parses is survived
  (`EventReplay.ReplayEvents`).
- Two names with the same runs of lower-cased letters and digits share one storage URI, whatever stands between
  (`StorageUri.SameUriIff`).

## Model

| member | source | states |
|---|---|---|
| LineCodec.EncodeLines | packages/content/src/anchored-text-store.ts:131-142 | the record loop computes the packing `Encode`, whose meaning the codec rows below state |
| LineCodec.DecodeLines | packages/content/src/anchored-text-store.ts:145-153 | the two nested loops compute the unpacking `Decode` |
| LineCodec.RoundTrip | packages/content/src/anchored-text-store.ts:131-153 | decoding an encoding returns the same items in the same order, for any numbers, NaN and infinities included |
| LineCodec.MinimalIffNoRepeatedNan | packages/content/src/anchored-text-store.ts:131-153 | no record list that decodes to the items is shorter than their encoding, if and only if no two neighbours share a header that holds a NaN |
| LineCodec.CanonicalIffStable | packages/content/src/anchored-text-store.ts:131-153 | encoding a decoding gives the records back if and only if none is empty, no neighbours could be joined, and no record of several words has a NaN header |
| LineCodec.TogetherCostsNoMore | packages/content/src/anchored-text-store.ts:131-142 | encoding two lists together never costs more records than apart |
| LineCodec.BlockCostsOneRecord | packages/content/src/anchored-text-store.ts:131-142 | a block of items with one header, without a repeated NaN, adds at most one record, whatever precedes it |
| JsonText.ParseStringify | packages/content/src/anchored-text-store.ts:225-264 | parsing gives back every written value with each number that is not finite as `null`, so it undoes serializing if and only if all numbers are finite |
| JsonText.TextsAreStandard | packages/content/src/anchored-text-store.ts:225-264 | arrays and objects are written as section 2 of RFC 8259 has them: brackets, commas, quoted names and colons |
| JsonText.ShortEscapesAreStandard | packages/content/src/anchored-text-store.ts:225-264 | the two-character escapes mean what section 7 of RFC 8259 says |
| JsonText.OnlyControlsAreEscaped | packages/content/src/anchored-text-store.ts:225-264 | exactly quotes, backslashes and control characters are escaped |
| JsonText.QuotesArePrefixFree | packages/content/src/anchored-text-store.ts:282-343 | two quoted strings that open one text are the same string with the same remainder (section 7 of RFC 8259) |
| CacheEntry.WrittenEntryIsCachedIff | packages/content/src/anchored-text-store.ts:185-192 | a written record passes the shape check of `read` if and only if all numbers of its items are finite |
| CacheEntry.WrittenEntryDecodes | packages/content/src/anchored-text-store.ts:225-258 | a record that passes gives back the outcome, decline or text, items and provenance, and exactly the one that was written if and only if the numbers of its provenance are finite too |
| CacheEntry.PrefixDecides | packages/content/src/anchored-text-store.ts:253-345 | the bounded comparison of `list` succeeds on a record if and only if it has this format version and this stamp, whatever characters the two stamps contain |
| RecordLayout.EntryNames | packages/content/src/anchored-text-store.ts:253-258 | the entry's fields come in the documented order, version 2 first |
| RecordLayout.PrefixIsTheOpening | packages/content/src/anchored-text-store.ts:282 | what the listing compares is the literal opening of an entry, up to the comma after the stamp |
| RecordLayout.StoredNumbersAreTheItems | packages/content/src/anchored-text-store.ts:131-142 | read off the stored lines in order, page, baseline, height, left, width, start and end are those of the items |
| RecordLayout.AcceptedNamesItsMethod | packages/content/src/anchored-text-store.ts:185-192 | a text entry that passes the shape check carries its method |
| RecordLayout.KeyIsValidIff | packages/content/src/anchored-text-store.ts:198 | a key is refused exactly if it is empty or has a character other than letters, digits, `_` and `-` |
| RecordLayout.HashIsThePolynomial | packages/core/src/shard-utils.ts:53-60 | the hash is the polynomial in 31 over the key, wrapped to 32 bits with a sign |
| RecordLayout.EntriesLieUnderTheirHash | packages/core/src/shard-utils.ts:45-90 | an entry lies under the high and the low byte of its key's hash, and its temporary file beside it |
| StorePaths.TempIsPrivate | packages/content/src/anchored-text-store.ts:216-324 | a temporary name is never listed and never the target of any key |
| StorePaths.TempsAreDistinct | packages/content/src/anchored-text-store.ts:214-261 | two writes share a temporary name only if key and process are both the same |
| StoreRecords.RecordReads | packages/content/src/anchored-text-store.ts:220-243 | an installed record is a hit exactly under its own stamp and with finite item numbers, and a hit returns the outcome as it is stored |
| StoreRecords.RecordListed | packages/content/src/anchored-text-store.ts:282-345 | an installed record, of this or an older format, passes the listing test exactly under its own stamp and the current format |
| StoreRecords.ListedIffHitOrNotFinite | packages/content/src/anchored-text-store.ts:220-350 | listing and reading disagree about a record in exactly one case: this build, with an item number JSON cannot carry |
| StoreProtocol.StepKeepsInv | packages/content/src/anchored-text-store.ts:245-356 | every step of every writer, sweep, failure and crash keeps targets complete and temporary files in the hands of one writer |
| StoreProtocol.TargetsAreNeverTorn | packages/content/src/anchored-text-store.ts:245-269 | over every interleaving in which no process has two writes of one key on their way, each target is absent or holds one complete serialization of a record handed to `write` for that key |
| StoreProtocol.ReadsOnlyWhatWasHanded | packages/content/src/anchored-text-store.ts:220-243 | in every such state a hit is, as it is stored, an outcome that a `write` of the same build was handed for that key |
| StoreListing.HitsLast | packages/content/src/anchored-text-store.ts:220-337 | in a single-build run a hit key that is not 32 hex digits stays a hit to the end of the run |
| StoreListing.ListingIsExact | packages/content/src/anchored-text-store.ts:271-356 | a finished listing, interleaved with anything, returned only keys that are hits now and not 32 hex digits, and every key that was a hit when it began, except 32-hex keys and files it could not open |
| StoreCalls.InstalledFilesCanStart | packages/content/src/anchored-text-store.ts:245-269 | any files installed by `write`, under any builds, are those of a state with no call on its way from which the theorems about runs hold |
| StoreCalls.ReachedFilesAreInstalled | packages/content/src/anchored-text-store.ts:245-269 | in every state a run reaches, each listable file is a record installed at its own key's path |
| StoreRuns.WriteIsARun | packages/content/src/anchored-text-store.ts:245-269 | from any state, with any writers and listings on their way, the steps of a whole `write` in a row are a run of the transition system, whatever fails in it, and end in the files the call leaves |
| StoreRuns.ListIsARun | packages/content/src/anchored-text-store.ts:271-356 | so are the steps of a whole `list`: the same files and the same keys as the call, nothing left to visit, all else as it was |
| StoreRuns.ReturnedKeysAreTaken | packages/content/src/anchored-text-store.ts:305-355 | the keys the call returns are, as a set, the keys that run takes |
| StoreRuns.ListingReapsInterimKeys | packages/content/src/anchored-text-store.ts:325-337 | a whole listing never returns a 32-hex key and leaves none readable that it could remove |
| StoreRuns.SharedTempTearsTheTarget | packages/content/src/anchored-text-store.ts:261-265 | the exclusiveness is needed: from any state, any two overlapping writes of one process and key have a run that installs an empty file |
| AnchoredTextStore.Store.constructor | packages/content/src/anchored-text-store.ts:212-219 | a store starts with the files on disk and this build's stamp |
| AnchoredTextStore.Store.Read | packages/content/src/anchored-text-store.ts:220-243 | the call answers as `ReadVia`: a miss when the key is refused, or the file is absent, unreadable, not a record or of another build |
| AnchoredTextStore.Store.Serialize | packages/content/src/anchored-text-store.ts:253-258 | what is written is the serialized record of the outcome, built with the encoder loop |
| AnchoredTextStore.Store.Write | packages/content/src/anchored-text-store.ts:245-269 | the whole new file map for every way the operations can fail: installed by rename, or the target untouched and the temporary file removed or left behind |
| AnchoredTextStore.Store.List | packages/content/src/anchored-text-store.ts:271-356 | path by path: exactly the `.json` files at the root and the 32-hex entries that can be removed are gone and all else is as it was; exactly the keys of the files that can be opened and begin with the prefix are returned, each file once |
| AnchoredTextStore.Store.SweepRoot | packages/content/src/anchored-text-store.ts:298-303 | the first sweep deals with every `.json` file at the root and nothing else |
| AnchoredTextStore.Store.ListShards | packages/content/src/anchored-text-store.ts:305-356 | the loop over the first-level directories completes the listing |
| AnchoredTextStore.Store.ListShard | packages/content/src/anchored-text-store.ts:307-322 | one first-level directory keeps the listing's progress and deals with every file below it |
| AnchoredTextStore.Store.ListDirectory | packages/content/src/anchored-text-store.ts:315-351 | one second-level directory, likewise |
| AnchoredTextStore.Store.VisitFile | packages/content/src/anchored-text-store.ts:333-350 | one file: removed if interim, listed if it opens with the prefix, otherwise left |
| StoreCalls.WriteThenRead | packages/content/src/anchored-text-store.ts:220-269 | what was written is a hit if and only if the numbers of its items are finite, and comes back whole if and only if those of its provenance are too |
| StoreCalls.ReadNeedsItsFile | packages/content/src/anchored-text-store.ts:220-229 | a hit needs a valid key and a file that can be opened, and depends on that file alone |
| StoreCalls.WriteTouchesOnlyItsKey | packages/content/src/anchored-text-store.ts:245-269 | a write changes no other entry; a failed or refused write changes none |
| StoreCalls.WriteKeepsInstalled | packages/content/src/anchored-text-store.ts:245-269 | after any write every listable file is still a record at its own key's path |
| StoreCalls.ListedIffReadable | packages/content/src/anchored-text-store.ts:220-356 | after a listing, a key was returned if and only if it is not interim, can be reached, and is a hit or holds an item number that is not finite |
| StoreCalls.NonFiniteEntryIsListedNotRead | packages/content/src/anchored-text-store.ts:271-356 | the disagreement is real: any item with a NaN or an infinity makes an entry that is listed and never read |
| StoreCalls.SweepsSpareReaders | packages/content/src/anchored-text-store.ts:290-337 | a listing takes no hit away, except of a 32-hex key |
| StoreCalls.ListedPathsHaveDistinctKeys | packages/content/src/anchored-text-store.ts:343-345 | two listed files have two keys, so no key is returned twice |
| OcrAssembly.AssemblePage | packages/content/src/ocr.ts:86-133 | the loops over blocks compute `Assemble`, whose meaning the next rows state |
| OcrAssembly.AssembleBlock | packages/content/src/ocr.ts:91-128 | the paragraph loop extends the layout so far |
| OcrAssembly.AssembleParagraph | packages/content/src/ocr.ts:92-127 | the line loop and the closing line break |
| OcrAssembly.AssembleLine | packages/content/src/ocr.ts:93-125 | the word loop with its `wroteWord` flag |
| OcrAssembly.AssembledWordsAreExact | packages/content/src/ocr.ts:86-133 | after the final trim every word is at its offsets, is not blank, is preceded by exactly the separator the tree dictates, never touches its neighbour, and the text ends with the last word |
| OcrAssembly.AssembledWordsAreTheReadings | packages/content/src/ocr.ts:90-124 | the words are exactly the trimmed non-blank words of the tree in traversal order, each with its line's height and its own confidence |
| OcrPlacement.AssembledWordsAreTheSpots | packages/content/src/ocr.ts:90-124 | in traversal order every word keeps its own left and right and its confidence, and takes its line's top and bottom |
| OcrPlacement.ImageFillsTheSquare | packages/content/src/ocr-geometry.ts:26-31 | the image's corners land on the corners of the unit square under the matrix, top row up |
| OcrPlacement.WordsLandWhereTheirBoxesAre | packages/content/src/ocr-geometry.ts:37-62 | each item stands exactly where the matrix puts two opposite corners of its word's box |
| OcrPlacement.NoExtentNoItems | packages/content/src/ocr-geometry.ts:43 | an image without an extent gets no items |
| OcrPlacement.AxisPreservingWords | packages/content/src/ocr-geometry.ts:37-62 | upright or mirrored, the word's own left and right are its extent across the page; after a quarter turn, up the page |
| OcrStructure.TextEncodesTheTree | packages/content/src/ocr.ts:90-132 | the text alone gives back every line and paragraph, word-free paragraphs included, if and only if no word contains a space or a line break |
| OcrStructure.ShapeHoldsTheWords | packages/content/src/ocr.ts:90-129 | those lines and paragraphs hold exactly the words of the page, in order |
| OcrGeometry.CoversIff | packages/content/src/ocr-geometry.ts:26-62 | every pixel point of a word's box lands in its item's rectangle if and only if neither `a*c` nor `b*d`, times the signed area of the box, is positive |
| OcrGeometry.AxisPreservingIsTight | packages/content/src/ocr-geometry.ts:26-62 | mirrors, quarter turns and scalings (section 8.3.4 of ISO 32000-1) always satisfy that, and a corner of the box attains each edge |
| OcrGeometry.MappedItemsAnchor | packages/content/src/ocr-geometry.ts:37-62 | the items of an image select exactly the recognised words out of its assembled text |
| OcrGeometry.OneRecordPerLine | packages/content/src/ocr.ts:104-120 | with `b = 0` the items of an image are stored in at most one record per recognised line that carries a word |
| OcrDocument.OcrPageImages | packages/content/src/pdf-extractor.ts:97-115 | the image loop joins the texts of one page and offsets its words |
| OcrDocument.OcrPages | packages/content/src/pdf-extractor.ts:91-139 | the pages are taken by number, joined, and their items shifted |
| OcrDocument.JoinPage | packages/content/src/pdf-extractor.ts:129-136 | one page is joined to the document so far |
| OcrDocument.DocumentForgetsOrder | packages/content/src/pdf-extractor.ts:91-139 | the order in which pages are handed over makes no difference |
| OcrDocument.PagesAscend | packages/content/src/pdf-extractor.ts:91-95 | the pages come in ascending number, each as often as handed over |
| OcrPlacement.PageTextJoins | packages/content/src/pdf-extractor.ts:97-115 | a page's text is the texts of its images with words, joined by line breaks |
| OcrPlacement.DocumentTextJoins | packages/content/src/pdf-extractor.ts:125-139 | the document's text is the texts of its pages with words, joined by blank lines |
| OcrPlacement.DocumentKeepsRects | packages/content/src/pdf-extractor.ts:97-139 | joining moves offsets only: every item is on its page where its image's item is |
| OcrDocument.BlankIffWordless | packages/content/src/pdf-extractor.ts:105-106 | an image is skipped exactly if its tree has no word, and then it has no text either |
| OcrDocument.DocumentIsEmptyIff | packages/content/src/pdf-extractor.ts:97-139 | recognition comes up empty if and only if no tree of any page has a word |
| OcrDocument.DocumentIsExact | packages/content/src/pdf-extractor.ts:97-139 | for any trees, images and pages the items select exactly the trees' words in reading order, except those of an image whose placement has no extent, which get no item |
| OcrDocument.PageCostsOneRecordPerLine | packages/content/src/pdf-extractor.ts:97-115 | so are the items of a page of several images, at most one record per line of any of them |
| OcrDocument.DocumentCostsOneRecordPerLine | packages/content/src/pdf-extractor.ts:91-139 | and those of a whole document |
| OcrDocument.HybridIsExact | packages/content/src/pdf-extractor.ts:287-314 | appended behind a native layer, recovered words and native runs both keep their anchors |
| TextLayer.AnchorPage | packages/core/src/pdf-anchoring.ts:98-124 | the run loop computes one page's text and local items |
| TextLayer.ExtractTextLayer | packages/content/src/extract-pdf-text-layer.ts:82-111 | the page loop, the shift of every item, and the null result |
| TextLayer.TextLayerIsSound | packages/content/src/extract-pdf-text-layer.ts:82-113 | page spans are not empty and tile the text; every item lies in its page's span and selects its run; there is no layer exactly if no run carries text |
| TextLayout.PageIsItsRuns | packages/core/src/pdf-anchoring.ts:98-124 | a page's text is what its runs add, each with a line break or a space by its flag, and each item is where its run is |
| TextLayout.LayerIsItsPages | packages/content/src/extract-pdf-text-layer.ts:82-111 | every page keeps its number and size, its span is its text and a page break, and its items stay in place |
| TextLayout.FieldIsItsWidget | packages/content/src/extract-pdf-text-layer.ts:22-39 | a field has its widget's name, its trimmed value, the page after the parser's, and exactly the widget's rectangle |
| TextLayout.WidgetIsFilledIff | packages/content/src/extract-pdf-text-layer.ts:22-29 | a widget is refused exactly if it lacks a name, a value that is not blank, a page or a rectangle of numbers |
| TextLayout.FoldedFormIs | packages/content/src/pdf-extractor.ts:159-176 | folding appends one `name: value` line and one item over the widget for each field |
| FormFields.ReadFormFields | packages/content/src/extract-pdf-text-layer.ts:22-55 | one field per name, and that is the first filled widget of the name; the fields stand in the order of those widgets |
| FormFields.ReadGroup | packages/content/src/extract-pdf-text-layer.ts:48-51 | one group of widgets extends the fields accordingly, and earlier fields keep their places |
| FormFields.FoldFormFields | packages/content/src/pdf-extractor.ts:159-176 | the loop appends one `name: value` line and one item per field |
| FormFields.FoldedFieldsAreExact | packages/content/src/pdf-extractor.ts:150-176 | afterwards the items select the layer's runs and then every field value |
| Sorting.SortSorts | packages/content/src/pdf-tables.ts:44-77 | the sort permutes its input into ascending keys |
| Sorting.SortIsStable | packages/content/src/pdf-tables.ts:44-77 | and keeps the order of elements with equal keys |
| Sorting.SortForgetsOrderIff | packages/content/src/pdf-tables.ts:51-77 | the result is the same for every order of arrival if and only if elements with equal keys are equal |
| PdfTables.GroupRows | packages/content/src/pdf-tables.ts:49-57 | the greedy row loop computes the bands that the next rows characterise |
| PdfTables.ToCells | packages/content/src/pdf-tables.ts:74-87 | the cell loop cuts the sorted row at its gutters and keeps every run |
| PdfTables.SplitIntoCells | packages/content/src/pdf-tables.ts:97 | each row is cut with the page's cell gap |
| PdfTables.DetectTable | packages/content/src/pdf-tables.ts:93-113 | the chain of checks and the column loop accept exactly the regular grids |
| TableUnit.UnitIsTheMiddleHeight | packages/content/src/pdf-tables.ts:43-95 | if n runs have a height, the unit is the height of one, with at most n/2 lower and at most (n-1)/2 higher; if none has, it is 12 |
| TableDetection.DetectedIff | packages/content/src/pdf-tables.ts:93-113 | a table is detected if and only if the page has runs, at least three rows of equally many cells, at least two, no column with left edges more than the unit apart, and no blank cell |
| TableDetection.RowsAreHalfAUnit | packages/content/src/pdf-tables.ts:49-97 | the page's rows are bands of half a unit |
| TableDetection.GridRow | packages/content/src/pdf-tables.ts:97 | each row is cut at white space of more than four fifths of the unit |
| TableDetection.RowIsCut | packages/content/src/pdf-tables.ts:74-87 | a row's cells are its runs from left to right, cut exactly where there is more white space than the gap |
| TableGeometry.GroupedRowsAreBands | packages/content/src/pdf-tables.ts:49-57 | rows flatten to the sorted runs, each spreads at most the tolerance below its first run, and every later run is more than the tolerance below that |
| TableGeometry.FewestRows | packages/content/src/pdf-tables.ts:49-57 | no way of sharing the runs out among groups of that spread uses fewer groups |
| TableGeometry.CellIsTight | packages/content/src/pdf-tables.ts:59-71 | a cell's box contains all its runs, each edge is attained by one, and its text is trimmed |
| TableGeometry.DetectedTableIsAGrid | packages/content/src/pdf-tables.ts:93-113 | a detected table uses every run exactly once, is rectangular and at least 3 by 2, has no blank cell, descends strictly from row to row, and keeps each column's left edges within one unit |
| TableGeometry.GutterBeforeEveryCell | packages/content/src/pdf-tables.ts:74-87 | whatever the widths, each cell begins more than the gap to the right of where the last run before it ends |
| TableGeometry.DetectedColumnsAdvance | packages/content/src/pdf-tables.ts:74-87 | without negative widths, left edges advance along a row by more than the gap |
| TableGeometry.ColumnsAdvanceIff | packages/content/src/pdf-tables.ts:74-113 | beside widths that are not negative, a width keeps the left edges of every page advancing by more than the gap if and only if it is not negative itself |
| TableGeometry.RowsForgetOrder | packages/content/src/pdf-tables.ts:49-57 | which runs share a row does not depend on the order they arrive in |
| TableGeometry.DetectionForgetsOrder | packages/content/src/pdf-tables.ts:43-113 | nor does the whole result, when distinct runs of a row have distinct left edges: through both sorts, the median and both greedy passes |
| TableMarkdown.RenderTable | packages/content/src/pdf-tables.ts:120-149 | the row loop computes `Render` |
| TableMarkdown.RenderCells | packages/content/src/pdf-tables.ts:129-143 | the cell loop writes one padded cell and one item at a time |
| TableMarkdown.RenderedCellsAreAnchored | packages/content/src/pdf-tables.ts:120-149 | one item per cell in row-major order, disjoint, each selecting its cell's text in the document and carrying its box |
| TableMarkdown.RenderedTableParsesBack | packages/content/src/pdf-tables.ts:120-149 | a reader of pipe rows with a delimiter row (section 4.10 of the GitHub Flavored Markdown spec) recovers the grid if and only if every cell is trimmed and has no pipe and no line break |
| PageShaping.ShapeTables | packages/content/src/pdf-extractor.ts:185-209 | grid pages become markdown, other pages are copied, and nothing is returned when no page is a grid |
| PageShaping.PageTables | packages/content/src/pdf-extractor.ts:186-190 | every page's own runs are searched, and the flag says whether any page is a grid |
| PageShaping.AppendPage | packages/content/src/pdf-extractor.ts:195-206 | one page is appended rendered or verbatim |
| PageShaping.CopyPage | packages/content/src/pdf-extractor.ts:200-205 | a verbatim page's items move with its slice, forwards or backwards |
| PageShaping.ShapedIsExact | packages/content/src/pdf-extractor.ts:185-209 | in the reshaped document the items select the cells of the grids and the untouched runs of the other pages, in order |
| TableShift.DetectionIsLocal | packages/content/src/pdf-tables.ts:93-113 | wherever a page lands in the document, the same grid is found in it, or none |
| TableShift.TableSays | packages/content/src/pdf-tables.ts:59-71 | the cells of a detected table say exactly the words of their runs from left to right, joined by spaces and trimmed |
| PageShaping.PageSaysItsRuns | packages/content/src/pdf-extractor.ts:198-205 | in the whole text the items of a page say what the runs of that page say |
| PageShaping.PageHoldsItsGrid | packages/content/src/pdf-extractor.ts:186-189 | in the document a page holds the grid it holds on its own |
| PageShaping.PageSaysItsWords | packages/content/src/pdf-extractor.ts:185-209 | each page of the reshaped document says what that page says on its own: its runs, or the cells of its grid |
| PageShaping.SoundLayersSpan | packages/content/src/pdf-extractor.ts:186-205 | a layer from the reader always has each page's items inside that page's text, so copying a slice is safe |
| PdfExtraction.ExtractPdf | packages/content/src/pdf-extractor.ts:244-319 | the classification computes `ExtractionOf`: class, text, items, method, and pages still unread |
| PdfExtraction.ExtractionIsExact | packages/content/src/pdf-extractor.ts:244-319 | whatever the class, the items select, in order, what each page says on its own (its runs, or the joined runs of its grid's cells), the field values, and the tree words of the pages without text; declined if and only if no run of any page carries text and no tree has a word |
| DocumentLayout.AllPagesAre | packages/content/src/pdf-extractor.ts:185-209 | a reshaped document is, page by page, the markdown of the page's grid with one item over each cell, or the page's own text and page break with its own items |
| DocumentLayout.ExtractionLayout | packages/content/src/pdf-extractor.ts:244-319 | the whole text and the place of every item: the native part, then what was recognised and a line break |
| DocumentLayout.ExtractionClass | packages/content/src/pdf-extractor.ts:244-319 | which class and method a document gets, in terms of its pages, fields and recognised text |
| PdfExtraction.UnreadIsExact | packages/content/src/pdf-extractor.ts:285-319 | a page is reported unread if and only if no run of it carries text and none of its images gave a word that can be anchored |
| EndToEnd.AnchorsSurviveTheStore | packages/content/src/anchored-text-store.ts:220-269 | an exact extraction that is written and read back is the same, as it is stored, and selects the same words from the same text |
| EndToEnd.ExtractionSurvivesTheStore | packages/content/src/pdf-extractor.ts:215-319 | so does every extracted document: what is read back selects the words of its runs, cells, fields and recognition trees |
| EndToEnd.ExtractCached | packages/content/src/pdf-extractor.ts:215-240 | consult, else compute and store: the answer and the whole new file map |
| EndToEnd.WriteKeepsCoherent | packages/content/src/pdf-extractor.ts:218-240 | a write of the pipeline's outcome, failed or not, keeps every hit equal to what the pipeline would compute |
| EndToEnd.CacheIsTransparent | packages/content/src/pdf-extractor.ts:215-240 | after any sequence of extractions and listings with any failures, an extraction answers as if there were no store, but for a provenance number that is not finite |
| EndToEnd.ExtractionIsRemembered | packages/content/src/pdf-extractor.ts:215-240 | an extraction that nothing prevents from storing its outcome makes the next read of the key a hit with it |
| EndToEnd.SharedCacheIsTransparent | packages/content/src/pdf-extractor.ts:215-240 | the same with any number of processes, builds and listings, interleaved step by step, failing and crashing: at every moment a hit is what the pipeline computes, as it is stored |
| StorageUri.RunsAreMaximal | packages/content/src/storage-uri.ts:24-25 | the computed spans are exactly the alphanumeric runs that cannot be extended, in order and apart |
| StorageUri.SlugJoinsTheRuns | packages/content/src/storage-uri.ts:21-26 | the slug is the maximal alphanumeric runs of the lower-cased name joined by hyphens; it never starts, ends or doubles a hyphen |
| StorageUri.AlnumIs | packages/content/src/storage-uri.ts:24 | the characters a slug keeps are the digits and the lower-case letters |
| StorageUri.UriJoinsTheRuns | packages/content/src/storage-uri.ts:21-27 | the whole URI is the scheme, the hyphen-joined runs, and the extension |
| StorageUri.SlugFixesExactly | packages/content/src/storage-uri.ts:21-26 | a name that lower-casing leaves alone is its own slug if and only if it has that shape |
| StorageUri.SlugIsIdempotent | packages/content/src/storage-uri.ts:21-26 | slugging twice is slugging once |
| StorageUri.SameUriIff | packages/content/src/storage-uri.ts:21-27 | two resources get one URI if and only if their names have the same runs and their formats the same extension |
| EventLog.ResourceNames | scripts/migrate-event-types.ts:17-39 | old names for creating and cloning a resource keep their verb as yields |
| EventLog.ChangedResourceNames | scripts/migrate-event-types.ts:17-39 | so do updating and moving |
| EventLog.ArchivingNames | scripts/migrate-event-types.ts:17-39 | except archiving and unarchiving, which become marks |
| EventLog.AnnotationNames | scripts/migrate-event-types.ts:17-39 | old annotation names keep their verb as marks |
| EventLog.EntityTagNames | scripts/migrate-event-types.ts:17-39 | so do entity tags |
| EventLog.EmbeddingNames | scripts/migrate-event-types.ts:17-39 | embedding names only change their separator |
| EventLog.JobNames | scripts/migrate-event-types.ts:17-39 | so do job names |
| EventLog.RepresentationNames | scripts/migrate-event-types.ts:17-39 | representations become yields of a representation |
| EventLog.OtherNames | scripts/migrate-event-types.ts:17-39 | the three names outside these families |
| EventLog.RenamingDoesNotChain | scripts/migrate-event-types.ts:17-39 | no new name is an old one, nor a name objects inherit |
| EventPasses.MigrateLine | scripts/migrate-event-types.ts:60-104 | the assignments and deletions compute `Migrate`, including the values a table lookup finds by accident |
| MigratedFields.FlattenedLine | scripts/migrate-event-types.ts:68-84 | a flattened line, field by field: every field of the event unless the envelope has one of that name, every field of the envelope but the event, a truthy signature, metadata without its timestamp only, the type renamed |
| MigratedFields.FlatLine | scripts/migrate-event-types.ts:86-102 | any other line, field by field: only the type and the metadata's timestamp change |
| MigratedFields.SpreadOfObjects | scripts/migrate-event-types.ts:70-71 | an event that is an object is spread with all its fields, `null` with none |
| MigratedFields.FalsyValues | scripts/migrate-event-types.ts:70-87 | a signature or type counts as absent if it is `null`, false, zero or empty |
| MigratedFields.SpreadOfArrays | scripts/migrate-event-types.ts:70-71 | an event that is an array is spread under its indices |
| MigratedFields.StrippedLine | scripts/migrate-strip-chain-metadata.ts:39-64 | chain stripping takes exactly the two fields out of the metadata and touches nothing else |
| MigratedFields.StripsExactlyEmbeddings | scripts/migrate-strip-embedding-events.ts:62-75 | line by line, the two embedding events go and every other line stays where it is among the rest |
| EventPasses.MigrateFile | scripts/migrate-event-types.ts:125-141 | every line stays in its place, the count is that of the changed lines, and an unchanged file is not rewritten |
| EventPasses.StripChainLine | scripts/migrate-strip-chain-metadata.ts:39-64 | the two deletions, and whether anything was deleted |
| EventPasses.StripChainFile | scripts/migrate-strip-chain-metadata.ts:85-104 | every line stays in its place, and the file counts as changed exactly if some line is |
| EventPasses.StripFile | scripts/migrate-strip-embedding-events.ts:57-82 | exactly the embedding events go, they are counted, and an untouched file is not rewritten |
| EventPasses.MigrateIsIdempotentIff | scripts/migrate-event-types.ts:60-104 | a second pass gives the same output if and only if the line is not unstable, and reports a change exactly when it does not |
| EventPasses.FileIsStableIff | scripts/migrate-event-types.ts:126-141 | a file comes out the same the second time if and only if it has no unstable line |
| EventPasses.ChangedDiffers | scripts/migrate-event-types.ts:60-104 | a line reported as changed did change, and only such a line |
| EventPasses.WrappedTwiceIsUnstable | scripts/migrate-event-types.ts:69-85 | an envelope around an event without a type that wraps another is unstable |
| EventPasses.ListTypeIsUnstable | scripts/migrate-event-types.ts:80-89 | so is an envelope around an event whose type is a list that spells a name the table lookup finds, old, inherited or `__proto__` |
| EventPasses.InheritedTypeIsUnstable | scripts/migrate-event-types.ts:86-89 | and a flat line that has an event and metadata beside a type named like an inherited function |
| EventPasses.PassesCommute | scripts/migrate-event-types.ts:60-104 | renaming and chain stripping give the same line in either order |
| EventPasses.StripChainIsIdempotent | scripts/migrate-strip-chain-metadata.ts:14-64 | a second chain stripping changes nothing and says so |
| EventPasses.NoEmbeddingIsLeft | scripts/migrate-strip-embedding-events.ts:18-75 | renamed and then stripped, a log has no embedding event under either naming |
| EventReplay.ReadEvents | scripts/cleanup-missing-storage-events.ts:62-79 | blank and malformed lines are skipped, the others are kept in order |
| EventReplay.ReplayEvents | scripts/cleanup-missing-storage-events.ts:134-152 | the replay loop computes the fold, and throws exactly if an event is `null` |
| EventCleanup.Judge | scripts/cleanup-missing-storage-events.ts:154-166 | the chain of guards computes the verdict on one stream, whose meaning the next rows give |
| EventCleanup.CountVerdict | scripts/cleanup-missing-storage-events.ts:154-166 | one verdict adds one to its counter, or one summary to the list |
| EventCleanup.Scan | scripts/cleanup-missing-storage-events.ts:125-167 | it throws exactly if some stream has a `null` line; otherwise it lists, in order and with location, path and name, exactly the streams whose last location is a missing file and that do not end archived, and counts the streams at home, shelved and homeless, all in terms of the lines alone |
| EventCleanup.VerdictMeans | scripts/cleanup-missing-storage-events.ts:154-166 | each verdict holds exactly of the streams whose lines say so: lost, at home, shelved or homeless |
| EventCleanup.ReplayMeansTheLastWord | scripts/cleanup-missing-storage-events.ts:134-152 | location, archived flag and name after the replay are those of the last line that speaks of each: created and cloned lines by `storageUri` and `name`, moved ones by `toUri` |
| EventReplay.FoldTakesTheLastLocation | scripts/cleanup-missing-storage-events.ts:134-146 | the effective location is the one set last |
| EventReplay.FoldTakesTheLastArchive | scripts/cleanup-missing-storage-events.ts:147-152 | a resource is archived if and only if the last archiving or unarchiving is an archiving |
| EventReplay.OldNamesKeepTheirMeaning | scripts/migrate-event-types.ts:17-39 | an event under one of the five old names the replay reacts to has the effect of its new name |
| EventReplay.OtherOldNamesAreSkipped | scripts/migrate-event-types.ts:17-39 | every other old name stays out of the replay |
| EventReplay.MigrationKeepsTheEffectIff | scripts/migrate-event-types.ts:60-104 | renaming a line keeps what replay sees of its event if and only if no envelope payload disagrees on a field that is read and no type is a non-string that spells a renamed one |
| EventReplay.StrippingIsInvisible | scripts/migrate-strip-embedding-events.ts:57-82 | stripping embedding events leaves every effect the replay sees, in order |
| EventReplay.RewritingKeepsTheEffectsIff | scripts/cleanup-missing-storage-events.ts:134-152 | renaming and chain stripping leave the effects of a whole log as they were if and only if every line keeps its event |
| EventReplay.RewritingPreservesReplay | scripts/cleanup-missing-storage-events.ts:134-152 | all three passes, one after the other: same location, same archived flag, same name, and failure on the same logs, as folding the original events with types read through the table |
| EventCleanup.RewritingPreservesVerdict | scripts/cleanup-missing-storage-events.ts:125-167 | so the cleanup's decision about a stream is the same before and after |
| EventReplay.OverridingEnvelopeLosesTheMove | scripts/migrate-event-types.ts:69-71 | without the condition a move is lost: an envelope payload overrides the event's |
| EventReplay.ListTypeBecomesAnEvent | scripts/migrate-event-types.ts:86-89 | and an archiving appears from a one-element list |

## Left out

- LineCodec.RoundTrip: `0` and `-0` are one number here, so that a decoded `-0` may come back as the `0` of its record is not visible.
- JsonText.ParseStringify: covers values as `JSON.stringify` writes them, without white space; other spellings and the last-one-wins rule for a repeated name are not modelled, and a number is one symbol instead of its digits.
- StorePaths.TempsAreDistinct: says nothing about two writes by one process for one key, because they do share a name; `StoreRuns.SharedTempTearsTheTarget` shows what follows.
- TableGeometry.DetectedColumnsAdvance: assumes that no run has a negative width; `TableGeometry.ColumnsAdvanceIff` shows that no negative width can be allowed, and what holds for every width is `TableGeometry.GutterBeforeEveryCell`.
- TableGeometry.DetectionForgetsOrder: is stated one way, because rows with tied left edges can still agree by accident of their texts; for a single sort the exact condition is `Sorting.SortForgetsOrderIff`.
- TableMarkdown.RenderedTableParsesBack: the reader knows no backslash escapes, since the renderer writes none.
- EventReplay.RewritingPreservesReplay: is stated one way, because a later event can hide a changed one; for the effects themselves the exact condition on whole logs is `EventReplay.RewritingKeepsTheEffectsIff`.
- EventPasses.PassesCommute: compares objects as maps; the order in which fields are written is not modelled.
- StorageUri.SlugIsIdempotent: lower-casing is a parameter assumed to leave hyphen-joined ASCII words alone; Unicode tables are not modelled.
- OcrGeometry.CoversIff: arithmetic is over real numbers, without floating-point rounding.
- StoreProtocol.StepKeepsInv: outside exclusive states, what a writer appends after its temporary file was renamed away by another is dropped, while an open descriptor would follow the rename; directories exist only as prefixes of file paths, so `mkdir` can fail but changes nothing.
- AnchoredTextStore.Store.List: a directory is visited in any order, and one set of paths is inaccessible throughout the call; that files change under a running listing is `StoreListing.ListingIsExact`.
- PdfExtraction.ExtractPdf: the byte limit, parser errors, the pixel budget of images and the OCR confidence summary are not part of the result.
- Halves of surrogate pairs: a character is a Unicode scalar value, so unpaired surrogates and their escapes do not occur, and an offset past a character outside the Basic Multilingual Plane is one less here than in UTF-16 units.
- The bytes of a file: files hold characters, which equals comparing UTF-8 bytes only because the stamp is ASCII.
- pdf.js, tesseract, image decoding and the build stamp: foreign code; their results are inputs.
- Logging, sweep counters, console output, command-line flags, directory walking and the deletion that follows the cleanup's decision.
- `toCells` on a page whose runs overlap so that a later run starts before an earlier wide one ends: cells are what the code cuts, and no disjointness of boxes within a row is claimed.
- The SDK clients, backend bootstrap, frontend, launcher and the compliance and lint scripts: I/O and configuration around the modelled core.
