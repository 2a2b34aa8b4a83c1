# solrindexing: the MMD-to-SolR indexing engine, modelled in Dafny

This project models the core of `src/indexdata.py` from the
`solrindexing` repository. That file reads MMD metadata records (XML
documents already parsed into nested dictionaries) and turns each one into
a flat SolR document. It then classifies each document as a parent or a
child dataset, flips the `isParent` flag of the parents named by children
in the same run, and splits the result into batches of 2500 records for
submission.

The modules follow the program's structure:

- `Documents`: the value tree `xmltodict` produces (`Value`, with `Doc` a
  map from element names to values). It also holds the `Result`/`Error`
  types for Python's exceptions, and `Foreign`, the record of behaviour
  the model takes as parameters: float parsing and formatting, `repr`,
  shapely's WKT output, and, as functions of the checked record, the
  outcome of the date checks of `check_mmd` and of the `tosolr` stages
  this model does not cover.
- `Strings`: the `str` methods the code uses (`startswith`, `endswith`,
  `upper`, `in`, `replace`, `strip`).
- `Zones`: `getZones`, the UTM zone with its Norwegian exceptions.
- `Identifiers`: the rewrite of `:`, `/` and `.` to `-` that makes a
  metadata identifier a SolR id.
- `Converter`: the class `MMD4SolR`.
  - `check_mmd` gives unset required elements the value `Unknown`, then
    runs the controlled-vocabulary check, the GCMD keyword check and the
    date checks. Each of them only warns about content, but a record is
    refused when one of them raises.
  - `tosolr` runs the stages this model covers: identifier,
    `last_metadata_update`, `metadata_status`, geographic extent, related
    (parent) dataset, keywords, and the two default flags. The other
    stages are one parameter step, `Foreign.stages`.
- `LastUpdate`, `Extent`, `Keywords`, `Normalisers`: the larger `tosolr`
  stages.
  - `Extent` covers one rectangle, several rectangles, bounds checks, bbox
    and polygon.
  - `Normalisers` covers the citation `publication_date` repair and
    `platform_sentinel`.
- `IndexMMD`: the value-level parts of class `IndexMMD`
  (`get_feature_type`'s repair of misspelt feature types, and
  `solr_updateparent`).
- `Indexer`: the body of `main`.
  - The per-file loop: strip, `.xml` filter, join, convert, classify.
  - The parent/child reconciliation loop.
  - Chunking into batches.

Each stage of `tosolr` is a function from the parsed record to a `Step`.
A `Step` holds the fields the stage writes, plus the exception it raises,
if any. `MMD4SolR.ToSolr` is the imperative run of the stages and is
proved equal to `Converted`, the composition of the stage functions.
`Converted` runs the modelled stages (`Modelled`), then the stages not
modelled. The entries the latter write are kept only outside the keys
the modelled stages write (`ModelledKeys`), so the modelled stages
decide those keys. Facts about the finished document are lemmas about
`Converted`. A file is kept by the run only when `check_mmd` and
`tosolr` both finish without an exception (`Processed`). Loops in
the source are `while`/`for` loops in methods, each proved equal to a
specification function; the properties the code promises are lemmas about
those functions.

## Model

| member | source | states |
|---|---|---|
| Zones.StandardZoneCovers | src/indexdata.py:111 | every longitude in [-180, 180) lies inside the 6-degree band of its standard zone: zone z covers [6(z-1)-180, 6z-180) |
| Zones.ZoneInRange | src/indexdata.py:97-111 | for every longitude in [-180, 180) and any latitude, the zone is between 1 and 60 |
| Zones.ZoneNearStandard | src/indexdata.py:100-110 | in the Svalbard band (72 to 84 N, 0 to 42 E) the zone is one of 31, 33, 35, 37; in southern Norway (56 to 64 N, 3 to 12 E) it is 32; everywhere else it is the standard zone |
| Identifiers.SanitisedIsClean | src/indexdata.py:402-405 | a sanitised identifier contains no `:`, `/` or `.` |
| Identifiers.SanitisedChars | src/indexdata.py:402-405 | sanitising keeps the length; each illegal character becomes `-`; every other character is kept in place |
| Identifiers.SanitisedKeepsClean | src/indexdata.py:402-405 | an identifier with no illegal character is left as it is |
| Identifiers.SanitisedIdempotent | src/indexdata.py:402-405 | sanitising twice gives the same id as sanitising once |
| Identifiers.SanitiseId | src/indexdata.py:1608-1611 | the chained `replace` calls compute the sanitised id, of the same length, rewriting only the three illegal characters |
| Converter.DefaultedSpec | src/indexdata.py:171-199 | filling defaults keeps the set of keys; afterwards no required element is None; set values and non-required elements are unchanged; filling twice changes nothing more |
| Converter.MMD4SolR.CheckMmd | src/indexdata.py:187-365 | the loop over the required elements leaves the record equal to its defaulted form; the checks then raise exactly what `MmdChecks` gives: the first exception of the vocabulary, GCMD and date checks |
| Converter.ControlledVocabularies | src/indexdata.py:253-274 | the loops over the controlled elements raise `KeyError` on `#text` exactly when some controlled element present is, or lists, a dictionary without text |
| Converter.VocabularyScanSpec | src/indexdata.py:281-290 | the scan of a keyword list raises exactly when an element up to and including the first GCMD one has no vocabulary; elements after the first GCMD one are never read |
| Converter.GcmdCheckSpec | src/indexdata.py:280-297 | a record without keywords raises `KeyError`; a single keyword element passes exactly when it is a dictionary with a vocabulary; a list passes exactly when the scan reads a vocabulary for every element it reaches |
| Converter.GcmdScan | src/indexdata.py:280-297 | the index loop with its `break` gives exactly `GcmdCheck` |
| Converter.CheckedSpec | src/indexdata.py:171-365 | a record passes `check_mmd` exactly when the vocabulary, GCMD and date checks raise nothing; what passes is the defaulted record, with every controlled element readable and keywords present, not None, and readable by the GCMD check |
| Converter.LastParentSpec | src/indexdata.py:830-849 | a parent id found in a list of related datasets is the text of some element tagged `parent`, and no later element is a parent link |
| Converter.NoParentSpec | src/indexdata.py:830-849 | when the scan finds nothing, no element of the list is a parent link |
| Converter.LastParentPersist | src/indexdata.py:836-843 | once an element of the list raises, the scan of the whole list raises that same exception: later elements cannot mask it |
| Converter.FindParent | src/indexdata.py:836-843 | the loop over the related-dataset list returns what `LastParent` returns: the text of the last parent reference, none, or the exception raised |
| Converter.Identifier | src/indexdata.py:396-408 | the identifier stage yields `IdStep`: the identifier and its sanitised id, or the `KeyError`/`AttributeError` of a missing or non-text identifier |
| Converter.RelatedDataset | src/indexdata.py:830-849 | the related-dataset stage yields `RelatedStep`: both reference fields for a record naming a parent, nothing when there is none, the exception otherwise |
| Converter.InvalidRectangleRefused | src/indexdata.py:610-643 | a record whose geographic extent is a dictionary holding a rectangle (whatever else it holds) that the single-rectangle checks refuse never converts |
| Converter.ConvertedSpec | src/indexdata.py:396-408 | a converted document has `metadata_identifier` equal to the record's identifier and an `id` that is its sanitised form with no illegal character; `related_dataset` is present exactly when the record names a parent, and then `related_dataset_id` is its sanitised form; `isParent` and `isChild` are `false`; the stages not modelled raised nothing, and every other entry is exactly what they wrote |
| Converter.ConvertedKeepsOthers | src/indexdata.py:366-1097 | an entry outside the modelled keys is in the converted document exactly when a stage not modelled wrote it, with that value |
| Converter.MMD4SolR.ToSolr | src/indexdata.py:366-1097 | running the stages of `tosolr` gives exactly `Converted`: the first exception raised, or the union of the stage outputs plus the default flags |
| LastUpdate.WithZsSpec | src/indexdata.py:433-439 | after the `Z` pass every datetime ends in `Z`; one that already did is unchanged, any other gets exactly one `Z`; a second pass changes nothing more |
| LastUpdate.AppendZ | src/indexdata.py:433-439 | the counter loop that rewrites `lmu_datetime[i-1]` gives the `Z`-terminated list |
| LastUpdate.UpdateFieldsParallel | src/indexdata.py:410-442 | the datetime, type and note lists have one entry per update, and entry j of each comes from update j |
| LastUpdate.MissingNoteNotProvided | src/indexdata.py:424-428 | in a repeated update an element without a note is recorded as `Not provided` |
| LastUpdate.EntriesOneEach | src/indexdata.py:420-428 | every element of a repeated update contributes exactly one entry, in order |
| LastUpdate.LastMetadataUpdate | src/indexdata.py:410-442 | the stage's loops give exactly `LastUpdateStep`: the three parallel lists, nothing when the element is absent, and the exception when an element lacks its datetime or type |
| Extent.ViolationIffInvalid | src/indexdata.py:628-643 | the bounds checks find a violation exactly when the bounds are not valid: each latitude in [-90, 90], each longitude in [-180, 180], north >= south, east >= west |
| Extent.SingleRectangleMissing | src/indexdata.py:610-615 | a rectangle with any element None raises the `Missing spatial bounds` warning, having written only metadata status Inactive |
| Extent.SingleRectangleRejects | src/indexdata.py:628-643 | for a rectangle whose bounds all parse, a warning is raised exactly when the bounds are invalid, and then the record is marked Inactive |
| Extent.SingleRectangleAccepted | src/indexdata.py:617-670 | a complete, valid rectangle raises nothing and writes its four bounds, its srsName, the ENVELOPE of the bounds as written and its shape |
| Extent.AcceptedBounds | src/indexdata.py:617-650 | an accepted rectangle's bounds are stored as parsed, `bbox` is the given ENVELOPE, and the record is not marked Inactive |
| Extent.AcceptedShape | src/indexdata.py:653-670 | a rectangle collapsed to a point yields that point; one with south equal to north but east differing from west yields no shape; any other yields the clockwise west/south/east/north box |
| Extent.HasMissingBound | src/indexdata.py:610-615 | the scan over the rectangle's elements reports true exactly when one of them is None |
| Extent.FlattenRectangles | src/indexdata.py:563-571 | the loop over several rectangles collects the per-direction readings `Flattened` specifies |
| Extent.MultiRectangleBounds | src/indexdata.py:573-578 | with several rectangles each bound written is one of the values read: north and east the largest, south and west the smallest, bounding every reading |
| Extent.FlatBoundsWritten | src/indexdata.py:573-577 | with several rectangles the four bounds written are the flattened maxima and minima, and `bbox` is the ENVELOPE of their formatted west, east, north and south |
| Extent.LastShapeSpec | src/indexdata.py:579-596 | the shape choice reads the last element's own rectangle: a point at its east and north when its north equals its south and its east equals its west; no shape when only north equals south; otherwise the counter-clockwise box of the flattened bounds |
| Extent.MultiRectangleShape | src/indexdata.py:573-596 | with several rectangles the stage raises exactly when the shape choice does; `polygon_rpt` is then the WKT text of the chosen shape, absent when there is none |
| Extent.MultiRectangleWorld | src/indexdata.py:557-608 | with no latitude or no longitude read, the whole globe is written and nothing is raised |
| Extent.ExtentKeys | src/indexdata.py:557-670 | the extent stage writes only bound, bbox, polygon, srsName and status fields |
| Extent.GeographicExtent | src/indexdata.py:557-670 | the stage as written gives exactly `ExtentStep` |
| Keywords.ListsSpec | src/indexdata.py:915-957 | the keyword and vocabulary lists stay parallel, and the GCMD list is exactly the keywords whose vocabulary is GCMDSK |
| Keywords.GcmdAmongKeywords | src/indexdata.py:915-957 | every GCMD keyword is also listed as a keyword |
| Keywords.GcmdNoLonger | src/indexdata.py:915-957 | the GCMD list is never longer than the keyword list |
| Keywords.AddAllAppend | src/indexdata.py:915-957 | adding two runs of keywords one after the other is the same as adding their concatenation |
| Keywords.DictListTakesText | src/indexdata.py:928-933 | of a single keyword list only the text items are taken, each one an item of that list |
| Keywords.Keywords | src/indexdata.py:915-957 | the nested keyword loops give exactly `KeywordsStep` |
| Normalisers.FixPublicationDateSpec | src/indexdata.py:1058-1066 | every repaired date carries a time of day and is in UTC (it holds a `Thh:mm:ssZ` time or ends in `Z`); a malformed `Thh:mm:ss:ffZ` time is replaced and none is left; a time without a final `Z` gets exactly one appended; a date without a time gets `T12:00:00Z`; a well-formed UTC datetime is unchanged |
| Normalisers.PublicationDateWritten | src/indexdata.py:1056-1067 | a written publication date carries a time; None and `Not Available` dates are skipped |
| Normalisers.PlatformSentinelSpec | src/indexdata.py:1019-1022 | `platform_sentinel` is set exactly when the first platform name starts with `Sentinel`, and is that name without its last character |
| Normalisers.PlatformSentinelNeedsNames | src/indexdata.py:1020 | with no `platform_long_name` collected, the lookup raises `KeyError` |
| IndexMMD.CanonicalFeatureTypeSpec | src/indexdata.py:1384-1398 | the result is a valid feature type exactly when the input was valid or one of the three repaired misspellings; valid names are kept; misspellings become `timeSeries`; other text is returned unchanged |
| IndexMMD.CanonicalFeatureTypeIdempotent | src/indexdata.py:1384-1398 | repairing twice changes nothing more |
| IndexMMD.SolrUpdateParent | src/indexdata.py:1425-1444 | the parent loses exactly the index-internal fields, gains `isParent` True, and keeps every other field |
| IndexMMD.UpdatedParentIdempotent | src/indexdata.py:1425-1444 | updating a parent twice gives the same document |
| Indexer.CandidateSpec | src/indexdata.py:1530-1537 | a name is processed exactly when its stripped form ends in `.xml`; the path ends with that name, and equals it when no directory is given |
| Indexer.WithoutNpiKeeps | src/indexdata.py:1600-1603 | a reference holding none of the three NPI prefixes and no `.xml` is left unchanged by the clean-up |
| Indexer.ClassifySpec | src/indexdata.py:1598-1618 | a document is skipped exactly when its cleaned parent reference contains `doi.org`; a child gets the cleaned reference, `isChild` true, Level-2 and a clean parent id; a parent gets `isParent` false and Level-1; only these keys are added |
| Indexer.AdmitRecord | src/indexdata.py:1598-1621 | classifying and appending one document gives exactly `Admit`: it updates the list, the parent-id set and the thumbnail flag |
| Indexer.ProcessFile | src/indexdata.py:1530-1584 | reading, checking and converting one file gives exactly `Processed`: nothing when the name is not an `.xml` file, the read fails, `check_mmd` raises or `tosolr` raises; otherwise the converted document, which has the converted shape |
| Indexer.ProcessedNeedsChecks | src/indexdata.py:1563-1584 | a file that was read is kept exactly when its record passes `check_mmd` and converts; a kept record had keywords, the GCMD check raised nothing and the stages not modelled raised nothing |
| Indexer.KeywordlessDropped | src/indexdata.py:280-297 | a file whose record has no keywords, or a single keyword element without a vocabulary, yields no document |
| Indexer.ThumbnailFlagFromStages | src/indexdata.py:1587-1590 | after a kept record the thumbnail flag is true exactly when thumbnails are wanted and a stage of `tosolr` wrote `data_access_url_ogc_wms` |
| Indexer.GatherWell | src/indexdata.py:1529-1621 | after the file loop every gathered record is admissible; a parent id is collected exactly when some gathered child names it; there are no more records than files |
| Indexer.ReconciledSpec | src/indexdata.py:1624-1649 | reconciliation keeps the length, the ids and the order; every record whose id was named by a child has `isParent` true; every other record is unchanged; a freshly classified record named by a child just gains `isParent` true |
| Indexer.ReconciledAbsent | src/indexdata.py:1625-1629 | a parent id that names no record in the batch changes nothing |
| Indexer.PassMarks | src/indexdata.py:1636-1649 | a pass for an identifier not yet handled flags exactly the records it names, on top of those already flagged |
| Indexer.FlagPass | src/indexdata.py:1636-1649 | the inner loop, with its index advanced on every record, flags every record with the given id and leaves the others unchanged |
| Indexer.Reconcile | src/indexdata.py:1624-1649 | the loop over the parent ids gives exactly `Reconciled` |
| Indexer.AsWrittenSkipsFlag | src/indexdata.py:1639-1649 | the counter as written: after a record that is already a Level-1 parent, later updates land on the wrong record |
| Indexer.AsWrittenAgrees | src/indexdata.py:1624-1649 | with no record already a parent and distinct parent ids, the loop as written and the corrected one agree |
| Indexer.GatheredAgrees | src/indexdata.py:1529-1649 | on the records the file loop itself gathers, the loop as written and the corrected one agree |
| Indexer.ChunksSpec | src/indexdata.py:1661-1674 | the batches, concatenated, give back the records; each holds 1 to 2500 records; all but the last are full; their number is the ceiling of n/2500 |
| Indexer.Batches | src/indexdata.py:1661-1674 | the chunking loop gives exactly `Chunks`, and its record count equals the number of records |
| Indexer.IndexFiles | src/indexdata.py:1446-1674 | the run submits exactly the batches of the gathered records after reconciliation; every gathered record carries an id and a dataset type; the thumbnail flag is the one set by the last kept record (false when none was kept); a run with no records submits nothing |

## Left out

- XML parsing (`xmltodict`), opening the file and the file-list file: the file reader is a parameter `read` of the run, and a record is the already-parsed dictionary under `mmd:mmd`.
- Python's `float()`, float formatting, `repr` and the WKT output of shapely: the model takes them as the parameter record `Foreign`. Bounds are reals, so NaN, infinities and rounding are not modelled.
- The date checks of `check_mmd` (lines 304-365) use `dateutil`. The model takes the exception they raise as the parameter `Foreign.dateChecks`. It leaves out their in-place rewrite of `mmd:temporal_extent`. Only the stages not modelled read that element, and they are a parameter of the record themselves.
- Converter.GcmdCheck: `str.upper()` is modelled on ASCII letters. Python also upper-cases other letters (`ſ` becomes `S`), so such a vocabulary could make the real scan stop earlier.
- The other schema-mapping stages of `tosolr` are one parameter step, `Foreign.stages`: titles, abstracts (whose lookups at lines 467 and 489 raise `KeyError` when absent), temporal extent, personnel, data access, storage and the rest. Its raise refuses the record and its entries enter the document. The `platform_sentinel` and `publication_date` repairs are modelled as standalone functions; the platform and citation loops around them are not.
- Converter.Converted: the stages not modelled run interleaved with the modelled ones in `tosolr`. The model runs them after the modelled stages. When stages of both kinds raise, the model reports the modelled stage's exception; `main` logs it and drops the record either way. The model also drops any entry of theirs under a modelled key. Only the `data_center` loop names entries after the record's own element names (line 797), so only it could reach such a key.
- netCDF probing in `get_feature_type` (network I/O), WMS and time-series thumbnails, `pysolr` and `index_record`. The live-index lookup after the `continue` at line 1629 is dead code, so the model leaves it out. `solr_updateparent` is modelled only as a value.
- Logging, configuration parsing, command-line arguments, `sys.exit` (an empty run returns no batches) and the `fileno` progress counter.
- Dictionary insertion order: `Doc` is an unordered map. Python's `\d` is modelled as ASCII digits.
- Converter.ConvertedSpec: when a stage raises, the fields the stages wrote up to that point are not modelled. `tosolr` discards its partial dictionary when it raises, so a raise yields only the exception.
- Converter.MMD4SolR.ToSolr: `tosolr` builds `mydict` in place. The model builds it as a map value whose shape follows the stage order.
- IndexMMD.SolrUpdateParent: `solr_updateparent` pops keys from its argument in place. The model returns the updated document and leaves aliasing out.
- IndexMMD.CanonicalFeatureTypeSpec: the code returns unrecognised feature types unchanged, and the model follows it.
- Indexer.Reconciled: requires every record to carry `id` and `dataset_type`. The source reads `dataset_type` only for records already flagged; every record the file loop gathers has both fields (`GatherWell`).
- Indexer.IndexFiles: each record of a batch is submitted by `index_record`, whose failures are only logged; the model's result is the sequence of batches handed to it.

## Findings

| source | as written | input that shows it | evidently intended | confidence | as-written member | corrected member |
|---|---|---|---|---|---|---|
| src/indexdata.py:1641 | the `continue` for a record that is already a Level-1 parent skips `i += 1`, so every later update for that id lands on the record one place too early | records [a, b], both with id `a`; a has `isParent` `true` and Level-1, b has `isParent` `false`; parent ids {`a`}: b is never flagged | every record whose id a child names ends with `isParent` true | not executed; `Indexer.GatheredAgrees` shows that the records `main` itself gathers never reach this branch | Indexer.AsWrittenSkipsFlag | Indexer.ReconciledSpec |
