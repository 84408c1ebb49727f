# ECG beat segmentation, modelled in Dafny

This project models the core of the ECG preprocessing script `preprocessing.py`:
the class `PrepECG`, which turns MIT-BIH records into labelled heartbeat
segments for training a classifier. The model covers four pieces:

- **Episode forward-fill** (`Anno_Epi`). Each annotation row carries a beat position
  (`Sample #`) and, at episode changes only, a rhythm marker (`Aux`). One pass from
  row 1 onwards gives every row without a marker the marker of the row before it.
  Row 0 seeds the fill as it is, even when its own marker is null.
- **Beat classification** (`label_converter`). An exact, case-sensitive lookup maps
  `(N` to N, the three AF codes to AF and the fifteen other rhythm codes to O.
  Anything else, and a null marker, is unclassified. The source returns `0` for
  this case; the model uses the constructor `Unclassified`.
- **Segmentation** (`InitSeg`, `SegECG`). The beats are walked in table order.
  A beat at `r` is eligible when `dist_r < r` and `r + dist_r < len(ECG)`.
  - The first eligible beat of a record yields `ECG[r-dist_r .. r+dist_r)`.
  - Each later eligible beat yields `ECG[prev_r+dist_r .. r+dist_r)`, which is
    empty when `r <= prev_r`, two rows with the same `Sample #` included.
  - The window is appended to its label's list. An unclassified beat stores
    nothing, but it still moves the cursor `prev_r`.
- **Assembly** (`Preprocessing` and the script lines that build `Label` and
  `Data`). One dictionary is threaded through the 48 records in order. It is
  then flattened into parallel lists, N first, then AF, then O.

Modules:
- `Wrappers` holds `Option` and `Result`.
- `Annotations`, `Labels`, `Segmentation` and `Assembly` hold the specification
  functions and the lemmas about them.
- `Prep` holds the imperative side:
  - the class `SegDict`, whose lists grow in place;
  - the class `PrepECG`, with `AnnoEpi`, `SegECG` and `Preprocessing` as methods
    with loops, each proved against the specification functions;
  - `MakeDataset`, the script at the end of the file.
- `Scenarios` holds worked examples: lemmas about small, fixed inputs.

Inputs that the source reads from files are given as values. The model takes a
map from record number to `RecordData(ecg, anno)`. The signal is `seq<int>`. The
table is a sequence of `Row(sample, aux)`, where `aux` is an `Option<string>`.

Two behaviours are modelled as errors because the source fails on them. A
record with no entry in the map stands for a file that cannot be read
(`MissingRecord`). A table without rows makes `Anno_Epi` fail, because it reads
row 0 unconditionally (`EmptyAnnotation`). Either one aborts the run at the
first such record, as an uncaught exception does in the source.

`Scenarios.OneRecordScenario` works through one record: 1000 samples,
`dist_r = 180`, and beats at 50, 200, 500, 900 and 950 marked `(N`, `(N`,
`(AF`, `(O` and `(N`. Only the beats at 200 (N) and 500 (AF) produce segments.
The beats at 50 and 950 are too close to the ends of the signal, and so is the
beat at 900, because `900 + 180` is not below 1000 (preprocessing.py:93). Its
marker `(O` is not one of the O codes either (preprocessing.py:65-68).

## Model

| member | source | states |
|---|---|---|
| `Annotations.Latest` | preprocessing.py:49-57 | the running `epi`: a row that has its own marker keeps it; any other row takes the value of the row before it, and row 0 seeds the fill |
| `Annotations.LatestIsFromEarlierRow` | preprocessing.py:49-57 | the marker a row ends up with is the marker of some row at or before it, and it is null only when no row in `1..i` has a marker |
| `Annotations.Filled` | preprocessing.py:49-57 | the fill keeps the row count and every sample position, leaves row 0 and every row that has a marker unchanged, and changes only `Aux` |
| `Annotations.FilledIsNearestMarker` | preprocessing.py:49-57 | a row `i >= 1` ends up with the marker of the nearest row `j` in `1..i` that has one |
| `Annotations.FilledBeforeFirstMarker` | preprocessing.py:49-50 | rows before the first marker at a row `>= 1` hold row 0's own marker, null included |
| `Annotations.FilledHasMarkerAfterFirst` | preprocessing.py:52-57 | after the first marker at a row `>= 1`, no row is left null |
| `Annotations.FilledIsIdempotent` | preprocessing.py:52-57 | filling an already filled table changes nothing |
| `Labels.LabelConverter` | preprocessing.py:60-71 | a null marker is unclassified, and a marker is N exactly when it is the string `(N` |
| `Labels.LabelConverterMatchesCodes` | preprocessing.py:60-71 | a marker maps to N, AF or O exactly when it is one of that label's codes; it is unclassified exactly when it is null or in no code list |
| `Labels.CodesAreDisjoint` | preprocessing.py:61-68 | no code belongs to two labels, so the order of the tests does not matter |
| `Segmentation.InitSeg` | preprocessing.py:73-77 | the dictionary has exactly the keys N, AF and O, each with an empty list |
| `Segmentation.Eligible` | preprocessing.py:93 | an eligible beat's window `[r-dist_r, r+dist_r)` lies inside the signal, and no beat is eligible in a signal of `2*dist_r + 1` samples or fewer |
| `Segmentation.Window` | preprocessing.py:94-99 | the first window has `2*dist_r` samples starting at `r-dist_r`; a later one has `r-prev_r` samples (none if `r <= prev_r`) starting at `prev_r+dist_r`; every index is inside the signal |
| `Segmentation.FirstRowWith` | preprocessing.py:101 | the lookup finds the first row with the beat's sample position, or reports that there is none |
| `Segmentation.LabelAt` | preprocessing.py:101 | a beat's label is the classified marker of a row at or before it with the same position, and of its own row when no earlier row shares the position |
| `Segmentation.LabelIsFromFirstMatchingRow` | preprocessing.py:101 | a beat's label is the classified marker of the first row that has its position |
| `Segmentation.Step` | preprocessing.py:92-108 | an ineligible beat changes nothing; an eligible beat moves the cursor to itself whatever its label; a classified one appends its window to its own list and leaves the other lists alone |
| `Segmentation.Run` | preprocessing.py:90-108 | after any number of beats, the dictionary still has exactly the keys N, AF, O and the cursor is at its start or on an eligible beat |
| `Segmentation.SegECG` | preprocessing.py:79-110 | segmenting a record keeps the dictionary's keys N, AF, O |
| `Segmentation.RunAppendsOnly` | preprocessing.py:100-105 | each list after `m` beats is a prefix of the same list after `n >= m` beats, and it grew by exactly the number of eligible beats of that label in between |
| `Segmentation.SegECGAppendsOnly` | preprocessing.py:105 | a record's segmentation keeps every earlier segment and adds one per eligible classified beat of the label |
| `Segmentation.CursorTracksLastEligible` | preprocessing.py:90-100 | the first-beat flag is set iff some beat so far was eligible; `prev_r` is then the position of the last eligible beat, classified or not |
| `Segmentation.FirstAcceptedWindow` | preprocessing.py:94-96 | the first eligible beat of a record, if classified, stores `ECG[r-dist_r .. r+dist_r)` |
| `Segmentation.LaterAcceptedWindow` | preprocessing.py:97-103 | a later classified eligible beat stores the span from the previous eligible beat's trailing edge, even when that beat was unclassified |
| `Assembly.Assemble` | preprocessing.py:112-119 | the run over all records from `InitSeg()` fails exactly when some record is missing or has an empty table; otherwise its dictionary has exactly the keys N, AF, O |
| `Assembly.AssembleFrom` | preprocessing.py:113-119 | a successful run from any record on, started from a dictionary with exactly the keys N, AF, O, ends with a dictionary with exactly those keys |
| `Assembly.AssembleFailsIffBadRecord` | preprocessing.py:114-118 | the rest of the run fails iff one of the remaining records is missing or has an empty table |
| `Assembly.AssembleErrorIsFirstBad` | preprocessing.py:114-118 | a failed run reports the error of the first unreadable record; the records after it are never reached |
| `Assembly.AssembleKeepsRecordOrder` | preprocessing.py:113-119 | records are threaded in order: whatever the earlier records stored in a list stays at its front until the end of a successful run |
| `Assembly.Flatten` | preprocessing.py:130-131 | `Label` and `Data` have the same length; each `Data[i]` is the segment of the bucket `Label[i]` names, at its place in that bucket, with N before AF before O |
| `Assembly.FlattenKeepsEverySegment` | preprocessing.py:130-131 | every segment of every bucket appears in `Data` at its bucket's offset plus its index, with its bucket's label |
| `Assembly.BuildDataset` | preprocessing.py:128-131 | the script fails exactly when one of the 48 records is unreadable; otherwise `Label` and `Data` have the same length and every label names a bucket |
| `Prep.SegDict.constructor` | preprocessing.py:73-77 | a new dictionary is `InitSeg()` |
| `Prep.SegDict.Append` | preprocessing.py:105 | the segment goes to the end of its label's list; nothing else changes |
| `Prep.PrepECG.constructor` | preprocessing.py:8-21 | the record list is the 48 MIT-BIH records in source order, and `dist_r` is 180 |
| `Prep.PrepECG.ReadAnno` | preprocessing.py:33-41 | the table handed over is a fresh array holding the record's rows in order |
| `Prep.PrepECG.AnnoEpi` | preprocessing.py:43-58 | the array afterwards is the filled table; an empty table is reported as a failure |
| `Prep.PrepECG.SegECG` | preprocessing.py:79-110 | the dictionary afterwards is the specification's segmentation of the record applied to the dictionary before |
| `Prep.PrepECG.SegmentRecord` | preprocessing.py:116-118 | a record with rows is forward-filled and segmented into the dictionary; a record with an empty table fails and leaves the dictionary unchanged |
| `Prep.PrepECG.Preprocessing` | preprocessing.py:112-119 | a fresh dictionary is threaded through all records in order; the result or error is the one `Assemble` gives |
| `Prep.MakeDataset` | preprocessing.py:128-131 | the script's `Data` and `Label` are the flattening of the full run, or the run's error |
| `Scenarios.NodIsOther` | preprocessing.py:61-68 | `(NOD` is not the N code `(N` but one of the O codes, so the exact lookup makes it O |
| `Scenarios.UnlistedIsUnclassified` | preprocessing.py:60-71 | the lower-case `(n` and a null marker are unclassified |
| `Scenarios.NullSeedScenario` | preprocessing.py:49-57 | with a null row 0 and the first marker `(AFIB` on row 4, rows 0-3 stay null and unclassified and rows 4-5 are AF |
| `Scenarios.OneRecordScenario` | preprocessing.py:87-108 | with 1000 samples, `dist_r = 180` and beats at 50, 200, 500, 900, 950, N holds `ECG[20..380)`, AF holds `ECG[380..680)` and O is empty |

## Left out

- `ReadECG` and the file reading inside `ReadAnno` (`scipy.io.loadmat` and `pandas.read_fwf`): replaced by the `inputs` map. A missing record stands for any read failure; `ReadAnno` only copies the given rows into a fresh array.
- `Graph_ECG`: plotting, with no effect on the data.
- The `pickle.dump` calls and the `print` of each record number: persistence and logging.
- pandas mechanics: `iloc`, `_set_value` and the boolean-mask lookup become array and sequence indexing. The model assumes the table's default row index, so that row labels equal positions.
- The numeric type of samples: the code does no arithmetic on them, so they are integers.
- `SegECG` returning the dictionary it was given: the dictionary is mutated in place and the caller keeps the same object, so the return value is not modelled separately.
- A per-record quota on segments per label and the removal of empty segments: `preprocessing.py` does neither, so the model does not either.
- The SegDict keys and the `Label` entries are the strings `'N'`, `'AF'`, `'O'` in the source; the model uses the constructors `N`, `AF`, `O`.
