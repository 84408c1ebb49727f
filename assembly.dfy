/**
 * The run over all records (`PrepECG.Preprocessing`) and the flattening of the
 * dictionary into parallel `Data` and `Label` lists, as specification functions.
 */
module Assembly {
  import opened Wrappers
  import opened Annotations
  import opened Labels
  import opened Segmentation

  /** What the file readers supply for one record: the signal and the raw
      annotation table. */
  datatype RecordData = RecordData(ecg: seq<int>, anno: seq<Row>)

  /** Why a run aborts: a record whose files cannot be read, or an annotation
      table without rows (the fill reads row 0 unconditionally). */
  datatype PrepError = MissingRecord(id: int) | EmptyAnnotation(id: int)

  /** The MIT-BIH record numbers, in the order they are processed. */
  const MitBihRecords: seq<int> :=
    [100, 101, 102, 103, 104,
     105, 106, 108, 109,
     111, 112, 113, 114, 115,
     116, 117, 118, 119, 120,
     121, 122, 123, 124,
     200, 201, 202, 203, 205,
     207, 208, 209, 210,
     212, 213, 214, 215, 217,
     219, 220, 221, 222, 223,
     228, 230, 231, 232, 233,
     234]

  /** The half-window radius `dist_r`, in samples. */
  const DistR: nat := 180

  /** A record the run cannot get past: its files are missing, or its table
      has no rows. */
  predicate Bad(inputs: map<int, RecordData>, id: int)
  {
    id !in inputs || |inputs[id].anno| == 0
  }

  function ErrorFor(inputs: map<int, RecordData>, id: int): PrepError
  {
    if id !in inputs then MissingRecord(id) else EmptyAnnotation(id)
  }

  /** The rest of the run from record `n` on, given the dictionary the
      records before `n` left: each record's table is forward-filled and the
      record is segmented into the dictionary; the first unreadable record
      aborts the run. */
  function AssembleFrom(inputs: map<int, RecordData>, ids: seq<int>, d: nat, n: nat, dict: SegMap)
    : (r: Result<SegMap, PrepError>)
    requires n <= |ids| && HasBuckets(dict)
    ensures r.Success? ==> HasBuckets(r.value)
    decreases |ids| - n
  {
    if n == |ids| then Success(dict)
    else if Bad(inputs, ids[n]) then Failure(ErrorFor(inputs, ids[n]))
    else
      var rec := inputs[ids[n]];
      AssembleFrom(inputs, ids, d, n + 1, SegECG(rec.ecg, Filled(rec.anno), d, dict))
  }

  /** The whole run: all records, starting from `InitSeg()`. It fails exactly
      when some record is unreadable; otherwise the dictionary has exactly the
      keys N, AF and O. */
  function Assemble(inputs: map<int, RecordData>, ids: seq<int>, d: nat): (r: Result<SegMap, PrepError>)
    ensures r.Success? ==> HasBuckets(r.value)
    ensures r.Failure? <==> exists k :: 0 <= k < |ids| && Bad(inputs, ids[k])
  {
    AssembleFailsIffBadRecord(inputs, ids, d, 0, InitSeg());
    AssembleFrom(inputs, ids, d, 0, InitSeg())
  }

  /** The rest of the run fails exactly when one of the remaining records is
      unreadable. */
  lemma {:induction false} AssembleFailsIffBadRecord(inputs: map<int, RecordData>, ids: seq<int>, d: nat,
                                                     n: nat, dict: SegMap)
    requires n <= |ids| && HasBuckets(dict)
    ensures AssembleFrom(inputs, ids, d, n, dict).Failure? <==> exists k :: n <= k < |ids| && Bad(inputs, ids[k])
    decreases |ids| - n
  {
    if n < |ids| && !Bad(inputs, ids[n]) {
      var rec := inputs[ids[n]];
      AssembleFailsIffBadRecord(inputs, ids, d, n + 1, SegECG(rec.ecg, Filled(rec.anno), d, dict));
      if k :| n <= k < |ids| && Bad(inputs, ids[k]) {
        assert k > n;
      }
    }
  }

  /** A failed run reports the first unreadable record. */
  lemma {:induction false} AssembleErrorIsFirstBad(inputs: map<int, RecordData>, ids: seq<int>, d: nat,
                                                   n: nat, dict: SegMap, k: nat)
    requires n <= k < |ids| && HasBuckets(dict) && Bad(inputs, ids[k])
    requires forall j :: n <= j < k ==> !Bad(inputs, ids[j])
    ensures AssembleFrom(inputs, ids, d, n, dict) == Failure(ErrorFor(inputs, ids[k]))
    decreases |ids| - n
  {
    if n < k {
      assert !Bad(inputs, ids[n]);
      var rec := inputs[ids[n]];
      var next := SegECG(rec.ecg, Filled(rec.anno), d, dict);
      assert AssembleFrom(inputs, ids, d, n, dict) == AssembleFrom(inputs, ids, d, n + 1, next);
      AssembleErrorIsFirstBad(inputs, ids, d, n + 1, next, k);
    }
  }

  /** Records are threaded in order: whatever the earlier records stored in a
      list stays at its front until the end of a successful run. */
  lemma {:induction false} AssembleKeepsRecordOrder(inputs: map<int, RecordData>, ids: seq<int>, d: nat,
                                                    n: nat, dict: SegMap, l: BeatLabel)
    requires n <= |ids| && HasBuckets(dict) && l in Buckets
    requires AssembleFrom(inputs, ids, d, n, dict).Success?
    ensures dict[l] <= AssembleFrom(inputs, ids, d, n, dict).value[l]
    decreases |ids| - n
  {
    if n < |ids| {
      var rec := inputs[ids[n]];
      var next := SegECG(rec.ecg, Filled(rec.anno), d, dict);
      SegECGAppendsOnly(rec.ecg, Filled(rec.anno), d, dict, l);
      AssembleKeepsRecordOrder(inputs, ids, d, n + 1, next, l);
      PrefixIsTransitive(dict[l], next[l], AssembleFrom(inputs, ids, d, n + 1, next).value[l]);
    }
  }

  lemma PrefixIsTransitive<T>(a: seq<T>, b: seq<T>, c: seq<T>)
    requires a <= b && b <= c
    ensures a <= c
  {
    assert b[..|a|] == a;
  }

  /** The flat training set: segments and their labels, index by index. */
  datatype Dataset = Dataset(data: seq<Segment>, labels: seq<BeatLabel>)

  function Repeat(l: BeatLabel, n: nat): (s: seq<BeatLabel>)
  {
    seq(n, _ => l)
  }

  /** Where label `l`'s segments start in the flat lists: N first, then AF,
      then O. */
  function Offset(dict: SegMap, l: BeatLabel): nat
    requires HasBuckets(dict)
  {
    if l == N then 0
    else if l == AF then |dict[N]|
    else |dict[N]| + |dict[AF]|
  }

  /** Flatten the dictionary into `Data` and `Label`. The two lists have the
      same length; every entry of `Data` is a segment of the bucket its
      `Label` entry names, at its place in that bucket; and every segment of every
      bucket appears, in bucket order N, AF, O (`FlattenKeepsEverySegment`). */
  function Flatten(dict: SegMap): (ds: Dataset)
    requires HasBuckets(dict)
    ensures |ds.data| == |ds.labels| == |dict[N]| + |dict[AF]| + |dict[O]|
    ensures forall i :: 0 <= i < |ds.data| ==>
      ds.labels[i] in Buckets &&
      Offset(dict, ds.labels[i]) <= i < Offset(dict, ds.labels[i]) + |dict[ds.labels[i]]| &&
      ds.data[i] == dict[ds.labels[i]][i - Offset(dict, ds.labels[i])]
  {
    Dataset(dict[N] + dict[AF] + dict[O],
            Repeat(N, |dict[N]|) + Repeat(AF, |dict[AF]|) + Repeat(O, |dict[O]|))
  }

  /** Conversely, no segment is lost: the `k`-th segment of bucket `l` sits at
      `Offset(dict, l) + k` in `Data`, labelled `l`. */
  lemma FlattenKeepsEverySegment(dict: SegMap, l: BeatLabel, k: nat)
    requires HasBuckets(dict) && l in Buckets && k < |dict[l]|
    ensures var ds := Flatten(dict);
      Offset(dict, l) + k < |ds.data| &&
      ds.labels[Offset(dict, l) + k] == l &&
      ds.data[Offset(dict, l) + k] == dict[l][k]
  {
    var ds := Flatten(dict);
    var i := Offset(dict, l) + k;
    assert ds.data[i] == dict[ds.labels[i]][i - Offset(dict, ds.labels[i])];
  }

  /** The result of the whole script: the run over every record, flattened.
      It fails exactly when one of the 48 records is unreadable; otherwise
      `Label` and `Data` are parallel and every label names a bucket. */
  function BuildDataset(inputs: map<int, RecordData>): (r: Result<Dataset, PrepError>)
    ensures r.Failure? <==> exists k :: 0 <= k < |MitBihRecords| && Bad(inputs, MitBihRecords[k])
    ensures r.Success? ==> |r.value.data| == |r.value.labels|
    ensures r.Success? ==> forall i :: 0 <= i < |r.value.labels| ==> r.value.labels[i] in Buckets
  {
    match Assemble(inputs, MitBihRecords, DistR)
    case Success(dict) => Success(Flatten(dict))
    case Failure(e) => Failure(e)
  }
}
