/**
 * The imperative side of the pipeline: the dictionary of segment lists that
 * `SegECG` appends to in place, and the `PrepECG` object whose methods
 * overwrite the annotation table, cut the segments and loop over the records.
 * Each method is proved against the specification functions of the other
 * modules.
 */
module Prep {
  import opened Wrappers
  import opened Annotations
  import opened Labels
  import opened Segmentation
  import opened Assembly

  /** `SegDict`: one list of segments per label, grown in place. */
  class SegDict {
    var buckets: SegMap

    ghost predicate Valid()
      reads this
    {
      HasBuckets(buckets)
    }

    /** `InitSeg`: the keys N, AF and O, each with an empty list. */
    constructor ()
      ensures Valid() && buckets == InitSeg()
    {
      buckets := InitSeg();
    }

    /** `SegDict[label].append(beat)`: the segment goes to the end of its
        label's list; nothing else changes. */
    method Append(l: BeatLabel, w: Segment)
      requires Valid() && l in Buckets
      modifies this
      ensures Valid()
      ensures buckets == old(buckets)[l := old(buckets)[l] + [w]]
    {
      buckets := buckets[l := buckets[l] + [w]];
    }
  }

  class PrepECG {
    /** `MITBIH_idx`: the records to process, in order. */
    const records: seq<int>
    /** `dist_r`: the half-window radius in samples. */
    const distR: nat

    constructor ()
      ensures records == MitBihRecords && distR == DistR
    {
      records := MitBihRecords;
      distR := DistR;
    }

    /** The table `ReadAnno` hands over: a fresh array holding the record's
        rows, which `AnnoEpi` may then overwrite. */
    static method ReadAnno(rec: RecordData) returns (anno: array<Row>)
      ensures fresh(anno) && anno[..] == rec.anno
    {
      anno := new Row[|rec.anno|](k requires 0 <= k < |rec.anno| => rec.anno[k]);
    }

    /** `Anno_Epi`: forward-fill the `Aux` column in place. A table without
        rows has no row 0 to seed the fill: that is an error and the table is
        left alone. */
    method AnnoEpi(anno: array<Row>) returns (ok: bool)
      modifies anno
      ensures ok <==> anno.Length > 0
      ensures anno[..] == Filled(old(anno[..]))
    {
      if anno.Length == 0 {
        return false;
      }
      ghost var orig := anno[..];
      var epi := anno[0].aux;
      var idx := 1;
      while idx < anno.Length
        invariant 1 <= idx <= anno.Length
        invariant epi == Latest(orig, idx - 1)
        invariant forall k :: 0 <= k < idx ==> anno[k] == Row(orig[k].sample, Latest(orig, k))
        invariant forall k :: idx <= k < anno.Length ==> anno[k] == orig[k]
      {
        if anno[idx].aux.None? {
          anno[idx] := anno[idx].(aux := epi);
        } else {
          epi := anno[idx].aux;
          anno[idx] := anno[idx].(aux := epi);
        }
        idx := idx + 1;
      }
      assert forall k :: 0 <= k < anno.Length ==> anno[..][k] == Filled(orig)[k];
      return true;
    }

    /** `SegECG`: walk the beats of one record in table order and append each
        eligible classified beat's window to `segDict`. */
    method SegECG(ecg: seq<int>, anno: array<Row>, segDict: SegDict)
      requires segDict.Valid()
      modifies segDict
      ensures segDict.Valid()
      ensures segDict.buckets == Segmentation.SegECG(ecg, anno[..], distR, old(segDict.buckets))
    {
      ghost var dict0 := segDict.buckets;
      var prevR := 0;
      var initBeat := false;
      var i := 0;
      while i < anno.Length
        invariant 0 <= i <= anno.Length
        invariant segDict.Valid()
        invariant Run(ecg, anno[..], distR, i, dict0) == SegState(Cursor(prevR, initBeat), segDict.buckets)
      {
        var r := anno[i].sample;
        ghost var st := Run(ecg, anno[..], distR, i, dict0);
        assert Run(ecg, anno[..], distR, i + 1, dict0) == Step(ecg, anno[..], distR, i, st);
        if r > distR && r + distR < |ecg| {
          var beat: Segment;
          if !initBeat {
            beat := ecg[r - distR .. r + distR];
            initBeat := true;
          } else {
            beat := if prevR < r then ecg[prevR + distR .. r + distR] else [];
          }
          assert beat == Window(ecg, distR, st.cursor, r);
          prevR := r;
          var beatLabel := LabelConverter(anno[FirstRowWith(anno[..], r)].aux);
          assert beatLabel == LabelAt(anno[..], i);
          if beatLabel != Unclassified {
            segDict.Append(beatLabel, beat);
          }
        }
        i := i + 1;
      }
    }

    /** The body of the record loop for one readable record: load its table,
        forward-fill it and segment the record into `segDict`. An empty table
        fails before anything is appended. */
    method SegmentRecord(rec: RecordData, segDict: SegDict) returns (ok: bool)
      requires segDict.Valid()
      modifies segDict
      ensures segDict.Valid()
      ensures ok <==> |rec.anno| > 0
      ensures segDict.buckets ==
        if ok then Segmentation.SegECG(rec.ecg, Filled(rec.anno), distR, old(segDict.buckets))
        else old(segDict.buckets)
    {
      var anno := ReadAnno(rec);
      ok := AnnoEpi(anno);
      if ok {
        SegECG(rec.ecg, anno, segDict);
      }
    }

    /** `Preprocessing`: a fresh dictionary threaded through every record in
        order. The first record whose inputs are missing or whose table is
        empty aborts the run. */
    method Preprocessing(inputs: map<int, RecordData>) returns (result: Result<SegDict, PrepError>)
      ensures result.Success? <==> Assemble(inputs, records, distR).Success?
      ensures result.Success? ==>
        fresh(result.value) && result.value.Valid() &&
        result.value.buckets == Assemble(inputs, records, distR).value
      ensures result.Failure? ==> result.error == Assemble(inputs, records, distR).error
    {
      var segDict := new SegDict();
      var n := 0;
      while n < |records|
        invariant n <= |records|
        invariant fresh(segDict) && segDict.Valid()
        invariant AssembleFrom(inputs, records, distR, n, segDict.buckets) == Assemble(inputs, records, distR)
      {
        var id := records[n];
        if id !in inputs {
          return Failure(MissingRecord(id));
        }
        var ok := SegmentRecord(inputs[id], segDict);
        if !ok {
          return Failure(EmptyAnnotation(id));
        }
        n := n + 1;
      }
      return Success(segDict);
    }
  }

  /** The script at the end of the module: run the pipeline over every record
      and flatten the dictionary into `Label` and `Data`. */
  method MakeDataset(inputs: map<int, RecordData>) returns (result: Result<Dataset, PrepError>)
    ensures result == BuildDataset(inputs)
  {
    var prep := new PrepECG();
    var segDict := prep.Preprocessing(inputs);
    match segDict
    case Failure(e) =>
      result := Failure(e);
    case Success(d) =>
      result := Success(Flatten(d.buckets));
  }
}
