/**
 * Beat segmentation of one record (`PrepECG.InitSeg` and `PrepECG.SegECG`),
 * as specification functions.
 *
 * The beats are the annotation rows, taken in table order. A beat at sample
 * position `r` is eligible when it lies more than `d` samples from both ends
 * of the signal. The first eligible beat of a record yields the window
 * `ecg[r-d .. r+d)`; every later eligible beat yields the span from the
 * previous eligible beat's trailing edge to its own, `ecg[prev+d .. r+d)`.
 * The window goes to the end of its label's list; an unclassified beat stores
 * nothing but still moves the cursor.
 */
module Segmentation {
  import opened Annotations
  import opened Labels

  type Segment = seq<int>

  /** `SegDict`: the list of segments collected so far for each label. */
  type SegMap = map<BeatLabel, seq<Segment>>

  /** The keys of the dictionary are exactly N, AF and O. */
  predicate HasBuckets(m: SegMap)
  {
    N in m && AF in m && O in m && Unclassified !in m
  }

  /** The dictionary `InitSeg` builds: exactly the keys N, AF and O, each with
      an empty list. */
  function InitSeg(): (m: SegMap)
    ensures HasBuckets(m) && m.Keys == Buckets
    ensures forall l :: l in m ==> m[l] == []
  {
    map[N := [], AF := [], O := []]
  }

  /** A beat can yield a segment only when its whole window fits strictly inside
      the signal; no beat is eligible in a signal of `2*d + 1` samples or
      fewer. */
  predicate Eligible(r: int, ecgLen: nat, d: nat)
    ensures Eligible(r, ecgLen, d) ==> 0 <= r - d && r + d <= ecgLen
    ensures Eligible(r, ecgLen, d) ==> 2 * d + 1 < ecgLen
  {
    d < r && r + d < ecgLen
  }

  /** The locals `prev_r` and `init_beat` of the segmentation loop. */
  datatype Cursor = Cursor(prevR: int, initBeat: bool)

  const Start := Cursor(0, false)

  /** Before the first eligible beat the cursor is at its start; afterwards it
      holds an eligible position. */
  predicate CursorOk(ecgLen: nat, d: nat, c: Cursor)
  {
    if c.initBeat then Eligible(c.prevR, ecgLen, d) else c == Start
  }

  /** The window cut for an eligible beat at `r`. The first one of a record has
      exactly `2*d` samples centred on `r`; a later one runs from the previous
      eligible beat's trailing edge and has `r - prevR` samples, none when the
      beat is not after the previous one (`r <= prevR`). Every index lies inside the signal. */
  function Window(ecg: seq<int>, d: nat, c: Cursor, r: int): (w: Segment)
    requires Eligible(r, |ecg|, d) && CursorOk(|ecg|, d, c)
    ensures !c.initBeat ==>
      |w| == 2 * d && forall k :: 0 <= k < |w| ==> w[k] == ecg[r - d + k]
    ensures c.initBeat ==>
      |w| == (if c.prevR < r then r - c.prevR else 0) &&
      forall k :: 0 <= k < |w| ==> w[k] == ecg[c.prevR + d + k]
  {
    if !c.initBeat then ecg[r - d .. r + d]
    else if c.prevR < r then ecg[c.prevR + d .. r + d]
    else []
  }

  /** The index of the first row whose sample position is `r`, or `|rows|`
      when there is none (the boolean-mask lookup of the table). */
  function FirstRowWith(rows: seq<Row>, r: int): (k: nat)
    ensures k <= |rows|
    ensures k < |rows| ==> rows[k].sample == r
    ensures forall j :: 0 <= j < k ==> rows[j].sample != r
  {
    if |rows| == 0 then 0
    else if rows[0].sample == r then 0
    else 1 + FirstRowWith(rows[1..], r)
  }

  /** The label of beat `i`: the marker of the first row that has the same
      sample position, classified. That row is at or before `i`, and it is
      row `i` itself when no earlier row shares the position. */
  function LabelAt(rows: seq<Row>, i: nat): (b: BeatLabel)
    requires i < |rows|
    ensures exists k :: 0 <= k <= i && rows[k].sample == rows[i].sample && b == LabelConverter(rows[k].aux)
    ensures (forall k :: 0 <= k < i ==> rows[k].sample != rows[i].sample) ==> b == LabelConverter(rows[i].aux)
  {
    var k := FirstRowWith(rows, rows[i].sample);
    assert k <= i;
    LabelConverter(rows[k].aux)
  }

  /** The label comes from the first row with the beat's position, which need
      not be the beat's own row when two rows share a position. */
  lemma LabelIsFromFirstMatchingRow(rows: seq<Row>, i: nat, k: nat)
    requires i < |rows| && k < |rows|
    requires rows[k].sample == rows[i].sample
    requires forall j :: 0 <= j < k ==> rows[j].sample != rows[i].sample
    ensures LabelAt(rows, i) == LabelConverter(rows[k].aux)
  {
  }

  /** The list beat `i` is stored in, or `Unclassified` when it stores nothing. */
  function Accepted(ecg: seq<int>, rows: seq<Row>, d: nat, i: nat): BeatLabel
    requires i < |rows|
  {
    if Eligible(rows[i].sample, |ecg|, d) then LabelAt(rows, i) else Unclassified
  }

  /** The state of the segmentation loop: its cursor and the dictionary. */
  datatype SegState = SegState(cursor: Cursor, dict: SegMap)

  predicate StateOk(ecgLen: nat, d: nat, st: SegState)
  {
    HasBuckets(st.dict) && CursorOk(ecgLen, d, st.cursor)
  }

  /** One iteration of the loop, for beat `i`. An ineligible beat changes
      nothing. An eligible beat moves the cursor to itself whatever its label;
      if it is classified, its window is appended to its label's list and no
      other list changes. */
  function Step(ecg: seq<int>, rows: seq<Row>, d: nat, i: nat, st: SegState): (st': SegState)
    requires i < |rows| && StateOk(|ecg|, d, st)
    ensures StateOk(|ecg|, d, st')
    ensures !Eligible(rows[i].sample, |ecg|, d) ==> st' == st
    ensures Eligible(rows[i].sample, |ecg|, d) ==> st'.cursor == Cursor(rows[i].sample, true)
    ensures forall l :: l in Buckets && l != Accepted(ecg, rows, d, i) ==> st'.dict[l] == st.dict[l]
    ensures Accepted(ecg, rows, d, i) != Unclassified ==>
      st'.dict[Accepted(ecg, rows, d, i)] ==
        st.dict[Accepted(ecg, rows, d, i)] + [Window(ecg, d, st.cursor, rows[i].sample)]
  {
    var r := rows[i].sample;
    if !Eligible(r, |ecg|, d) then st
    else
      var w := Window(ecg, d, st.cursor, r);
      var l := LabelAt(rows, i);
      if l == Unclassified then SegState(Cursor(r, true), st.dict)
      else SegState(Cursor(r, true), st.dict[l := st.dict[l] + [w]])
  }

  /** The loop state after the first `n` beats, starting from `dict0`. */
  function Run(ecg: seq<int>, rows: seq<Row>, d: nat, n: nat, dict0: SegMap): (st: SegState)
    requires n <= |rows| && HasBuckets(dict0)
    ensures StateOk(|ecg|, d, st)
  {
    if n == 0 then SegState(Start, dict0)
    else Step(ecg, rows, d, n - 1, Run(ecg, rows, d, n - 1, dict0))
  }

  /** The dictionary `SegECG` returns for one record. */
  function SegECG(ecg: seq<int>, rows: seq<Row>, d: nat, dict0: SegMap): (dict: SegMap)
    requires HasBuckets(dict0)
    ensures HasBuckets(dict)
  {
    Run(ecg, rows, d, |rows|, dict0).dict
  }

  /** How many of the first `n` beats are stored under label `l`. */
  function CountAccepted(ecg: seq<int>, rows: seq<Row>, d: nat, n: nat, l: BeatLabel): nat
    requires n <= |rows|
  {
    if n == 0 then 0
    else CountAccepted(ecg, rows, d, n - 1, l) + (if Accepted(ecg, rows, d, n - 1) == l then 1 else 0)
  }

  /** Segmentation only appends: what a list held after `m` beats is a prefix
      of what it holds after `n >= m` beats, and it grew by one segment per
      eligible classified beat of its label in between. */
  lemma {:induction false} RunAppendsOnly(ecg: seq<int>, rows: seq<Row>, d: nat, m: nat, n: nat,
                                          dict0: SegMap, l: BeatLabel)
    requires m <= n <= |rows| && HasBuckets(dict0) && l in Buckets
    ensures Run(ecg, rows, d, m, dict0).dict[l] <= Run(ecg, rows, d, n, dict0).dict[l]
    ensures |Run(ecg, rows, d, n, dict0).dict[l]| ==
            |Run(ecg, rows, d, m, dict0).dict[l]| + CountAccepted(ecg, rows, d, n, l) - CountAccepted(ecg, rows, d, m, l)
  {
    if n > m {
      RunAppendsOnly(ecg, rows, d, m, n - 1, dict0, l);
      var before := Run(ecg, rows, d, n - 1, dict0);
      var after := Step(ecg, rows, d, n - 1, before);
      assert Run(ecg, rows, d, n, dict0) == after;
      if Accepted(ecg, rows, d, n - 1) == l {
        assert after.dict[l] == before.dict[l] + [Window(ecg, d, before.cursor, rows[n - 1].sample)];
      } else {
        assert after.dict[l] == before.dict[l];
      }
    }
  }

  /** `SegECG` only appends to the lists it is given, one segment per eligible
      classified beat of the record. */
  lemma SegECGAppendsOnly(ecg: seq<int>, rows: seq<Row>, d: nat, dict0: SegMap, l: BeatLabel)
    requires HasBuckets(dict0) && l in Buckets
    ensures dict0[l] <= SegECG(ecg, rows, d, dict0)[l]
    ensures |SegECG(ecg, rows, d, dict0)[l]| == |dict0[l]| + CountAccepted(ecg, rows, d, |rows|, l)
  {
    RunAppendsOnly(ecg, rows, d, 0, |rows|, dict0, l);
  }

  /** The cursor follows the last eligible beat, classified or not: it has
      moved iff some beat so far was eligible, and then it holds the position
      of the last one. */
  lemma {:induction false} CursorTracksLastEligible(ecg: seq<int>, rows: seq<Row>, d: nat, n: nat, dict0: SegMap)
    requires n <= |rows| && HasBuckets(dict0)
    ensures Run(ecg, rows, d, n, dict0).cursor.initBeat <==>
            exists i :: 0 <= i < n && Eligible(rows[i].sample, |ecg|, d)
    ensures forall i :: 0 <= i < n && Eligible(rows[i].sample, |ecg|, d) &&
                        (forall j :: i < j < n ==> !Eligible(rows[j].sample, |ecg|, d)) ==>
                        Run(ecg, rows, d, n, dict0).cursor.prevR == rows[i].sample
  {
    if n > 0 {
      CursorTracksLastEligible(ecg, rows, d, n - 1, dict0);
    }
  }

  /** The first eligible beat of a record, when classified, stores the fixed
      window of `2*d` samples around it. */
  lemma FirstAcceptedWindow(ecg: seq<int>, rows: seq<Row>, d: nat, i: nat, dict0: SegMap)
    requires i < |rows| && HasBuckets(dict0)
    requires Eligible(rows[i].sample, |ecg|, d)
    requires forall j :: 0 <= j < i ==> !Eligible(rows[j].sample, |ecg|, d)
    requires LabelAt(rows, i) != Unclassified
    ensures var r, l := rows[i].sample, LabelAt(rows, i);
            Run(ecg, rows, d, i + 1, dict0).dict[l] ==
            Run(ecg, rows, d, i, dict0).dict[l] + [ecg[r - d .. r + d]]
  {
    CursorTracksLastEligible(ecg, rows, d, i, dict0);
  }

  /** A later classified eligible beat stores the span from the previous
      eligible beat's trailing edge to its own, even when that previous beat
      was unclassified. */
  lemma LaterAcceptedWindow(ecg: seq<int>, rows: seq<Row>, d: nat, j: nat, i: nat, dict0: SegMap)
    requires j < i < |rows| && HasBuckets(dict0)
    requires Eligible(rows[j].sample, |ecg|, d) && Eligible(rows[i].sample, |ecg|, d)
    requires forall k :: j < k < i ==> !Eligible(rows[k].sample, |ecg|, d)
    requires LabelAt(rows, i) != Unclassified
    ensures var p, r, l := rows[j].sample, rows[i].sample, LabelAt(rows, i);
            Run(ecg, rows, d, i + 1, dict0).dict[l] ==
            Run(ecg, rows, d, i, dict0).dict[l] + [if p < r then ecg[p + d .. r + d] else []]
  {
    CursorTracksLastEligible(ecg, rows, d, i, dict0);
    var before := Run(ecg, rows, d, i, dict0);
    assert before.cursor == Cursor(rows[j].sample, true);
    assert Window(ecg, d, before.cursor, rows[i].sample) ==
           if rows[j].sample < rows[i].sample then ecg[rows[j].sample + d .. rows[i].sample + d] else [];
  }
}
