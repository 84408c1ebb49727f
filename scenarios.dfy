/**
 * Worked examples: the model on small, fixed inputs.
 */
module Scenarios {
  import opened Wrappers
  import opened Annotations
  import opened Labels
  import opened Segmentation

  /** Matching is exact: "(NOD" starts like "(N" but is an O code. */
  lemma NodIsOther()
    ensures LabelConverter(Some("(NOD")) == O
  {
    assert "(NOD" != "(N";
    assert "(NOD" == OCodes[6];
  }

  /** Case matters, and a null marker is unclassified. */
  lemma UnlistedIsUnclassified()
    ensures LabelConverter(Some("(n")) == Unclassified
    ensures LabelConverter(None) == Unclassified
  {
    LabelConverterMatchesCodes(Some("(n"));
  }

  /** A table whose first marker is on row 4: rows 0 to 3 stay null and are
      unclassified; row 4 and the rows after it carry "(AFIB" and are AF. */
  lemma NullSeedScenario()
    ensures var rows := [Row(10, None), Row(20, None), Row(30, None), Row(40, None),
                         Row(50, Some("(AFIB")), Row(60, None)];
            var f := Filled(rows);
            (forall i :: 0 <= i < 4 ==> f[i].aux == None && LabelConverter(f[i].aux) == Unclassified) &&
            (forall i :: 4 <= i < 6 ==> f[i].aux == Some("(AFIB") && LabelConverter(f[i].aux) == AF)
  {
    var rows := [Row(10, None), Row(20, None), Row(30, None), Row(40, None),
                 Row(50, Some("(AFIB")), Row(60, None)];
    forall i | 0 <= i < 4
      ensures Filled(rows)[i].aux == None
    {
      FilledBeforeFirstMarker(rows, i);
    }
    FilledIsNearestMarker(rows, 4, 5);
  }

  /** A 1000-sample record with radius 180 and beats at 50, 200, 500, 900 and
      950. Beat 50 is too close to the start; beats 900 and 950 are too close
      to the end (900 + 180 is not below 1000). Beat 200 is the first eligible
      one and stores its 360-sample window under N; beat 500 stores the span
      from 380 to 680 under AF; nothing reaches O, and "(O" is not an O code
      anyway. */
  lemma OneRecordScenario(ecg: seq<int>)
    requires |ecg| == 1000
    ensures var rows := [Row(50, Some("(N")), Row(200, Some("(N")), Row(500, Some("(AF")),
                         Row(900, Some("(O")), Row(950, Some("(N"))];
            var dict := SegECG(ecg, rows, 180, InitSeg());
            dict[N] == [ecg[20..380]] && dict[AF] == [ecg[380..680]] && dict[O] == []
  {
    var rows := [Row(50, Some("(N")), Row(200, Some("(N")), Row(500, Some("(AF")),
                 Row(900, Some("(O")), Row(950, Some("(N"))];
    var d0 := InitSeg();
    assert LabelAt(rows, 1) == N by {
      assert FirstRowWith(rows, 200) == 1 by {
        assert FirstRowWith(rows[1..], 200) == 0;
      }
    }
    assert LabelAt(rows, 2) == AF by {
      assert FirstRowWith(rows, 500) == 2 by {
        assert rows[1..][1..] == rows[2..];
        assert FirstRowWith(rows[2..], 500) == 0;
        assert FirstRowWith(rows[1..], 500) == 1;
      }
    }
    var s0 := Run(ecg, rows, 180, 0, d0);
    assert s0 == SegState(Start, d0);
    var s1 := Run(ecg, rows, 180, 1, d0);
    assert s1 == Step(ecg, rows, 180, 0, s0);
    assert !Eligible(rows[0].sample, |ecg|, 180);
    assert s1 == s0;
    var s2 := Run(ecg, rows, 180, 2, d0);
    assert s2 == Step(ecg, rows, 180, 1, s1);
    assert Accepted(ecg, rows, 180, 1) == N;
    assert Window(ecg, 180, s1.cursor, 200) == ecg[20..380];
    assert s2.cursor == Cursor(200, true);
    assert s2.dict[N] == [ecg[20..380]] && s2.dict[AF] == [] && s2.dict[O] == [];
    var s3 := Run(ecg, rows, 180, 3, d0);
    assert s3 == Step(ecg, rows, 180, 2, s2);
    assert Accepted(ecg, rows, 180, 2) == AF;
    assert Window(ecg, 180, s2.cursor, 500) == ecg[380..680];
    assert s3.dict[N] == [ecg[20..380]] && s3.dict[AF] == [ecg[380..680]] && s3.dict[O] == [];
    assert Run(ecg, rows, 180, 4, d0) == Step(ecg, rows, 180, 3, s3) == s3;
    assert Run(ecg, rows, 180, 5, d0) == Step(ecg, rows, 180, 4, s3) == s3;
  }
}
