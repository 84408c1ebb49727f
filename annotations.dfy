/**
 * The annotation table of one record and its episode forward-fill
 * (`PrepECG.Anno_Epi`): every row without an `Aux` marker takes the marker
 * of the most recent row that has one; row 0 seeds the fill as it is.
 */
module Annotations {
  import opened Wrappers

  /** One row of the annotation table: the beat's sample position (`Sample #`)
      and its episode marker (`Aux`), null on rows that do not start an episode. */
  datatype Row = Row(sample: int, aux: Option<string>)

  /** The marker that row `i` holds after the fill: its own marker when it has
      one, otherwise the one carried over from row `i - 1`; row 0 is never
      overwritten, even when its marker is null. */
  function Latest(rows: seq<Row>, i: nat): (m: Option<string>)
    requires i < |rows|
    ensures rows[i].aux.Some? ==> m == rows[i].aux
  {
    if i == 0 then rows[0].aux
    else if rows[i].aux.Some? then rows[i].aux
    else Latest(rows, i - 1)
  }

  /** The marker a row ends up with always comes from a row at or before it,
      and it is null only when no row in `1..i` has a marker. */
  lemma {:induction false} LatestIsFromEarlierRow(rows: seq<Row>, i: nat)
    requires i < |rows|
    ensures exists k :: 0 <= k <= i && rows[k].aux == Latest(rows, i)
    ensures Latest(rows, i).None? ==> forall k :: 1 <= k <= i ==> rows[k].aux.None?
  {
    if i > 0 && rows[i].aux.None? {
      LatestIsFromEarlierRow(rows, i - 1);
    } else {
      assert rows[i].aux == Latest(rows, i);
    }
  }

  /** The table after the forward-fill. Only the `Aux` column changes: the row
      count, every sample position, row 0 and every row that already had a
      marker stay as they were. */
  function Filled(rows: seq<Row>): (out: seq<Row>)
    ensures |out| == |rows|
    ensures forall i :: 0 <= i < |rows| ==> out[i].sample == rows[i].sample
    ensures |rows| > 0 ==> out[0] == rows[0]
    ensures forall i :: 0 <= i < |rows| && rows[i].aux.Some? ==> out[i] == rows[i]
  {
    seq(|rows|, i requires 0 <= i < |rows| => Row(rows[i].sample, Latest(rows, i)))
  }

  /** A row `i >= 1` ends up with the marker of the nearest row `j` in `1..i`
      that has one. */
  lemma {:induction false} FilledIsNearestMarker(rows: seq<Row>, j: nat, i: nat)
    requires 1 <= j <= i < |rows|
    requires rows[j].aux.Some?
    requires forall k :: j < k <= i ==> rows[k].aux.None?
    ensures Filled(rows)[i].aux == rows[j].aux
  {
    if i > j {
      FilledIsNearestMarker(rows, j, i - 1);
    }
  }

  /** Before the first marker at a row `>= 1`, every row holds row 0's own
      marker, which may be null. */
  lemma {:induction false} FilledBeforeFirstMarker(rows: seq<Row>, i: nat)
    requires i < |rows|
    requires forall k :: 1 <= k <= i ==> rows[k].aux.None?
    ensures Filled(rows)[i].aux == rows[0].aux
  {
    if i > 0 {
      FilledBeforeFirstMarker(rows, i - 1);
    }
  }

  /** Once some row `j >= 1` has a marker, no later row is left null. */
  lemma {:induction false} FilledHasMarkerAfterFirst(rows: seq<Row>, j: nat, i: nat)
    requires 1 <= j <= i < |rows|
    requires rows[j].aux.Some?
    ensures Filled(rows)[i].aux.Some?
  {
    if i > j {
      FilledHasMarkerAfterFirst(rows, j, i - 1);
      if rows[i].aux.None? {
        assert Filled(rows)[i].aux == Latest(rows, i - 1) == Filled(rows)[i - 1].aux;
      }
    }
  }

  /** Filling an already filled table changes nothing. */
  lemma FilledIsIdempotent(rows: seq<Row>)
    ensures Filled(Filled(rows)) == Filled(rows)
  {
    var f := Filled(rows);
    forall i | 0 <= i < |rows|
      ensures Latest(f, i) == Latest(rows, i)
    {
      LatestOfFilled(rows, i);
    }
  }

  lemma {:induction false} LatestOfFilled(rows: seq<Row>, i: nat)
    requires i < |rows|
    ensures Latest(Filled(rows), i) == Latest(rows, i)
  {
    if i > 0 && Filled(rows)[i].aux.None? {
      LatestOfFilled(rows, i - 1);
    }
  }
}
