/**
 * The beat classifier (`PrepECG.label_converter`): an exact, case-sensitive
 * lookup of an episode marker in three code lists. Anything not listed, and a
 * null marker, is unclassified (the source's sentinel `0`).
 */
module Labels {
  import opened Wrappers

  datatype BeatLabel = N | AF | O | Unclassified

  /** The labels that own a list of segments. */
  const Buckets: set<BeatLabel> := {N, AF, O}

  /** The code lists, in the order the classifier tries them. */
  const NCodes: seq<string> := ["(N"]
  const AFCodes: seq<string> := ["(AF", "(AFIB", "(AFL"]
  const OCodes: seq<string> :=
    ["(P", "(B", "(VT", "(T",
     "(SV", "(IV", "(NOD", "(SVTA",
     "(VFL", "(IVR", "(SVT", "(AB",
     "(PREX", "(BII", "(SBR"]

  /** The codes that map to a label, as a table independent of the order in
      which the classifier tests the lists. */
  function Codes(l: BeatLabel): set<string>
  {
    match l
    case N => {"(N"}
    case AF => {"(AF", "(AFIB", "(AFL"}
    case O => {"(P", "(B", "(VT", "(T", "(SV", "(IV", "(NOD", "(SVTA",
               "(VFL", "(IVR", "(SVT", "(AB", "(PREX", "(BII", "(SBR"}
    case Unclassified => {}
  }

  /** Classify an episode marker by testing the code lists in turn. A null
      marker is unclassified, and only the exact string "(N" is N; the other
      labels are characterised by `LabelConverterMatchesCodes`. */
  function LabelConverter(tag: Option<string>): (b: BeatLabel)
    ensures tag.None? ==> b == Unclassified
    ensures b == N <==> tag == Some("(N")
  {
    match tag
    case None => Unclassified
    case Some(s) =>
      if s in NCodes then N
      else if s in AFCodes then AF
      else if s in OCodes then O
      else Unclassified
  }

  /** A marker gets label `l` exactly when it is one of `l`'s codes; every
      other marker, and a null one, is unclassified. */
  lemma LabelConverterMatchesCodes(tag: Option<string>)
    ensures forall b :: b in Buckets ==> (LabelConverter(tag) == b <==> tag.Some? && tag.value in Codes(b))
    ensures LabelConverter(tag) == Unclassified <==>
            tag.None? || forall b :: b in Buckets ==> tag.value !in Codes(b)
  {
  }

  /** No code belongs to two labels, so the order of the tests does not matter. */
  lemma CodesAreDisjoint(a: BeatLabel, b: BeatLabel)
    requires a != b
    ensures Codes(a) !! Codes(b)
  {
  }
}
