/** The cross-section position (XSP) classifier: a signed offset from the
    centreline and the No_of_Lane code of the section give a lane or shoulder
    label. Assumed widths: hard shoulder 3.3, lane 3.6. */
module XspCalc {
  import opened Defects

  datatype Position = HardShoulder | Lane1 | Lane2 | Lane3 | Lane4 | OffCarriageway

  const HardShoulderWidth: real := 3.3
  const LaneWidth: real := 3.6

  const Labels: set<string> :=
    {"Hard Shoulder", "Lane 1", "Lane 2", "Lane 3", "Lane 4", "Off Carriageway"}

  /** The text the field calculator stores in the XSP column. */
  function Label(p: Position): (s: string)
    ensures s in Labels && s != ""
  {
    match p
    case HardShoulder => "Hard Shoulder"
    case Lane1 => "Lane 1"
    case Lane2 => "Lane 2"
    case Lane3 => "Lane 3"
    case Lane4 => "Lane 4"
    case OffCarriageway => "Off Carriageway"
  }

  /** Distinct positions get distinct labels, and every label is used. */
  lemma LabelsAreExact(p: Position, q: Position)
    ensures Label(p) == Label(q) ==> p == q
    ensures Labels == set x: Position :: Label(x)
  {
    var all := set x: Position :: Label(x);
    assert Label(HardShoulder) in all && Label(Lane1) in all && Label(Lane2) in all;
    assert Label(Lane3) in all && Label(Lane4) in all && Label(OffCarriageway) in all;
  }

  lemma LabelsNonEmpty(s: string)
    requires s in Labels
    ensures s != ""
  {
  }

  /** The offset lies on the hard shoulder or in lane 1. */
  predicate NearCentreline(distance: real)
  {
    -LaneWidth <= distance <= HardShoulderWidth
  }

  /** The code block as the script writes it. The range tests of the Lane 2,
      3 and 4 branches are quoted strings, so each is merely a non-empty
      (true) string: the Lane 2 branch tests the lane code alone and the
      Lane 3 branch always fires. */
  function CalcXsp(distance: real, noOfLane: string): (p: Position)
    ensures p == HardShoulder <==> 0.0 < distance <= HardShoulderWidth
    ensures p == Lane1 <==> -LaneWidth <= distance <= 0.0
    ensures p == Lane2 <==> !NearCentreline(distance) && noOfLane != "1L"
    ensures p == Lane3 <==> !NearCentreline(distance) && noOfLane == "1L"
    ensures p != Lane4 && p != OffCarriageway
  {
    if distance > 0.0 && distance <= 3.3 then HardShoulder
    else if distance <= 0.0 && distance >= -3.6 then Lane1
    else if Truthy("Distance < -3.6 and Distance >= -7.2") && noOfLane != "1L" then Lane2
    else if Truthy("Distance < -7.2 and Distance >= -10.8")
         && Truthy("No_of_Lane != \"1L\" and No_of_Lane != \"2L\"") then Lane3
    else if Truthy("Distance < -10.8 and Distance >= -14.4")
         && Truthy("No_of_Lane != \"1L\" and No_of_Lane != \"2L\" and No_of_Lane != \"3L\"") then Lane4
    else OffCarriageway
  }

  /** On the shoulder and in lane 1 the lane code plays no part. */
  lemma NearCentrelineIgnoresLanes(distance: real, a: string, b: string)
    requires NearCentreline(distance)
    ensures CalcXsp(distance, a) == CalcXsp(distance, b)
    ensures CalcXsp(distance, a) == HardShoulder || CalcXsp(distance, a) == Lane1
  {
  }

  /** Away from the centreline the offset plays no part. */
  lemma AwayFromCentrelineIgnoresOffset(d: real, e: real, noOfLane: string)
    requires !NearCentreline(d) && !NearCentreline(e)
    ensures CalcXsp(d, noOfLane) == CalcXsp(e, noOfLane)
  {
  }

  // ----- the evidently intended rule -----

  /** How many lanes the code admits: the guards exclude lanes 2, 3 and 4 for
      "1L", lanes 3 and 4 for "2L" and lane 4 for "3L"; any other code admits
      all four. */
  function LanesPresent(noOfLane: string): (n: nat)
    ensures 1 <= n <= 4
  {
    if noOfLane == "1L" then 1
    else if noOfLane == "2L" then 2
    else if noOfLane == "3L" then 3
    else 4
  }

  function LaneAt(k: nat): (p: Position)
    requires 1 <= k <= 4
  {
    if k == 1 then Lane1 else if k == 2 then Lane2 else if k == 3 then Lane3 else Lane4
  }

  /** Lane k is the k-th strip of width LaneWidth on the negative side:
      lane 1 includes both its edges, each further lane its outer edge. */
  predicate InLaneBand(distance: real, k: nat)
  {
    if k == 1 then -LaneWidth <= distance <= 0.0
    else -LaneWidth * (k as real) <= distance < -LaneWidth * ((k - 1) as real)
  }

  predicate OnShoulder(distance: real)
  {
    0.0 < distance <= HardShoulderWidth
  }

  /** The classifier with the range tests and lane guards evaluated. It
      puts a defect in lane k exactly when the offset is in lane k's strip
      and the road has at least k lanes, and off the carriageway exactly
      when the offset is on no shoulder and in no lane the road has. */
  function CalcXspIntended(distance: real, noOfLane: string): (p: Position)
    ensures p == HardShoulder <==> OnShoulder(distance)
    ensures forall k :: 1 <= k <= 4 ==>
      (p == LaneAt(k) <==> InLaneBand(distance, k) && k <= LanesPresent(noOfLane))
    ensures p == OffCarriageway <==>
      !OnShoulder(distance) && forall k :: 1 <= k <= LanesPresent(noOfLane) ==> !InLaneBand(distance, k)
  {
    if distance > 0.0 && distance <= 3.3 then HardShoulder
    else if distance <= 0.0 && distance >= -3.6 then
      assert InLaneBand(distance, 1); Lane1
    else if distance < -3.6 && distance >= -7.2 && noOfLane != "1L" then
      assert InLaneBand(distance, 2); Lane2
    else if distance < -7.2 && distance >= -10.8 && noOfLane != "1L" && noOfLane != "2L" then
      assert InLaneBand(distance, 3); Lane3
    else if distance < -10.8 && distance >= -14.4
         && noOfLane != "1L" && noOfLane != "2L" && noOfLane != "3L" then
      assert InLaneBand(distance, 4); Lane4
    else OffCarriageway
  }

  /** Boundary cases of the intended rule. */
  lemma IntendedBoundaries()
    ensures CalcXspIntended(3.3, "4L") == HardShoulder
    ensures CalcXspIntended(3.30001, "4L") == OffCarriageway
    ensures CalcXspIntended(0.0, "1L") == Lane1
    ensures CalcXspIntended(-3.6, "1L") == Lane1
    ensures CalcXspIntended(-3.60001, "2L") == Lane2
    ensures CalcXspIntended(-7.2, "1L") == OffCarriageway
    ensures CalcXspIntended(-20.0, "4L") == OffCarriageway
  {
  }

  /** The two rules agree exactly on the shoulder, in lane 1, and in lane 2
      of a road with more than one lane; everywhere else they differ. */
  lemma AsWrittenVersusIntended(distance: real, noOfLane: string)
    ensures CalcXsp(distance, noOfLane) != CalcXspIntended(distance, noOfLane) <==>
      !NearCentreline(distance) && !(InLaneBand(distance, 2) && noOfLane != "1L")
  {
  }

  /** As written, a defect beyond lane 1 of a single-lane road is put in
      lane 3, a lane such a road does not have. */
  lemma AsWrittenLaneThreeOnSingleLane()
    ensures CalcXsp(-5.0, "1L") == Lane3 && LanesPresent("1L") < 3
    ensures CalcXspIntended(-5.0, "1L") == OffCarriageway
  {
  }

  /** As written, a defect 20 units off a four-lane road is put in lane 2. */
  lemma AsWrittenFarOffsetInLaneTwo()
    ensures CalcXsp(-20.0, "4L") == Lane2
    ensures CalcXspIntended(-20.0, "4L") == OffCarriageway
  {
  }
}
