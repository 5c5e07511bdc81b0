/** The filter that keeps only outstanding defects: rows whose status is
    neither COMPLETED nor SUPERSEDED. */
module StatusFilter {
  import opened Defects
  import opened Selection

  /** `Defect_Status <> 'COMPLETED' AND Defect_Status <> 'SUPERSEDED'` */
  const Outstanding: Where :=
    And(NotEquals(DefectStatus, "COMPLETED"), NotEquals(DefectStatus, "SUPERSEDED"))

  /** An outstanding defect carries a status, and it is neither of the two
      closed ones. A defect with no status is not outstanding: SQL compares
      NULL to nothing. */
  predicate IsOutstanding(r: Defect)
  {
    r.defectStatus.Some? && r.defectStatus.value != "COMPLETED" && r.defectStatus.value != "SUPERSEDED"
  }

  lemma KeepsOutstanding(r: Defect)
    ensures Keeps(Outstanding, r) <==> IsOutstanding(r)
  {
    KeepsMeaning(Outstanding, r);
    KeepsMeaning(Outstanding.left, r);
    KeepsMeaning(Outstanding.right, r);
  }

  /** de05 -> de05v2: the outstanding defects in their original order. No
      outstanding row is dropped, no other row is kept, and filtering the
      result again changes nothing. */
  method FilterOutstanding(de05: seq<Defect>) returns (de05v2: seq<Defect>)
    ensures de05v2 == Select(de05, Outstanding)
    ensures forall r :: r in de05v2 <==> r in de05 && IsOutstanding(r)
    ensures forall r :: multiset(de05v2)[r] == if IsOutstanding(r) then multiset(de05)[r] else 0
    ensures Select(de05v2, Outstanding) == de05v2
  {
    de05v2 := SelectAnalysis(de05, Outstanding);
    forall r
      ensures r in de05v2 <==> r in de05 && IsOutstanding(r)
      ensures multiset(de05v2)[r] == if IsOutstanding(r) then multiset(de05)[r] else 0
    {
      KeepsOutstanding(r);
      SelectMember(de05, Outstanding, r);
      SelectMultiplicity(de05, Outstanding, r);
    }
    SelectIdempotent(de05, Outstanding);
  }
}
