/** The defect table (the de05 feature class) as the script reads it back,
    and the few Python 2 value rules the script leans on. */
module Defects {

  /** A column value that may be NULL in the geodatabase. */
  datatype Option<+T> = None | Some(value: T)

  /** One row of the defect feature class after enrichment. Columns that the
      spatial join, the linear referencing or the field calculation may leave
      unset are optional. */
  datatype Defect = Defect(
    defectId: string,
    defectStatus: Option<string>,
    responsibleDepot: Option<string>,
    section: Option<string>,
    chainage: Option<real>,
    xsp: Option<string>)

  /** The text columns that a where-clause or an audit names. */
  datatype TextColumn = DefectStatus | ResponsibleDepot | Section | Xsp

  /** The value of a text column in a row. */
  function Text(r: Defect, c: TextColumn): (v: Option<string>)
  {
    match c
    case DefectStatus => r.defectStatus
    case ResponsibleDepot => r.responsibleDepot
    case Section => r.section
    case Xsp => r.xsp
  }

  /** Python's truth value of a str: only the empty string is false. */
  predicate Truthy(s: string)
  {
    |s| > 0
  }

  /** Python 2 `filter(None, s)` on a str: the characters of s whose
      one-character string is truthy, as a str. */
  function FilterNone(s: string): (r: string)
    ensures |r| <= |s|
  {
    if s == [] then []
    else (if Truthy([s[0]]) then [s[0]] else []) + FilterNone(s[1..])
  }

  /** Every character survives, so `not filter(None, s)` holds exactly for
      the empty string. */
  lemma {:induction false} FilterNoneKeepsAll(s: string)
    ensures FilterNone(s) == s
    ensures !Truthy(FilterNone(s)) <==> s == ""
  {
    if s != [] {
      FilterNoneKeepsAll(s[1..]);
      assert s == [s[0]] + s[1..];
    }
  }
}
