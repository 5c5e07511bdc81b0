/** The completeness audits run at the end of the script: one cursor loop
    per derived column reporting the Defect_Id of every row whose value is
    missing. */
module Audits {
  import opened Defects
  import XspCalc

  /** What an audit tests: `row[1] is None` for Chainage, and
      `not filter(None, row[1])` for a text column. `TextIsMissing` is the
      test the comment beside the text audits describes, reporting a NULL
      and an empty value alike; the script does not run it. */
  datatype Check = ChainageIsNone | TextIsEmpty(column: TextColumn) | TextIsMissing(column: TextColumn)

  /** The outcome of testing one row: pass it, report its id, or raise
      TypeError (`filter(None, None)` has nothing to iterate). */
  datatype Verdict = Passes | Reported | Raises

  /** The test of one row. Only the script's text test can raise, and it
      raises exactly on NULL. */
  function Test(r: Defect, c: Check): (v: Verdict)
    ensures v == Raises <==> c.TextIsEmpty? && Text(r, c.column).None?
  {
    match c
    case ChainageIsNone => if r.chainage.None? then Reported else Passes
    case TextIsEmpty(col) =>
      (match Text(r, col)
       case None => Raises
       case Some(s) => if !Truthy(FilterNone(s)) then Reported else Passes)
    case TextIsMissing(col) =>
      if Text(r, col).None? || Text(r, col) == Some("") then Reported else Passes
  }

  /** A Chainage row is reported exactly when its value is NULL and never
      raises; a text row raises exactly when its value is NULL and is
      reported exactly when it is the empty string. */
  lemma TestMeaning(r: Defect, c: Check)
    ensures c.ChainageIsNone? ==> Test(r, c) != Raises && (Test(r, c) == Reported <==> r.chainage.None?)
    ensures c.TextIsEmpty? ==> (Test(r, c) == Raises <==> Text(r, c.column).None?)
    ensures c.TextIsEmpty? ==> (Test(r, c) == Reported <==> Text(r, c.column) == Some(""))
  {
    if c.TextIsEmpty? && Text(r, c.column).Some? {
      FilterNoneKeepsAll(Text(r, c.column).value);
    }
  }

  /** What a cursor loop has printed, and whether it stopped on TypeError. */
  datatype AuditLog = AuditLog(reported: seq<string>, raised: bool)

  /** The audit over `rows`, one row after another: after an exception no
      further row is read. */
  function Audit(rows: seq<Defect>, c: Check): (log: AuditLog)
    ensures |log.reported| <= |rows|
    decreases |rows|
  {
    if rows == [] then AuditLog([], false)
    else
      var before := Audit(rows[..|rows| - 1], c);
      var last := rows[|rows| - 1];
      if before.raised then before
      else match Test(last, c)
        case Passes => before
        case Reported => AuditLog(before.reported + [last.defectId], false)
        case Raises => AuditLog(before.reported, true)
  }

  /** Reference definition: the ids of the rows the test reports, in row
      order. */
  function Flagged(rows: seq<Defect>, c: Check): (ids: seq<string>)
    ensures |ids| <= |rows|
  {
    if rows == [] then []
    else (if Test(rows[0], c) == Reported then [rows[0].defectId] else []) + Flagged(rows[1..], c)
  }

  lemma {:induction false} FlaggedAppend(a: seq<Defect>, b: seq<Defect>, c: Check)
    ensures Flagged(a + b, c) == Flagged(a, c) + Flagged(b, c)
  {
    if a == [] {
      assert a + b == b;
    } else {
      var head := if Test(a[0], c) == Reported then [a[0].defectId] else [];
      assert (a + b)[0] == a[0];
      assert (a + b)[1..] == a[1..] + b;
      FlaggedAppend(a[1..], b, c);
      calc {
        Flagged(a + b, c);
        head + Flagged(a[1..] + b, c);
        head + (Flagged(a[1..], c) + Flagged(b, c));
        (head + Flagged(a[1..], c)) + Flagged(b, c);
      }
    }
  }

  /** An id is reported exactly when some row with that id fails the test. */
  lemma {:induction false} FlaggedMember(rows: seq<Defect>, c: Check, id: string)
    ensures id in Flagged(rows, c) <==>
      exists i :: 0 <= i < |rows| && rows[i].defectId == id && Test(rows[i], c) == Reported
  {
    if rows != [] {
      FlaggedMember(rows[1..], c, id);
      if id in Flagged(rows[1..], c) {
        var i :| 0 <= i < |rows[1..]| && rows[1..][i].defectId == id && Test(rows[1..][i], c) == Reported;
        assert rows[i + 1] == rows[1..][i];
      }
      if exists i :: 0 <= i < |rows| && rows[i].defectId == id && Test(rows[i], c) == Reported {
        var i :| 0 <= i < |rows| && rows[i].defectId == id && Test(rows[i], c) == Reported;
        if i > 0 {
          assert rows[1..][i - 1] == rows[i];
        }
      }
    }
  }

  /** Once the loop has raised, later rows change nothing. */
  lemma {:induction false} RaisedSticks(rows: seq<Defect>, k: nat, c: Check)
    requires k <= |rows|
    requires k == |rows| || Audit(rows[..k], c).raised
    ensures Audit(rows, c) == Audit(rows[..k], c)
    decreases |rows|
  {
    if k == |rows| {
      assert rows[..k] == rows;
    } else {
      var init := rows[..|rows| - 1];
      assert init[..k] == rows[..k];
      RaisedSticks(init, k, c);
    }
  }

  /** The loop raises exactly when some row's test raises. */
  lemma {:induction false} AuditRaisedIff(rows: seq<Defect>, c: Check)
    ensures Audit(rows, c).raised <==> exists i :: 0 <= i < |rows| && Test(rows[i], c) == Raises
    decreases |rows|
  {
    if rows != [] {
      var init := rows[..|rows| - 1];
      AuditRaisedIff(init, c);
      if exists i :: 0 <= i < |init| && Test(init[i], c) == Raises {
        var i :| 0 <= i < |init| && Test(init[i], c) == Raises;
        assert rows[i] == init[i];
      }
      if exists i :: 0 <= i < |rows| && Test(rows[i], c) == Raises {
        var i :| 0 <= i < |rows| && Test(rows[i], c) == Raises;
        if i < |init| {
          assert init[i] == rows[i];
        }
      }
    }
  }

  /** When no row raises, the loop reports exactly the flagged ids. */
  lemma {:induction false} AuditWithoutRaise(rows: seq<Defect>, c: Check)
    requires forall i :: 0 <= i < |rows| ==> Test(rows[i], c) != Raises
    ensures Audit(rows, c) == AuditLog(Flagged(rows, c), false)
    decreases |rows|
  {
    if rows != [] {
      var init := rows[..|rows| - 1];
      var last := rows[|rows| - 1];
      assert forall i :: 0 <= i < |init| ==> init[i] == rows[i];
      AuditWithoutRaise(init, c);
      assert init + [last] == rows;
      FlaggedAppend(init, [last], c);
    }
  }

  /** When row k is the first that raises, the loop reports the flagged
      ids of the rows before it and stops there. */
  lemma AuditStopsAtFirstRaise(rows: seq<Defect>, c: Check, k: nat)
    requires k < |rows| && Test(rows[k], c) == Raises
    requires forall i :: 0 <= i < k ==> Test(rows[i], c) != Raises
    ensures Audit(rows, c) == AuditLog(Flagged(rows[..k], c), true)
  {
    var prefix := rows[..k];
    assert forall i :: 0 <= i < k ==> prefix[i] == rows[i];
    AuditWithoutRaise(prefix, c);
    assert rows[..k + 1][..k] == prefix;
    RaisedSticks(rows, k + 1, c);
  }

  lemma {:induction false} FirstRaise(rows: seq<Defect>, c: Check, j: nat)
    requires j < |rows| && Test(rows[j], c) == Raises
    ensures exists k :: 0 <= k <= j && Test(rows[k], c) == Raises &&
                        forall i :: 0 <= i < k ==> Test(rows[i], c) != Raises
    decreases j
  {
    if exists i :: 0 <= i < j && Test(rows[i], c) == Raises {
      var i :| 0 <= i < j && Test(rows[i], c) == Raises;
      FirstRaise(rows, c, i);
    }
  }

  /** A cursor loop over the rows, printing (here: collecting) the id of
      each row that fails the test, stopping on TypeError. */
  method RunAudit(rows: seq<Defect>, c: Check) returns (reported: seq<string>, raised: bool)
    ensures AuditLog(reported, raised) == Audit(rows, c)
  {
    reported, raised := [], false;
    var i := 0;
    while i < |rows| && !raised
      invariant 0 <= i <= |rows|
      invariant AuditLog(reported, raised) == Audit(rows[..i], c)
    {
      assert rows[..i + 1][..i] == rows[..i];
      var verdict := Test(rows[i], c);
      if verdict == Reported {
        reported := reported + [rows[i].defectId];
      } else if verdict == Raises {
        raised := true;
      }
      i := i + 1;
    }
    RaisedSticks(rows, i, c);
  }

  /** The Chainage audit: reports, in row order, exactly the ids of the
      rows whose Chainage is NULL, and never raises. */
  method AuditChainage(de05v3: seq<Defect>) returns (reported: seq<string>)
    ensures reported == Flagged(de05v3, ChainageIsNone)
    ensures forall id :: id in reported <==>
      exists i :: 0 <= i < |de05v3| && de05v3[i].defectId == id && de05v3[i].chainage.None?
  {
    var raised;
    reported, raised := RunAudit(de05v3, ChainageIsNone);
    forall i | 0 <= i < |de05v3| ensures Test(de05v3[i], ChainageIsNone) != Raises {
      TestMeaning(de05v3[i], ChainageIsNone);
    }
    AuditWithoutRaise(de05v3, ChainageIsNone);
    forall id
      ensures id in reported <==>
        exists i :: 0 <= i < |de05v3| && de05v3[i].defectId == id && de05v3[i].chainage.None?
    {
      FlaggedMember(de05v3, ChainageIsNone, id);
      forall i | 0 <= i < |de05v3| {
        TestMeaning(de05v3[i], ChainageIsNone);
      }
    }
  }

  /** A text-column audit (Responsible_Depot, Section, XSP). Without a NULL
      it reports, in row order, exactly the ids of the rows holding the
      empty string. A NULL raises TypeError at the first such row, after the
      ids of the empty rows before it have been reported. */
  method AuditText(de05v3: seq<Defect>, column: TextColumn) returns (reported: seq<string>, raised: bool)
    ensures raised <==> exists i :: 0 <= i < |de05v3| && Text(de05v3[i], column).None?
    ensures !raised ==> reported == Flagged(de05v3, TextIsEmpty(column))
    ensures !raised ==> forall id :: id in reported <==>
      exists i :: 0 <= i < |de05v3| && de05v3[i].defectId == id && Text(de05v3[i], column) == Some("")
    ensures raised ==> exists k :: (0 <= k < |de05v3| && Text(de05v3[k], column).None? &&
      (forall i :: 0 <= i < k ==> Text(de05v3[i], column).Some?) &&
      reported == Flagged(de05v3[..k], TextIsEmpty(column)))
  {
    var c := TextIsEmpty(column);
    reported, raised := RunAudit(de05v3, c);
    forall i | 0 <= i < |de05v3| {
      TestMeaning(de05v3[i], c);
    }
    AuditRaisedIff(de05v3, c);
    if raised {
      var j :| 0 <= j < |de05v3| && Test(de05v3[j], c) == Raises;
      FirstRaise(de05v3, c, j);
      var k :| 0 <= k <= j && Test(de05v3[k], c) == Raises &&
        forall i :: 0 <= i < k ==> Test(de05v3[i], c) != Raises;
      AuditStopsAtFirstRaise(de05v3, c, k);
    } else {
      AuditWithoutRaise(de05v3, c);
      forall id
        ensures id in reported <==>
          exists i :: 0 <= i < |de05v3| && de05v3[i].defectId == id && Text(de05v3[i], column) == Some("")
      {
        FlaggedMember(de05v3, c, id);
      }
    }
  }

  /** The four audits in the script's order. An uncaught TypeError in one of
      them ends the script, so the audits after it print nothing. */
  method CompletenessAudits(de05v3: seq<Defect>)
    returns (depotIds: seq<string>, sectionIds: seq<string>, chainageIds: seq<string>,
             xspIds: seq<string>, stoppedBy: Option<TextColumn>)
    ensures stoppedBy == None || stoppedBy == Some(ResponsibleDepot) ||
            stoppedBy == Some(Section) || stoppedBy == Some(Xsp)
    ensures AuditLog(depotIds, stoppedBy == Some(ResponsibleDepot)) == Audit(de05v3, TextIsEmpty(ResponsibleDepot))
    ensures stoppedBy == Some(ResponsibleDepot) ==> sectionIds == [] && chainageIds == [] && xspIds == []
    ensures stoppedBy != Some(ResponsibleDepot) ==>
      AuditLog(sectionIds, stoppedBy == Some(Section)) == Audit(de05v3, TextIsEmpty(Section))
    ensures stoppedBy == Some(Section) ==> chainageIds == [] && xspIds == []
    ensures stoppedBy == None || stoppedBy == Some(Xsp) ==>
      chainageIds == Flagged(de05v3, ChainageIsNone) &&
      AuditLog(xspIds, stoppedBy == Some(Xsp)) == Audit(de05v3, TextIsEmpty(Xsp))
  {
    sectionIds, chainageIds, xspIds := [], [], [];
    var raised;
    depotIds, raised := RunAudit(de05v3, TextIsEmpty(ResponsibleDepot));
    if raised {
      stoppedBy := Some(ResponsibleDepot);
      return;
    }
    sectionIds, raised := RunAudit(de05v3, TextIsEmpty(Section));
    if raised {
      stoppedBy := Some(Section);
      return;
    }
    chainageIds := AuditChainage(de05v3);
    xspIds, raised := RunAudit(de05v3, TextIsEmpty(Xsp));
    stoppedBy := if raised then Some(Xsp) else None;
  }

  /** Rows that all pass a test produce an empty report and no exception. */
  lemma NothingToReport(rows: seq<Defect>, c: Check)
    requires forall i :: 0 <= i < |rows| ==> Test(rows[i], c) == Passes
    ensures Audit(rows, c) == AuditLog([], false)
  {
    AuditWithoutRaise(rows, c);
    var ids := Flagged(rows, c);
    if ids != [] {
      FlaggedMember(rows, c, ids[0]);
    }
  }

  /** A fully resolved table: every derived column set and non-empty. */
  predicate Resolved(r: Defect)
  {
    && r.responsibleDepot.Some? && r.responsibleDepot.value != ""
    && r.section.Some? && r.section.value != ""
    && r.chainage.Some?
    && r.xsp.Some? && r.xsp.value != ""
  }

  /** On a fully resolved table every audit runs and reports nothing. */
  lemma ResolvedTablePassesAudits(de05v3: seq<Defect>)
    requires forall i :: 0 <= i < |de05v3| ==> Resolved(de05v3[i])
    ensures Audit(de05v3, TextIsEmpty(ResponsibleDepot)) == AuditLog([], false)
    ensures Audit(de05v3, TextIsEmpty(Section)) == AuditLog([], false)
    ensures Audit(de05v3, TextIsEmpty(Xsp)) == AuditLog([], false)
    ensures Flagged(de05v3, ChainageIsNone) == []
  {
    forall i | 0 <= i < |de05v3|
      ensures Test(de05v3[i], TextIsEmpty(ResponsibleDepot)) == Passes
      ensures Test(de05v3[i], TextIsEmpty(Section)) == Passes
      ensures Test(de05v3[i], TextIsEmpty(Xsp)) == Passes
      ensures Test(de05v3[i], ChainageIsNone) == Passes
    {
      TestMeaning(de05v3[i], TextIsEmpty(ResponsibleDepot));
      TestMeaning(de05v3[i], TextIsEmpty(Section));
      TestMeaning(de05v3[i], TextIsEmpty(Xsp));
      TestMeaning(de05v3[i], ChainageIsNone);
    }
    NothingToReport(de05v3, TextIsEmpty(ResponsibleDepot));
    NothingToReport(de05v3, TextIsEmpty(Section));
    NothingToReport(de05v3, TextIsEmpty(Xsp));
    NothingToReport(de05v3, ChainageIsNone);
    AuditWithoutRaise(de05v3, ChainageIsNone);
  }

  /** A text column set and non-empty in every row gives an empty report. */
  lemma FilledColumnPasses(rows: seq<Defect>, column: TextColumn)
    requires forall i :: 0 <= i < |rows| ==> Text(rows[i], column).Some? && Text(rows[i], column).value != ""
    ensures Audit(rows, TextIsEmpty(column)) == AuditLog([], false)
  {
    forall i | 0 <= i < |rows| ensures Test(rows[i], TextIsEmpty(column)) == Passes {
      TestMeaning(rows[i], TextIsEmpty(column));
    }
    NothingToReport(rows, TextIsEmpty(column));
  }

  /** Once the field calculator has written the `CalcXSP` label of each
      row's offset and lane code into XSP, the XSP audit finds nothing: every
      label is non-empty. */
  lemma XspAuditAfterClassification(de05v3: seq<Defect>, distance: seq<real>, noOfLane: seq<string>)
    requires |distance| == |de05v3| && |noOfLane| == |de05v3|
    requires forall i :: 0 <= i < |de05v3| ==>
      de05v3[i].xsp == Some(XspCalc.Label(XspCalc.CalcXsp(distance[i], noOfLane[i])))
    ensures Audit(de05v3, TextIsEmpty(Xsp)) == AuditLog([], false)
  {
    forall i | 0 <= i < |de05v3| ensures Text(de05v3[i], Xsp).Some? && Text(de05v3[i], Xsp).value != "" {
      var written := XspCalc.Label(XspCalc.CalcXsp(distance[i], noOfLane[i]));
      assert written != "";
    }
    FilledColumnPasses(de05v3, Xsp);
  }

  // ----- the audit the comment describes -----

  /** As written, a NULL ends the audit before anything is reported: a NULL
      Section in row "1" hides the empty Section of row "2". The test the
      comment describes reports both. */
  lemma AsWrittenNullEndsAudit()
    ensures var rows := [Defect("1", None, None, None, None, None),
                         Defect("2", None, None, Some(""), None, None)];
      Audit(rows, TextIsEmpty(Section)) == AuditLog([], true) &&
      Audit(rows, TextIsMissing(Section)) == AuditLog(["1", "2"], false)
  {
    var rows := [Defect("1", None, None, None, None, None),
                 Defect("2", None, None, Some(""), None, None)];
    assert rows[..1] == [rows[0]];
    assert rows[..1][..0] == [];
  }

  /** The audit as the comment describes it never raises, and reports, in
      row order, exactly the ids of the rows whose value is NULL or empty. */
  lemma IntendedTextAudit(rows: seq<Defect>, column: TextColumn)
    ensures Audit(rows, TextIsMissing(column)) == AuditLog(Flagged(rows, TextIsMissing(column)), false)
    ensures forall id :: id in Audit(rows, TextIsMissing(column)).reported <==>
      exists i :: 0 <= i < |rows| && rows[i].defectId == id &&
        (Text(rows[i], column).None? || Text(rows[i], column) == Some(""))
  {
    AuditWithoutRaise(rows, TextIsMissing(column));
    forall id
      ensures id in Flagged(rows, TextIsMissing(column)) <==>
        exists i :: 0 <= i < |rows| && rows[i].defectId == id &&
          (Text(rows[i], column).None? || Text(rows[i], column) == Some(""))
    {
      FlaggedMember(rows, TextIsMissing(column), id);
    }
  }
}
