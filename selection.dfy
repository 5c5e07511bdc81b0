/** The attribute selection that copies the rows of a feature class matching
    an SQL where-clause into a new feature class, keeping their order. */
module Selection {
  import opened Defects

  /** SQL's three truth values: a comparison with NULL is Unknown. */
  datatype Truth = True | False | Unknown

  /** The where-clauses the script writes: `Col = 'lit'`, `Col <> 'lit'`
      and their conjunction. */
  datatype Where =
    | Equals(column: TextColumn, literal: string)
    | NotEquals(column: TextColumn, literal: string)
    | And(left: Where, right: Where)

  /** SQL's AND: False wins over Unknown, and True needs both sides True. */
  function AndTruth(a: Truth, b: Truth): (t: Truth)
    ensures t == True <==> a == True && b == True
    ensures t == False <==> a == False || b == False
  {
    if a == False || b == False then False
    else if a == True && b == True then True
    else Unknown
  }

  /** The truth of a where-clause for one row. A clause can be Unknown only
      because of a NULL: on a row without NULLs it is True or False. */
  function Eval(w: Where, r: Defect): (t: Truth)
    ensures (forall c: TextColumn :: Text(r, c).Some?) ==> t != Unknown
  {
    match w
    case Equals(c, lit) =>
      (match Text(r, c)
       case None => Unknown
       case Some(v) => if v == lit then True else False)
    case NotEquals(c, lit) =>
      (match Text(r, c)
       case None => Unknown
       case Some(v) => if v != lit then True else False)
    case And(a, b) => AndTruth(Eval(a, r), Eval(b, r))
  }

  /** A row is selected only when the clause is True, never when Unknown. */
  predicate Keeps(w: Where, r: Defect)
  {
    Eval(w, r) == True
  }

  /** What each clause means for a row: a NULL value matches neither an
      equality nor an inequality, and a conjunction needs both sides. */
  lemma KeepsMeaning(w: Where, r: Defect)
    ensures w.Equals? ==> (Keeps(w, r) <==> Text(r, w.column) == Some(w.literal))
    ensures w.NotEquals? ==> (Keeps(w, r) <==> Text(r, w.column).Some? && Text(r, w.column).value != w.literal)
    ensures w.And? ==> (Keeps(w, r) <==> Keeps(w.left, r) && Keeps(w.right, r))
  {
  }

  /** The rows of `rows` that the clause selects, in their original order. */
  function Select(rows: seq<Defect>, w: Where): (out: seq<Defect>)
    ensures |out| <= |rows|
  {
    if rows == [] then []
    else (if Keeps(w, rows[0]) then [rows[0]] else []) + Select(rows[1..], w)
  }

  /** Selection distributes over concatenation: it keeps row order. */
  lemma {:induction false} SelectAppend(a: seq<Defect>, b: seq<Defect>, w: Where)
    ensures Select(a + b, w) == Select(a, w) + Select(b, w)
  {
    if a == [] {
      assert a + b == b;
    } else {
      var head := if Keeps(w, a[0]) then [a[0]] else [];
      assert (a + b)[0] == a[0];
      assert (a + b)[1..] == a[1..] + b;
      SelectAppend(a[1..], b, w);
      calc {
        Select(a + b, w);
        head + Select(a[1..] + b, w);
        head + (Select(a[1..], w) + Select(b, w));
        (head + Select(a[1..], w)) + Select(b, w);
      }
    }
  }

  /** A row is in the selection exactly when it is in the input and the
      clause is True for it. */
  lemma {:induction false} SelectMember(rows: seq<Defect>, w: Where, r: Defect)
    ensures r in Select(rows, w) <==> r in rows && Keeps(w, r)
  {
    if rows != [] {
      SelectMember(rows[1..], w, r);
      assert rows == [rows[0]] + rows[1..];
    }
  }

  /** No selected row is lost or duplicated: every selected row occurs as
      often as in the input, every other row not at all. */
  lemma {:induction false} SelectMultiplicity(rows: seq<Defect>, w: Where, r: Defect)
    ensures multiset(Select(rows, w))[r] == if Keeps(w, r) then multiset(rows)[r] else 0
  {
    if rows != [] {
      SelectMultiplicity(rows[1..], w, r);
      assert rows == [rows[0]] + rows[1..];
      assert multiset(rows) == multiset([rows[0]]) + multiset(rows[1..]);
      var head := if Keeps(w, rows[0]) then [rows[0]] else [];
      assert multiset(Select(rows, w)) == multiset(head) + multiset(Select(rows[1..], w));
    }
  }

  /** Selecting again with the same clause changes nothing. */
  lemma {:induction false} SelectIdempotent(rows: seq<Defect>, w: Where)
    ensures Select(Select(rows, w), w) == Select(rows, w)
  {
    if rows != [] {
      var head := if Keeps(w, rows[0]) then [rows[0]] else [];
      SelectAppend(head, Select(rows[1..], w), w);
      SelectIdempotent(rows[1..], w);
      assert Select(head, w) == head;
    }
  }

  /** A conjunction selects what its two sides select one after the other. */
  lemma {:induction false} SelectAnd(rows: seq<Defect>, a: Where, b: Where)
    ensures Select(rows, And(a, b)) == Select(Select(rows, a), b)
  {
    if rows != [] {
      var head := if Keeps(a, rows[0]) then [rows[0]] else [];
      SelectAppend(head, Select(rows[1..], a), b);
      SelectAnd(rows[1..], a, b);
      KeepsMeaning(And(a, b), rows[0]);
      assert head != [] ==> head == [rows[0]];
    }
  }

  /** The selection tool: one pass over the input rows, appending each row
      the clause selects to the output feature class. */
  method SelectAnalysis(rows: seq<Defect>, w: Where) returns (out: seq<Defect>)
    ensures out == Select(rows, w)
  {
    out := [];
    var i := 0;
    while i < |rows|
      invariant 0 <= i <= |rows|
      invariant out == Select(rows[..i], w)
    {
      assert rows[..i + 1] == rows[..i] + [rows[i]];
      SelectAppend(rows[..i], [rows[i]], w);
      if Keeps(w, rows[i]) {
        out := out + [rows[i]];
      }
      i := i + 1;
    }
    assert rows[..i] == rows;
  }
}
