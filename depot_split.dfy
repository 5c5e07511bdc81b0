/** The split of the enriched defect table into one feature class per
    responsible depot, by eleven selections on hard-coded depot names. */
module DepotSplit {
  import opened Defects
  import opened Selection

  /** Each selection: the name of the output feature class and the depot
      value its where-clause compares Responsible_Depot against. */
  datatype Output = Output(featureClass: string, depot: string)

  const Depots: seq<Output> := [
    Output("Ainley_Top", "Ainley Top"),
    Output("Aston", "Aston"),
    Output("Birdwell", "Birdwell"),
    Output("Broughton", "Broughton"),
    Output("Low_Marishes", "Low Marishes"),
    Output("Normanton", "Normanton"),
    Output("Shillinghill", "Shillinghill"),
    Output("South_Cave", "South Cave"),
    Output("Sprotborough", "Sprotborough"),
    Output("Tingley", "Tingley"),
    Output("West_Cowick", "West Cowick")
  ]

  /** `Responsible_Depot = '<depot>'` */
  function DepotClause(depot: string): (w: Where)
  {
    Equals(ResponsibleDepot, depot)
  }

  /** No two selections share an output name or a depot value. */
  lemma DepotsDistinct()
    ensures |Depots| == 11
    ensures forall i, j :: 0 <= i < j < |Depots| ==> Depots[i].featureClass != Depots[j].featureClass
    ensures forall i, j :: 0 <= i < j < |Depots| ==> Depots[i].depot != Depots[j].depot
  {
  }

  /** The rows of one depot's subset are exactly the input rows whose
      Responsible_Depot equals that depot's name; a NULL depot matches none. */
  lemma InSubsetIff(rows: seq<Defect>, depot: string, r: Defect)
    ensures r in Select(rows, DepotClause(depot)) <==> r in rows && r.responsibleDepot == Some(depot)
  {
    SelectMember(rows, DepotClause(depot), r);
    KeepsMeaning(DepotClause(depot), r);
  }

  /** Output names are pairwise distinct, so no selection overwrites another. */
  ghost predicate DistinctOutputs(outs: seq<Output>)
  {
    forall i, j :: 0 <= i < j < |outs| ==> outs[i].featureClass != outs[j].featureClass
  }

  /** The output names of the first k selections. */
  ghost function NamesBefore(outs: seq<Output>, k: nat): set<string>
    requires k <= |outs|
  {
    set i | 0 <= i < k :: outs[i].featureClass
  }

  lemma NamesStep(outs: seq<Output>, k: nat)
    requires k < |outs|
    ensures NamesBefore(outs, k + 1) == NamesBefore(outs, k) + {outs[k].featureClass}
  {
    var a := NamesBefore(outs, k + 1);
    var b := NamesBefore(outs, k);
    assert outs[k].featureClass in a;
    forall x | x in a ensures x in b + {outs[k].featureClass} {
      var i :| 0 <= i < k + 1 && outs[i].featureClass == x;
      if i < k { assert x in b; }
    }
  }

  /** One selection per entry of `outs`, each written under its output name
      into the workspace `gdb0`, replacing a feature class of that name
      (overwriteOutput is on). Every other feature class already in the
      workspace stays as it was. */
  method SelectEach(rows: seq<Defect>, outs: seq<Output>, gdb0: map<string, seq<Defect>>)
    returns (gdb: map<string, seq<Defect>>)
    requires DistinctOutputs(outs)
    ensures gdb.Keys == gdb0.Keys + NamesBefore(outs, |outs|)
    ensures forall i :: 0 <= i < |outs| ==>
      gdb[outs[i].featureClass] == Select(rows, DepotClause(outs[i].depot))
    ensures forall name :: name in gdb0 && name !in NamesBefore(outs, |outs|) ==>
      gdb[name] == gdb0[name]
  {
    gdb := gdb0;
    var k := 0;
    while k < |outs|
      invariant 0 <= k <= |outs|
      invariant gdb.Keys == gdb0.Keys + NamesBefore(outs, k)
      invariant forall i :: 0 <= i < k ==>
        gdb[outs[i].featureClass] == Select(rows, DepotClause(outs[i].depot))
      invariant forall name :: name in gdb0 && name !in NamesBefore(outs, k) ==>
        gdb[name] == gdb0[name]
    {
      var subset := SelectAnalysis(rows, DepotClause(outs[k].depot));
      ghost var before := gdb;
      gdb := gdb[outs[k].featureClass := subset];
      forall i | 0 <= i < k
        ensures gdb[outs[i].featureClass] == before[outs[i].featureClass]
      {
        assert outs[i].featureClass != outs[k].featureClass;
      }
      NamesStep(outs, k);
      k := k + 1;
    }
  }

  /** DefectByDepot: one feature class per depot, keyed by its output name,
      written into the existing workspace `depotGdb0`. Each holds exactly the
      rows whose Responsible_Depot is that depot; feature classes of other
      names stay, and are listed and exported with the rest. */
  method SplitByDepot(de05v3: seq<Defect>, depotGdb0: map<string, seq<Defect>>)
    returns (depotGdb: map<string, seq<Defect>>)
    ensures depotGdb.Keys == depotGdb0.Keys + set i | 0 <= i < |Depots| :: Depots[i].featureClass
    ensures forall i :: 0 <= i < |Depots| ==>
      depotGdb[Depots[i].featureClass] == Select(de05v3, DepotClause(Depots[i].depot))
    ensures forall i, r :: 0 <= i < |Depots| ==>
      (r in depotGdb[Depots[i].featureClass] <==> r in de05v3 && r.responsibleDepot == Some(Depots[i].depot))
    ensures forall name :: name in depotGdb0 && (forall i :: 0 <= i < |Depots| ==> Depots[i].featureClass != name) ==>
      depotGdb[name] == depotGdb0[name]
  {
    DepotsDistinct();
    depotGdb := SelectEach(de05v3, Depots, depotGdb0);
    forall i, r | 0 <= i < |Depots|
      ensures r in depotGdb[Depots[i].featureClass] <==> r in de05v3 && r.responsibleDepot == Some(Depots[i].depot)
    {
      InSubsetIff(de05v3, Depots[i].depot, r);
    }
    forall name | name in depotGdb0 && (forall i :: 0 <= i < |Depots| ==> Depots[i].featureClass != name)
      ensures depotGdb[name] == depotGdb0[name]
    {
      assert name !in NamesBefore(Depots, |Depots|);
    }
  }

  /** The eleven subsets are pairwise disjoint. */
  lemma SubsetsDisjoint(rows: seq<Defect>, i: nat, j: nat, r: Defect)
    requires i < |Depots| && j < |Depots| && i != j
    ensures !(r in Select(rows, DepotClause(Depots[i].depot)) && r in Select(rows, DepotClause(Depots[j].depot)))
  {
    DepotsDistinct();
    InSubsetIff(rows, Depots[i].depot, r);
    InSubsetIff(rows, Depots[j].depot, r);
  }

  /** A row whose depot is NULL or not one of the eleven names lands in no
      subset; a row whose depot is one of them lands in that one. */
  lemma SubsetOfRow(rows: seq<Defect>, r: Defect, i: nat)
    requires r in rows && i < |Depots|
    ensures r in Select(rows, DepotClause(Depots[i].depot)) <==> r.responsibleDepot == Some(Depots[i].depot)
    ensures (forall j :: 0 <= j < |Depots| ==> r.responsibleDepot != Some(Depots[j].depot)) ==>
      r !in Select(rows, DepotClause(Depots[i].depot))
  {
    InSubsetIff(rows, Depots[i].depot, r);
  }
}
