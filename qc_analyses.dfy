/**
 * QC derivation (getQCAnalyses): from each analysis of the order, follow
 * its first worksheet back-reference to that worksheet's analyses, and keep
 * the duplicates of this order and the reference analyses of this order's
 * services, optionally of one reference type, each at most once, in the
 * order first met.
 */
module QcDerivation {
  import opened Wrappers
  import opened AnalysisTypes

  /** The worksheets, as the analyses each one holds. */
  type Worksheets = map<string, seq<WorksheetAnalysis>>

  /** Every analysis's first back-reference names a known worksheet. */
  predicate HostsKnown(analyses: seq<Analysis>, worksheets: Worksheets) {
    forall i :: 0 <= i < |analyses| && |analyses[i].worksheets| > 0 ==> analyses[i].worksheets[0] in worksheets
  }

  function ServiceUidSet(analyses: seq<Analysis>): set<string> {
    set i | 0 <= i < |analyses| :: analyses[i].serviceUid
  }

  /** The classification of one worksheet analysis. */
  predicate IsQcOf(wa: WorksheetAnalysis, requestId: string, suids: set<string>, qctype: Option<string>) {
    && ((wa.portalType == DuplicateAnalysis && wa.requestId == requestId)
        || (wa.portalType == ReferenceAnalysis && wa.serviceUid in suids))
    && (qctype.None? || wa.referenceType == qctype.value)
  }

  /** The analyses of the worksheet an analysis is hosted on (its first
      back-reference), or none when it has no back-reference. */
  function Hosted(a: Analysis, worksheets: Worksheets): seq<WorksheetAnalysis>
    requires |a.worksheets| > 0 ==> a.worksheets[0] in worksheets
  {
    if |a.worksheets| > 0 then worksheets[a.worksheets[0]] else []
  }

  /** Every worksheet analysis met while traversing the first n analyses,
      in traversal order, repetitions included. */
  function Reached(analyses: seq<Analysis>, worksheets: Worksheets, n: nat): seq<WorksheetAnalysis>
    requires HostsKnown(analyses, worksheets) && n <= |analyses|
  {
    if n == 0 then [] else Reached(analyses, worksheets, n - 1) + Hosted(analyses[n - 1], worksheets)
  }

  /** The items of s that classify as QC, first occurrence only. */
  function Select(s: seq<WorksheetAnalysis>, requestId: string, suids: set<string>, qctype: Option<string>): seq<WorksheetAnalysis>
  {
    if s == [] then []
    else
      var prev := Select(s[..|s| - 1], requestId, suids, qctype);
      var wa := s[|s| - 1];
      if IsQcOf(wa, requestId, suids, qctype) && wa !in prev then prev + [wa] else prev
  }

  /** The value getQCAnalyses returns. */
  function QcAnalysesOf(requestId: string, analyses: seq<Analysis>, worksheets: Worksheets, qctype: Option<string>): seq<WorksheetAnalysis>
    requires HostsKnown(analyses, worksheets)
  {
    Select(Reached(analyses, worksheets, |analyses|), requestId, ServiceUidSet(analyses), qctype)
  }

  /** The first loop of getQCAnalyses: the distinct service UIDs. */
  method ServiceUids(analyses: seq<Analysis>) returns (suids: seq<string>)
    ensures forall i, j :: 0 <= i < j < |suids| ==> suids[i] != suids[j]
    ensures forall u :: u in suids <==> u in ServiceUidSet(analyses)
  {
    suids := [];
    var i := 0;
    while i < |analyses|
      invariant 0 <= i <= |analyses|
      invariant forall a, b :: 0 <= a < b < |suids| ==> suids[a] != suids[b]
      invariant forall u :: u in suids <==> exists j :: 0 <= j < i && analyses[j].serviceUid == u
    {
      if analyses[i].serviceUid !in suids {
        suids := suids + [analyses[i].serviceUid];
      }
      i := i + 1;
    }
  }

  lemma SelectStep(s: seq<WorksheetAnalysis>, wa: WorksheetAnalysis, requestId: string, suids: set<string>, qctype: Option<string>)
    ensures var prev := Select(s, requestId, suids, qctype);
            Select(s + [wa], requestId, suids, qctype)
            == if IsQcOf(wa, requestId, suids, qctype) && wa !in prev then prev + [wa] else prev
  {
    assert (s + [wa])[..|s|] == s;
  }

  /** The inner loop of getQCAnalyses: scan one worksheet's analyses,
      appending each QC item not already collected. */
  method ScanWorksheet(requestId: string, suids: seq<string>, qctype: Option<string>, was: seq<WorksheetAnalysis>,
                       qcanalyses: seq<WorksheetAnalysis>, ghost reached: seq<WorksheetAnalysis>, ghost uids: set<string>)
    returns (qc: seq<WorksheetAnalysis>)
    requires forall u :: u in suids <==> u in uids
    requires qcanalyses == Select(reached, requestId, uids, qctype)
    ensures qc == Select(reached + was, requestId, uids, qctype)
  {
    qc := qcanalyses;
    var j := 0;
    assert reached + was[..0] == reached;
    while j < |was|
      invariant 0 <= j <= |was|
      invariant qc == Select(reached + was[..j], requestId, uids, qctype)
    {
      var wa := was[j];
      assert reached + was[..j + 1] == (reached + was[..j]) + [wa];
      SelectStep(reached + was[..j], wa, requestId, uids, qctype);
      if wa.portalType == DuplicateAnalysis
        && wa.requestId == requestId
        && wa !in qc
        && (qctype.None? || wa.referenceType == qctype.value)
      {
        qc := qc + [wa];
      } else if wa.portalType == ReferenceAnalysis
        && wa.serviceUid in suids
        && wa !in qc
        && (qctype.None? || wa.referenceType == qctype.value)
      {
        qc := qc + [wa];
      }
      j := j + 1;
    }
    assert was[..j] == was;
  }

  /** getQCAnalyses */
  method QcAnalyses(requestId: string, analyses: seq<Analysis>, worksheets: Worksheets, qctype: Option<string>)
    returns (qcanalyses: seq<WorksheetAnalysis>)
    requires HostsKnown(analyses, worksheets)
    ensures qcanalyses == QcAnalysesOf(requestId, analyses, worksheets, qctype)
  {
    qcanalyses := [];
    var suids := ServiceUids(analyses);
    ghost var uids := ServiceUidSet(analyses);
    var i := 0;
    while i < |analyses|
      invariant 0 <= i <= |analyses|
      invariant qcanalyses == Select(Reached(analyses, worksheets, i), requestId, uids, qctype)
    {
      ghost var reached := Reached(analyses, worksheets, i);
      var an := analyses[i];
      if |an.worksheets| > 0 {
        var ws := an.worksheets[0];
        var was := worksheets[ws];
        qcanalyses := ScanWorksheet(requestId, suids, qctype, was, qcanalyses, reached, uids);
      } else {
        assert reached + [] == reached;
      }
      i := i + 1;
    }
  }

  // ---------------------------------------------------------------------
  // Properties

  /** No worksheet analysis is returned twice, and an item is returned iff
      it is reached through some hosting worksheet and classifies as QC. */
  lemma {:induction false} SelectExact(s: seq<WorksheetAnalysis>, requestId: string, suids: set<string>, qctype: Option<string>)
    ensures var r := Select(s, requestId, suids, qctype);
            (forall i, j :: 0 <= i < j < |r| ==> r[i] != r[j])
            && (forall wa :: wa in r <==> wa in s && IsQcOf(wa, requestId, suids, qctype))
    decreases |s|
  {
    if s != [] {
      var p := s[..|s| - 1];
      SelectExact(p, requestId, suids, qctype);
      assert s == p + [s[|s| - 1]];
    }
  }

  /** Results are in first-encountered order: what was selected from a
      prefix of the traversal stays, in place, at the front of the result. */
  lemma {:induction false} SelectPrefix(s: seq<WorksheetAnalysis>, t: seq<WorksheetAnalysis>, requestId: string, suids: set<string>, qctype: Option<string>)
    ensures Select(s, requestId, suids, qctype) <= Select(s + t, requestId, suids, qctype)
    decreases |t|
  {
    if t == [] {
      assert s + t == s;
    } else {
      var u := t[..|t| - 1];
      assert (s + t)[..|s + t| - 1] == s + u;
      SelectPrefix(s, u, requestId, suids, qctype);
    }
  }

  lemma ServiceUidSetConcat(x: seq<Analysis>, y: seq<Analysis>)
    ensures ServiceUidSet(x + y) == ServiceUidSet(x) + ServiceUidSet(y)
  {
    forall u | u in ServiceUidSet(x + y) ensures u in ServiceUidSet(x) + ServiceUidSet(y) {
      var i :| 0 <= i < |x + y| && (x + y)[i].serviceUid == u;
      if i < |x| { assert (x + y)[i] == x[i]; } else { assert (x + y)[i] == y[i - |x|]; }
    }
    forall u | u in ServiceUidSet(x) + ServiceUidSet(y) ensures u in ServiceUidSet(x + y) {
      if u in ServiceUidSet(x) {
        var i :| 0 <= i < |x| && x[i].serviceUid == u;
        assert (x + y)[i] == x[i];
      } else {
        var i :| 0 <= i < |y| && y[i].serviceUid == u;
        assert (x + y)[|x| + i] == y[i];
      }
    }
  }

  lemma DropKeepsHostsKnown(s1: seq<Analysis>, a: Analysis, s2: seq<Analysis>, worksheets: Worksheets)
    requires HostsKnown(s1 + [a] + s2, worksheets)
    ensures HostsKnown(s1 + s2, worksheets)
  {
    forall i | 0 <= i < |s1 + s2| && |(s1 + s2)[i].worksheets| > 0
      ensures (s1 + s2)[i].worksheets[0] in worksheets
    {
      if i < |s1| { assert (s1 + s2)[i] == (s1 + [a] + s2)[i]; }
      else { assert (s1 + s2)[i] == (s1 + [a] + s2)[i + 1]; }
    }
  }

  /** An analysis without a worksheet back-reference reaches nothing:
      the traversal with it equals the traversal without it. */
  lemma {:induction false} ReachedSkipsUnhosted(s1: seq<Analysis>, a: Analysis, s2: seq<Analysis>, worksheets: Worksheets, n: nat)
    requires HostsKnown(s1 + [a] + s2, worksheets) && HostsKnown(s1 + s2, worksheets)
    requires |a.worksheets| == 0
    requires n <= |s1 + [a] + s2|
    ensures n <= |s1| ==> Reached(s1 + [a] + s2, worksheets, n) == Reached(s1 + s2, worksheets, n)
    ensures n > |s1| ==> Reached(s1 + [a] + s2, worksheets, n) == Reached(s1 + s2, worksheets, n - 1)
    decreases n
  {
    var x, y := s1 + [a] + s2, s1 + s2;
    if n > 0 {
      ReachedSkipsUnhosted(s1, a, s2, worksheets, n - 1);
      if n <= |s1| {
        assert x[n - 1] == y[n - 1];
      } else if n == |s1| + 1 {
        assert x[n - 1] == a;
        assert Hosted(a, worksheets) == [];
      } else {
        assert x[n - 1] == y[n - 2];
      }
    }
  }

  /** An analysis without a worksheet back-reference contributes nothing:
      removing it leaves the result unchanged, as long as its service is
      still among the order's other services. */
  lemma NoWorksheetNoContribution(requestId: string, s1: seq<Analysis>, a: Analysis, s2: seq<Analysis>,
                                  worksheets: Worksheets, qctype: Option<string>)
    requires HostsKnown(s1 + [a] + s2, worksheets)
    requires |a.worksheets| == 0
    requires a.serviceUid in ServiceUidSet(s1 + s2)
    ensures HostsKnown(s1 + s2, worksheets)
    ensures QcAnalysesOf(requestId, s1 + [a] + s2, worksheets, qctype) == QcAnalysesOf(requestId, s1 + s2, worksheets, qctype)
  {
    DropKeepsHostsKnown(s1, a, s2, worksheets);
    ReachedSkipsUnhosted(s1, a, s2, worksheets, |s1 + [a] + s2|);
    ServiceUidSetConcat(s1 + [a], s2);
    ServiceUidSetConcat(s1, [a]);
    ServiceUidSetConcat(s1, s2);
    assert ServiceUidSet([a]) == {a.serviceUid} by {
      assert [a][0].serviceUid == a.serviceUid;
    }
    assert ServiceUidSet(s1 + [a] + s2) == ServiceUidSet(s1 + s2);
    assert Reached(s1 + [a] + s2, worksheets, |s1 + [a] + s2|) == Reached(s1 + s2, worksheets, |s1 + s2|);
  }

  /** With qctype None the result holds exactly the union of the results for
      each single reference type, each item under its own type. */
  lemma AnyTypeIsUnion(requestId: string, analyses: seq<Analysis>, worksheets: Worksheets)
    requires HostsKnown(analyses, worksheets)
    ensures forall wa :: wa in QcAnalysesOf(requestId, analyses, worksheets, None) <==>
              wa in QcAnalysesOf(requestId, analyses, worksheets, Some(wa.referenceType))
    ensures forall t, wa :: wa in QcAnalysesOf(requestId, analyses, worksheets, Some(t)) ==>
              wa in QcAnalysesOf(requestId, analyses, worksheets, None)
  {
    var s := Reached(analyses, worksheets, |analyses|);
    var u := ServiceUidSet(analyses);
    SelectExact(s, requestId, u, None);
    forall t: string ensures
      forall wa :: wa in QcAnalysesOf(requestId, analyses, worksheets, Some(t)) <==> wa in s && IsQcOf(wa, requestId, u, Some(t))
    {
      SelectExact(s, requestId, u, Some(t));
    }
  }
}
