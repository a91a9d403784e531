/**
 * The "daily samples received" productivity report: the received samples
 * returned by the catalog are grouped by the patient's country; each
 * analysis of a sample becomes one detail row of its country's group, and
 * the groups and the footer count analyses and samples.
 */
module DailySamplesReceived {
  import opened Wrappers
  import opened Sequences

  datatype AnalysisRow = AnalysisRow(keyword: string, serviceTitle: string)

  /** A received sample as the report reads it; `country` is the 'country'
      entry of the patient's physical address, None when absent. Dates are
      already formatted. */
  datatype SampleRecord = SampleRecord(
    sampleId: string,
    sampleType: string,
    dateReceived: string,
    samplingDate: string,
    country: Option<string>,
    analyses: seq<AnalysisRow>)

  /** One detail row of a country group. */
  datatype DataLine = DataLine(
    analysisKeyword: string,
    analysisTitle: string,
    sampleId: string,
    sampleType: string,
    sampleDateReceived: string,
    sampleSamplingDate: string)

  datatype CountryLine = CountryLine(
    country: string,
    countryName: string,
    samples: seq<DataLine>,
    analysesCount: nat,
    samplesCount: nat)

  datatype Footer = Footer(analysesCount: nat, samplesCount: nat)

  /** The report's bookkeeping: the groups by country, the countries in the
      order they were first inserted, and the two footer counters. */
  datatype Tally = Tally(datalines: map<string, CountryLine>, countries: seq<string>, analysesCount: nat, samplesCount: nat)

  datatype ReportOutcome =
    | NoSamplesMatched(message: string)
    | Report(datalines: map<string, CountryLine>, countries: seq<string>, footlines: seq<Footer>)

  const NoSamplesMessage: string := "No samples matched your query"
  const UnknownCountry: string := "Unknown"

  function CountryOf(s: SampleRecord): string {
    match s.country
    case None => UnknownCountry
    case Some(c) => c
  }

  function DataLineOf(s: SampleRecord, a: AnalysisRow): DataLine {
    DataLine(a.keyword, a.serviceTitle, s.sampleId, s.sampleType, s.dateReceived, s.samplingDate)
  }

  function EmptyLine(c: string): CountryLine {
    CountryLine(c, c, [], 0, 0)
  }

  const NoTally: Tally := Tally(map[], [], 0, 0)

  /** One analysis row of sample s: append its detail row to the group of
      the sample's country (a fresh group when none exists yet) and count
      it; the first row of the sample also counts the sample. */
  function AddRow(t: Tally, s: SampleRecord, a: AnalysisRow, firstOfSample: bool): Tally {
    var c := CountryOf(s);
    var line := if c in t.datalines then t.datalines[c] else EmptyLine(c);
    var bump := if firstOfSample then 1 else 0;
    var line' := line.(samples := line.samples + [DataLineOf(s, a)],
                       analysesCount := line.analysesCount + 1,
                       samplesCount := line.samplesCount + bump);
    Tally(t.datalines[c := line'],
          if c in t.datalines then t.countries else t.countries + [c],
          t.analysesCount + 1,
          t.samplesCount + bump)
  }

  /** The first n analysis rows of sample s. */
  function AddRows(t: Tally, s: SampleRecord, n: nat): Tally
    requires n <= |s.analyses|
  {
    if n == 0 then t else AddRow(AddRows(t, s, n - 1), s, s.analyses[n - 1], n == 1)
  }

  /** The bookkeeping after the first n samples. */
  function TallyOf(samples: seq<SampleRecord>, n: nat): Tally
    requires n <= |samples|
  {
    if n == 0 then NoTally else AddRows(TallyOf(samples, n - 1), samples[n - 1], |samples[n - 1].analyses|)
  }

  /** What the report builds from the catalog's samples. */
  function ReportOf(samples: seq<SampleRecord>): ReportOutcome {
    if samples == [] then NoSamplesMatched(NoSamplesMessage)
    else
      var t := TallyOf(samples, |samples|);
      Report(t.datalines, t.countries, [Footer(t.analysesCount, t.samplesCount)])
  }

  /** Report.__call__, from the catalog result on. */
  method DailySamplesReport(samples: seq<SampleRecord>) returns (outcome: ReportOutcome)
    ensures outcome == ReportOf(samples)
  {
    if samples == [] {
      return NoSamplesMatched(NoSamplesMessage);
    }
    var datalines: map<string, CountryLine> := map[];
    var countries: seq<string> := [];
    var analysesCount: nat := 0;
    var samplesCount: nat := 0;
    var i := 0;
    while i < |samples|
      invariant 0 <= i <= |samples|
      invariant Tally(datalines, countries, analysesCount, samplesCount) == TallyOf(samples, i)
    {
      var countrysamples: seq<string> := [];
      var sample := samples[i];
      var country := CountryOf(sample);
      var countryline := EmptyLine(country);
      if country in datalines {
        countryline := datalines[country];
      }
      ghost var before := TallyOf(samples, i);
      var analyses := sample.analyses;
      var j := 0;
      while j < |analyses|
        invariant 0 <= j <= |analyses|
        invariant Tally(datalines, countries, analysesCount, samplesCount) == AddRows(before, sample, j)
        invariant countrysamples == if j == 0 then [] else [sample.sampleId]
        invariant countryline == if country in datalines then datalines[country] else EmptyLine(country)
      {
        var dataline := DataLineOf(sample, analyses[j]);
        countryline := countryline.(samples := countryline.samples + [dataline]);
        countryline := countryline.(analysesCount := countryline.analysesCount + 1);
        if dataline.sampleId !in countrysamples {
          countrysamples := countrysamples + [dataline.sampleId];
          countryline := countryline.(samplesCount := countryline.samplesCount + 1);
          samplesCount := samplesCount + 1;
        }
        if country !in datalines {
          countries := countries + [country];
        }
        datalines := datalines[country := countryline];
        analysesCount := analysesCount + 1;
        j := j + 1;
      }
      i := i + 1;
    }
    var footline := Footer(analysesCount, samplesCount);
    outcome := Report(datalines, countries, [footline]);
  }

  // ---------------------------------------------------------------------
  // Sums over the groups

  datatype Counter = AnalysesCounter | SamplesCounter

  function Count(l: CountryLine, k: Counter): nat {
    match k
    case AnalysesCounter => l.analysesCount
    case SamplesCounter => l.samplesCount
  }

  /** Sum of one counter over the groups of the given countries. */
  function SumOver(cs: seq<string>, m: map<string, CountryLine>, k: Counter): nat
    requires forall i :: 0 <= i < |cs| ==> cs[i] in m
  {
    if cs == [] then 0 else SumOver(cs[..|cs| - 1], m, k) + Count(m[cs[|cs| - 1]], k)
  }

  lemma {:induction false} SumOverOther(cs: seq<string>, m: map<string, CountryLine>, c: string, v: CountryLine, k: Counter)
    requires forall i :: 0 <= i < |cs| ==> cs[i] in m
    requires c !in cs
    ensures SumOver(cs, m[c := v], k) == SumOver(cs, m, k)
    decreases |cs|
  {
    if cs != [] {
      SumOverOther(cs[..|cs| - 1], m, c, v, k);
    }
  }

  lemma {:induction false} SumOverUpdate(cs: seq<string>, m: map<string, CountryLine>, c: string, v: CountryLine, k: Counter)
    requires forall i :: 0 <= i < |cs| ==> cs[i] in m
    requires c in cs && Distinct(cs)
    ensures SumOver(cs, m[c := v], k) == SumOver(cs, m, k) - Count(m[c], k) + Count(v, k)
    decreases |cs|
  {
    var p := cs[..|cs| - 1];
    if cs[|cs| - 1] == c {
      assert c !in p;
      SumOverOther(p, m, c, v, k);
    } else {
      assert c in p;
      SumOverUpdate(p, m, c, v, k);
    }
  }

  lemma SumOverAppend(cs: seq<string>, m: map<string, CountryLine>, c: string, k: Counter)
    requires forall i :: 0 <= i < |cs| ==> cs[i] in m
    requires c in m
    ensures SumOver(cs + [c], m, k) == SumOver(cs, m, k) + Count(m[c], k)
  {
    assert (cs + [c])[..|cs|] == cs;
  }

  // ---------------------------------------------------------------------
  // Invariants of the bookkeeping

  /** The groups are keyed by their country, inserted once each; a group's
      analyses count is its number of rows; the footer counters are the
      sums of the group counters. */
  ghost predicate Consistent(t: Tally) {
    && Distinct(t.countries)
    && (forall c :: c in t.datalines <==> c in t.countries)
    && (forall c :: c in t.datalines ==>
          var l := t.datalines[c];
          l.country == c && l.countryName == c && l.analysesCount == |l.samples| && l.samplesCount <= l.analysesCount)
    && SumOver(t.countries, t.datalines, AnalysesCounter) == t.analysesCount
    && SumOver(t.countries, t.datalines, SamplesCounter) == t.samplesCount
  }

  lemma AddRowConsistent(t: Tally, s: SampleRecord, a: AnalysisRow, first: bool)
    requires Consistent(t)
    requires first || CountryOf(s) in t.datalines
    ensures Consistent(AddRow(t, s, a, first))
  {
    var c := CountryOf(s);
    var t' := AddRow(t, s, a, first);
    var line := if c in t.datalines then t.datalines[c] else EmptyLine(c);
    var line' := t'.datalines[c];
    forall k: Counter
      ensures SumOver(t'.countries, t'.datalines, k) == SumOver(t.countries, t.datalines, k) + Count(line', k) - Count(line, k)
    {
      if c in t.datalines {
        SumOverUpdate(t.countries, t.datalines, c, line', k);
      } else {
        SumOverOther(t.countries, t.datalines, c, line', k);
        SumOverAppend(t.countries, t.datalines[c := line'], c, k);
      }
    }
    assert SumOver(t'.countries, t'.datalines, AnalysesCounter) == SumOver(t.countries, t.datalines, AnalysesCounter) + Count(line', AnalysesCounter) - Count(line, AnalysesCounter);
    assert SumOver(t'.countries, t'.datalines, SamplesCounter) == SumOver(t.countries, t.datalines, SamplesCounter) + Count(line', SamplesCounter) - Count(line, SamplesCounter);
  }

  lemma {:induction false} AddRowsConsistent(t: Tally, s: SampleRecord, n: nat)
    requires n <= |s.analyses| && Consistent(t)
    ensures Consistent(AddRows(t, s, n))
    ensures n > 0 ==> CountryOf(s) in AddRows(t, s, n).datalines
    decreases n
  {
    if n > 0 {
      AddRowsConsistent(t, s, n - 1);
      AddRowConsistent(AddRows(t, s, n - 1), s, s.analyses[n - 1], n == 1);
    }
  }

  lemma {:induction false} TallyConsistent(samples: seq<SampleRecord>, n: nat)
    requires n <= |samples|
    ensures Consistent(TallyOf(samples, n))
    decreases n
  {
    if n > 0 {
      TallyConsistent(samples, n - 1);
      AddRowsConsistent(TallyOf(samples, n - 1), samples[n - 1], |samples[n - 1].analyses|);
    } else {
      assert NoTally.countries == [];
    }
  }

  // ---------------------------------------------------------------------
  // Properties of the report

  /** Total number of analyses of the first n samples. */
  function TotalAnalyses(samples: seq<SampleRecord>, n: nat): nat
    requires n <= |samples|
  {
    if n == 0 then 0 else TotalAnalyses(samples, n - 1) + |samples[n - 1].analyses|
  }

  /** Number of the first n sample records that have at least one analysis. */
  function SamplesWithAnalyses(samples: seq<SampleRecord>, n: nat): nat
    requires n <= |samples|
  {
    if n == 0 then 0 else SamplesWithAnalyses(samples, n - 1) + (if |samples[n - 1].analyses| > 0 then 1 else 0)
  }

  /** Effect of one sample: its country's group gets one detail row per
      analysis, in order, and one more sample when it has any analysis;
      an existing group is extended, never replaced; no other group changes;
      the footer grows by the same amounts. */
  lemma {:induction false} SampleEffect(t: Tally, s: SampleRecord, n: nat)
    requires n <= |s.analyses|
    ensures var t' := AddRows(t, s, n);
            var c := CountryOf(s);
            var old_ := if c in t.datalines then t.datalines[c] else EmptyLine(c);
            && t'.analysesCount == t.analysesCount + n
            && t'.samplesCount == t.samplesCount + (if n > 0 then 1 else 0)
            && (n > 0 ==>
                  && c in t'.datalines
                  && t'.datalines[c].samples == old_.samples + seq(n, i requires 0 <= i < n => DataLineOf(s, s.analyses[i]))
                  && t'.datalines[c].analysesCount == old_.analysesCount + n
                  && t'.datalines[c].samplesCount == old_.samplesCount + 1
                  && t'.datalines[c].country == old_.country)
            && (n == 0 ==> t' == t)
            && (forall d :: d != c ==> (d in t'.datalines <==> d in t.datalines))
            && (forall d :: d != c && d in t.datalines ==> t'.datalines[d] == t.datalines[d])
            && t.countries <= t'.countries
    decreases n
  {
    if n > 0 {
      SampleEffect(t, s, n - 1);
      var rows := seq(n, i requires 0 <= i < n => DataLineOf(s, s.analyses[i]));
      var prevRows := seq(n - 1, i requires 0 <= i < n - 1 => DataLineOf(s, s.analyses[i]));
      assert rows == prevRows + [DataLineOf(s, s.analyses[n - 1])];
    }
  }

  /** Footer AnalysesCount is the total number of analyses, i.e. of detail
      rows; footer SamplesCount is the number of sample records with at
      least one analysis. */
  lemma {:induction false} FooterTotals(samples: seq<SampleRecord>, n: nat)
    requires n <= |samples|
    ensures TallyOf(samples, n).analysesCount == TotalAnalyses(samples, n)
    ensures TallyOf(samples, n).samplesCount == SamplesWithAnalyses(samples, n)
    decreases n
  {
    if n > 0 {
      FooterTotals(samples, n - 1);
      SampleEffect(TallyOf(samples, n - 1), samples[n - 1], |samples[n - 1].analyses|);
    }
  }

  /** A country is a group key iff one of its samples has an analysis. */
  lemma {:induction false} GroupKeys(samples: seq<SampleRecord>, n: nat)
    requires n <= |samples|
    ensures forall c :: c in TallyOf(samples, n).datalines <==>
              exists i :: 0 <= i < n && |samples[i].analyses| > 0 && CountryOf(samples[i]) == c
    decreases n
  {
    if n > 0 {
      GroupKeys(samples, n - 1);
      var s := samples[n - 1];
      SampleEffect(TallyOf(samples, n - 1), s, |s.analyses|);
      forall c | c in TallyOf(samples, n).datalines
        ensures exists i :: 0 <= i < n && |samples[i].analyses| > 0 && CountryOf(samples[i]) == c
      {
        if c !in TallyOf(samples, n - 1).datalines {
          assert |s.analyses| > 0 && CountryOf(s) == c;
        }
      }
    }
  }

  /** Groups only grow: later samples keep every existing group, extend its
      rows, and keep the first-insertion order of the countries. */
  lemma {:induction false} GroupsOnlyGrow(samples: seq<SampleRecord>, m: nat, n: nat)
    requires m <= n <= |samples|
    ensures TallyOf(samples, m).countries <= TallyOf(samples, n).countries
    ensures forall c :: c in TallyOf(samples, m).datalines ==>
              c in TallyOf(samples, n).datalines
              && TallyOf(samples, m).datalines[c].samples <= TallyOf(samples, n).datalines[c].samples
    decreases n - m
  {
    if m < n {
      GroupsOnlyGrow(samples, m, n - 1);
      var t := TallyOf(samples, n - 1);
      SampleEffect(t, samples[n - 1], |samples[n - 1].analyses|);
    }
  }

  /** The report as a whole: the empty catalog result gives the notice and no
      report; otherwise the footer equals the sums of the group counters,
      which count all analyses and every sample record with an analysis. */
  lemma ReportTotals(samples: seq<SampleRecord>)
    ensures samples == [] <==> ReportOf(samples).NoSamplesMatched?
    ensures samples == [] ==> ReportOf(samples).message == NoSamplesMessage
    ensures samples != [] ==>
              var r := ReportOf(samples);
              && Distinct(r.countries)
              && (forall c :: c in r.datalines <==> c in r.countries)
              && |r.footlines| == 1
              && r.footlines[0].analysesCount == SumOver(r.countries, r.datalines, AnalysesCounter)
              && r.footlines[0].samplesCount == SumOver(r.countries, r.datalines, SamplesCounter)
              && r.footlines[0].analysesCount == TotalAnalyses(samples, |samples|)
              && r.footlines[0].samplesCount == SamplesWithAnalyses(samples, |samples|)
  {
    if samples != [] {
      TallyConsistent(samples, |samples|);
      FooterTotals(samples, |samples|);
    }
  }
}
