/** `formatSAData`: grouping the findings of a security scan by file. */
module Findings {

  datatype AffectedFile = AffectedFile(filepath: string, highlights: seq<int>, lineStart: int, lineEnd: int)

  datatype Engine = Engine(id: string, code: string, severity: string, title: string, confidence: string,
                           description: string, recommendation: string)

  datatype AnalyzerResult = AnalyzerResult(mwe: Engine, showTitle: string, affectedFiles: seq<AffectedFile>)

  datatype FormatEngine = FormatEngine(mwe: Engine, showTitle: string, highlights: seq<int>, lineStart: int,
                                       lineEnd: int)

  datatype FormatResult = FormatResult(filepath: string, mwe: seq<FormatEngine>, fileKey: string)

  datatype Impact = Impact(critical: nat, high: nat, medium: nat, low: nat, informational: nat)

  /** One affected file of one result. */
  datatype Finding = Finding(result: AnalyzerResult, file: AffectedFile)

  // ---- the findings of a scan ----

  function FindingsOf(r: AnalyzerResult, files: seq<AffectedFile>): seq<Finding> {
    if files == [] then [] else FindingsOf(r, files[..|files| - 1]) + [Finding(r, files[|files| - 1])]
  }

  function AllFindings(results: seq<AnalyzerResult>): seq<Finding> {
    if results == [] then []
    else
      var r := results[|results| - 1];
      AllFindings(results[..|results| - 1]) + FindingsOf(r, r.affectedFiles)
  }

  /** The affected files of one path. */
  function GroupOf(fs: seq<Finding>, path: string): seq<AffectedFile> {
    if fs == [] then []
    else
      var f := fs[|fs| - 1].file;
      GroupOf(fs[..|fs| - 1], path) + if f.filepath == path then [f] else []
  }

  function EntryOf(f: Finding): FormatEngine {
    FormatEngine(f.result.mwe, f.result.showTitle, f.file.highlights, f.file.lineStart, f.file.lineEnd)
  }

  /** What is listed for one path. */
  function EntriesOf(fs: seq<Finding>, path: string): seq<FormatEngine> {
    if fs == [] then []
    else
      var f := fs[|fs| - 1];
      EntriesOf(fs[..|fs| - 1], path) + if f.file.filepath == path then [EntryOf(f)] else []
  }

  ghost function Paths(fs: seq<Finding>): set<string> {
    set f | f in fs :: f.file.filepath
  }

  /** The i-th entry listed for a path is about the i-th affected file grouped under it. */
  lemma {:induction false} EntriesMatchGroup(fs: seq<Finding>, path: string)
    ensures |EntriesOf(fs, path)| == |GroupOf(fs, path)|
    ensures forall i :: 0 <= i < |GroupOf(fs, path)| ==>
              var e, f := EntriesOf(fs, path)[i], GroupOf(fs, path)[i];
              f.filepath == path && e.highlights == f.highlights && e.lineStart == f.lineStart && e.lineEnd == f.lineEnd
    ensures path in Paths(fs) <==> GroupOf(fs, path) != []
  {
    if fs != [] {
      var past := fs[..|fs| - 1];
      EntriesMatchGroup(past, path);
      assert fs == past + [fs[|fs| - 1]];
    }
  }

  /** The findings about one path. */
  function Under(fs: seq<Finding>, path: string): seq<Finding> {
    if fs == [] then []
    else Under(fs[..|fs| - 1], path) + if fs[|fs| - 1].file.filepath == path then [fs[|fs| - 1]] else []
  }

  /** All of them, and no others. */
  lemma {:induction false} UnderAreOfPath(fs: seq<Finding>, path: string, f: Finding)
    ensures multiset(Under(fs, path))[f] == if f.file.filepath == path then multiset(fs)[f] else 0
  {
    if fs != [] {
      UnderAreOfPath(fs[..|fs| - 1], path, f);
      assert fs == fs[..|fs| - 1] + [fs[|fs| - 1]];
    }
  }

  /** What is listed and what is grouped under a path is about the same findings, one by one. */
  lemma {:induction false} EntriesAreOfFindings(fs: seq<Finding>, path: string)
    ensures |EntriesOf(fs, path)| == |GroupOf(fs, path)| == |Under(fs, path)|
    ensures forall i :: 0 <= i < |Under(fs, path)| ==>
              var f := Under(fs, path)[i];
              && GroupOf(fs, path)[i] == f.file
              && EntriesOf(fs, path)[i] == FormatEngine(f.result.mwe, f.result.showTitle, f.file.highlights,
                                                        f.file.lineStart, f.file.lineEnd)
  {
    if fs != [] {
      EntriesAreOfFindings(fs[..|fs| - 1], path);
    }
  }

  /** The findings of a scan are those of its results in order, one for each affected file. */
  lemma {:induction false} AllFindingsAre(results: seq<AnalyzerResult>, i: nat, j: nat)
    requires i < |results| && j < |results[i].affectedFiles|
    ensures var past := |AllFindings(results[..i])|;
            && past + |results[i].affectedFiles| <= |AllFindings(results)|
            && (i == |results| - 1 ==> past + |results[i].affectedFiles| == |AllFindings(results)|)
            && AllFindings(results)[past + j] == Finding(results[i], results[i].affectedFiles[j])
  {
    var last := results[|results| - 1];
    if i == |results| - 1 {
      FindingsAre(last, last.affectedFiles, j);
    } else {
      assert results[..|results| - 1][..i] == results[..i];
      AllFindingsAre(results[..|results| - 1], i, j);
    }
  }

  lemma {:induction false} FindingsAre(r: AnalyzerResult, files: seq<AffectedFile>, j: nat)
    requires j < |files|
    ensures |FindingsOf(r, files)| == |files| && FindingsOf(r, files)[j] == Finding(r, files[j])
  {
    if |files| > 1 {
      FindingsAre(r, files[..|files| - 1], if j < |files| - 1 then j else 0);
    }
  }

  // ---- severities ----

  datatype Severity = Critical | High | Medium | Low | Informational

  /** The spelling of each severity as the code tests it; "Low" is not "LOW". */
  function SeverityOf(s: string): Severity {
    if s == "Critical" then Critical
    else if s == "High" then High
    else if s == "Medium" then Medium
    else if s == "LOW" then Low
    else Informational
  }

  function Count(fs: seq<Finding>, s: Severity): nat {
    if fs == [] then 0
    else Count(fs[..|fs| - 1], s) + if SeverityOf(fs[|fs| - 1].result.mwe.severity) == s then 1 else 0
  }

  function ImpactOf(fs: seq<Finding>): Impact {
    Impact(Count(fs, Critical), Count(fs, High), Count(fs, Medium), Count(fs, Low), Count(fs, Informational))
  }

  /** How many findings have one of these severities, as they are spelled. */
  function Number(fs: seq<Finding>, spelled: set<string>): nat {
    if fs == [] then 0
    else Number(fs[..|fs| - 1], spelled) + if fs[|fs| - 1].result.mwe.severity in spelled then 1 else 0
  }

  /** Each counter counts the findings of one spelling; the last one all those of any other. */
  lemma {:induction false} CountersBySpelling(fs: seq<Finding>)
    ensures ImpactOf(fs).critical == Number(fs, {"Critical"}) && ImpactOf(fs).high == Number(fs, {"High"})
    ensures ImpactOf(fs).medium == Number(fs, {"Medium"}) && ImpactOf(fs).low == Number(fs, {"LOW"})
    ensures ImpactOf(fs).informational == |fs| - Number(fs, {"Critical", "High", "Medium", "LOW"})
  {
    if fs != [] {
      CountersBySpelling(fs[..|fs| - 1]);
    }
  }

  function Total(i: Impact): nat {
    i.high + i.low + i.medium + i.informational + i.critical
  }

  /** Every finding is counted once. */
  lemma {:induction false} TotalIsAllFindings(fs: seq<Finding>)
    ensures Total(ImpactOf(fs)) == |fs|
  {
    hide SeverityOf;
    if fs != [] {
      TotalIsAllFindings(fs[..|fs| - 1]);
    }
  }

  /** A finding of severity "Low" is counted as informational, not as low. */
  lemma LowIsInformational(fs: seq<Finding>, f: Finding)
    requires f.result.mwe.severity == "Low"
    ensures ImpactOf(fs + [f]) == ImpactOf(fs).(informational := ImpactOf(fs).informational + 1)
  {
    ImpactNext(fs, f);
  }

  // ---- the loops ----

  /** What is listed for a path, with the key its file is mapped to. */
  function Listed(fs: seq<Finding>, path: string, mapping: map<string, string>): FormatResult {
    FormatResult(path, EntriesOf(fs, path), if path in mapping then mapping[path] else "")
  }

  ghost predicate Formatted(m: map<string, FormatResult>, fs: seq<Finding>, mapping: map<string, string>) {
    && m.Keys == Paths(fs)
    && forall p :: p in m ==> m[p] == Listed(fs, p, mapping)
  }

  ghost predicate Grouped(m: map<string, seq<AffectedFile>>, fs: seq<Finding>) {
    && m.Keys == Paths(fs)
    && forall p :: p in m ==> m[p] == GroupOf(fs, p)
  }

  lemma GroupNext(m: map<string, seq<AffectedFile>>, fs: seq<Finding>, f: Finding)
    requires Grouped(m, fs)
    ensures var p := f.file.filepath; Grouped(m[p := (if p in m then m[p] else []) + [f.file]], fs + [f])
  {
    assert (fs + [f])[..|fs|] == fs;
    PathsSnoc(fs, f);
    EntriesMatchGroup(fs, f.file.filepath);
  }

  lemma FormatNext(m: map<string, FormatResult>, fs: seq<Finding>, f: Finding, mapping: map<string, string>)
    requires Formatted(m, fs, mapping)
    ensures var p := f.file.filepath;
            var before := if p in m then m[p] else FormatResult(p, [], if p in mapping then mapping[p] else "");
            Formatted(m[p := before.(mwe := before.mwe + [EntryOf(f)])], fs + [f], mapping)
  {
    hide Paths, EntriesOf, GroupOf, EntryOf;
    PathsSnoc(fs, f);
    EntriesMatchGroup(fs, f.file.filepath);
    forall p
      ensures EntriesOf(fs + [f], p)
              == if f.file.filepath == p then EntriesOf(fs, p) + [EntryOf(f)] else EntriesOf(fs, p)
    {
      EntriesSnoc(fs, f, p);
    }
  }

  lemma EntriesSnoc(fs: seq<Finding>, f: Finding, path: string)
    ensures EntriesOf(fs + [f], path)
            == if f.file.filepath == path then EntriesOf(fs, path) + [EntryOf(f)] else EntriesOf(fs, path)
  {
    hide EntryOf;
    assert (fs + [f])[..|fs|] == fs;
  }

  lemma PathsSnoc(fs: seq<Finding>, f: Finding)
    ensures Paths(fs + [f]) == Paths(fs) + {f.file.filepath}
  {
    assert f in fs + [f];
    forall g | g in fs ensures g in fs + [f] {
    }
  }

  lemma CountNext(fs: seq<Finding>, f: Finding, s: Severity)
    ensures Count(fs + [f], s) == Count(fs, s) + if SeverityOf(f.result.mwe.severity) == s then 1 else 0
  {
    assert (fs + [f])[..|fs|] == fs;
  }

  /** Every finding of the scan lies under a path of `groups`. */
  method GroupFiles(results: seq<AnalyzerResult>) returns (groups: map<string, seq<AffectedFile>>)
    ensures Grouped(groups, AllFindings(results))
  {
    hide Grouped;
    groups := map[];
    NothingGrouped();
    for i := 0 to |results|
      invariant Grouped(groups, AllFindings(results[..i]))
    {
      var files := results[i].affectedFiles;
      ghost var before := AllFindings(results[..i]);
      assert before + FindingsOf(results[i], files[..0]) == before;
      for j := 0 to |files|
        invariant Grouped(groups, before + FindingsOf(results[i], files[..j]))
      {
        var p := files[j];
        FindingsSnoc(results[i], files, j);
        GroupNext(groups, before + FindingsOf(results[i], files[..j]), Finding(results[i], p));
        assert before + FindingsOf(results[i], files[..j + 1])
            == before + FindingsOf(results[i], files[..j]) + [Finding(results[i], p)];
        groups := groups[p.filepath := (if p.filepath in groups then groups[p.filepath] else []) + [p]];
      }
      AllFindingsNext(results, i);
      assert files[..|files|] == files;
    }
    assert results[..|results|] == results;
  }

  lemma NothingGrouped()
    ensures Grouped(map[], []) && AllFindings([]) == []
  {
  }

  lemma FindingsSnoc(r: AnalyzerResult, files: seq<AffectedFile>, j: nat)
    requires j < |files|
    ensures FindingsOf(r, files[..j + 1]) == FindingsOf(r, files[..j]) + [Finding(r, files[j])]
  {
    assert files[..j + 1][..j] == files[..j];
  }

  lemma AllFindingsNext(results: seq<AnalyzerResult>, i: nat)
    requires i < |results|
    ensures AllFindings(results[..i + 1])
            == AllFindings(results[..i]) + FindingsOf(results[i], results[i].affectedFiles)
  {
    assert results[..i + 1][..i] == results[..i];
  }

  /** The formatted map has an entry for every finding of a grouped path, that is, for every finding. */
  method FormatSAData(results: seq<AnalyzerResult>, mapping: map<string, string>)
    returns (resultMap: map<string, FormatResult>, impact: Impact, groups: map<string, seq<AffectedFile>>)
    ensures Grouped(groups, AllFindings(results))
    ensures Formatted(resultMap, AllFindings(results), mapping)
    ensures impact == ImpactOf(AllFindings(results)) && Total(impact) == |AllFindings(results)|
    ensures var fs := AllFindings(results);
            && impact.critical == Number(fs, {"Critical"}) && impact.high == Number(fs, {"High"})
            && impact.medium == Number(fs, {"Medium"}) && impact.low == Number(fs, {"LOW"})
            && impact.informational == |fs| - Number(fs, {"Critical", "High", "Medium", "LOW"})
    ensures forall p :: p in resultMap ==>
              && resultMap[p].filepath == p && resultMap[p].fileKey == (if p in mapping then mapping[p] else "")
              && |resultMap[p].mwe| == |Under(AllFindings(results), p)|
              && forall i :: 0 <= i < |resultMap[p].mwe| ==>
                   var f := Under(AllFindings(results), p)[i];
                   resultMap[p].mwe[i] == FormatEngine(f.result.mwe, f.result.showTitle, f.file.highlights,
                                                       f.file.lineStart, f.file.lineEnd)
  {
    hide Formatted, Grouped, SeverityOf, Count;
    groups := GroupFiles(results);
    resultMap := map[];
    var critical, low, high, medium, informational := 0, 0, 0, 0, 0;
    NothingFormatted(mapping);
    for i := 0 to |results|
      invariant Formatted(resultMap, AllFindings(results[..i]), mapping)
      invariant Impact(critical, high, medium, low, informational) == ImpactOf(AllFindings(results[..i]))
    {
      var files := results[i].affectedFiles;
      ghost var before := AllFindings(results[..i]);
      assert before + FindingsOf(results[i], files[..0]) == before;
      for j := 0 to |files|
        invariant Formatted(resultMap, before + FindingsOf(results[i], files[..j]), mapping)
        invariant Impact(critical, high, medium, low, informational)
                  == ImpactOf(before + FindingsOf(results[i], files[..j]))
      {
        var file := files[j];
        ghost var fs, f := before + FindingsOf(results[i], files[..j]), Finding(results[i], file);
        FindingsSnoc(results[i], files, j);
        assert before + FindingsOf(results[i], files[..j + 1]) == fs + [f];
        FormatNext(resultMap, fs, f, mapping);
        EveryPathIsGrouped(groups, results, i, j);
        ImpactNext(fs, f);
        if file.filepath in groups {
          var data := if file.filepath in resultMap then resultMap[file.filepath]
                      else
                        FormatResult(file.filepath, [],
                                     if file.filepath in mapping then mapping[file.filepath] else "");
          var engine := FormatEngine(results[i].mwe, results[i].showTitle, file.highlights,
                                     file.lineStart, file.lineEnd);
          resultMap := resultMap[file.filepath := data.(mwe := data.mwe + [engine])];
          match SeverityOf(engine.mwe.severity) {
            case Critical => critical := critical + 1;
            case High => high := high + 1;
            case Medium => medium := medium + 1;
            case Low => low := low + 1;
            case Informational => informational := informational + 1;
          }
        }
      }
      AllFindingsNext(results, i);
      assert files[..|files|] == files;
    }
    assert results[..|results|] == results;
    impact := Impact(critical, high, medium, low, informational);
    TotalIsAllFindings(AllFindings(results));
    CountersBySpelling(AllFindings(results));
    ListedAre(resultMap, AllFindings(results), mapping);
  }

  lemma ListedAre(m: map<string, FormatResult>, fs: seq<Finding>, mapping: map<string, string>)
    requires Formatted(m, fs, mapping)
    ensures forall p :: p in m ==>
              && m[p].filepath == p && m[p].fileKey == (if p in mapping then mapping[p] else "")
              && |m[p].mwe| == |Under(fs, p)|
              && forall i :: 0 <= i < |m[p].mwe| ==>
                   var f := Under(fs, p)[i];
                   m[p].mwe[i] == FormatEngine(f.result.mwe, f.result.showTitle, f.file.highlights, f.file.lineStart,
                                               f.file.lineEnd)
  {
    hide Under, EntriesOf;
    forall p | p in m
      ensures |m[p].mwe| == |Under(fs, p)|
              && forall i :: 0 <= i < |m[p].mwe| ==> m[p].mwe[i] == EntryOf(Under(fs, p)[i])
    {
      EntriesAreOfFindings(fs, p);
    }
  }

  lemma NothingFormatted(mapping: map<string, string>)
    ensures Formatted(map[], [], mapping) && AllFindings([]) == [] && ImpactOf([]) == Impact(0, 0, 0, 0, 0)
  {
  }

  lemma ImpactNext(fs: seq<Finding>, f: Finding)
    ensures var s := SeverityOf(f.result.mwe.severity); var i := ImpactOf(fs);
            ImpactOf(fs + [f]) == match s
                                  case Critical => i.(critical := i.critical + 1)
                                  case High => i.(high := i.high + 1)
                                  case Medium => i.(medium := i.medium + 1)
                                  case Low => i.(low := i.low + 1)
                                  case Informational => i.(informational := i.informational + 1)
  {
    hide Count, SeverityOf;
    CountNext(fs, f, Critical);
    CountNext(fs, f, High);
    CountNext(fs, f, Medium);
    CountNext(fs, f, Low);
    CountNext(fs, f, Informational);
  }

  /** The guard that a path was grouped never drops a finding. */
  lemma EveryPathIsGrouped(groups: map<string, seq<AffectedFile>>, results: seq<AnalyzerResult>, i: nat, j: nat)
    requires Grouped(groups, AllFindings(results))
    requires i < |results| && j < |results[i].affectedFiles|
    ensures results[i].affectedFiles[j].filepath in groups
  {
    FindingIsIn(results[i], results[i].affectedFiles, j);
    FindingInAll(results, i, Finding(results[i], results[i].affectedFiles[j]));
  }

  lemma {:induction false} FindingIsIn(r: AnalyzerResult, files: seq<AffectedFile>, j: nat)
    requires j < |files|
    ensures Finding(r, files[j]) in FindingsOf(r, files)
  {
    if j < |files| - 1 {
      FindingIsIn(r, files[..|files| - 1], j);
    }
  }

  lemma {:induction false} FindingInAll(results: seq<AnalyzerResult>, i: nat, f: Finding)
    requires i < |results| && f in FindingsOf(results[i], results[i].affectedFiles)
    ensures f in AllFindings(results)
  {
    if i < |results| - 1 {
      FindingInAll(results[..|results| - 1], i, f);
    }
  }
}
