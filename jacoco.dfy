/**
  The JaCoCo report tree as the converter reads it, the `Counters`
  arithmetic every element of it shares, and the small `Report` helpers
  (timestamp, package names, source paths, single-package copy).
  Attributes that JaCoCo may leave out are `Option`s; counts are
  non-negative.
 */
module Jacoco {
  import opened Wrappers
  import opened Decimal

  const LINE := "LINE"
  const BRANCH := "BRANCH"
  const COMPLEXITY := "COMPLEXITY"

  datatype Counter = Counter(kind: string, missed: nat, covered: nat)

  datatype Line = Line(nr: int, mi: nat, ci: nat, mb: nat, cb: nat)

  datatype SourceFile = SourceFile(name: Option<string>, lines: seq<Line>, counters: seq<Counter>)

  datatype MethodElement = MethodElement(
    name: Option<string>, desc: Option<string>, line: Option<int>, counters: seq<Counter>)

  datatype ClassElement = ClassElement(
    name: Option<string>, sourcefilename: Option<string>, methods: seq<MethodElement>, counters: seq<Counter>)

  datatype PackageElement = PackageElement(
    name: Option<string>, classes: seq<ClassElement>, sourcefiles: seq<SourceFile>, counters: seq<Counter>)

  datatype SessionInfo = SessionInfo(id: Option<string>, start: Option<string>, dump: Option<string>)

  datatype Report = Report(
    name: string, packages: seq<PackageElement>, sessionInfos: seq<SessionInfo>, counters: seq<Counter>)

  // ---------------------------------------------------------------------
  // Counters

  /** `i` is the position of the first counter of kind `kind`. */
  predicate IsFirstOfKind(kind: string, counters: seq<Counter>, i: int) {
    0 <= i < |counters| && counters[i].kind == kind &&
    forall j :: 0 <= j < i ==> counters[j].kind != kind
  }

  /** The stream `filter(type equals kind).findFirst()`. */
  function FirstOfKind(kind: string, counters: seq<Counter>): (r: Option<Counter>)
    ensures r.None? <==> forall i :: 0 <= i < |counters| ==> counters[i].kind != kind
    ensures r.Some? ==> exists i :: IsFirstOfKind(kind, counters, i) && counters[i] == r.value
    ensures forall i :: IsFirstOfKind(kind, counters, i) ==> r == Some(counters[i])
  {
    if |counters| == 0 then None
    else if counters[0].kind == kind then
      assert IsFirstOfKind(kind, counters, 0);
      Some(counters[0])
    else
      var r := FirstOfKind(kind, counters[1..]);
      assert forall i :: IsFirstOfKind(kind, counters, i) ==> IsFirstOfKind(kind, counters[1..], i - 1);
      assert forall i :: IsFirstOfKind(kind, counters[1..], i) ==> IsFirstOfKind(kind, counters, i + 1);
      r
  }

  /**
    `counter(type, counters, op)`: `op(covered, missed)` of the first
    counter of the kind, and 0 when there is none.
   */
  function CounterValue(kind: string, counters: seq<Counter>, op: (nat, nat) -> real): (r: real)
    ensures (forall i :: 0 <= i < |counters| ==> counters[i].kind != kind) ==> r == 0.0
    ensures forall i :: IsFirstOfKind(kind, counters, i) ==> r == op(counters[i].covered, counters[i].missed)
    ensures r == 0.0 || exists i :: IsFirstOfKind(kind, counters, i) && r == op(counters[i].covered, counters[i].missed)
  {
    match FirstOfKind(kind, counters)
    case Some(c) => op(c.covered, c.missed)
    case None => 0.0
  }

  /** `sum`: the two counts added, as a number (not a ratio). */
  function Sum(s1: nat, s2: nat): real {
    (s1 + s2) as real
  }

  /** `fraction`: the share `s1` has of `s1 + s2`, guarded against a zero total. */
  function Fraction(s1: nat, s2: nat): (r: real)
    ensures s1 + s2 == 0 ==> r == 0.0
    ensures s1 + s2 > 0 ==> 0.0 <= r <= 1.0 && r * (s1 + s2) as real == s1 as real
    ensures r == 0.0 <==> s1 == 0
    ensures r == 1.0 <==> s1 > 0 && s2 == 0
  {
    if s1 != 0 || s2 != 0 then s1 as real / (s1 + s2) as real else 0.0
  }

  /** `lineRate`: covered over total of the first LINE counter, 0 without one. */
  function LineRate(counters: seq<Counter>): (r: real)
    ensures 0.0 <= r <= 1.0
    ensures (forall i :: 0 <= i < |counters| ==> counters[i].kind != LINE) ==> r == 0.0
    ensures forall i :: IsFirstOfKind(LINE, counters, i) ==> r == Fraction(counters[i].covered, counters[i].missed)
  {
    CounterValue(LINE, counters, Fraction)
  }

  /** `branchRate`: covered over total of the first BRANCH counter, 0 without one. */
  function BranchRate(counters: seq<Counter>): (r: real)
    ensures 0.0 <= r <= 1.0
    ensures (forall i :: 0 <= i < |counters| ==> counters[i].kind != BRANCH) ==> r == 0.0
    ensures forall i :: IsFirstOfKind(BRANCH, counters, i) ==> r == Fraction(counters[i].covered, counters[i].missed)
  {
    CounterValue(BRANCH, counters, Fraction)
  }

  /** `complexity`: covered plus missed of the first COMPLEXITY counter, 0 without one. */
  function Complexity(counters: seq<Counter>): (r: real)
    ensures r >= 0.0 && r == r.Floor as real
    ensures (forall i :: 0 <= i < |counters| ==> counters[i].kind != COMPLEXITY) ==> r == 0.0
    ensures forall i :: IsFirstOfKind(COMPLEXITY, counters, i) ==>
      r == (counters[i].covered + counters[i].missed) as real
  {
    CounterValue(COMPLEXITY, counters, Sum)
  }

  /** Counters of a kind after the first one of that kind never change the value. */
  lemma FirstCounterWins(kind: string, before: seq<Counter>, c: Counter, after: seq<Counter>, op: (nat, nat) -> real)
    requires forall i :: 0 <= i < |before| ==> before[i].kind != kind
    requires c.kind == kind
    ensures CounterValue(kind, before + [c] + after, op) == op(c.covered, c.missed)
  {
    assert IsFirstOfKind(kind, before + [c] + after, |before|);
  }

  // ---------------------------------------------------------------------
  // Report

  /** Java's `long` division by 1000, which truncates toward zero. */
  function SecondsOf(millis: int): (s: int)
    ensures millis >= 0 ==> 0 <= s * 1000 <= millis < s * 1000 + 1000
    ensures millis < 0 ==> s * 1000 - 1000 < millis <= s * 1000 <= 0
  {
    if millis >= 0 then millis / 1000 else -((-millis) / 1000)
  }

  /**
    `timestamp`: 0 without session infos, otherwise the first session's
    start (milliseconds) in seconds. `None` stands for the
    `NumberFormatException` of a start that is absent or not a `long`.
   */
  function Timestamp(r: Report): (t: Option<int>)
    ensures r.sessionInfos == [] ==> t == Some(0)
    ensures r.sessionInfos != [] && r.sessionInfos[0].start.None? ==> t.None?
    ensures t.Some? ==> LONG_MIN <= t.value * 1000 && t.value * 1000 <= LONG_MAX
  {
    if |r.sessionInfos| == 0 then Some(0)
    else
      match r.sessionInfos[0].start
      case None => None
      case Some(start) =>
        match ParseLong(start)
        case None => None
        case Some(millis) => Some(SecondsOf(millis))
  }

  /** A start written as the decimal text of `millis` gives `millis / 1000` seconds. */
  lemma TimestampOfMillis(r: Report, millis: nat)
    requires r.sessionInfos != [] && r.sessionInfos[0].start == Some(Render(millis))
    requires millis <= LONG_MAX
    ensures Timestamp(r) == Some(millis / 1000)
  {
    ParseLongOfRender(millis);
  }

  /**
    A start written as '-' and the decimal text of `n` gives `-(n / 1000)`
    seconds: the quotient is truncated toward zero, not floored.
   */
  lemma TimestampOfNegativeMillis(r: Report, n: nat)
    requires r.sessionInfos != [] && r.sessionInfos[0].start == Some("-" + Render(n))
    requires 0 < n <= -LONG_MIN
    ensures Timestamp(r) == Some(-(n / 1000))
  {
    ParseLongOfNegated(n);
  }

  /** `packagesNames`: the set of the names of the packages that have one. */
  method PackagesNames(r: Report) returns (names: set<string>)
    ensures forall n :: n in names <==> exists i :: 0 <= i < |r.packages| && r.packages[i].name == Some(n)
  {
    names := {};
    var i := 0;
    while i < |r.packages|
      invariant 0 <= i <= |r.packages|
      invariant forall n :: n in names <==> exists j :: 0 <= j < i && r.packages[j].name == Some(n)
    {
      var p := r.packages[i];
      if p.name.Some? {
        names := names + {p.name.value};
      }
      i := i + 1;
    }
  }

  /** The path `sources` lists for a file named `file` in package `p`. */
  function SourcePath(p: PackageElement, file: string): string {
    p.name.GetOr("") + "/" + file
  }

  /** The paths of the named files among `files` of package `p`, in file order. */
  function FilePaths(p: PackageElement, files: seq<SourceFile>): seq<string> {
    if |files| == 0 then []
    else
      var last := files[|files| - 1];
      FilePaths(p, files[..|files| - 1]) + (if last.name.Some? then [SourcePath(p, last.name.value)] else [])
  }

  /** The paths of the named files of all of `packages`: package order, then file order. */
  function SourcePaths(packages: seq<PackageElement>): seq<string> {
    if |packages| == 0 then []
    else
      var last := packages[|packages| - 1];
      SourcePaths(packages[..|packages| - 1]) + FilePaths(last, last.sourcefiles)
  }

  /** `sources`: one path per named source file, walked package by package. */
  method Sources(r: Report) returns (sourceList: seq<string>)
    ensures sourceList == SourcePaths(r.packages)
  {
    sourceList := [];
    var i := 0;
    while i < |r.packages|
      invariant 0 <= i <= |r.packages|
      invariant sourceList == SourcePaths(r.packages[..i])
    {
      var p := r.packages[i];
      var j := 0;
      while j < |p.sourcefiles|
        invariant 0 <= j <= |p.sourcefiles|
        invariant sourceList == SourcePaths(r.packages[..i]) + FilePaths(p, p.sourcefiles[..j])
      {
        var s := p.sourcefiles[j];
        if s.name.Some? {
          sourceList := sourceList + [SourcePath(p, s.name.value)];
        }
        assert p.sourcefiles[..j + 1][..j] == p.sourcefiles[..j];
        j := j + 1;
      }
      assert p.sourcefiles[..j] == p.sourcefiles;
      assert r.packages[..i + 1][..i] == r.packages[..i];
      i := i + 1;
    }
    assert r.packages[..i] == r.packages;
  }

  /** A path is listed exactly when some named file of the package gives it. */
  lemma {:induction false} FilePathsContents(p: PackageElement, files: seq<SourceFile>, path: string)
    ensures path in FilePaths(p, files) <==>
      exists j :: 0 <= j < |files| && files[j].name.Some? && path == SourcePath(p, files[j].name.value)
  {
    if |files| > 0 {
      var init := files[..|files| - 1];
      FilePathsContents(p, init, path);
      assert forall j :: 0 <= j < |init| ==> init[j] == files[j];
    }
  }

  /** File paths of two runs of files come one run after the other. */
  lemma {:induction false} FilePathsAppend(p: PackageElement, a: seq<SourceFile>, b: seq<SourceFile>)
    ensures FilePaths(p, a + b) == FilePaths(p, a) + FilePaths(p, b)
    decreases |b|
  {
    if |b| > 0 {
      assert (a + b)[..|a + b| - 1] == a + b[..|b| - 1];
      FilePathsAppend(p, a, b[..|b| - 1]);
    } else {
      assert a + b == a;
    }
  }

  /** Source paths of two runs of packages come one run after the other: package order is kept. */
  lemma {:induction false} SourcePathsAppend(a: seq<PackageElement>, b: seq<PackageElement>)
    ensures SourcePaths(a + b) == SourcePaths(a) + SourcePaths(b)
    decreases |b|
  {
    if |b| > 0 {
      assert (a + b)[..|a + b| - 1] == a + b[..|b| - 1];
      SourcePathsAppend(a, b[..|b| - 1]);
    } else {
      assert a + b == a;
    }
  }

  /** Every listed path is `package + "/" + file` of a named file, and every named file is listed. */
  lemma {:induction false} SourcePathsContents(packages: seq<PackageElement>, path: string)
    ensures path in SourcePaths(packages) <==>
      exists i, j :: 0 <= i < |packages| && 0 <= j < |packages[i].sourcefiles| &&
        packages[i].sourcefiles[j].name.Some? &&
        path == SourcePath(packages[i], packages[i].sourcefiles[j].name.value)
  {
    if |packages| > 0 {
      var init := packages[..|packages| - 1];
      var last := packages[|packages| - 1];
      SourcePathsContents(init, path);
      FilePathsContents(last, last.sourcefiles, path);
      assert forall i :: 0 <= i < |init| ==> init[i] == packages[i];
    }
  }

  /**
    `copyReportWithPackage`: a new report with the name and session infos
    of `r`, the one package `p`, and no counters of its own.
   */
  function CopyReportWithPackage(r: Report, p: PackageElement): (c: Report)
    ensures c.name == r.name && c.sessionInfos == r.sessionInfos
    ensures c.packages == [p] && c.counters == []
    ensures Timestamp(c) == Timestamp(r)
    ensures LineRate(c.counters) == 0.0 && BranchRate(c.counters) == 0.0 && Complexity(c.counters) == 0.0
  {
    Report(r.name, [p], r.sessionInfos, [])
  }
}
