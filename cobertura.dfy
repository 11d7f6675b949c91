/**
  The Cobertura tree the converter writes and the functions that build it
  from the JaCoCo tree: the constructors of `Coverage`, `Package`,
  `ClassElement`, `Method`, `Line`, `Condition` and `Source`, and
  `linesForMethod`, which attributes a source file's lines to a method.
 */
module Cobertura {
  import opened Wrappers
  import opened Decimal
  import J = Jacoco

  /** Java's `Integer.MAX_VALUE`, the boundary when no method bounds a line. */
  const INT_MAX: int := 0x7fff_ffff

  datatype Condition = Condition(number: int, kind: string, coverage: string)

  datatype Line = Line(
    number: int, hits: int, branch: bool,
    conditionCoverage: Option<string>, conditions: Option<seq<Condition>>)

  datatype Method = Method(
    name: string, signature: string, lines: seq<Line>,
    lineRate: real, branchRate: real, complexity: real)

  datatype ClassElement = ClassElement(
    name: string, filename: string, methods: seq<Method>,
    lineRate: real, branchRate: real, complexity: real)

  datatype Package = Package(
    name: string, classes: seq<ClassElement>,
    lineRate: real, branchRate: real, complexity: real)

  datatype Source = Source(value: string)

  datatype Coverage = Coverage(
    timestamp: int, sources: seq<Source>, packages: seq<Package>,
    lineRate: real, branchRate: real, complexity: real)

  // ---------------------------------------------------------------------
  // Sequences

  /** `a` is `b` with some elements left out, the rest in their order. */
  predicate Subsequence<T(==)>(a: seq<T>, b: seq<T>)
    decreases |a| + |b|
  {
    if |a| == 0 then true
    else if |b| == 0 then false
    else (a[0] == b[0] && Subsequence(a[1..], b[1..])) || Subsequence(a, b[1..])
  }

  // ---------------------------------------------------------------------
  // linesForMethod

  /** The line a method starts at, 0 when unknown. */
  function StartLine(m: J.MethodElement): int {
    m.line.GetOr(0)
  }

  /** The lines of every source file called `src`, concatenated in file order. */
  function FileLines(files: seq<J.SourceFile>, src: string): (r: seq<J.Line>)
    ensures forall l :: l in r <==> exists i :: 0 <= i < |files| && files[i].name == Some(src) && l in files[i].lines
  {
    if |files| == 0 then []
    else
      var rest := FileLines(files[1..], src);
      assert forall i :: 0 < i < |files| ==> files[i] == files[1..][i - 1];
      (if files[0].name == Some(src) then files[0].lines else []) + rest
  }

  /** The methods of every class whose source file is `src`, concatenated in class order. */
  function MethodsOf(classes: seq<J.ClassElement>, src: string): (r: seq<J.MethodElement>)
    ensures forall m :: m in r <==> exists i :: 0 <= i < |classes| && classes[i].sourcefilename == Some(src) && m in classes[i].methods
  {
    if |classes| == 0 then []
    else
      var rest := MethodsOf(classes[1..], src);
      assert forall i :: 0 < i < |classes| ==> classes[i] == classes[1..][i - 1];
      (if classes[0].sourcefilename == Some(src) then classes[0].methods else []) + rest
  }

  /** A method that enters the name-to-line map: it has both a name and a line. */
  predicate HasEntry(m: J.MethodElement) {
    m.name.Some? && m.line.Some?
  }

  /** `ms[i]` enters the map and no later method enters it under the same name. */
  predicate LastOfName(ms: seq<J.MethodElement>, i: int) {
    0 <= i < |ms| && HasEntry(ms[i]) &&
    forall j :: i < j < |ms| ==> !(HasEntry(ms[j]) && ms[j].name == ms[i].name)
  }

  /**
    `Collectors.toMap(name, line, (old, new) -> new)` over the methods
    that have a name and a line: a later method overwrites an earlier one
    of the same name.
   */
  function NameLineMap(ms: seq<J.MethodElement>): map<string, int> {
    if |ms| == 0 then map[]
    else
      var m := NameLineMap(ms[..|ms| - 1]);
      var last := ms[|ms| - 1];
      if HasEntry(last) then m[last.name.value := last.line.value] else m
  }

  /** A name is a key of the map exactly when some method with a line carries it. */
  lemma {:induction false} NameLineMapKeys(ms: seq<J.MethodElement>, k: string)
    ensures k in NameLineMap(ms) <==> exists i :: 0 <= i < |ms| && HasEntry(ms[i]) && ms[i].name == Some(k)
  {
    if |ms| > 0 {
      var init := ms[..|ms| - 1];
      NameLineMapKeys(init, k);
      assert forall i :: 0 <= i < |init| ==> init[i] == ms[i];
    }
  }

  /** Last write wins: the line of a name is that of the last method carrying the name. */
  lemma {:induction false} NameLineMapLastWins(ms: seq<J.MethodElement>, i: int)
    requires LastOfName(ms, i)
    ensures ms[i].name.value in NameLineMap(ms) && NameLineMap(ms)[ms[i].name.value] == ms[i].line.value
  {
    var init := ms[..|ms| - 1];
    var last := ms[|ms| - 1];
    if i < |ms| - 1 {
      assert init[i] == ms[i];
      assert LastOfName(init, i) by {
        forall j | i < j < |init| ensures !(HasEntry(init[j]) && init[j].name == init[i].name) {
          assert init[j] == ms[j];
        }
      }
      NameLineMapLastWins(init, i);
      assert !(HasEntry(last) && last.name == ms[i].name);
    }
  }

  /** Every value of the map is the line of the last method carrying its name. */
  lemma {:induction false} NameLineMapValues(ms: seq<J.MethodElement>, k: string)
    requires k in NameLineMap(ms)
    ensures exists i :: LastOfName(ms, i) && ms[i].name == Some(k) && NameLineMap(ms)[k] == ms[i].line.value
  {
    var init := ms[..|ms| - 1];
    var last := ms[|ms| - 1];
    if HasEntry(last) && last.name == Some(k) {
      assert LastOfName(ms, |ms| - 1);
    } else {
      NameLineMapValues(init, k);
      var i :| LastOfName(init, i) && init[i].name == Some(k) && NameLineMap(init)[k] == init[i].line.value;
      assert ms[i] == init[i];
      assert LastOfName(ms, i) by {
        forall j | i < j < |ms| ensures !(HasEntry(ms[j]) && ms[j].name == ms[i].name) {
          if j < |init| {
            assert init[j] == ms[j];
          }
        }
      }
    }
  }

  /** A non-empty finite set of integers has a least element. */
  lemma {:induction false} LeastExists(s: set<int>)
    requires |s| > 0
    ensures exists x :: x in s && forall y :: y in s ==> x <= y
    decreases |s|
  {
    if forall x :: x !in s {
      assert false;
    }
    var x :| x in s;
    var others := s - {x};
    if |others| == 0 {
      forall y | y in s ensures x <= y {
        assert y !in others;
      }
    } else {
      LeastExists(others);
      var m :| m in others && forall y :: y in others ==> m <= y;
      var least := if x < m then x else m;
      forall y | y in s ensures least <= y {
        if y != x {
          assert y in others;
        }
      }
      assert least in s;
    }
  }

  /** `values().stream().mapToInt(...).min().orElse(Integer.MAX_VALUE)`. */
  function Boundary(packMethods: map<string, int>): (b: int)
    ensures packMethods == map[] ==> b == INT_MAX
    ensures packMethods != map[] ==> b in packMethods.Values && exists k :: k in packMethods && packMethods[k] == b
    ensures forall k :: k in packMethods ==> b <= packMethods[k]
  {
    if packMethods == map[] then INT_MAX
    else
      var values := packMethods.Values;
      assert |values| > 0 by {
        if forall k :: k !in packMethods {
          assert false;
        }
        var k :| k in packMethods;
        assert packMethods[k] in values;
      }
      LeastExists(values);
      var b :| b in values && forall v :: v in values ==> b <= v;
      assert forall k :: k in packMethods ==> packMethods[k] in values;
      b
  }

  /** The boundary is the least entry of the map. */
  lemma BoundaryIsLeast(packMethods: map<string, int>, k: string)
    requires k in packMethods
    requires forall k' :: k' in packMethods ==> packMethods[k] <= packMethods[k']
    ensures Boundary(packMethods) == packMethods[k]
  {
    assert packMethods != map[];
  }

  /** The boundary `linesForMethod` uses for every method of source file `src` in `pack`. */
  function NextMethodLine(pack: J.PackageElement, src: string): int {
    Boundary(NameLineMap(MethodsOf(pack.classes, src)))
  }

  /** The first filter of `linesForMethod`: real lines at or after `start`. */
  function FromStart(lines: seq<J.Line>, start: int): (r: seq<J.Line>)
    ensures |r| <= |lines|
    ensures forall i :: 0 <= i < |r| ==> r[i].nr != 0 && start <= r[i].nr
  {
    if |lines| == 0 then []
    else
      var rest := FromStart(lines[1..], start);
      if lines[0].nr != 0 && lines[0].nr >= start then [lines[0]] + rest else rest
  }

  /** The second filter of `linesForMethod`: real lines before `bound`. */
  function BeforeBoundary(lines: seq<J.Line>, bound: int): (r: seq<J.Line>)
    ensures |r| <= |lines|
    ensures forall i :: 0 <= i < |r| ==> r[i].nr != 0 && r[i].nr < bound
  {
    if |lines| == 0 then []
    else
      var rest := BeforeBoundary(lines[1..], bound);
      if lines[0].nr != 0 && lines[0].nr < bound then [lines[0]] + rest else rest
  }

  /** A line a method starting at `start` and bounded by `bound` receives. */
  predicate Attributable(l: J.Line, start: int, bound: int) {
    l.nr != 0 && start <= l.nr < bound
  }

  /** The attributable lines, in a single pass: the reference the two filters are held to. */
  function Attributed(lines: seq<J.Line>, start: int, bound: int): (r: seq<J.Line>)
    ensures Subsequence(r, lines)
    ensures forall i :: 0 <= i < |r| ==> Attributable(r[i], start, bound)
    ensures forall i :: 0 <= i < |lines| && Attributable(lines[i], start, bound) ==> lines[i] in r
  {
    if |lines| == 0 then []
    else
      var rest := Attributed(lines[1..], start, bound);
      assert forall i :: 0 < i < |lines| ==> lines[i] == lines[1..][i - 1];
      if Attributable(lines[0], start, bound) then
        assert ([lines[0]] + rest)[1..] == rest;
        [lines[0]] + rest
      else
        rest
  }

  /**
    Every attributable line is kept as often as it occurs in the file's
    lines, and no other line is kept at all.
   */
  lemma {:induction false} AttributedCounts(lines: seq<J.Line>, start: int, bound: int)
    ensures forall l ::
              multiset(Attributed(lines, start, bound))[l] == if Attributable(l, start, bound) then multiset(lines)[l] else 0
  {
    if |lines| > 0 {
      AttributedCounts(lines[1..], start, bound);
      assert lines == [lines[0]] + lines[1..];
    }
  }

  /** Filtering by the start and then by the boundary is the single-pass filter. */
  lemma {:induction false} TwoFiltersAttribute(lines: seq<J.Line>, start: int, bound: int)
    ensures BeforeBoundary(FromStart(lines, start), bound) == Attributed(lines, start, bound)
  {
    if |lines| > 0 {
      TwoFiltersAttribute(lines[1..], start, bound);
      var rest := FromStart(lines[1..], start);
      if lines[0].nr != 0 && lines[0].nr >= start {
        assert ([lines[0]] + rest)[1..] == rest;
      }
    }
  }

  /**
    `linesForMethod`: no lines without a source-file name; otherwise the
    lines of that file from the method's start line up to, not including,
    the least line of the name-to-line map of the file's methods.
   */
  function LinesForMethod(m: J.MethodElement, pack: J.PackageElement, src: Option<string>): (r: seq<J.Line>)
    ensures src.None? ==> r == []
    ensures src.Some? ==>
      r == Attributed(FileLines(pack.sourcefiles, src.value), StartLine(m), NextMethodLine(pack, src.value))
    ensures forall i :: 0 <= i < |r| ==> r[i].nr != 0 && StartLine(m) <= r[i].nr
  {
    match src
    case None => []
    case Some(s) =>
      var currentMethodLine := StartLine(m);
      var sourceLines := FromStart(FileLines(pack.sourcefiles, s), currentMethodLine);
      var nextMethodLine := NextMethodLine(pack, s);
      TwoFiltersAttribute(FileLines(pack.sourcefiles, s), currentMethodLine, nextMethodLine);
      BeforeBoundary(sourceLines, nextMethodLine)
  }

  /** A method receives nothing when some entry of the map starts at or before it. */
  lemma NoLinesBelowAnEntry(m: J.MethodElement, pack: J.PackageElement, src: string, k: string)
    requires k in NameLineMap(MethodsOf(pack.classes, src))
    requires NameLineMap(MethodsOf(pack.classes, src))[k] <= StartLine(m)
    ensures LinesForMethod(m, pack, Some(src)) == []
  {
  }

  /** In particular, a method whose own entry survives in the map receives nothing. */
  lemma NoLinesWhenOwnEntrySurvives(m: J.MethodElement, pack: J.PackageElement, src: string)
    requires HasEntry(m)
    requires m.name.value in NameLineMap(MethodsOf(pack.classes, src))
    requires NameLineMap(MethodsOf(pack.classes, src))[m.name.value] == m.line.value
    ensures LinesForMethod(m, pack, Some(src)) == []
  {
    NoLinesBelowAnEntry(m, pack, src, m.name.value);
  }

  /** And the entry survives whenever no later method of the file has the same name. */
  lemma NoLinesForLastOfName(pack: J.PackageElement, src: string, i: int)
    requires LastOfName(MethodsOf(pack.classes, src), i)
    ensures LinesForMethod(MethodsOf(pack.classes, src)[i], pack, Some(src)) == []
  {
    var ms := MethodsOf(pack.classes, src);
    NameLineMapLastWins(ms, i);
    NoLinesWhenOwnEntrySurvives(ms[i], pack, src);
  }

  // ---------------------------------------------------------------------
  // Line and Condition

  /** Euclidean division by a positive number brackets the quotient. */
  lemma DivBrackets(n: nat, d: nat)
    requires d > 0
    ensures (n / d) * d <= n < (n / d) * d + d
  {
  }

  /** Multiplying by a positive number preserves strict order. */
  lemma MulMonotone(a: int, b: int, d: nat)
    requires d > 0 && a < b
    ensures a * d < b * d
  {
  }

  /**
    The branch percentage, `100 * covered / (covered + missed)` rounded
    down (the source computes it through a `double`).
   */
  function Percentage(covered: nat, missed: nat): (p: nat)
    requires covered + missed > 0
    ensures p <= 100
    ensures p * (covered + missed) <= 100 * covered < p * (covered + missed) + (covered + missed)
    ensures p == 100 <==> missed == 0
  {
    var total := covered + missed;
    var p := 100 * covered / total;
    DivBrackets(100 * covered, total);
    assert p <= 100 by {
      if p > 100 {
        MulMonotone(100, p, total);
      }
    }
    assert p == 100 ==> missed == 0 by {
      if p == 100 {
        assert 100 * total <= 100 * covered;
      }
    }
    assert missed == 0 ==> p == 100 by {
      if missed == 0 {
        assert 100 * covered == 100 * total;
      }
    }
    p
  }

  /** The `condition-coverage` text: `"<p>% (<covered>/<covered + missed>)"`. */
  function ConditionCoverage(covered: nat, missed: nat): string
    requires covered + missed > 0
  {
    Render(Percentage(covered, missed)) + "% (" + Render(covered) + "/" + Render(covered + missed) + ")"
  }

  /** The `Condition` constructor: number 0, type "jump". */
  function ToCondition(coverage: string): (c: Condition)
    ensures c.number == 0 && c.kind == "jump" && c.coverage == coverage
  {
    Condition(0, "jump", coverage)
  }

  /** The `Line` constructor. */
  function ToLine(l: J.Line): (r: Line)
    ensures r.number == l.nr
    ensures r.hits == 1 <==> l.ci > 0
    ensures r.hits == 0 <==> l.ci == 0
    ensures r.branch <==> l.mb + l.cb > 0
    ensures !r.branch ==> r.conditionCoverage.None? && r.conditions.None?
    ensures r.branch ==> r.conditionCoverage == Some(ConditionCoverage(l.cb, l.mb))
    ensures r.branch ==> r.conditions == Some([Condition(0, "jump", Render(Percentage(l.cb, l.mb)) + "%")])
  {
    var hits := if l.ci > 0 then 1 else 0;
    if l.mb + l.cb > 0 then
      var percentage := Percentage(l.cb, l.mb);
      Line(l.nr, hits, true, Some(ConditionCoverage(l.cb, l.mb)), Some([ToCondition(Render(percentage) + "%")]))
    else
      Line(l.nr, hits, false, None, None)
  }

  /** The length of the leading run of digits of `s`. */
  function DigitRun(s: string): (n: nat)
    ensures n <= |s| && AllDigits(s[..n])
    ensures n < |s| ==> !IsDigit(s[n])
  {
    if |s| > 0 && IsDigit(s[0]) then
      var n := 1 + DigitRun(s[1..]);
      assert forall i :: 1 <= i < n ==> s[i] == s[1..][i - 1];
      n
    else
      0
  }

  /** The leading run of digits of `s`, and what follows it. */
  function SpanDigits(s: string): (r: (string, string))
    ensures r.0 + r.1 == s && AllDigits(r.0)
    ensures |r.1| > 0 ==> !IsDigit(r.1[0])
  {
    var n := DigitRun(s);
    assert s[..n] + s[n..] == s;
    (s[..n], s[n..])
  }

  /** Reads `"<covered>/<total>)"` back into (covered, total). */
  function DecodeCounts(s: string): Option<(nat, nat)> {
    var (c, r1) := SpanDigits(s);
    if |c| == 0 || |r1| == 0 || r1[0] != '/' then None
    else
      var (t, r2) := SpanDigits(r1[1..]);
      if |t| == 0 || r2 != ")" then None
      else Some((DigitsValue(c), DigitsValue(t)))
  }

  /** Reads a `condition-coverage` text back into (percentage, covered, total). */
  function DecodeConditionCoverage(s: string): Option<(nat, nat, nat)> {
    var (p, r1) := SpanDigits(s);
    if |p| == 0 || |r1| < 3 || r1[0] != '%' || r1[1] != ' ' || r1[2] != '(' then None
    else
      match DecodeCounts(r1[3..])
      case None => None
      case Some((c, t)) => Some((DigitsValue(p), c, t))
  }

  lemma {:induction false} SpanDigitsOf(digits: string, rest: string)
    requires AllDigits(digits)
    requires |rest| > 0 ==> !IsDigit(rest[0])
    ensures SpanDigits(digits + rest) == (digits, rest)
  {
    DigitRunOf(digits, rest);
    assert (digits + rest)[..|digits|] == digits;
    assert (digits + rest)[|digits|..] == rest;
  }

  /** The digit run of `digits + rest` stops exactly where `rest` starts. */
  lemma {:induction false} DigitRunOf(digits: string, rest: string)
    requires AllDigits(digits)
    requires |rest| > 0 ==> !IsDigit(rest[0])
    ensures DigitRun(digits + rest) == |digits|
  {
    if |digits| > 0 {
      assert (digits + rest)[1..] == digits[1..] + rest;
      DigitRunOf(digits[1..], rest);
    } else {
      assert digits + rest == rest;
    }
  }


  /** Two digit runs laid out as `"<covered>/<total>)"` are read back. */
  lemma DecodeCountsLayout(c: string, t: string)
    requires |c| > 0 && |t| > 0 && AllDigits(c) && AllDigits(t)
    ensures DecodeCounts(c + ("/" + (t + ")"))) == Some((DigitsValue(c), DigitsValue(t)))
  {
    var r1 := "/" + (t + ")");
    SpanDigitsOf(c, r1);
    assert r1[1..] == t + ")";
    SpanDigitsOf(t, ")");
  }

  /** Three digit runs laid out as a `condition-coverage` text are read back. */
  lemma DecodeLayout(p: string, c: string, t: string)
    requires |p| > 0 && |c| > 0 && |t| > 0
    requires AllDigits(p) && AllDigits(c) && AllDigits(t)
    ensures DecodeConditionCoverage(p + ("% (" + (c + ("/" + (t + ")"))))) ==
      Some((DigitsValue(p), DigitsValue(c), DigitsValue(t)))
  {
    var counts := c + ("/" + (t + ")"));
    var r1 := "% (" + counts;
    assert r1[0] == '%' && r1[1] == ' ' && r1[2] == '(';
    SpanDigitsOf(p, r1);
    assert SpanDigits(p + r1) == (p, r1);
    assert r1[3..] == counts;
    DecodeCountsLayout(c, t);
    assert DecodeCounts(r1[3..]) == Some((DigitsValue(c), DigitsValue(t)));
  }

  /** The `condition-coverage` text determines the percentage, the covered and the total branch count. */
  lemma ConditionCoverageDecodes(covered: nat, missed: nat)
    requires covered + missed > 0
    ensures DecodeConditionCoverage(ConditionCoverage(covered, missed)) ==
      Some((Percentage(covered, missed), covered, covered + missed))
  {
    var p, c, t := Render(Percentage(covered, missed)), Render(covered), Render(covered + missed);
    assert ConditionCoverage(covered, missed) == p + ("% (" + (c + ("/" + (t + ")"))));
    DecodeLayout(p, c, t);
    DigitsValueOfRender(Percentage(covered, missed));
    DigitsValueOfRender(covered);
    DigitsValueOfRender(covered + missed);
  }

  // ---------------------------------------------------------------------
  // Method, ClassElement, Package, Coverage

  /** The `Method` constructor: the method's attributed lines, converted in order. */
  function ToMethod(m: J.MethodElement, src: Option<string>, pack: J.PackageElement): (r: Method)
    ensures r.name == m.name.GetOr("") && r.signature == m.desc.GetOr("")
    ensures |r.lines| == |LinesForMethod(m, pack, src)|
    ensures forall i :: 0 <= i < |r.lines| ==> r.lines[i] == ToLine(LinesForMethod(m, pack, src)[i])
    ensures forall i :: 0 <= i < |r.lines| ==> r.lines[i].number != 0 && StartLine(m) <= r.lines[i].number
    ensures src.None? ==> r.lines == []
    ensures r.lineRate == J.LineRate(m.counters) && r.branchRate == J.BranchRate(m.counters)
    ensures r.complexity == J.Complexity(m.counters)
  {
    var lines := LinesForMethod(m, pack, src);
    Method(
      m.name.GetOr(""), m.desc.GetOr(""),
      seq(|lines|, i requires 0 <= i < |lines| => ToLine(lines[i])),
      J.LineRate(m.counters), J.BranchRate(m.counters), J.Complexity(m.counters))
  }

  /** The `ClassElement` constructor: one method per source method, file name qualified by the package. */
  function ToClass(c: J.ClassElement, pack: J.PackageElement): (r: ClassElement)
    ensures r.name == c.name.GetOr("")
    ensures r.filename == pack.name.GetOr("") + "/" + c.sourcefilename.GetOr("")
    ensures |r.methods| == |c.methods|
    ensures forall i :: 0 <= i < |c.methods| ==> r.methods[i] == ToMethod(c.methods[i], c.sourcefilename, pack)
    ensures r.lineRate == J.LineRate(c.counters) && r.branchRate == J.BranchRate(c.counters)
    ensures r.complexity == J.Complexity(c.counters)
  {
    ClassElement(
      c.name.GetOr(""), pack.name.GetOr("") + "/" + c.sourcefilename.GetOr(""),
      seq(|c.methods|, i requires 0 <= i < |c.methods| => ToMethod(c.methods[i], c.sourcefilename, pack)),
      J.LineRate(c.counters), J.BranchRate(c.counters), J.Complexity(c.counters))
  }

  /** The `Package` constructor: one class per source class. */
  function ToPackage(p: J.PackageElement): (r: Package)
    ensures r.name == p.name.GetOr("")
    ensures |r.classes| == |p.classes|
    ensures forall i :: 0 <= i < |p.classes| ==> r.classes[i] == ToClass(p.classes[i], p)
    ensures r.lineRate == J.LineRate(p.counters) && r.branchRate == J.BranchRate(p.counters)
    ensures r.complexity == J.Complexity(p.counters)
  {
    Package(
      p.name.GetOr(""),
      seq(|p.classes|, i requires 0 <= i < |p.classes| => ToClass(p.classes[i], p)),
      J.LineRate(p.counters), J.BranchRate(p.counters), J.Complexity(p.counters))
  }

  /** The source roots: the given ones in order, or the single root "." when none is given. */
  function ToSources(sources: seq<string>): (r: seq<Source>)
    ensures sources == [] ==> r == [Source(".")]
    ensures sources != [] ==> |r| == |sources| && forall i :: 0 <= i < |sources| ==> r[i].value == sources[i]
  {
    var roots := if sources == [] then ["."] else sources;
    seq(|roots|, i requires 0 <= i < |roots| => Source(roots[i]))
  }

  /**
    The `Coverage` constructor. `None` stands for the exception the
    report's timestamp raises on a session start that is not a `long`.
   */
  function ToCoverage(r: J.Report, sources: seq<string>): (c: Option<Coverage>)
    ensures c.Some? <==> J.Timestamp(r).Some?
    ensures c.Some? ==> c.value.timestamp == J.Timestamp(r).value
    ensures c.Some? ==> c.value.sources == ToSources(sources)
    ensures c.Some? ==> |c.value.packages| == |r.packages|
    ensures c.Some? ==> forall i :: 0 <= i < |r.packages| ==> c.value.packages[i] == ToPackage(r.packages[i])
    ensures c.Some? ==> c.value.lineRate == J.LineRate(r.counters) && c.value.branchRate == J.BranchRate(r.counters)
    ensures c.Some? ==> c.value.complexity == J.Complexity(r.counters)
  {
    match J.Timestamp(r)
    case None => None
    case Some(timestamp) =>
      Some(Coverage(
        timestamp, ToSources(sources),
        seq(|r.packages| , i requires 0 <= i < |r.packages| => ToPackage(r.packages[i])),
        J.LineRate(r.counters), J.BranchRate(r.counters), J.Complexity(r.counters)))
  }

  // ---------------------------------------------------------------------
  // The converted tree as a whole

  /** Every class of the document is named after its source class and its file name is qualified by its package. */
  lemma FilenamesQualified(r: J.Report, sources: seq<string>, c: Coverage)
    requires ToCoverage(r, sources) == Some(c)
    ensures forall i, j :: 0 <= i < |c.packages| && 0 <= j < |c.packages[i].classes| ==>
      j < |r.packages[i].classes| &&
      c.packages[i].classes[j].name == r.packages[i].classes[j].name.GetOr("") &&
      c.packages[i].classes[j].filename ==
        r.packages[i].name.GetOr("") + "/" + r.packages[i].classes[j].sourcefilename.GetOr("")
  {
  }

  /** No line of the document has number 0, and every line is at or after its method's start. */
  lemma {:induction false} NoLineZeroInCoverage(r: J.Report, sources: seq<string>, c: Coverage)
    requires ToCoverage(r, sources) == Some(c)
    ensures forall i, j, k, n ::
      0 <= i < |c.packages| && 0 <= j < |c.packages[i].classes| &&
      0 <= k < |c.packages[i].classes[j].methods| && 0 <= n < |c.packages[i].classes[j].methods[k].lines| ==>
        c.packages[i].classes[j].methods[k].lines[n].number != 0 &&
        StartLine(r.packages[i].classes[j].methods[k]) <= c.packages[i].classes[j].methods[k].lines[n].number
  {
    forall i, j, k, n |
      0 <= i < |c.packages| && 0 <= j < |c.packages[i].classes| &&
      0 <= k < |c.packages[i].classes[j].methods| && 0 <= n < |c.packages[i].classes[j].methods[k].lines|
      ensures c.packages[i].classes[j].methods[k].lines[n].number != 0
      ensures StartLine(r.packages[i].classes[j].methods[k]) <= c.packages[i].classes[j].methods[k].lines[n].number
    {
      var p := r.packages[i];
      var cl := p.classes[j];
      assert c.packages[i] == ToPackage(p);
      assert c.packages[i].classes[j] == ToClass(cl, p);
      assert c.packages[i].classes[j].methods[k] == ToMethod(cl.methods[k], cl.sourcefilename, p);
    }
  }

  /** Every rate of the document, at every level, lies between 0 and 1. */
  lemma RatesAreFractions(r: J.Report, sources: seq<string>, c: Coverage)
    requires ToCoverage(r, sources) == Some(c)
    ensures 0.0 <= c.lineRate <= 1.0 && 0.0 <= c.branchRate <= 1.0
    ensures forall i :: 0 <= i < |c.packages| ==>
      0.0 <= c.packages[i].lineRate <= 1.0 && 0.0 <= c.packages[i].branchRate <= 1.0
    ensures forall i, j :: 0 <= i < |c.packages| && 0 <= j < |c.packages[i].classes| ==>
      0.0 <= c.packages[i].classes[j].lineRate <= 1.0 && 0.0 <= c.packages[i].classes[j].branchRate <= 1.0
    ensures forall i, j, k ::
      0 <= i < |c.packages| && 0 <= j < |c.packages[i].classes| && 0 <= k < |c.packages[i].classes[j].methods| ==>
        0.0 <= c.packages[i].classes[j].methods[k].lineRate <= 1.0 &&
        0.0 <= c.packages[i].classes[j].methods[k].branchRate <= 1.0
  {
  }

  /**
    Split output: the document converted from the single-package copy
    fails exactly when the whole one does, and otherwise carries the same
    timestamp and source roots, the one converted package, and
    document-level rates of 0.
   */
  lemma SplitDocument(r: J.Report, p: J.PackageElement, sources: seq<string>)
    ensures ToCoverage(J.CopyReportWithPackage(r, p), sources).Some? <==> ToCoverage(r, sources).Some?
    ensures ToCoverage(r, sources).Some? ==>
      var whole := ToCoverage(r, sources).value;
      var part := ToCoverage(J.CopyReportWithPackage(r, p), sources).value;
      part.timestamp == whole.timestamp && part.sources == whole.sources &&
      part.packages == [ToPackage(p)] &&
      part.lineRate == 0.0 && part.branchRate == 0.0 && part.complexity == 0.0
  {
  }
}
