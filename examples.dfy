/**
  Worked cases of the conversion: line attribution for two small classes,
  the timestamp of a session start, and a split of a two-package report.
 */
module ConversionExamples {
  import opened Wrappers
  import opened Decimal
  import J = Jacoco
  import opened Cobertura

  /** A covered, non-branching line. */
  function Hit(nr: int): J.Line {
    J.Line(nr, 0, 1, 0, 0)
  }

  const FooLines: seq<J.Line> := [Hit(5), Hit(6), Hit(9), Hit(10), Hit(11), Hit(20)]

  function NamedAt(name: string, line: int): J.MethodElement {
    J.MethodElement(Some(name), None, Some(line), [])
  }

  /** A package holding one class of `Foo.java` with `methods`, and that file's lines. */
  function PackageWith(methods: seq<J.MethodElement>): J.PackageElement {
    J.PackageElement(
      Some("com/a"),
      [J.ClassElement(Some("com/a/Foo"), Some("Foo.java"), methods, [])],
      [J.SourceFile(Some("Foo.java"), FooLines, [])],
      [])
  }

  lemma FileLinesOfFoo(methods: seq<J.MethodElement>)
    ensures FileLines(PackageWith(methods).sourcefiles, "Foo.java") == FooLines
    ensures MethodsOf(PackageWith(methods).classes, "Foo.java") == methods
  {
    var pack := PackageWith(methods);
    assert pack.sourcefiles[1..] == [];
    assert pack.classes[1..] == [];
  }

  /**
    Methods `a` at line 5 and `b` at line 10: the boundary is 5 for both,
    so neither receives a line (not {5, 6, 9} and {10, 11, 20}).
   */
  lemma DistinctNamesReceiveNothing()
    ensures LinesForMethod(NamedAt("a", 5), PackageWith([NamedAt("a", 5), NamedAt("b", 10)]), Some("Foo.java")) == []
    ensures LinesForMethod(NamedAt("b", 10), PackageWith([NamedAt("a", 5), NamedAt("b", 10)]), Some("Foo.java")) == []
  {
    var ms := [NamedAt("a", 5), NamedAt("b", 10)];
    var pack := PackageWith(ms);
    FileLinesOfFoo(ms);
    assert LastOfName(ms, 0);
    NoLinesForLastOfName(pack, "Foo.java", 0);
    NoLinesBelowAnEntry(NamedAt("b", 10), pack, "Foo.java", "a") by {
      NameLineMapLastWins(ms, 0);
    }
  }

  /** Of `Foo.java`'s lines, those in [5, 10) are 5, 6 and 9. */
  lemma FooLinesFromFive()
    ensures Attributed(FooLines, 5, 10) == [Hit(5), Hit(6), Hit(9)]
  {
    var lines := FooLines;
    assert Attributed(lines[5..], 5, 10) == [];
    assert Attributed(lines[4..], 5, 10) == [];
    assert Attributed(lines[3..], 5, 10) == [];
    assert Attributed(lines[2..], 5, 10) == [Hit(9)];
    assert Attributed(lines[1..], 5, 10) == [Hit(6), Hit(9)];
  }

  /**
    Two methods named `foo`, at lines 5 and 10: the map is {foo: 10}, so
    the first receives lines 5, 6 and 9 and the second none.
   */
  lemma SameNameLaterOverwrites()
    ensures NameLineMap(MethodsOf(PackageWith([NamedAt("foo", 5), NamedAt("foo", 10)]).classes, "Foo.java"))
      == map["foo" := 10]
    ensures LinesForMethod(NamedAt("foo", 5), PackageWith([NamedAt("foo", 5), NamedAt("foo", 10)]), Some("Foo.java"))
      == [Hit(5), Hit(6), Hit(9)]
    ensures LinesForMethod(NamedAt("foo", 10), PackageWith([NamedAt("foo", 5), NamedAt("foo", 10)]), Some("Foo.java"))
      == []
  {
    var ms := [NamedAt("foo", 5), NamedAt("foo", 10)];
    var pack := PackageWith(ms);
    FileLinesOfFoo(ms);
    assert ms[..1] == [NamedAt("foo", 5)];
    assert ms[..1][..0] == [];
    assert NameLineMap(ms) == map["foo" := 10];
    assert NextMethodLine(pack, "Foo.java") == 10 by {
      var m := map["foo" := 10];
      assert "foo" in m;
      BoundaryIsLeast(m, "foo");
    }
    FooLinesFromFive();
    assert LastOfName(ms, 1);
    NoLinesForLastOfName(pack, "Foo.java", 1);
  }

  /**
    `foo` at lines 5, 10 and 5 again: the last merge puts the entry back to
    5, so the first `foo`@5 keeps its entry and receives nothing.
   */
  lemma OverwrittenBack()
    ensures NameLineMap(MethodsOf(PackageWith([NamedAt("foo", 5), NamedAt("foo", 10), NamedAt("foo", 5)]).classes, "Foo.java"))
      == map["foo" := 5]
    ensures LinesForMethod(NamedAt("foo", 5), PackageWith([NamedAt("foo", 5), NamedAt("foo", 10), NamedAt("foo", 5)]), Some("Foo.java"))
      == []
  {
    var ms := [NamedAt("foo", 5), NamedAt("foo", 10), NamedAt("foo", 5)];
    var pack := PackageWith(ms);
    FileLinesOfFoo(ms);
    assert ms[..2] == [NamedAt("foo", 5), NamedAt("foo", 10)];
    assert ms[..2][..1] == [NamedAt("foo", 5)];
    assert ms[..2][..1][..0] == [];
    assert NameLineMap(ms[..2][..1]) == map["foo" := 5];
    assert NameLineMap(ms[..2]) == map["foo" := 10];
    assert NameLineMap(ms) == map["foo" := 5];
    NoLinesWhenOwnEntrySurvives(NamedAt("foo", 5), pack, "Foo.java");
  }

  lemma RenderSeven()
    ensures Render(1700000) == "1700000"
  {
    assert Render(1) == "1";
    assert Render(17) == "17";
    assert Render(170) == "170";
    assert Render(1700) == "1700";
    assert Render(17000) == "17000";
    assert Render(170000) == "170000";
  }

  lemma RenderThirteen()
    ensures Render(1700000000000) == "1700000000000"
  {
    RenderSeven();
    assert Render(17000000) == "17000000";
    assert Render(170000000) == "170000000";
    assert Render(1700000000) == "1700000000";
    assert Render(17000000000) == "17000000000";
    assert Render(170000000000) == "170000000000";
  }

  /** A session starting at 1700000000000 ms gives the timestamp 1700000000 s. */
  lemma TimestampOfSessionStart()
    ensures J.Timestamp(J.Report("r", [], [J.SessionInfo(Some("s"), Some("1700000000000"), None)], []))
      == Some(1700000000)
  {
    RenderThirteen();
    J.TimestampOfMillis(J.Report("r", [], [J.SessionInfo(Some("s"), Some("1700000000000"), None)], []), 1700000000000);
  }

  /** A session starting at -1500 ms gives -1 s, not the floored -2. */
  lemma TimestampOfNegativeStart()
    ensures J.Timestamp(J.Report("r", [], [J.SessionInfo(None, Some("-1500"), None)], [])) == Some(-1)
  {
    assert Render(1) == "1";
    assert Render(15) == "15";
    assert Render(150) == "150";
    assert Render(1500) == "1500";
    assert "-" + Render(1500) == "-1500";
    J.TimestampOfNegativeMillis(J.Report("r", [], [J.SessionInfo(None, Some("-1500"), None)], []), 1500);
  }

  /** A line with 1 of 3 branches covered: 33 percent, "33% (1/3)". */
  lemma PartialBranchLine()
    ensures ToLine(J.Line(7, 0, 4, 2, 1)) ==
      Line(7, 1, true, Some("33% (1/3)"), Some([Condition(0, "jump", "33%")]))
  {
    assert Percentage(1, 2) == 33;
    assert Render(3) == "3" && Render(33) == "33";
    assert Render(1) == "1";
    assert ConditionCoverage(1, 2) == "33% (1/3)";
    assert Render(33) + "%" == "33%";
  }

  /** Splitting a two-package report gives two documents of one package each, with the whole report's timestamp. */
  lemma SplitTwoPackages(sources: seq<string>)
    ensures
      var a := J.PackageElement(Some("com/a"), [], [], []);
      var b := J.PackageElement(Some("com/b"), [], [], []);
      var r := J.Report("r", [a, b], [J.SessionInfo(None, Some("1700000000000"), None)], []);
      var whole := ToCoverage(r, sources);
      var partA := ToCoverage(J.CopyReportWithPackage(r, a), sources);
      var partB := ToCoverage(J.CopyReportWithPackage(r, b), sources);
      whole.Some? && partA.Some? && partB.Some? &&
      |whole.value.packages| == 2 &&
      partA.value.packages == [ToPackage(a)] && partB.value.packages == [ToPackage(b)] &&
      partA.value.timestamp == partB.value.timestamp == whole.value.timestamp == 1700000000
  {
    var a := J.PackageElement(Some("com/a"), [], [], []);
    var b := J.PackageElement(Some("com/b"), [], [], []);
    var r := J.Report("r", [a, b], [J.SessionInfo(None, Some("1700000000000"), None)], []);
    TimestampOfSessionStart();
    assert J.Timestamp(r) == J.Timestamp(J.Report("r", [], [J.SessionInfo(Some("s"), Some("1700000000000"), None)], []));
    SplitDocument(r, a, sources);
    SplitDocument(r, b, sources);
  }
}
