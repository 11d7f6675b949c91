# JaCoCo to Cobertura conversion core, in Dafny

This project models the conversion core of the `jacoco-to-cobertura` Maven
plugin. The plugin reads a JaCoCo XML coverage report and writes a
Cobertura XML report. The XML binding is outside the model. The JaCoCo tree
is an input datatype and the Cobertura tree is an output datatype.

- `wrappers.dfy` (module `Wrappers`): `Option`, standing in for a Java
  reference that may be null.
- `decimal.dfy` (module `Decimal`): the decimal text of a non-negative `int`, as string
  concatenation writes it, and `Long.parseLong`.
- `jacoco.dfy` (module `Jacoco`): the JaCoCo tree (`Report`,
  `PackageElement`, `ClassElement`, `MethodElement`, `SourceFile`, `Line`,
  `Counter`, `SessionInfo`). It also holds the `Counters` arithmetic (first
  counter of a kind, `fraction`, `sum`, line rate, branch rate, complexity)
  and the `Report` helpers: `timestamp`, `packagesNames`, `sources` and
  `copyReportWithPackage`. `packagesNames` and `sources` are loops in the
  source, so they are methods with loop invariants here. Each is proved
  against a set or a specification function.
- `cobertura.dfy` (module `Cobertura`): the Cobertura tree, and one function
  per constructor that builds it (`Coverage`, `Package`, `ClassElement`,
  `Method`, `Line`, `Condition`, `Source`). It also holds `linesForMethod`,
  the line attribution.
- `examples.dfy` (module `ConversionExamples`): worked cases.

Line attribution is modelled as the code is written. The boundary for a
method is the least line in the name-to-line map. That map is built from
every named method with a line, in every class of the package that shares
the source file, and it includes the method itself. So whenever a method's
own entry survives in the map, the method receives no lines at all
(`NoLinesWhenOwnEntrySurvives`, `NoLinesForLastOfName`). A method's entry
survives exactly when the last method of that name with a line (in class
order, then method order) has the same line as its own
(`NameLineMapLastWins`). Methods without a line are dropped before the map
is built (Cobertura.java:33). So a method can keep its entry even after a
later method of the same name on another line: `foo`@5, `foo`@10, `foo`@5
gives the map {foo: 5}.

This differs from the reading the variable name `nextMethodLine`
(Cobertura.java:39) suggests, "lines from a method's start up to the next
method's start". Under that reading, methods `a` at line 5 and `b`
at line 10, over lines {5, 6, 9, 10, 11, 20}, would receive {5, 6, 9} and
{10, 11, 20}. The code gives both nothing, and so does the model
(`DistinctNamesReceiveNothing`). Where the two readings disagree, the model
follows the code.

Modelling choices:
- Rates are exact `real` ratios, not IEEE doubles.
- Counts (`missed`, `covered`, `mi`, `ci`, `mb`, `cb`) are `nat`.
- A parse failure in `timestamp` (a missing or non-numeric session start)
  would throw `NumberFormatException`. The model returns `None` instead, and
  `ToCoverage` returns `None` with it.
- The `(type, covered, missed)` order of the operands of `counter` is kept:
  `Fraction(covered, missed)`.

## Model

| member | source | states |
|---|---|---|
| `Decimal.Render` | src/main/java/com/tomassatka/Cobertura.java:172-173 | the text of a count written into a string is non-empty, digits only, with no leading zero |
| `Decimal.DigitsValueOfRender` | src/main/java/com/tomassatka/Cobertura.java:172-173 | reading back the digits of a rendered count gives the count |
| `Decimal.ParseLong` | src/main/java/com/tomassatka/Jacoco.java:75 | an accepted string is an optional sign followed only by digits, at least one, with a value in the `long` range; a string that starts with neither a sign nor a digit is rejected |
| `Decimal.ParseLongOfRender` | src/main/java/com/tomassatka/Jacoco.java:75 | every non-negative `long`, written in decimal, is accepted with its own value |
| `Decimal.ParseLongOfNegated` | src/main/java/com/tomassatka/Jacoco.java:75 | every negative `long`, written with a leading '-', is accepted with its own value |
| `Jacoco.FirstOfKind` | src/main/java/com/tomassatka/Jacoco.java:35-37 | absent exactly when no counter has the kind; otherwise the counter at the first position with that kind |
| `Jacoco.CounterValue` | src/main/java/com/tomassatka/Jacoco.java:34-45 | 0 when no counter has the kind; otherwise `op(covered, missed)` of the first counter of the kind, later ones ignored |
| `Jacoco.Fraction` | src/main/java/com/tomassatka/Jacoco.java:51-57 | exactly 0 for two zero counts; for a positive total, a value in [0, 1] whose product with the total is `covered`; 0 iff nothing covered, 1 iff nothing missed |
| `Jacoco.LineRate` | src/main/java/com/tomassatka/Jacoco.java:22-24 | in [0, 1]; 0 without a LINE counter; otherwise `Fraction(covered, missed)` of the first LINE counter |
| `Jacoco.BranchRate` | src/main/java/com/tomassatka/Jacoco.java:18-20 | in [0, 1]; 0 without a BRANCH counter; otherwise `Fraction(covered, missed)` of the first BRANCH counter |
| `Jacoco.Complexity` | src/main/java/com/tomassatka/Jacoco.java:26-28 | a non-negative whole number; 0 without a COMPLEXITY counter; otherwise covered + missed of the first one, a sum and not a ratio |
| `Jacoco.Sum` | src/main/java/com/tomassatka/Jacoco.java:47-49 | no contract of its own: `covered + missed` as a `real`; `Complexity` states the property (a non-negative whole number) |
| `Jacoco.FirstCounterWins` | src/main/java/com/tomassatka/Jacoco.java:34-41 | counters after the first of a kind never change the value |
| `Jacoco.SecondsOf` | src/main/java/com/tomassatka/Jacoco.java:75 | `long` division by 1000 truncates toward zero: the quotient brackets the milliseconds from below for positive values and from above for negative ones |
| `Jacoco.Timestamp` | src/main/java/com/tomassatka/Jacoco.java:74-76 | 0 without session infos; a failure when the first start is missing; a result times 1000 stays in the `long` range |
| `Jacoco.TimestampOfMillis` | src/main/java/com/tomassatka/Jacoco.java:74-76 | a first start written as the decimal text of `millis` gives `millis / 1000` |
| `Jacoco.TimestampOfNegativeMillis` | src/main/java/com/tomassatka/Jacoco.java:74-76 | a first start written as '-' and the decimal text of `n` gives `-(n / 1000)`: truncated toward zero, not floored |
| `Jacoco.PackagesNames` | src/main/java/com/tomassatka/Jacoco.java:102-110 | the result is exactly the set of names of the packages that have a name |
| `Jacoco.Sources` | src/main/java/com/tomassatka/Jacoco.java:125-135 | the nested loop builds exactly `SourcePaths` of the packages |
| `Jacoco.SourcePath` | src/main/java/com/tomassatka/Jacoco.java:130 | no contract of its own: `pkgName + "/" + fileName`, with "" for a missing package name; `FilePathsContents` and `SourcePathsContents` state what is listed |
| `Jacoco.FilePathsContents` | src/main/java/com/tomassatka/Jacoco.java:128-132 | a path is listed for a package iff some named file of it gives `pkgName + "/" + fileName` ("" for a missing package name) |
| `Jacoco.FilePathsAppend` | src/main/java/com/tomassatka/Jacoco.java:128-132 | the paths keep file order |
| `Jacoco.SourcePathsAppend` | src/main/java/com/tomassatka/Jacoco.java:127-133 | the paths keep package order |
| `Jacoco.SourcePathsContents` | src/main/java/com/tomassatka/Jacoco.java:125-135 | a path is listed iff some named file of some package gives it |
| `Jacoco.CopyReportWithPackage` | src/main/java/com/tomassatka/Jacoco.java:112-123 | same name and session infos, exactly the one package, no counters; hence the same timestamp and document rates of 0 |
| `Cobertura.StartLine` | src/main/java/com/tomassatka/Cobertura.java:23 | no contract of its own: the method's line, 0 when it has none; `LinesForMethod` and `NoLineZeroInCoverage` state that no received line lies before it |
| `Cobertura.FileLines` | src/main/java/com/tomassatka/Cobertura.java:24-26 | a line is collected iff it belongs to a source file whose name equals the class's source-file name |
| `Cobertura.MethodsOf` | src/main/java/com/tomassatka/Cobertura.java:30-32 | a method is collected iff it belongs to a class whose source-file name matches |
| `Cobertura.NameLineMap` | src/main/java/com/tomassatka/Cobertura.java:30-37 | no contract of its own (the `toMap` with the overwriting merge); its keys, values and overwrite rule are stated by `NameLineMapKeys`, `NameLineMapValues` and `NameLineMapLastWins` |
| `Cobertura.NameLineMapKeys` | src/main/java/com/tomassatka/Cobertura.java:30-37 | a name is a key iff some collected method with both a name and a line carries it |
| `Cobertura.NameLineMapLastWins` | src/main/java/com/tomassatka/Cobertura.java:34-37 | on a duplicate name the last such method's line is kept |
| `Cobertura.NameLineMapValues` | src/main/java/com/tomassatka/Cobertura.java:30-37 | every entry is the line of the last method carrying its name |
| `Cobertura.Boundary` | src/main/java/com/tomassatka/Cobertura.java:39-42 | `Integer.MAX_VALUE` for an empty map; otherwise a value of the map that is at most every value |
| `Cobertura.BoundaryIsLeast` | src/main/java/com/tomassatka/Cobertura.java:39-42 | when one entry is at most every entry, the boundary is that entry |
| `Cobertura.NextMethodLine` | src/main/java/com/tomassatka/Cobertura.java:39-42 | no contract of its own: `Boundary` of the map of the file's methods; `Boundary` and `BoundaryIsLeast` state its value |
| `Cobertura.FromStart` | src/main/java/com/tomassatka/Cobertura.java:27 | no longer than its input; every kept line has `nr != 0` and `nr >= start` |
| `Cobertura.BeforeBoundary` | src/main/java/com/tomassatka/Cobertura.java:45 | no longer than its input; every kept line has `nr != 0` and `nr < bound` |
| `Cobertura.Attributed` | src/main/java/com/tomassatka/Cobertura.java:44-46 | the attributed lines are an in-order sublist of the file's lines; each has `nr != 0` and `start <= nr < boundary`; every such line is kept (how many times is stated by `AttributedCounts`) |
| `Cobertura.AttributedCounts` | src/main/java/com/tomassatka/Cobertura.java:44-46 | every attributable line is kept exactly as many times as it occurs in the file's lines, and no other line is kept |
| `Cobertura.TwoFiltersAttribute` | src/main/java/com/tomassatka/Cobertura.java:24-28 | filtering by the start and then by the boundary equals the single filter by both bounds |
| `Cobertura.LinesForMethod` | src/main/java/com/tomassatka/Cobertura.java:18-48 | empty without a source-file name; otherwise exactly `Attributed` of the file's lines, from the method's start (0 if unknown) up to the least entry of the map; no line 0 |
| `Cobertura.NoLinesBelowAnEntry` | src/main/java/com/tomassatka/Cobertura.java:39-45 | if any entry of the map is at or below the method's start, the method receives nothing |
| `Cobertura.NoLinesWhenOwnEntrySurvives` | src/main/java/com/tomassatka/Cobertura.java:30-45 | a method whose own (name, line) entry survives in the map receives nothing |
| `Cobertura.NoLinesForLastOfName` | src/main/java/com/tomassatka/Cobertura.java:30-45 | the last method of each name among the file's methods receives nothing |
| `Cobertura.Percentage` | src/main/java/com/tomassatka/Cobertura.java:171 | the floor of 100 * covered / total: in [0, 100], bracketed by the total, 100 iff nothing missed |
| `Cobertura.ToCondition` | src/main/java/com/tomassatka/Cobertura.java:99-111 | condition number 0, type "jump", the given coverage text |
| `Cobertura.ToLine` | src/main/java/com/tomassatka/Cobertura.java:164-175 | number = nr; hits 1 iff ci > 0, else 0; branch iff mb + cb > 0, then the text "p% (cb/cb+mb)" and one condition with "p%"; otherwise neither |
| `Cobertura.ConditionCoverage` | src/main/java/com/tomassatka/Cobertura.java:172 | no contract of its own: the text `"<p>% (<cb>/<cb + mb>)"`; `ConditionCoverageDecodes` states that it reads back to its three numbers |
| `Cobertura.ConditionCoverageDecodes` | src/main/java/com/tomassatka/Cobertura.java:172 | the condition-coverage text reads back to the percentage, the covered count and the total |
| `Cobertura.ToMethod` | src/main/java/com/tomassatka/Cobertura.java:207-214 | name and signature default to ""; one line per attributed line, in order; no line 0 and none before the start; the method's own rates |
| `Cobertura.ToClass` | src/main/java/com/tomassatka/Cobertura.java:71-83 | name defaults to ""; filename `pkgName + "/" + sourceFileName`, "" for a missing part; one method per source method, in order |
| `Cobertura.ToPackage` | src/main/java/com/tomassatka/Cobertura.java:235-242 | name defaults to ""; one class per source class, in order; the package's own rates |
| `Cobertura.ToSources` | src/main/java/com/tomassatka/Cobertura.java:138-139 | `["."]` for no roots; otherwise one source per given root, in order |
| `Cobertura.ToCoverage` | src/main/java/com/tomassatka/Cobertura.java:136-144 | fails iff the timestamp fails; otherwise that timestamp, the roots, one package per source package in order, and the report's rates |
| `Cobertura.FilenamesQualified` | src/main/java/com/tomassatka/Cobertura.java:71-75 | every class of the document carries its source name and its package-qualified file name |
| `Cobertura.NoLineZeroInCoverage` | src/main/java/com/tomassatka/Cobertura.java:210 | no line anywhere in the document has number 0, or lies before its method's start |
| `Cobertura.RatesAreFractions` | src/main/java/com/tomassatka/Cobertura.java:80-81 | every line rate and branch rate in the document, at every level, lies in [0, 1] |
| `Cobertura.SplitDocument` | src/main/java/com/tomassatka/Jacoco.java:112-123 | the document of a single-package copy fails iff the whole one does; otherwise it has the same timestamp and roots, exactly the converted package, and rates of 0 |
| `ConversionExamples.DistinctNamesReceiveNothing` | src/main/java/com/tomassatka/Cobertura.java:39-45 | methods `a`@5 and `b`@10 over lines {5, 6, 9, 10, 11, 20} both receive nothing |
| `ConversionExamples.SameNameLaterOverwrites` | src/main/java/com/tomassatka/Cobertura.java:34-37 | `foo`@5 and `foo`@10 give the map {foo: 10}; `foo`@5 receives 5, 6, 9 and `foo`@10 nothing |
| `ConversionExamples.OverwrittenBack` | src/main/java/com/tomassatka/Cobertura.java:30-45 | `foo`@5, `foo`@10, `foo`@5 give the map {foo: 5}, so the first `foo`@5 keeps its entry and receives nothing |
| `ConversionExamples.TimestampOfSessionStart` | src/main/java/com/tomassatka/Jacoco.java:75 | a start of "1700000000000" gives the timestamp 1700000000 |
| `ConversionExamples.TimestampOfNegativeStart` | src/main/java/com/tomassatka/Jacoco.java:75 | a start of "-1500" gives the timestamp -1, not the floored -2 |
| `ConversionExamples.PartialBranchLine` | src/main/java/com/tomassatka/Cobertura.java:168-174 | a line with 1 of 3 branches covered reads "33% (1/3)" with one "33%" jump condition |
| `ConversionExamples.SplitTwoPackages` | src/main/java/com/tomassatka/Jacoco.java:112-123 | a two-package report splits into two one-package documents with the whole report's timestamp |

## Left out

- XML reading and writing: the annotations, `Persister`, and the XML declaration header are library calls. The trees are datatypes.
- `JacocoToCoberturaMojo.java` is not part of this model. That covers the file checks, `mkdirs`, logging and the split-mode driver loop. It also covers the output-path renaming (`/` to `.` in the package name, `.xml` to `-<pkg>.xml`), and the exception a null package name raises there. `SplitDocument` covers what the loop converts.
- `JacocoToCoberturaException.java` is a plain exception wrapper.
- `Report.print` is a console dump.
- Getters and setters are field access in the model.
- `Cobertura.Percentage`: is the exact floor of `100 * cb / (cb + mb)`. The source goes through a `double`, which can be one less (cb = 29 of 100 gives 28 in Java, 29 here).
- `Jacoco.Fraction`: is an exact `real`, not an IEEE double. It also does not model the 32-bit `int` overflow of `s1 + s2` in the denominator, because counts are unbounded naturals here. With covered = missed = 2^30, Java divides by -2^31 and gets -0.5, where the model gives 0.5. So `LineRate`, `BranchRate` and `RatesAreFractions` hold for the program only while every counter's total stays below 2^31.
- `Jacoco.Complexity`: does not model 32-bit `int` overflow of `covered + missed`, because counts are unbounded naturals here. The same holds for `cb + mb` in `Cobertura.ToLine`.
- Negative counts are not modelled, because every count is a `nat`. With negative counts the zero guard of `fraction` can divide by zero.
- A counter with a missing type would raise a `NullPointerException`. Counter kinds are always present here.
- `Decimal.ParseLong`: accepts only ASCII digits. Java's `Character.digit` also accepts other Unicode decimal digits.
- `Jacoco.CopyReportWithPackage`: drops the unused receiver. The copy shares the session-info list with the original, and that aliasing is not modelled. Nothing mutates the list after the copy.
- The element order of `packagesNames`'s `HashSet` is not modelled (the result is a `set`).
- Null elements inside the caller's source-root collection are not modelled.
