/** The dashboard: the ongoing classes, the graded classes of the previous
    semester, and the yearly average grades for the chart. */
module Dashboard {
  import opened Seqs
  import opened Sorting
  import opened Strings
  import opened Types
  import opened GradeUtils
  import opened MyGrades

  /** `ongoingClasses` test: no grade record, or no numeric value in it. A
      class is ongoing exactly when it has no overall grade. */
  predicate IsOngoing(c: ClassData, grades: Grades)
    ensures IsOngoing(c, grades) <==> ClassOverall(c, grades).NotAvailable?
  {
    var record := LookupGrades(grades, c.courseCode);
    record.None? || forall sg :: sg in SubGrades(record.value) ==> !sg.Num?
  }

  function Ongoing(grades: Grades): ClassData -> bool
  {
    c => IsOngoing(c, grades)
  }

  function OngoingClasses(registered: seq<ClassData>, grades: Grades): (r: seq<ClassData>)
    ensures forall c :: c in r <==> c in registered && ClassOverall(c, grades).NotAvailable?
    ensures forall c :: multiset(r)[c] == if ClassOverall(c, grades).NotAvailable? then multiset(registered)[c] else 0
    ensures IsSubsequence(r, registered)
  {
    FilterIsSubsequence(registered, Ongoing(grades));
    FilterCounts(registered, Ongoing(grades));
    Filter(registered, Ongoing(grades))
  }

  /** Every registered class is either ongoing or graded, never both. */
  lemma {:induction false} OngoingAndGradedPartition(registered: seq<ClassData>, grades: Grades)
    ensures |OngoingClasses(registered, grades)| + |GradedClasses(registered, grades)| == |registered|
    ensures multiset(OngoingClasses(registered, grades)) + multiset(GradedClasses(registered, grades))
            == multiset(registered)
  {
    assert forall c :: Ongoing(grades)(c) == !HasGrade(grades)(c);
    FilterPartition(registered, HasGrade(grades), Ongoing(grades));
  }

  const PreviousSemesterYear := 2025
  const PreviousSemesterName := "Spring"

  /** One row of the previous-semester table. */
  datatype CourseSummary = CourseSummary(id: string, name: string, overallGrade: Overall)

  function Summarize(grades: Grades): ClassData -> CourseSummary
  {
    (c: ClassData) => CourseSummary(c.courseCode, c.courseName, ClassOverall(c, grades))
  }

  function InPreviousSemester(c: ClassData): bool
  {
    c.year == PreviousSemesterYear && c.semester == PreviousSemesterName
  }

  function HasNumericOverall(s: CourseSummary): bool
  {
    s.overallGrade.Numeric?
  }

  /** A class that has a row in the previous-semester table. */
  function PreviousGraded(grades: Grades): ClassData -> bool
  {
    (c: ClassData) => InPreviousSemester(c) && ClassOverall(c, grades).Numeric?
  }

  predicate SummaryNameLe(a: CourseSummary, b: CourseSummary)
  {
    LexLe(a.name, b.name)
  }

  /** `previousSemesterGrades`: the Spring 2025 classes with a numeric overall
      grade, as summaries, sorted by name. */
  function PreviousSemesterGrades(registered: seq<ClassData>, grades: Grades): (r: seq<CourseSummary>)
    ensures forall s :: s in r <==>
      exists c :: c in registered && InPreviousSemester(c) && ClassOverall(c, grades).Numeric? &&
                  s == CourseSummary(c.courseCode, c.courseName, ClassOverall(c, grades))
    ensures multiset(r) == multiset(MapSeq(Filter(registered, PreviousGraded(grades)), Summarize(grades)))
    ensures Sorted(r, SummaryNameLe)
    ensures forall x ::
      Equivalents(r, x, SummaryNameLe) ==
      Equivalents(MapSeq(Filter(registered, PreviousGraded(grades)), Summarize(grades)), x, SummaryNameLe)
  {
    var inSemester := Filter(registered, InPreviousSemester);
    var summaries := MapSeq(inSemester, Summarize(grades));
    var graded := Filter(summaries, HasNumericOverall);
    var r := SortBy(graded, SummaryNameLe);
    PreviousSemesterMembers(registered, grades, r);
    SummaryNameLeIsTotalPreorder();
    SortBySorted(graded, SummaryNameLe);
    SortByPermutes(graded, SummaryNameLe);
    PreviousSemesterRows(registered, grades);
    SortKeepsTies(graded);
    r
  }

  /** `sort` is stable: rows with equal names keep their relative order. */
  lemma {:induction false} SortKeepsTies(rows: seq<CourseSummary>)
    ensures forall x ::
      Equivalents(SortBy(rows, SummaryNameLe), x, SummaryNameLe) ==
      Equivalents(rows, x, SummaryNameLe)
  {
    SummaryNameLeIsTotalPreorder();
    forall x {
      SortByStable(rows, x, SummaryNameLe);
    }
  }

  /** Selecting the semester, summarising and keeping the graded rows gives
      one row per qualifying registration, in registration order. */
  lemma {:induction false} PreviousSemesterRows(registered: seq<ClassData>, grades: Grades)
    ensures Filter(MapSeq(Filter(registered, InPreviousSemester), Summarize(grades)), HasNumericOverall)
         == MapSeq(Filter(registered, PreviousGraded(grades)), Summarize(grades))
  {
    if registered != [] {
      PreviousSemesterRows(registered[1..], grades);
      var c := registered[0];
      var rest := Filter(registered[1..], InPreviousSemester);
      if InPreviousSemester(c) {
        assert Filter(registered, InPreviousSemester) == [c] + rest;
        assert ([c] + rest)[1..] == rest;
        var mapped := MapSeq([c] + rest, Summarize(grades));
        assert mapped == [Summarize(grades)(c)] + MapSeq(rest, Summarize(grades));
        assert mapped[1..] == MapSeq(rest, Summarize(grades));
      }
    }
  }

  lemma SummaryNameLeIsTotalPreorder()
    ensures TotalPreorder(SummaryNameLe)
  {
    forall a, b ensures SummaryNameLe(a, b) || SummaryNameLe(b, a) {
      LexLeTotal(a.name, b.name);
    }
    forall a, b, c | SummaryNameLe(a, b) && SummaryNameLe(b, c) ensures SummaryNameLe(a, c) {
      LexLeTransitive(a.name, b.name, c.name);
    }
  }

  lemma {:induction false} PreviousSemesterMembers(registered: seq<ClassData>, grades: Grades, r: seq<CourseSummary>)
    requires r == SortBy(Filter(MapSeq(Filter(registered, InPreviousSemester), Summarize(grades)), HasNumericOverall), SummaryNameLe)
    ensures forall s :: s in r <==>
      exists c :: c in registered && InPreviousSemester(c) && ClassOverall(c, grades).Numeric? &&
                  s == CourseSummary(c.courseCode, c.courseName, ClassOverall(c, grades))
  {
    var inSemester := Filter(registered, InPreviousSemester);
    var summaries := MapSeq(inSemester, Summarize(grades));
    var graded := Filter(summaries, HasNumericOverall);
    SortBySameElements(graded, SummaryNameLe);
    SummariesFromClasses(registered, grades, graded);
    ClassesToSummaries(registered, grades, graded);
  }

  lemma {:induction false} SummariesFromClasses(registered: seq<ClassData>, grades: Grades, graded: seq<CourseSummary>)
    requires graded == Filter(MapSeq(Filter(registered, InPreviousSemester), Summarize(grades)), HasNumericOverall)
    ensures forall s :: s in graded ==>
      exists c :: c in registered && InPreviousSemester(c) && ClassOverall(c, grades).Numeric? &&
                  s == CourseSummary(c.courseCode, c.courseName, ClassOverall(c, grades))
  {
    var inSemester := Filter(registered, InPreviousSemester);
    var summaries := MapSeq(inSemester, Summarize(grades));
    forall s | s in graded
      ensures exists c :: c in registered && InPreviousSemester(c) && ClassOverall(c, grades).Numeric? &&
                          s == CourseSummary(c.courseCode, c.courseName, ClassOverall(c, grades))
    {
      var k :| 0 <= k < |summaries| && summaries[k] == s;
      var c := inSemester[k];
      assert c in registered && InPreviousSemester(c);
      assert s == Summarize(grades)(c);
    }
  }

  lemma {:induction false} ClassesToSummaries(registered: seq<ClassData>, grades: Grades, graded: seq<CourseSummary>)
    requires graded == Filter(MapSeq(Filter(registered, InPreviousSemester), Summarize(grades)), HasNumericOverall)
    ensures forall c :: c in registered && InPreviousSemester(c) && ClassOverall(c, grades).Numeric? ==>
      CourseSummary(c.courseCode, c.courseName, ClassOverall(c, grades)) in graded
  {
    var inSemester := Filter(registered, InPreviousSemester);
    var summaries := MapSeq(inSemester, Summarize(grades));
    forall c | c in registered && InPreviousSemester(c) && ClassOverall(c, grades).Numeric?
      ensures CourseSummary(c.courseCode, c.courseName, ClassOverall(c, grades)) in graded
    {
      var i :| 0 <= i < |registered| && registered[i] == c;
      var k :| 0 <= k < |inSemester| && inSemester[k] == c;
      assert summaries[k] == Summarize(grades)(c);
    }
  }

  /** The running total of one year in `gradesByYear`. */
  datatype YearTotals = YearTotals(totalGrade: real, count: nat)

  /** One bar of the chart. */
  datatype YearlyAverage = YearlyAverage(year: int, averageGrade: real)

  function InYear(y: int): GradedClass -> bool
  {
    (e: GradedClass) => e.cls.year == y
  }

  /** The overall grades of the graded classes of year `y`, in order. */
  function YearValues(entries: seq<GradedClass>, y: int): seq<real>
  {
    GradeValues(Filter(entries, InYear(y)))
  }

  /** The years of `entries`, in order, repeats included. */
  function YearsOf(entries: seq<GradedClass>): (r: seq<int>)
    ensures |r| == |entries| && forall k :: 0 <= k < |entries| ==> r[k] == entries[k].cls.year
  {
    if entries == [] then [] else YearsOf(entries[..|entries| - 1]) + [entries[|entries| - 1].cls.year]
  }

  lemma {:induction false} YearValuesAppend(entries: seq<GradedClass>, e: GradedClass, y: int)
    ensures e.cls.year == y ==> YearValues(entries + [e], y) == YearValues(entries, y) + [e.overallGrade]
    ensures e.cls.year != y ==> YearValues(entries + [e], y) == YearValues(entries, y)
  {
    FilterAppend(entries, [e], InYear(y));
    GradeValuesAppend(Filter(entries, InYear(y)), Filter([e], InYear(y)));
    if e.cls.year != y {
      assert Filter([e], InYear(y)) == [];
      assert Filter(entries, InYear(y)) + [] == Filter(entries, InYear(y));
    }
  }

  /** The year has a grade exactly when some entry is of that year. */
  lemma {:induction false} YearValuesOfPresentYear(entries: seq<GradedClass>, y: int)
    requires y in Dedup(YearsOf(entries))
    ensures |YearValues(entries, y)| > 0
  {
    var i :| 0 <= i < |YearsOf(entries)| && YearsOf(entries)[i] == y;
    assert entries[i] in Filter(entries, InYear(y));
  }

  /** Conversely, a year with graded classes is among the collected years. */
  lemma {:induction false} GradedYearIsPresent(entries: seq<GradedClass>, y: int)
    requires |YearValues(entries, y)| > 0
    ensures y in Dedup(YearsOf(entries))
  {
    var f := Filter(entries, InYear(y));
    assert f[0] in entries;
    var i :| 0 <= i < |entries| && entries[i] == f[0];
    assert YearsOf(entries)[i] == y;
  }

  /** The running totals of year `y` once the loop has seen `entries`. */
  function Tally(entries: seq<GradedClass>, y: int): YearTotals
  {
    if entries == [] then YearTotals(0.0, 0)
    else
      var before := Tally(entries[..|entries| - 1], y);
      var e := entries[|entries| - 1];
      if e.cls.year == y then YearTotals(before.totalGrade + e.overallGrade, before.count + 1) else before
  }

  /** The running totals are the sum and the number of that year's grades. */
  lemma {:induction false} TallyIsSumAndCount(entries: seq<GradedClass>, y: int)
    ensures Tally(entries, y) == YearTotals(Sum(YearValues(entries, y)), |YearValues(entries, y)|)
  {
    if entries != [] {
      var init, e := entries[..|entries| - 1], entries[|entries| - 1];
      assert entries == init + [e];
      TallyIsSumAndCount(init, y);
      YearValuesAppend(init, e, y);
      if e.cls.year == y {
        SumAppend(YearValues(init, y), [e.overallGrade]);
        assert Sum([e.overallGrade]) == e.overallGrade;
      }
    } else {
      assert Filter(entries, InYear(y)) == [];
    }
  }

  lemma {:induction false} TallyOfAbsentYear(entries: seq<GradedClass>, y: int)
    requires forall k :: 0 <= k < |entries| ==> entries[k].cls.year != y
    ensures Tally(entries, y) == YearTotals(0.0, 0)
  {
    if entries != [] {
      TallyOfAbsentYear(entries[..|entries| - 1], y);
    }
  }

  /** `years` lists the years met so far in order of first appearance, and
      `gradesByYear` holds the running totals of each. */
  ghost predicate Tallied(entries: seq<GradedClass>, years: seq<int>, gradesByYear: map<int, YearTotals>)
  {
    && years == Dedup(YearsOf(entries))
    && (forall y :: y in gradesByYear <==> y in years)
    && (forall y :: y in gradesByYear ==> gradesByYear[y] == Tally(entries, y))
  }

  lemma {:induction false} TallyStepYears(entries: seq<GradedClass>, e: GradedClass,
                                          years: seq<int>, gradesByYear: map<int, YearTotals>)
    requires Tallied(entries, years, gradesByYear)
    ensures var y := e.cls.year;
      var years' := if y in gradesByYear then years else years + [y];
      && years' == Dedup(YearsOf(entries + [e]))
      && forall u :: u in gradesByYear[y := YearTotals(0.0, 0)] <==> u in years'
  {
    assert YearsOf(entries + [e]) == YearsOf(entries) + [e.cls.year] by {
      assert (entries + [e])[..|entries|] == entries;
    }
    DedupSnoc(YearsOf(entries), e.cls.year);
  }

  /** `if (!gradesByYear[year]) gradesByYear[year] = { totalGrade: 0, count: 0 }`. */
  function Opened(gradesByYear: map<int, YearTotals>, year: int): (m: map<int, YearTotals>)
    ensures year in m
  {
    if year in gradesByYear then gradesByYear else gradesByYear[year := YearTotals(0.0, 0)]
  }

  /** The two updates `totalGrade += grade` and `count += 1` of an opened year. */
  function Added(gradesByYear: map<int, YearTotals>, year: int, grade: real): map<int, YearTotals>
    requires year in gradesByYear
  {
    var totals := gradesByYear[year];
    gradesByYear[year := YearTotals(totals.totalGrade + grade, totals.count + 1)]
  }

  lemma {:induction false} TallyStepTotals(entries: seq<GradedClass>, e: GradedClass,
                                           years: seq<int>, gradesByYear: map<int, YearTotals>)
    requires Tallied(entries, years, gradesByYear)
    ensures var after := Added(Opened(gradesByYear, e.cls.year), e.cls.year, e.overallGrade);
      forall u :: u in after ==> after[u] == Tally(entries + [e], u)
  {
    var y := e.cls.year;
    var after := Added(Opened(gradesByYear, y), y, e.overallGrade);
    assert (entries + [e])[..|entries|] == entries;
    if y !in gradesByYear {
      forall k | 0 <= k < |entries| ensures entries[k].cls.year != y {
        assert YearsOf(entries)[k] in Dedup(YearsOf(entries));
      }
      TallyOfAbsentYear(entries, y);
    }
  }

  /** Adding one graded class to the running totals of its year keeps the tally. */
  lemma {:induction false} TallyStep(entries: seq<GradedClass>, e: GradedClass,
                                     years: seq<int>, gradesByYear: map<int, YearTotals>)
    requires Tallied(entries, years, gradesByYear)
    ensures var y := e.cls.year;
      Tallied(entries + [e],
              if y in gradesByYear then years else years + [y],
              Added(Opened(gradesByYear, y), y, e.overallGrade))
  {
    TallyStepYears(entries, e, years, gradesByYear);
    TallyStepTotals(entries, e, years, gradesByYear);
  }

  /** The body of the forEach loop for a class with a numeric overall grade. */
  method AddToYear(years: seq<int>, gradesByYear: map<int, YearTotals>, year: int, overallGrade: real)
    returns (years': seq<int>, gradesByYear': map<int, YearTotals>)
    ensures years' == if year in gradesByYear then years else years + [year]
    ensures gradesByYear' == Added(Opened(gradesByYear, year), year, overallGrade)
  {
    years', gradesByYear' := years, gradesByYear;
    if year !in gradesByYear' {
      years' := years' + [year];
      gradesByYear' := gradesByYear'[year := YearTotals(0.0, 0)];
    }
    var totals := gradesByYear'[year];
    gradesByYear' := gradesByYear'[year := YearTotals(totals.totalGrade + overallGrade, totals.count + 1)];
  }

  /** The forEach loop of `getYearlyGradesData`: per year, the running sum and
      count of the numeric overall grades; `years` records the order in which
      the years were first met. */
  method TallyByYear(registeredClasses: seq<ClassData>, grades: Grades)
    returns (years: seq<int>, gradesByYear: map<int, YearTotals>)
    ensures years == Dedup(YearsOf(Entries(registeredClasses, grades)))
    ensures forall y :: y in gradesByYear <==> y in years
    ensures forall y :: y in gradesByYear ==> gradesByYear[y] == Tally(Entries(registeredClasses, grades), y)
  {
    years, gradesByYear := [], map[];
    ghost var done: seq<GradedClass> := [];
    for i := 0 to |registeredClasses|
      invariant done == Entries(registeredClasses[..i], grades)
      invariant Tallied(done, years, gradesByYear)
    {
      var cls := registeredClasses[i];
      assert registeredClasses[..i + 1][..i] == registeredClasses[..i];
      var overallGrade := ClassOverall(cls, grades);
      if overallGrade.Numeric? {
        ghost var entry := GradedClass(cls, overallGrade.value);
        TallyStep(done, entry, years, gradesByYear);
        years, gradesByYear := AddToYear(years, gradesByYear, cls.year, overallGrade.value);
        done := done + [entry];
      }
    }
    assert registeredClasses[..|registeredClasses|] == registeredClasses;
  }

  /** The chart entry of year `y`: the mean of that year's overall grades. */
  function YearEntry(entries: seq<GradedClass>, y: int): YearlyAverage
    requires |YearValues(entries, y)| > 0
  {
    YearlyAverage(y, Mean(YearValues(entries, y)))
  }

  predicate YearLe(a: YearlyAverage, b: YearlyAverage)
  {
    a.year <= b.year
  }

  /** `getYearlyGradesData`: one entry per year that has a graded class, holding
      the mean of that year's overall grades, in increasing year order. */
  method YearlyGradesData(registeredClasses: seq<ClassData>, grades: Grades)
    returns (yearlyData: seq<YearlyAverage>)
    ensures var entries := Entries(registeredClasses, grades);
      forall k :: 0 <= k < |yearlyData| ==>
        |YearValues(entries, yearlyData[k].year)| > 0 &&
        yearlyData[k].averageGrade == Mean(YearValues(entries, yearlyData[k].year))
    ensures forall y :: |YearValues(Entries(registeredClasses, grades), y)| > 0 <==>
      exists k :: 0 <= k < |yearlyData| && yearlyData[k].year == y
    ensures forall k, m :: 0 <= k < m < |yearlyData| ==> yearlyData[k].year < yearlyData[m].year
  {
    var years, gradesByYear := TallyByYear(registeredClasses, grades);
    ghost var entries := Entries(registeredClasses, grades);
    TalliedYearsHaveGrades(entries, years, gradesByYear);
    var unsorted := AveragesOf(years, gradesByYear);
    AveragesAreYearEntries(entries, years, gradesByYear, unsorted);
    yearlyData := SortBy(unsorted, YearLe);
    SortedYearEntries(entries, unsorted, yearlyData);
    SortedYearsCovered(entries, years, unsorted, yearlyData);
    SortedYearsIncreasing(entries, unsorted, yearlyData);
  }

  lemma {:induction false} TalliedYearsHaveGrades(entries: seq<GradedClass>, years: seq<int>,
                                                  gradesByYear: map<int, YearTotals>)
    requires years == Dedup(YearsOf(entries))
    requires forall y :: y in gradesByYear <==> y in years
    requires forall y :: y in gradesByYear ==> gradesByYear[y] == Tally(entries, y)
    ensures forall m :: 0 <= m < |years| ==>
      years[m] in gradesByYear && |YearValues(entries, years[m])| > 0 &&
      gradesByYear[years[m]] == YearTotals(Sum(YearValues(entries, years[m])), |YearValues(entries, years[m])|)
  {
    forall m | 0 <= m < |years|
      ensures |YearValues(entries, years[m])| > 0
      ensures gradesByYear[years[m]] == YearTotals(Sum(YearValues(entries, years[m])), |YearValues(entries, years[m])|)
    {
      YearValuesOfPresentYear(entries, years[m]);
      TallyIsSumAndCount(entries, years[m]);
    }
  }

  /** The `Object.keys(gradesByYear).map(...)` step: one average per year. */
  method AveragesOf(years: seq<int>, gradesByYear: map<int, YearTotals>) returns (averages: seq<YearlyAverage>)
    requires forall m :: 0 <= m < |years| ==> years[m] in gradesByYear && gradesByYear[years[m]].count > 0
    ensures |averages| == |years|
    ensures forall m :: 0 <= m < |years| ==>
      var totals := gradesByYear[years[m]];
      averages[m] == YearlyAverage(years[m], totals.totalGrade / (totals.count as real))
  {
    averages := [];
    for k := 0 to |years|
      invariant |averages| == k
      invariant forall m :: 0 <= m < k ==>
        var totals := gradesByYear[years[m]];
        averages[m] == YearlyAverage(years[m], totals.totalGrade / (totals.count as real))
    {
      var year := years[k];
      var totals := gradesByYear[year];
      averages := averages + [YearlyAverage(year, totals.totalGrade / (totals.count as real))];
    }
  }

  lemma {:induction false} AveragesAreYearEntries(entries: seq<GradedClass>, years: seq<int>,
                                                  gradesByYear: map<int, YearTotals>, averages: seq<YearlyAverage>)
    requires forall m :: 0 <= m < |years| ==>
      years[m] in gradesByYear && |YearValues(entries, years[m])| > 0 &&
      gradesByYear[years[m]] == YearTotals(Sum(YearValues(entries, years[m])), |YearValues(entries, years[m])|)
    requires |averages| == |years|
    requires forall m :: 0 <= m < |years| ==>
      var totals := gradesByYear[years[m]];
      averages[m] == YearlyAverage(years[m], totals.totalGrade / (totals.count as real))
    ensures forall m :: 0 <= m < |years| ==>
      |YearValues(entries, averages[m].year)| > 0 && averages[m] == YearEntry(entries, averages[m].year)
  {
  }

  lemma {:induction false} SortedYearEntries(entries: seq<GradedClass>, unsorted: seq<YearlyAverage>,
                                             yearlyData: seq<YearlyAverage>)
    requires forall m :: 0 <= m < |unsorted| ==>
      |YearValues(entries, unsorted[m].year)| > 0 && unsorted[m] == YearEntry(entries, unsorted[m].year)
    requires yearlyData == SortBy(unsorted, YearLe)
    ensures forall k :: 0 <= k < |yearlyData| ==>
      |YearValues(entries, yearlyData[k].year)| > 0 && yearlyData[k] == YearEntry(entries, yearlyData[k].year)
  {
    SortByMembers(unsorted, YearLe);
    forall k | 0 <= k < |yearlyData|
      ensures |YearValues(entries, yearlyData[k].year)| > 0
      ensures yearlyData[k] == YearEntry(entries, yearlyData[k].year)
    {
      var m :| 0 <= m < |unsorted| && unsorted[m] == yearlyData[k];
    }
  }

  lemma {:induction false} SortedYearsCovered(entries: seq<GradedClass>, years: seq<int>,
                                              unsorted: seq<YearlyAverage>, yearlyData: seq<YearlyAverage>)
    requires years == Dedup(YearsOf(entries))
    requires |unsorted| == |years|
    requires forall m :: 0 <= m < |years| ==> unsorted[m].year == years[m]
    requires forall k :: 0 <= k < |yearlyData| ==> |YearValues(entries, yearlyData[k].year)| > 0
    requires yearlyData == SortBy(unsorted, YearLe)
    ensures forall y :: |YearValues(entries, y)| > 0 <==>
      exists k :: 0 <= k < |yearlyData| && yearlyData[k].year == y
  {
    SortBySameElements(unsorted, YearLe);
    forall y | |YearValues(entries, y)| > 0
      ensures exists k :: 0 <= k < |yearlyData| && yearlyData[k].year == y
    {
      GradedYearIsPresent(entries, y);
      var m :| 0 <= m < |years| && years[m] == y;
      assert unsorted[m] in yearlyData;
      var k :| 0 <= k < |yearlyData| && yearlyData[k] == unsorted[m];
    }
  }

  lemma {:induction false} SortedYearsIncreasing(entries: seq<GradedClass>, unsorted: seq<YearlyAverage>,
                                                 yearlyData: seq<YearlyAverage>)
    requires forall i, j :: 0 <= i < j < |unsorted| ==> unsorted[i].year != unsorted[j].year
    requires forall k :: 0 <= k < |yearlyData| ==>
      |YearValues(entries, yearlyData[k].year)| > 0 && yearlyData[k] == YearEntry(entries, yearlyData[k].year)
    requires yearlyData == SortBy(unsorted, YearLe)
    ensures forall k, m :: 0 <= k < m < |yearlyData| ==> yearlyData[k].year < yearlyData[m].year
  {
    assert TotalPreorder(YearLe);
    SortBySorted(unsorted, YearLe);
    assert NoDup(unsorted);
    SortByPermutes(unsorted, YearLe);
    NoDupPermutation(unsorted, yearlyData);
  }

  /** Each yearly average lies between the lowest and the highest overall grade
      of that year. */
  lemma {:induction false} YearlyAverageBounds(entries: seq<GradedClass>, y: int)
    requires |YearValues(entries, y)| > 0
    ensures var values := YearValues(entries, y);
      Min(values) <= YearEntry(entries, y).averageGrade <= Max(values)
  {
    MeanBounds(YearValues(entries, y));
  }
}
