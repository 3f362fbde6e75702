/** The course catalog: five selectors narrow the available classes, and the
    options offered by each selector are the distinct values present, with
    "ALL" added, in a fixed order. */
module CourseCatalog {
  import opened Seqs
  import opened Sorting
  import opened Strings
  import opened Types
  import opened GradeUtils

  /** The wildcard selector value. */
  const All := "ALL"

  /** The selector state: department code, semester level, year (as the text
      of the chosen option), semester and the course-code search text. */
  datatype Filters = Filters(department: string, semesterLevel: string, year: string,
                             semester: string, courseCode: string)

  /** The selectors on first display: every department and level, Fall 2025,
      no search text. */
  const InitialFilters := Filters(All, All, "2025", "Fall", "")

  /** `selected === 'ALL' || (field && field === selected)`: an empty field is
      falsy and never matches a concrete selector. */
  predicate MatchesSelector(selected: string, field: string)
  {
    selected == All || (field != "" && field == selected)
  }

  /** The year selector compares against `parseInt(selected)`; a year of 0 is
      falsy, and `NaN` equals nothing. */
  predicate MatchesYear(selected: string, year: int)
  {
    selected == All || (year != 0 && ParseInt(selected) == Some(year))
  }

  /** `code.toLowerCase().includes(filter.toLowerCase())`. */
  predicate MatchesCode(filter: string, code: string)
  {
    Includes(ToLower(code), ToLower(filter))
  }

  /** The predicate of `filteredClasses`. A kept class has the value of every
      concrete selector, and a non-zero year that the year selector parses to. */
  predicate Keep(f: Filters, cls: ClassData)
    ensures Keep(f, cls) && f.department != All ==>
      cls.majorDepartment.departmentCode == f.department && f.department != ""
    ensures Keep(f, cls) && f.semesterLevel != All ==>
      cls.availableForSemester == f.semesterLevel && f.semesterLevel != ""
    ensures Keep(f, cls) && f.semester != All ==> cls.semester == f.semester && f.semester != ""
    ensures Keep(f, cls) && f.year != All ==> cls.year != 0 && ParseInt(f.year) == Some(cls.year)
    ensures Keep(f, cls) ==> exists i :: OccursAt(ToLower(cls.courseCode), ToLower(f.courseCode), i)
  {
    IncludesOccurs(ToLower(cls.courseCode), ToLower(f.courseCode));
    && MatchesSelector(f.department, cls.majorDepartment.departmentCode)
    && MatchesSelector(f.semesterLevel, cls.availableForSemester)
    && MatchesYear(f.year, cls.year)
    && MatchesSelector(f.semester, cls.semester)
    && MatchesCode(f.courseCode, cls.courseCode)
  }

  function KeepWith(f: Filters): ClassData -> bool
  {
    (c: ClassData) => Keep(f, c)
  }

  /** `filteredClasses`: the available classes every selector accepts, in
      catalog order. */
  function FilteredClasses(availableClasses: seq<ClassData>, f: Filters): (r: seq<ClassData>)
    ensures forall c :: c in r <==> c in availableClasses && Keep(f, c)
    ensures forall c :: multiset(r)[c] == if Keep(f, c) then multiset(availableClasses)[c] else 0
    ensures IsSubsequence(r, availableClasses)
  {
    FilterIsSubsequence(availableClasses, KeepWith(f));
    FilterCounts(availableClasses, KeepWith(f));
    Filter(availableClasses, KeepWith(f))
  }

  /** The empty search text occurs in every code. */
  lemma {:induction false} EmptySearchMatches(code: string)
    ensures MatchesCode("", code)
  {
    assert ToLower("") == "";
    assert ToLower(code)[..0] == "";
  }

  /** With every selector at "ALL" and no search text, nothing is filtered out. */
  lemma {:induction false} AllSelectorsKeepEverything(availableClasses: seq<ClassData>, f: Filters)
    requires f.department == All && f.semesterLevel == All && f.year == All && f.semester == All
    requires f.courseCode == ""
    ensures FilteredClasses(availableClasses, f) == availableClasses
  {
    forall i | 0 <= i < |availableClasses| ensures Keep(f, availableClasses[i]) {
      EmptySearchMatches(availableClasses[i].courseCode);
    }
    FilterAll(availableClasses, KeepWith(f));
  }

  /** The five selectors are independent tests: the filter keeps a class
      exactly when it passes the other four (with this one reset to its neutral
      value) and this one's own test. A concrete selector is an equality with a
      non-empty field. */
  lemma {:induction false} SelectorIsEquality(f: Filters, cls: ClassData)
    ensures Keep(f, cls) <==>
      Keep(f.(department := All), cls) && MatchesSelector(f.department, cls.majorDepartment.departmentCode)
    ensures Keep(f, cls) <==>
      Keep(f.(semesterLevel := All), cls) && MatchesSelector(f.semesterLevel, cls.availableForSemester)
    ensures Keep(f, cls) <==> Keep(f.(year := All), cls) && MatchesYear(f.year, cls.year)
    ensures Keep(f, cls) <==> Keep(f.(semester := All), cls) && MatchesSelector(f.semester, cls.semester)
    ensures Keep(f, cls) <==> Keep(f.(courseCode := ""), cls) && MatchesCode(f.courseCode, cls.courseCode)
    ensures forall selected, field :: selected != All ==>
      (MatchesSelector(selected, field) <==> field == selected && field != "")
  {
    EmptySearchMatches(cls.courseCode);
  }

  /** Choosing the year option printed from `y` keeps exactly the classes of
      year `y` (for a non-zero `y`; year 0 is never kept). */
  lemma {:induction false} YearOptionSelectsYear(f: Filters, cls: ClassData, y: int)
    requires f.year == IntToString(y)
    ensures MatchesYear(f.year, cls.year) <==> y != 0 && cls.year == y
  {
    ParseIntOfIntToString(y);
    assert f.year != All by {
      assert IsDigit(f.year[0]) || f.year[0] == '-';
    }
  }

  /** The search text ignores ASCII case on both sides. */
  lemma {:induction false} SearchIgnoresCase(filter: string, code: string)
    ensures MatchesCode(filter, code) == MatchesCode(ToLower(filter), code)
    ensures MatchesCode(filter, code) == MatchesCode(filter, ToLower(code))
    ensures MatchesCode(filter, code) <==> exists i :: OccursAt(ToLower(code), ToLower(filter), i)
  {
    ToLowerIdempotent(filter);
    ToLowerIdempotent(code);
    IncludesOccurs(ToLower(code), ToLower(filter));
  }

  lemma {:induction false} ToLowerIdempotent(s: string)
    ensures ToLower(ToLower(s)) == ToLower(s)
  {
    var once := ToLower(s);
    assert forall k :: 0 <= k < |s| ==> LowerChar(once[k]) == once[k];
  }

  /** The initial selectors show exactly the Fall 2025 classes. */
  lemma {:induction false} InitialFiltersShowFall2025(availableClasses: seq<ClassData>, cls: ClassData)
    ensures cls in FilteredClasses(availableClasses, InitialFilters) <==>
      cls in availableClasses && cls.year == 2025 && cls.semester == "Fall"
  {
    ParseInitialYear();
    EmptySearchMatches(cls.courseCode);
  }

  lemma {:induction false} ParseInitialYear()
    ensures ParseInt("2025") == Some(2025)
  {
    assert IntToString(2025) == "2025" by {
      assert NatToString(2025) == NatToString(202) + [DigitChar(5)];
      assert NatToString(202) == NatToString(20) + [DigitChar(2)];
      assert NatToString(20) == NatToString(2) + [DigitChar(0)];
    }
    ParseIntOfIntToString(2025);
  }

  // The option lists.

  /** `['ALL', ...new Set(values)].sort(cmp)`. */
  function Options(values: seq<string>, le: (string, string) -> bool): seq<string>
  {
    SortBy([All] + Dedup(values), le)
  }

  /** Every option is "ALL" or a value present in the data, and every such
      value is offered. */
  lemma {:induction false} OptionsMembers(values: seq<string>, le: (string, string) -> bool)
    ensures forall x :: x in Options(values, le) <==> x == All || x in values
  {
    SortBySameElements([All] + Dedup(values), le);
    DedupMembers(values);
  }

  /** The Set removes repeated values, but "ALL" is added outside it: the list
      has no duplicates exactly when no data value is itself "ALL". */
  lemma {:induction false} OptionsNoDup(values: seq<string>, le: (string, string) -> bool)
    ensures NoDup(Options(values, le)) <==> All !in values
  {
    var unsorted := [All] + Dedup(values);
    DedupMembers(values);
    SortByPermutes(unsorted, le);
    if All in values {
      assert unsorted[0] == All;
      var k :| 0 <= k < |Dedup(values)| && Dedup(values)[k] == All;
      assert unsorted[k + 1] == All;
      if NoDup(Options(values, le)) {
        NoDupPermutation(Options(values, le), unsorted);
      }
    } else {
      assert NoDup(unsorted);
      NoDupPermutation(unsorted, Options(values, le));
    }
  }

  /** A text field is truthy when it is not empty. */
  predicate NonEmpty(v: string)
  {
    v != ""
  }

  /** A year is truthy when it is not 0. */
  predicate NonZero(y: int)
  {
    y != 0
  }

  function LevelOf(c: ClassData): string { c.availableForSemester }
  function SemesterOf(c: ClassData): string { c.semester }
  function DepartmentOf(c: ClassData): string { c.majorDepartment.departmentCode }
  function YearOf(c: ClassData): int { c.year }

  /** `classes.filter(cls => cls.field).map(cls => cls.field)`: the truthy
      values of a field, in catalog order. */
  function LevelValues(classes: seq<ClassData>): seq<string>
  {
    Filter(MapSeq(classes, LevelOf), NonEmpty)
  }

  function SemesterValues(classes: seq<ClassData>): seq<string>
  {
    Filter(MapSeq(classes, SemesterOf), NonEmpty)
  }

  function DepartmentValues(classes: seq<ClassData>): seq<string>
  {
    Filter(MapSeq(classes, DepartmentOf), NonEmpty)
  }

  function NonZeroYears(classes: seq<ClassData>): seq<int>
  {
    Filter(MapSeq(classes, YearOf), NonZero)
  }

  /** The levels compare by their `BAn` number. */
  predicate LevelLe(a: string, b: string)
  {
    SemesterLevelValue(a) <= SemesterLevelValue(b)
  }

  lemma LevelLeIsTotalPreorder()
    ensures TotalPreorder(LevelLe)
  {
  }

  /** `uniqueSemesterLevels`: "ALL" and every non-empty level of a class. */
  function LevelOptions(availableClasses: seq<ClassData>): (r: seq<string>)
    ensures forall x :: x in r <==>
      x == All || (x != "" && exists c :: c in availableClasses && c.availableForSemester == x)
  {
    OptionsMembers(LevelValues(availableClasses), LevelLe);
    FilterMapMembers(availableClasses, LevelOf, NonEmpty);
    Options(LevelValues(availableClasses), LevelLe)
  }

  /** `uniqueSemesters` and `uniqueDepartments`, in default string order. */
  function SemesterOptions(availableClasses: seq<ClassData>): (r: seq<string>)
    ensures forall x :: x in r <==>
      x == All || (x != "" && exists c :: c in availableClasses && c.semester == x)
  {
    OptionsMembers(SemesterValues(availableClasses), LexLe);
    FilterMapMembers(availableClasses, SemesterOf, NonEmpty);
    Options(SemesterValues(availableClasses), LexLe)
  }

  function DepartmentOptions(availableClasses: seq<ClassData>): (r: seq<string>)
    ensures forall x :: x in r <==>
      x == All || (x != "" && exists c :: c in availableClasses && c.majorDepartment.departmentCode == x)
  {
    OptionsMembers(DepartmentValues(availableClasses), LexLe);
    FilterMapMembers(availableClasses, DepartmentOf, NonEmpty);
    Options(DepartmentValues(availableClasses), LexLe)
  }

  /** `uniqueYears`: "ALL" and the printed form of every non-zero year, in
      default (string) order. */
  function YearOptions(availableClasses: seq<ClassData>): (r: seq<string>)
    ensures forall x :: x in r <==>
      x == All || exists c :: c in availableClasses && c.year != 0 && x == IntToString(c.year)
  {
    YearTextsMembers(availableClasses);
    SortBySameElements(YearTexts(availableClasses), LexLe);
    SortBy(YearTexts(availableClasses), LexLe)
  }

  /** The level options are ordered by level number, and "ALL" (level 0) comes
      before every option of level 1 or more. */
  lemma {:induction false} LevelOptionsOrder(availableClasses: seq<ClassData>)
    ensures Sorted(LevelOptions(availableClasses), LevelLe)
    ensures var r := LevelOptions(availableClasses);
      forall i, j :: 0 <= i < |r| && 0 <= j < |r| && r[i] == All && SemesterLevelValue(r[j]) >= 1 ==> i < j
  {
    LevelLeIsTotalPreorder();
    SortBySorted([All] + Dedup(LevelValues(availableClasses)), LevelLe);
    LevelOfAll();
  }

  lemma {:induction false} LevelOfAll()
    ensures SemesterLevelValue(All) == 0
  {
    SemesterLevelExamples();
  }

  /** The semester and department options are in string order. */
  lemma {:induction false} TextOptionsSorted(availableClasses: seq<ClassData>)
    ensures Sorted(SemesterOptions(availableClasses), LexLe)
    ensures Sorted(DepartmentOptions(availableClasses), LexLe)
  {
    LexLeIsTotalPreorder();
    SortBySorted([All] + Dedup(SemesterValues(availableClasses)), LexLe);
    SortBySorted([All] + Dedup(DepartmentValues(availableClasses)), LexLe);
  }

  /** A printed year starts with a digit or '-', both before 'A'. */
  lemma {:induction false} YearTextBeforeAll(y: int)
    ensures LexLe(IntToString(y), All) && !LexLe(All, IntToString(y))
  {
    var s := IntToString(y);
    assert s[0] < 'A';
  }

  /** The year options before sorting. */
  function YearTexts(availableClasses: seq<ClassData>): seq<string>
  {
    [All] + MapSeq(Dedup(NonZeroYears(availableClasses)), IntToString)
  }

  lemma {:induction false} YearTextsMembers(availableClasses: seq<ClassData>)
    ensures forall x :: x in YearTexts(availableClasses) <==>
      x == All || exists c :: c in availableClasses && c.year != 0 && x == IntToString(c.year)
  {
    var years := Dedup(NonZeroYears(availableClasses));
    var printed := MapSeq(years, IntToString);
    assert forall x :: x in YearTexts(availableClasses) <==> x == All || x in printed;
    PrintedMembers(years);
    DedupMembers(NonZeroYears(availableClasses));
    FilterMapMembers(availableClasses, YearOf, NonZero);
    forall x | x in printed
      ensures exists c :: c in availableClasses && c.year != 0 && x == IntToString(c.year)
    {
      var y :| y in years && x == IntToString(y);
      var c :| c in availableClasses && YearOf(c) == y;
    }
    forall c | c in availableClasses && c.year != 0 ensures IntToString(c.year) in printed {
      assert NonZero(YearOf(c));
      assert c.year in years;
    }
  }

  lemma {:induction false} PrintedMembers(years: seq<int>)
    ensures forall x :: x in MapSeq(years, IntToString) <==> exists y :: y in years && x == IntToString(y)
  {
    var texts := MapSeq(years, IntToString);
    forall x | x in texts ensures exists y :: y in years && x == IntToString(y) {
      var k :| 0 <= k < |texts| && texts[k] == x;
      assert years[k] in years;
    }
    forall y | y in years ensures IntToString(y) in texts {
      var k :| 0 <= k < |years| && years[k] == y;
      assert texts[k] == IntToString(y);
    }
  }

  /** Each year is offered once: distinct years print differently, and no year
      prints as "ALL". */
  lemma {:induction false} YearOptionsNoDup(availableClasses: seq<ClassData>)
    ensures NoDup(YearOptions(availableClasses))
  {
    var years := Dedup(NonZeroYears(availableClasses));
    var unsorted := YearTexts(availableClasses);
    forall i, j | 0 <= i < j < |unsorted| ensures unsorted[i] != unsorted[j] {
      if i == 0 {
        YearTextBeforeAll(years[j - 1]);
      } else if unsorted[i] == unsorted[j] {
        IntToStringInjective(years[i - 1], years[j - 1]);
      }
    }
    SortByPermutes(unsorted, LexLe);
    NoDupPermutation(unsorted, YearOptions(availableClasses));
  }

  /** "ALL" sorts after every year: it is the last year option. */
  lemma {:induction false} YearOptionsAllLast(availableClasses: seq<ClassData>)
    ensures var r := YearOptions(availableClasses); |r| > 0 && r[|r| - 1] == All
  {
    var r := YearOptions(availableClasses);
    assert All in r;
    forall x | x in r && x != All ensures LexLe(x, All) && !LexLe(All, x) {
      var c :| c in availableClasses && c.year != 0 && x == IntToString(c.year);
      YearTextBeforeAll(c.year);
    }
    LexLeIsTotalPreorder();
    SortBySorted(YearTexts(availableClasses), LexLe);
    GreatestIsLast(r, All);
  }

  /** In a sorted list, a value strictly above every other one comes last. */
  lemma {:induction false} GreatestIsLast(r: seq<string>, top: string)
    requires Sorted(r, LexLe) && top in r
    requires forall x :: x in r && x != top ==> LexLe(x, top) && !LexLe(top, x)
    ensures r[|r| - 1] == top
  {
    var a :| 0 <= a < |r| && r[a] == top;
    if a != |r| - 1 {
      assert LexLe(r[a], r[|r| - 1]);
    }
  }

  /** The Register button of `cls` is disabled when a registered class has its
      course code. */
  function RegisterDisabled(registeredClasses: seq<ClassData>, cls: ClassData): (b: bool)
    ensures b <==> exists r :: r in registeredClasses && r.courseCode == cls.courseCode
  {
    HasCourse(registeredClasses, cls.courseCode)
  }
}
