# Student portal: grade views, catalog filters and registration, in Dafny

This project models the logic of a small React student portal. The code is
written as components, but the model leaves the rendering out and keeps the
computations:

- **Grade arithmetic** (`GradeUtils`, from `src/utils/gradeUtils.ts`):
  - the overall grade of a course is the mean of its numeric sub-grades, or
    "N/A";
  - the colour tier of a grade;
  - the number in a `BAn` semester level.
- **My Grades** (`MyGrades`, from `src/pages/MyGrades.tsx`):
  - the graded classes and their average;
  - the grouping of the graded classes into (year, semester) buckets, as a
    loop over a dictionary;
  - the order of the bucket keys;
  - the in-place sort of each bucket by course name.
- **Dashboard** (`Dashboard`, from `src/pages/Dashboard.tsx`):
  - the ongoing classes;
  - the previous-semester table;
  - the yearly averages, as a loop that accumulates totals and counts per year.
- **Course catalog** (`CourseCatalog`, from `src/pages/CourseCatalog.tsx`):
  - the five filters;
  - the four option lists;
  - the disabled test of the Register button.
- **Registration** (`App`, from `src/App.tsx`): a class `Portal` whose fields are
  the component state the handlers update:
  - registered classes and grades;
  - the confirmation modal and its pending action;
  - the notification.
- **API mapping** (`Api`, from `src/services/api.ts`): the database-to-UI course
  mapper and the success/failure handling of the course request.

Shared pieces live in `Seqs`, `Sorting`, `Strings` and `Types`:

- `filter`, `map`, `reduce` and `new Set` are the functions `Filter`, `MapSeq`,
  `Sum` and `Dedup`. `Dedup` keeps the first occurrences in insertion order.
- `Array.prototype.sort` is `Sorting.SortBy`, one stable insertion sort. The
  language requires a stable sort, and a stable sort by a total preorder has
  only one possible result. Where the source sorts in place, the
  array method `Sorting.SortInPlace` is proved to produce `SortBy`.
- `localeCompare` and the default `sort()` order are both modelled by the
  code-point lexicographic order `Strings.LexLe`. "## Left out" lists where
  each of them differs.
- Grades are exact reals, so means are exact.

## Model

| member | source | states |
|---|---|---|
| GradeUtils.OverallCourseGrade | src/utils/gradeUtils.ts:4-14 | No record gives "N/A". The result is "N/A" exactly when no sub-grade is numeric. Otherwise it is the mean of the numeric sub-grades only. |
| GradeUtils.OverallWithinSubGrades | src/utils/gradeUtils.ts:8-13 | A numeric overall grade lies between the smallest and the largest numeric sub-grade. |
| GradeUtils.OverallOnScale | src/utils/gradeUtils.ts:8-13 | Sub-grades on the 1-6 scale give an overall grade on the 1-6 scale. |
| GradeUtils.OverallIgnoresText | src/utils/gradeUtils.ts:8 | Two records get the same overall grade when they agree on which of the four fields are numbers and on those numbers. The text of the string fields never matters. |
| GradeUtils.OverallOfHist101 | src/App.tsx:502 | The sample record {4, 5, 4, 4} averages 4.25. |
| GradeUtils.OverallOfCs301 | src/App.tsx:513 | The all-"N/A" sample record has no overall grade. |
| GradeUtils.OverallSkipsText | src/utils/gradeUtils.ts:8-13 | {5, "N/A", 6, "N/A"} averages 5.5: only the numeric fields count. |
| GradeUtils.GradeTier | src/utils/gradeUtils.ts:17-27 | The tier is gray exactly for "N/A" or a grade below 1. Every other tier's lower bound is inclusive, and the grade is below the next tier's bound. |
| GradeUtils.GradeColorClass | src/utils/gradeUtils.ts:17-27 | The gray class is returned exactly for "N/A" or a grade below 1. |
| GradeUtils.GradeTierMonotone | src/utils/gradeUtils.ts:20-26 | A higher grade never gets a lower tier. |
| GradeUtils.GradeTierBoundaries | src/utils/gradeUtils.ts:18-26 | 5.5 is green, 5.49 lime, 4.5 lime and 1 red. A grade below 1 gets the same class as "N/A". |
| GradeUtils.ColorClassInjective | src/utils/gradeUtils.ts:18-26 | Distinct tiers have distinct class strings. |
| GradeUtils.FirstBAMatch | src/utils/gradeUtils.ts:32 | Finds the first position where `BA` and a digit start, with no earlier one; or reports that there is none. |
| GradeUtils.SemesterLevelValue | src/utils/gradeUtils.ts:30-34 | "" gives 0, and no `BA`-digit match gives 0. Otherwise the result is the value of the digit run after the first match. It is never negative. |
| GradeUtils.SemesterLevelExamples | src/utils/gradeUtils.ts:30-34 | "BA3" gives 3, "BA12" gives 12, "MA1" gives 0, "ALL" gives 0 and "" gives 0. |
| MyGrades.ClassOverall | src/pages/MyGrades.tsx:13 | A class's overall grade is numeric exactly when its code has a record with a numeric field. It is then the mean of that record's numeric fields. |
| MyGrades.GradedClasses | src/pages/MyGrades.tsx:12-15 | Exactly the registered classes with a numeric overall grade, in registration order. Every copy of such a class is kept, and no copy of another. |
| MyGrades.SameCodeSameGrade | src/pages/MyGrades.tsx:13 | Two registrations with the same course code get the same overall grade. |
| MyGrades.Entries | src/pages/MyGrades.tsx:27-43 | Exactly one entry per graded class, in registration order, pairing the class with its own numeric overall grade. Nothing else is listed. |
| MyGrades.AverageOverallGrade | src/pages/MyGrades.tsx:18-23 | "N/A" exactly when no class is graded. Otherwise the mean of the overall grades of the graded classes, one value per graded registration. |
| MyGrades.GradedValues | src/pages/MyGrades.tsx:18-21 | The values summed are the overall grades of the graded classes, one per class, in order. |
| MyGrades.AverageWithinCourseGrades | src/pages/MyGrades.tsx:18-23 | The average lies between the lowest and the highest overall grade of the graded classes. |
| MyGrades.GroupBySemester | src/pages/MyGrades.tsx:26-44 | The keys are the distinct (year, semester) pairs, in first-seen order. The dictionary has exactly those keys. Each bucket holds exactly the entries of its term, in registration order. |
| MyGrades.AddToTerm | src/pages/MyGrades.tsx:30-42 | Opens the term's bucket if it is missing, then appends the entry to it. No other bucket changes. |
| MyGrades.GroupStep | src/pages/MyGrades.tsx:27-44 | One loop step keeps the grouping invariant: keys are the distinct terms, and each bucket is the filter of its term. |
| MyGrades.GroupingConserves | src/pages/MyGrades.tsx:27-44 | With one bucket per distinct term, the bucket sizes add up to the number of graded classes. |
| MyGrades.BucketSizesSum | src/pages/MyGrades.tsx:27-44 | For distinct keys that cover every entry's term, the bucket sizes add up to the number of entries. |
| MyGrades.ClassInItsOwnBucket | src/pages/MyGrades.tsx:30-42 | A graded class is in the bucket of its own term and in no other. |
| MyGrades.SortedKeysOrder | src/pages/MyGrades.tsx:47-56 | The sorted keys have no repeats and go by year, most recent first. Within a year, semester names are in descending order, so "Spring" precedes "Fall". |
| MyGrades.SortBucket | src/pages/MyGrades.tsx:86-87 | Sorting a bucket in place gives the stable sort by course name. |
| MyGrades.BuildSections | src/pages/MyGrades.tsx:72-87 | One section per sorted key, in key order, each holding its bucket sorted by name. |
| MyGrades.SemesterSections | src/pages/MyGrades.tsx:26-87 | The page's sections are the distinct terms in key order. Each holds exactly that term's graded classes, sorted by name. |
| Dashboard.IsOngoing | src/pages/Dashboard.tsx:13-16 | The test (no record, or no numeric field in it) holds exactly when the overall grade is "N/A". |
| Dashboard.OngoingClasses | src/pages/Dashboard.tsx:13-16 | Exactly the registered classes without an overall grade, in order. Every copy of such a class is kept, and no copy of another. |
| Dashboard.OngoingAndGradedPartition | src/pages/Dashboard.tsx:13-16 | The ongoing classes and the graded classes split the registered list: their lengths add up, and their multisets add up to it. |
| Dashboard.PreviousSemesterGrades | src/pages/Dashboard.tsx:19-30 | Sorted by name. Its rows are exactly the summaries of the Spring 2025 classes with a numeric overall grade. As a multiset, it has one row per such registration, counting repeats. Rows with equal names keep their registration order. |
| Dashboard.SortKeepsTies | src/pages/Dashboard.tsx:30 | The sort by name is stable: rows with equal names keep their relative order. |
| Dashboard.PreviousSemesterRows | src/pages/Dashboard.tsx:22-29 | Filtering by semester, summarising and keeping the graded rows equals summarising the registrations that are in the semester and graded. |
| Dashboard.YearValuesAppend | src/pages/Dashboard.tsx:36-46 | One more graded class adds its grade to its own year only. |
| Dashboard.YearValuesOfPresentYear | src/pages/Dashboard.tsx:38-44 | A collected year has at least one graded class. |
| Dashboard.GradedYearIsPresent | src/pages/Dashboard.tsx:38-44 | A year with a graded class is among the collected years. |
| Dashboard.TallyIsSumAndCount | src/pages/Dashboard.tsx:40-44 | The running totals of a year are the sum and the number of its overall grades. |
| Dashboard.TallyStep | src/pages/Dashboard.tsx:36-46 | One loop step keeps the tally invariant. |
| Dashboard.AddToYear | src/pages/Dashboard.tsx:39-44 | Opens the year at {0, 0} if it is missing, then adds the grade to the total and 1 to the count. |
| Dashboard.TallyByYear | src/pages/Dashboard.tsx:34-46 | The dictionary has exactly the distinct years of the graded classes. Each year holds the sum and count of its overall grades. |
| Dashboard.AveragesOf | src/pages/Dashboard.tsx:49-51 | One entry per key, holding total / count. |
| Dashboard.YearlyGradesData | src/pages/Dashboard.tsx:33-55 | Each entry's average is the mean of its year's overall grades. A year appears exactly when it has a graded class. Years strictly increase. |
| Dashboard.SortedYearsIncreasing | src/pages/Dashboard.tsx:52 | Sorting entries with distinct years gives strictly increasing years. |
| Dashboard.YearlyAverageBounds | src/pages/Dashboard.tsx:51 | Each yearly average lies between that year's lowest and highest overall grade. |
| CourseCatalog.Keep | src/pages/CourseCatalog.tsx:19-26 | A kept class has the value of every concrete selector and a non-zero year equal to the parsed year selector. Its lower-cased code contains the lower-cased search text. |
| CourseCatalog.FilteredClasses | src/pages/CourseCatalog.tsx:19-26 | Exactly the available classes every selector accepts, in catalog order. Every copy of an accepted class is kept, and no copy of another. |
| CourseCatalog.AllSelectorsKeepEverything | src/pages/CourseCatalog.tsx:19-26 | With every selector at "ALL" and no search text, the list is unchanged. |
| CourseCatalog.SelectorIsEquality | src/pages/CourseCatalog.tsx:19-26 | Each of the five selectors is an independent conjunct: department, level, year, semester and search text. A class is kept exactly when it passes that selector's own test and the other four, with this one reset to "ALL" or empty text. A non-"ALL" selector passes exactly when the field is non-empty and equal to it. |
| CourseCatalog.YearOptionSelectsYear | src/pages/CourseCatalog.tsx:23 | Choosing the printed form of a year keeps exactly that year's classes. A year of 0 is never kept. |
| CourseCatalog.SearchIgnoresCase | src/pages/CourseCatalog.tsx:25 | The search is a substring test on lower-cased text. Lower-casing either side first changes nothing. |
| CourseCatalog.InitialFiltersShowFall2025 | src/pages/CourseCatalog.tsx:12-16 | The initial selectors show exactly the Fall 2025 classes. |
| CourseCatalog.OptionsMembers | src/pages/CourseCatalog.tsx:29-32 | An option list holds "ALL" and exactly the values present in the data. |
| CourseCatalog.OptionsNoDup | src/pages/CourseCatalog.tsx:29-32 | An option list has no duplicates exactly when no data value is "ALL". |
| CourseCatalog.LevelOptionsOrder | src/pages/CourseCatalog.tsx:29 | Level options are ordered by level number. "ALL" comes before every level of 1 or more. |
| CourseCatalog.TextOptionsSorted | src/pages/CourseCatalog.tsx:31-32 | Semester and department options are in string order. |
| CourseCatalog.LevelOptions | src/pages/CourseCatalog.tsx:29 | The options are "ALL" and every non-empty level of an available class. |
| CourseCatalog.SemesterOptions | src/pages/CourseCatalog.tsx:31 | The options are "ALL" and every non-empty semester of an available class. |
| CourseCatalog.DepartmentOptions | src/pages/CourseCatalog.tsx:32 | The options are "ALL" and every non-empty department code of an available class. |
| CourseCatalog.YearOptions | src/pages/CourseCatalog.tsx:30 | The year options are "ALL" and the printed form of every non-zero year of an available class. |
| CourseCatalog.YearOptionsNoDup | src/pages/CourseCatalog.tsx:30 | No year option repeats. |
| CourseCatalog.YearOptionsAllLast | src/pages/CourseCatalog.tsx:30 | "ALL" is the last year option. |
| CourseCatalog.RegisterDisabled | src/pages/CourseCatalog.tsx:138 | Disabled exactly when a registered class has the same course code. |
| App.WithClass | src/App.tsx:525 | Appends exactly one entry at the end: the class with empty assignments. Earlier entries are unchanged. |
| App.WithoutCode | src/App.tsx:541 | Removes every entry with the code and keeps every copy of the others, in order. Afterwards no entry has the code. |
| App.GradesWith | src/App.tsx:526-529 | Sets the code's record to all "N/A". Every other key is unchanged. |
| App.GradesWithout | src/App.tsx:543-547 | Deletes the code's record. Every other key is unchanged. |
| App.FirstIndex | src/App.tsx:536 | The position of the first registration with the code, or none exactly when there is none. |
| App.FindByCode | src/App.tsx:536-537 | The first registered class with the code, or none exactly when none is registered. |
| App.RegisterKeepsCodesUnique | src/App.tsx:520-525 | Registering a code that is not yet registered keeps course codes unique. |
| App.UnregisterKeepsCodesUnique | src/App.tsx:541 | Unregistering keeps course codes unique. |
| App.WithoutAbsentCode | src/App.tsx:536-541 | Removing a code that is not registered changes nothing. |
| App.RegisterThenUnregister | src/App.tsx:525-547 | Registering a fresh code and then unregistering it restores both the list and the grades. |
| App.Portal.constructor | src/App.tsx:33-52 | Starts with nothing registered, no grades, the modal closed and no notification. |
| App.Portal.ShowConfirmation | src/App.tsx:56-60 | Stores the message and the action and opens the modal. Nothing else changes. |
| App.Portal.ShowTransientNotification | src/App.tsx:63-74 | Shows the message. Nothing else changes. |
| App.Portal.HandleRegister | src/App.tsx:519-532 | A registered code only gets a notice. Otherwise the register action waits in the open modal. Classes and grades are unchanged either way. |
| App.Portal.HandleUnregister | src/App.tsx:535-550 | An unregistered code changes nothing. Otherwise the unregister action, named after the first match, waits in the open modal. |
| App.Portal.Perform | src/App.tsx:524-531 | The stored callbacks: apply `WithClass`/`GradesWith`, or `WithoutCode`/`GradesWithout`, and notify. |
| App.Portal.HandleConfirmAction | src/App.tsx:77-82 | Closes the modal and runs the stored action once, leaving it stored. It states the new classes, grades and notification: "Successfully registered for X!" or "Successfully unregistered from X.", shown. Confirming an open modal keeps codes unique. |
| App.Portal.HandleCancelAction | src/App.tsx:85-88 | Closes the modal and clears the action. Nothing else changes. |
| Api.ActiveFlag | src/services/api.ts:43 | `active \|\| isActive \|\| true` is always true. |
| Api.TransformCourse | src/services/api.ts:28-45 | Copies code, name, instructor, credits, level, prerequisites and the three department fields. Sets year 2025, semester "Fall" and active. |
| Api.TransformRoundTrip | src/services/api.ts:28-45 | Every database field except the activity flags can be read back from the result. |
| Api.FlagsIgnored | src/services/api.ts:43 | The activity flags never change the result. |
| Api.GetCourses | src/services/api.ts:78-92 | A success with data maps element by element, keeping the length. Any other reply passes through unchanged. |
| Api.FetchedCoursesShownInitially | src/services/api.ts:40-41 | Every course the API delivers passes the catalog's initial selectors. |
| Sorting.SortInPlace | src/pages/MyGrades.tsx:87 | The in-place insertion sort leaves the array equal to `SortBy` of its old contents. |
| Sorting.InsertInPlace | src/pages/MyGrades.tsx:87 | One step: the prefix becomes the old prefix with the element inserted after its equals; the rest is unchanged. |
| Sorting.SortBySorted | src/pages/MyGrades.tsx:47-56 | `SortBy` with a total-preorder comparator gives an ordered list. |
| Sorting.SortByPermutes | src/pages/MyGrades.tsx:47-56 | `SortBy` is a permutation. |
| Sorting.SortByStable | src/pages/MyGrades.tsx:87 | Elements the comparator considers equal keep their input order. |
| Types.LookupGrades | src/pages/MyGrades.tsx:13 | `grades[code]` is defined exactly when the code has a record, and it is that record. |
| Types.HasCourse | src/App.tsx:520 | `.some(c => c.courseCode === code)` holds exactly when some class has the code. |
| Seqs.FilterCounts | src/pages/CourseCatalog.tsx:19 | `filter` keeps every copy of an element that passes and no copy of one that fails. |
| Seqs.FilterPartition | src/pages/Dashboard.tsx:13-16 | Filtering by a predicate and by its negation splits the list. |
| Seqs.MeanBounds | src/utils/gradeUtils.ts:11-13 | A mean lies between the minimum and the maximum. |
| Seqs.Dedup | src/pages/CourseCatalog.tsx:29-32 | `new Set` as a list: no duplicates, and the same values. |
| Strings.ToLower | src/pages/CourseCatalog.tsx:25 | `toLowerCase` keeps the length and lower-cases each character on its own. |
| Strings.ParseInt | src/pages/CourseCatalog.tsx:23 | `parseInt`: the empty string and a string starting with anything but a digit or sign give `NaN` (so "ALL" does). A leading digit gives a non-negative number, and a leading `-` a non-positive one. |
| Strings.IncludesOccurs | src/pages/CourseCatalog.tsx:25 | `includes` holds exactly when the needle occurs at some position. |
| Strings.ParseIntOfIntToString | src/pages/CourseCatalog.tsx:23 | `parseInt` of a printed integer gives the integer back. |

## Left out

- `toFixed(2)` and `parseFloat` rounding is left out. The 2-decimal display
  rounding in `src/utils/gradeUtils.ts:13`, `src/pages/MyGrades.tsx:23` and
  `src/pages/Dashboard.tsx:51` is float formatting. These members state
  exact means over reals:
  - GradeUtils.OverallCourseGrade: the mean before rounding;
  - MyGrades.AverageOverallGrade: the mean, not the 2-decimal string;
  - Dashboard.YearlyGradesData: the mean, not the rounded number.
- Floating point in general: grades are exact reals.
- `localeCompare` is locale-dependent. It is modelled as code-point
  lexicographic order.
- The default `sort()` compares UTF-16 code units, not code points. The model
  uses code-point order (`Strings.LexLe`) for it. The two differ only when a
  character above U+FFFF is compared with one in U+E000-U+FFFF.
- `toLowerCase` maps only ASCII letters. Unicode case mapping is not modelled.
- `parseInt` is modelled as an optional sign followed by a digit run. Leading
  whitespace and hexadecimal prefixes are not modelled.
- Records follow their declared types:
  - no null entries in the class lists;
  - `year` is always defined, so the `cls.year !== undefined` test always
    passes;
  - the optional `ClassData` fields other than `assignments` are dropped.
- The bucket key is the pair (year, semester), not the string
  `"${year}-${semester}"` that is split again. Semester names containing `-`
  and negative years are not modelled: for year -5 the key `"-5-Fall"`
  splits into `""`, `"5"` and `"Fall"`, so the parsed year is `NaN`.
- `Object.keys` lists integer-like keys in numeric order. This is not
  modelled, because the keys are sorted afterwards.
- The notification timer (`setTimeout`/`clearTimeout`) is not modelled, so the
  notification is never hidden again.
- React state batching is not modelled. The handlers run one after another on
  the current state, and the callbacks are modelled as the `PendingAction`
  datatype.
- The fetch effect and its fallback data are left out, and so are `makeRequest`
  and the other HTTP requests. `Api.GetCourses` takes the reply of the request
  as a parameter. Its precondition states the reply shapes `makeRequest`
  builds: a failure carries no data.
- Rendering is not modelled: JSX, the chart, and the pages and components
  without logic.
- Api.TransformCourse: the result has no `assignments` field. In the model
  that is `None`.

## Findings

None.
