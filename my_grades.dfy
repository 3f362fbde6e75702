/** The "My Grades" page: the registered classes that have a numeric overall
    grade, their average, and their grouping into (year, semester) buckets shown
    most recent first, each bucket listed by course name. */
module MyGrades {
  import opened Seqs
  import opened Sorting
  import opened Strings
  import opened Types
  import opened GradeUtils

  /** The overall grade of a registered class; grades are looked up by course
      code alone. */
  function ClassOverall(c: ClassData, grades: Grades): (r: Overall)
    ensures r.Numeric? <==> c.courseCode in grades && HasNumeric(grades[c.courseCode])
    ensures r.Numeric? ==>
      var vals := NumericValues(SubGrades(grades[c.courseCode]));
      |vals| > 0 && r.value == Mean(vals)
  {
    OverallCourseGrade(LookupGrades(grades, c.courseCode))
  }

  function HasGrade(grades: Grades): ClassData -> bool
  {
    c => ClassOverall(c, grades).Numeric?
  }

  /** `classesWithGrades`: the registered classes with a numeric overall grade,
      in registration order. */
  function GradedClasses(registered: seq<ClassData>, grades: Grades): (r: seq<ClassData>)
    ensures forall c :: c in r <==> c in registered && ClassOverall(c, grades).Numeric?
    ensures forall c :: multiset(r)[c] == if ClassOverall(c, grades).Numeric? then multiset(registered)[c] else 0
    ensures IsSubsequence(r, registered)
  {
    FilterIsSubsequence(registered, HasGrade(grades));
    FilterCounts(registered, HasGrade(grades));
    Filter(registered, HasGrade(grades))
  }

  /** Two registrations with the same code always get the same overall grade. */
  lemma {:induction false} SameCodeSameGrade(a: ClassData, b: ClassData, grades: Grades)
    requires a.courseCode == b.courseCode
    ensures ClassOverall(a, grades) == ClassOverall(b, grades)
  {
  }

  /** A graded class together with its overall grade (`{...cls, overallGrade}`). */
  datatype GradedClass = GradedClass(cls: ClassData, overallGrade: real)

  /** `overallGrade as number`: the value of a numeric overall grade. */
  function NumberValue(o: Overall): real
  {
    if o.Numeric? then o.value else 0.0
  }

  /** The overall grade of a class, as a number. */
  function OverallValue(grades: Grades): ClassData -> real
  {
    (c: ClassData) => NumberValue(ClassOverall(c, grades))
  }

  /** `{ ...cls, overallGrade }`. */
  function EntryOf(grades: Grades): ClassData -> GradedClass
  {
    (c: ClassData) => GradedClass(c, NumberValue(ClassOverall(c, grades)))
  }

  /** The classes of `classes` that have a numeric overall grade, paired with
      it: one entry per graded class, in order, and nothing else. */
  function Entries(classes: seq<ClassData>, grades: Grades): (r: seq<GradedClass>)
    ensures r == MapSeq(GradedClasses(classes, grades), EntryOf(grades))
    ensures |r| <= |classes|
    ensures forall e :: e in r ==> e.cls in classes && ClassOverall(e.cls, grades) == Numeric(e.overallGrade)
  {
    if classes == [] then []
    else
      var init := Entries(classes[..|classes| - 1], grades);
      var c := classes[|classes| - 1];
      assert forall x :: x in classes[..|classes| - 1] ==> x in classes;
      EntriesStep(classes, grades);
      match ClassOverall(c, grades)
      case Numeric(v) => init + [GradedClass(c, v)]
      case NotAvailable => init
  }

  /** The graded classes of a list are those of its prefix, then its last
      element if that is graded. */
  lemma {:induction false} EntriesStep(classes: seq<ClassData>, grades: Grades)
    requires classes != []
    ensures var init := classes[..|classes| - 1]; var c := classes[|classes| - 1];
      MapSeq(GradedClasses(classes, grades), EntryOf(grades)) ==
      MapSeq(GradedClasses(init, grades), EntryOf(grades)) +
      (if ClassOverall(c, grades).Numeric? then [GradedClass(c, ClassOverall(c, grades).value)] else [])
  {
    var init := classes[..|classes| - 1];
    var c := classes[|classes| - 1];
    assert classes == init + [c];
    FilterAppend(init, [c], HasGrade(grades));
    MapSeqAppend(Filter(init, HasGrade(grades)), Filter([c], HasGrade(grades)), EntryOf(grades));
  }

  lemma {:induction false} EntriesOfGraded(classes: seq<ClassData>, grades: Grades)
    requires forall c :: c in classes ==> ClassOverall(c, grades).Numeric?
    ensures |Entries(classes, grades)| == |classes|
  {
    if classes != [] {
      var init := classes[..|classes| - 1];
      assert forall c :: c in init ==> c in classes;
      assert classes[|classes| - 1] in classes;
      EntriesOfGraded(init, grades);
    }
  }

  /** The overall grades of `entries`, in order. */
  function GradeValues(entries: seq<GradedClass>): (r: seq<real>)
    ensures |r| == |entries| && forall k :: 0 <= k < |entries| ==> r[k] == entries[k].overallGrade
  {
    if entries == [] then [] else [entries[0].overallGrade] + GradeValues(entries[1..])
  }

  lemma {:induction false} GradeValuesAppend(a: seq<GradedClass>, b: seq<GradedClass>)
    ensures GradeValues(a + b) == GradeValues(a) + GradeValues(b)
  {
    if a != [] {
      assert (a + b)[1..] == a[1..] + b;
      GradeValuesAppend(a[1..], b);
    } else {
      assert a + b == b;
    }
  }

  /** `averageOverallGrade`: the mean of the graded classes' overall grades, or
      "N/A" when no class is graded. */
  function AverageOverallGrade(registered: seq<ClassData>, grades: Grades): (r: Overall)
    ensures r.NotAvailable? <==> |GradedClasses(registered, grades)| == 0
    ensures r.Numeric? ==>
      var values := MapSeq(GradedClasses(registered, grades), OverallValue(grades));
      |values| > 0 && r.value == Mean(values)
  {
    var graded := GradedClasses(registered, grades);
    var values := GradeValues(Entries(graded, grades));
    GradedValues(registered, grades);
    if |graded| > 0 then Numeric(Mean(values)) else NotAvailable
  }

  /** The values summed for the average are the overall grades of the graded
      classes, one per class, in order. */
  lemma {:induction false} GradedValues(registered: seq<ClassData>, grades: Grades)
    ensures var graded := GradedClasses(registered, grades);
      GradeValues(Entries(graded, grades)) == MapSeq(graded, OverallValue(grades))
  {
    var graded := GradedClasses(registered, grades);
    FilterAll(graded, HasGrade(grades));
    assert GradedClasses(graded, grades) == graded;
  }

  /** The average lies between the lowest and the highest course grade. */
  lemma {:induction false} AverageWithinCourseGrades(registered: seq<ClassData>, grades: Grades)
    requires |GradedClasses(registered, grades)| > 0
    ensures var values := MapSeq(GradedClasses(registered, grades), OverallValue(grades));
      AverageOverallGrade(registered, grades) == Numeric(Mean(values)) &&
      Min(values) <= Mean(values) <= Max(values)
  {
    MeanBounds(MapSeq(GradedClasses(registered, grades), OverallValue(grades)));
  }

  /** The bucket key: a (year, semester) pair. */
  datatype Term = Term(year: int, semester: string)

  function TermOf(e: GradedClass): Term
  {
    Term(e.cls.year, e.cls.semester)
  }

  function InTerm(t: Term): GradedClass -> bool
  {
    e => TermOf(e) == t
  }

  /** The bucket of term `t`: its entries in insertion order. */
  function Bucket(entries: seq<GradedClass>, t: Term): seq<GradedClass>
  {
    Filter(entries, InTerm(t))
  }

  /** The terms of `entries`, in order, repeats included. */
  function Terms(entries: seq<GradedClass>): (r: seq<Term>)
    ensures |r| == |entries| && forall k :: 0 <= k < |entries| ==> r[k] == TermOf(entries[k])
  {
    if entries == [] then [] else Terms(entries[..|entries| - 1]) + [TermOf(entries[|entries| - 1])]
  }

  /** `keys` and `groups` are the grouping of `entries`: one key per distinct
      term in order of first appearance, and under each key its bucket. */
  ghost predicate Grouped(entries: seq<GradedClass>, keys: seq<Term>, groups: map<Term, seq<GradedClass>>)
  {
    && keys == Dedup(Terms(entries))
    && (forall t :: t in groups <==> t in keys)
    && (forall t :: t in groups ==> groups[t] == Bucket(entries, t))
  }

  lemma {:induction false} TermsAppend(entries: seq<GradedClass>, e: GradedClass)
    ensures Terms(entries + [e]) == Terms(entries) + [TermOf(e)]
  {
    assert (entries + [e])[..|entries|] == entries;
  }

  lemma {:induction false} BucketAppend(entries: seq<GradedClass>, e: GradedClass, u: Term)
    ensures Bucket(entries + [e], u) == Bucket(entries, u) + (if TermOf(e) == u then [e] else [])
  {
    FilterAppend(entries, [e], InTerm(u));
  }

  /** A term no entry has has an empty bucket. */
  lemma {:induction false} BucketOfAbsentTerm(entries: seq<GradedClass>, t: Term)
    requires t !in Dedup(Terms(entries))
    ensures Bucket(entries, t) == []
  {
    forall i | 0 <= i < |entries| ensures !InTerm(t)(entries[i]) {
      assert Terms(entries)[i] in Dedup(Terms(entries));
    }
    FilterNone(entries, InTerm(t));
  }

  /** Pushing `e` leaves every other bucket as it is. */
  lemma {:induction false} BucketStepOther(entries: seq<GradedClass>, e: GradedClass,
                                           keys: seq<Term>, groups: map<Term, seq<GradedClass>>, u: Term)
    requires Grouped(entries, keys, groups)
    requires u in groups && u != TermOf(e)
    ensures groups[u] == Bucket(entries + [e], u)
  {
    BucketAppend(entries, e, u);
  }

  /** Pushing `e` extends the existing bucket of its term. */
  lemma {:induction false} BucketStepExisting(entries: seq<GradedClass>, e: GradedClass,
                                              keys: seq<Term>, groups: map<Term, seq<GradedClass>>)
    requires Grouped(entries, keys, groups)
    requires TermOf(e) in groups
    ensures groups[TermOf(e)] + [e] == Bucket(entries + [e], TermOf(e))
  {
    BucketAppend(entries, e, TermOf(e));
  }

  /** The first entry of a term starts its bucket. */
  lemma {:induction false} BucketStepNew(entries: seq<GradedClass>, e: GradedClass,
                                         keys: seq<Term>, groups: map<Term, seq<GradedClass>>)
    requires Grouped(entries, keys, groups)
    requires TermOf(e) !in groups
    ensures [e] == Bucket(entries + [e], TermOf(e))
  {
    BucketAppend(entries, e, TermOf(e));
    BucketOfAbsentTerm(entries, TermOf(e));
  }

  /** A new term is appended to the keys exactly when it gets its bucket. */
  lemma {:induction false} GroupStepKeys(entries: seq<GradedClass>, e: GradedClass,
                                         keys: seq<Term>, groups: map<Term, seq<GradedClass>>)
    requires Grouped(entries, keys, groups)
    ensures var t := TermOf(e);
      var keys' := if t in groups then keys else keys + [t];
      && keys' == Dedup(Terms(entries + [e]))
      && forall u :: u in groups[t := []] <==> u in keys'
  {
    TermsAppend(entries, e);
    DedupSnoc(Terms(entries), TermOf(e));
  }

  /** Pushing one more entry onto the bucket of its term keeps the grouping. */
  lemma {:induction false} GroupStep(entries: seq<GradedClass>, e: GradedClass,
                                     keys: seq<Term>, groups: map<Term, seq<GradedClass>>)
    requires Grouped(entries, keys, groups)
    ensures var t := TermOf(e);
      Grouped(entries + [e],
              if t in groups then keys else keys + [t],
              groups[t := (if t in groups then groups[t] else []) + [e]])
  {
    GroupStepKeys(entries, e, keys, groups);
    GroupStepBuckets(entries, e, keys, groups);
  }

  lemma {:induction false} GroupStepBuckets(entries: seq<GradedClass>, e: GradedClass,
                                            keys: seq<Term>, groups: map<Term, seq<GradedClass>>)
    requires Grouped(entries, keys, groups)
    ensures var t := TermOf(e);
      var groups' := groups[t := (if t in groups then groups[t] else []) + [e]];
      forall u :: u in groups' ==> groups'[u] == Bucket(entries + [e], u)
  {
    var t := TermOf(e);
    var groups' := groups[t := (if t in groups then groups[t] else []) + [e]];
    forall u | u in groups' ensures groups'[u] == Bucket(entries + [e], u) {
      if u != t {
        BucketStepOther(entries, e, keys, groups, u);
      } else if t in groups {
        BucketStepExisting(entries, e, keys, groups);
      } else {
        BucketStepNew(entries, e, keys, groups);
      }
    }
  }

  /** The grouping loop: one bucket per distinct term, created on the term's first
      class (so `keys` lists the terms in order of first appearance), each class
      pushed onto the bucket of its own term. */
  method GroupBySemester(classesWithGrades: seq<ClassData>, grades: Grades)
    returns (keys: seq<Term>, groups: map<Term, seq<GradedClass>>)
    ensures keys == Dedup(Terms(Entries(classesWithGrades, grades)))
    ensures forall t :: t in groups <==> t in keys
    ensures forall t :: t in groups ==> groups[t] == Bucket(Entries(classesWithGrades, grades), t)
  {
    keys, groups := [], map[];
    ghost var done: seq<GradedClass> := [];
    for i := 0 to |classesWithGrades|
      invariant done == Entries(classesWithGrades[..i], grades)
      invariant Grouped(done, keys, groups)
    {
      var cls := classesWithGrades[i];
      assert classesWithGrades[..i + 1][..i] == classesWithGrades[..i];
      var overallGrade := ClassOverall(cls, grades);
      if overallGrade.Numeric? {
        var entry := GradedClass(cls, overallGrade.value);
        GroupStep(done, entry, keys, groups);
        keys, groups := AddToTerm(keys, groups, entry);
        done := done + [entry];
      }
    }
    assert classesWithGrades[..|classesWithGrades|] == classesWithGrades;
  }

  /** The loop body of `groupBySemester`: opens the bucket of the entry's term
      if needed, then appends the entry to it. */
  method AddToTerm(keys: seq<Term>, groups: map<Term, seq<GradedClass>>, entry: GradedClass)
    returns (keys': seq<Term>, groups': map<Term, seq<GradedClass>>)
    ensures var t := TermOf(entry);
      keys' == (if t in groups then keys else keys + [t]) &&
      groups' == groups[t := (if t in groups then groups[t] else []) + [entry]]
  {
    var semesterKey := TermOf(entry);
    keys', groups' := keys, groups;
    if semesterKey !in groups' {
      keys' := keys' + [semesterKey];
      groups' := groups'[semesterKey := []];
    }
    groups' := groups'[semesterKey := groups'[semesterKey] + [entry]];
  }

  /** The key comparator: later years first; within a year the semester names
      compare in reverse, so "Spring" comes before "Fall". */
  predicate TermLe(a: Term, b: Term)
  {
    a.year > b.year || (a.year == b.year && LexLe(b.semester, a.semester))
  }

  lemma TermLeIsTotalPreorder()
    ensures TotalPreorder(TermLe)
  {
    forall a, b ensures TermLe(a, b) || TermLe(b, a) {
      LexLeTotal(a.semester, b.semester);
    }
    forall a, b, c | TermLe(a, b) && TermLe(b, c) ensures TermLe(a, c) {
      if a.year == b.year == c.year {
        LexLeTransitive(c.semester, b.semester, a.semester);
      }
    }
  }

  /** `sortedSemesterKeys`: years descending, and within a year semester names
      descending, so "Spring" precedes "Fall". */
  lemma {:induction false} SortedKeysOrder(keys: seq<Term>, y: int)
    requires NoDup(keys)
    ensures var r := SortBy(keys, TermLe);
      NoDup(r) &&
      (forall i, j :: 0 <= i < j < |r| ==> r[i].year >= r[j].year) &&
      (forall i, j :: 0 <= i < j < |r| && r[i].year == r[j].year ==> LexLe(r[j].semester, r[i].semester)) &&
      (forall i, j :: 0 <= i < |r| && 0 <= j < |r| && r[i] == Term(y, "Spring") && r[j] == Term(y, "Fall") ==> i < j)
  {
    var r := SortBy(keys, TermLe);
    TermLeIsTotalPreorder();
    SortBySorted(keys, TermLe);
    SortByPermutes(keys, TermLe);
    NoDupPermutation(keys, r);
    assert !TermLe(Term(y, "Fall"), Term(y, "Spring"));
  }

  /** Every graded class lands in exactly one bucket: the bucket sizes add up to
      the number of graded classes. */
  function BucketSizes(entries: seq<GradedClass>, keys: seq<Term>): nat
  {
    if keys == [] then 0 else |Bucket(entries, keys[0])| + BucketSizes(entries, keys[1..])
  }

  function OutsideTerm(t: Term): GradedClass -> bool
  {
    e => TermOf(e) != t
  }

  lemma {:induction false} BucketSizesOfRest(entries: seq<GradedClass>, keys: seq<Term>, t: Term)
    requires t !in keys
    ensures BucketSizes(entries, keys) == BucketSizes(Filter(entries, OutsideTerm(t)), keys)
  {
    if keys != [] {
      FilterFilter(entries, OutsideTerm(t), InTerm(keys[0]));
      BucketSizesOfRest(entries, keys[1..], t);
    }
  }

  lemma {:induction false} BucketSizesSum(entries: seq<GradedClass>, keys: seq<Term>)
    requires NoDup(keys)
    requires forall e :: e in entries ==> TermOf(e) in keys
    ensures BucketSizes(entries, keys) == |entries|
    decreases |keys|
  {
    if keys == [] {
      assert forall k :: 0 <= k < |entries| ==> entries[k] in entries;
    } else {
      var t := keys[0];
      var rest := Filter(entries, OutsideTerm(t));
      FilterPartition(entries, InTerm(t), OutsideTerm(t));
      assert t !in keys[1..];
      BucketSizesOfRest(entries, keys[1..], t);
      forall e | e in rest ensures TermOf(e) in keys[1..] {
        assert TermOf(e) in keys && TermOf(e) != keys[0];
      }
      BucketSizesSum(rest, keys[1..]);
    }
  }

  /** The grouping conserves the graded classes: one bucket per distinct term,
      the bucket sizes summing to the number of graded classes. */
  lemma {:induction false} GroupingConserves(classesWithGrades: seq<ClassData>, grades: Grades)
    requires forall c :: c in classesWithGrades ==> ClassOverall(c, grades).Numeric?
    ensures var entries := Entries(classesWithGrades, grades);
      BucketSizes(entries, Dedup(Terms(entries))) == |classesWithGrades|
  {
    var entries := Entries(classesWithGrades, grades);
    EntriesOfGraded(classesWithGrades, grades);
    forall e | e in entries ensures TermOf(e) in Dedup(Terms(entries)) {
      var k :| 0 <= k < |entries| && entries[k] == e;
      assert Terms(entries)[k] == TermOf(e);
    }
    BucketSizesSum(entries, Dedup(Terms(entries)));
  }

  /** The in-bucket display order: by course name. */
  predicate NameLe(a: GradedClass, b: GradedClass)
  {
    LexLe(a.cls.courseName, b.cls.courseName)
  }

  datatype SemesterSection = SemesterSection(term: Term, classes: seq<GradedClass>)

  /** `classes.sort(...)` on one bucket, by course name, in place. */
  method SortBucket(bucket: seq<GradedClass>) returns (sorted: seq<GradedClass>)
    ensures sorted == SortBy(bucket, NameLe)
  {
    var a := new GradedClass[|bucket|](i requires 0 <= i < |bucket| => bucket[i]);
    assert a[..] == bucket;
    SortInPlace(a, NameLe);
    sorted := a[..];
  }

  /** What the page shows below the average: one section per term, most recent
      term first, each bucket sorted by course name. */
  method SemesterSections(classesWithGrades: seq<ClassData>, grades: Grades)
    returns (sections: seq<SemesterSection>)
    ensures var entries := Entries(classesWithGrades, grades);
      var order := SortBy(Dedup(Terms(entries)), TermLe);
      |sections| == |order| &&
      forall k :: 0 <= k < |sections| ==>
        sections[k].term == order[k] &&
        sections[k].classes == SortBy(Bucket(entries, order[k]), NameLe)
  {
    var keys, groups := GroupBySemester(classesWithGrades, grades);
    var sortedSemesterKeys := SortBy(keys, TermLe);
    SortByMembers(keys, TermLe);
    sections := BuildSections(sortedSemesterKeys, groups);
  }

  /** The rendering loop: one section per key, in key order, each holding its
      bucket sorted by course name. */
  method BuildSections(sortedKeys: seq<Term>, groups: map<Term, seq<GradedClass>>)
    returns (sections: seq<SemesterSection>)
    requires forall m :: 0 <= m < |sortedKeys| ==> sortedKeys[m] in groups
    ensures |sections| == |sortedKeys|
    ensures forall m :: 0 <= m < |sections| ==>
      sections[m] == SemesterSection(sortedKeys[m], SortBy(groups[sortedKeys[m]], NameLe))
  {
    sections := [];
    for k := 0 to |sortedKeys|
      invariant |sections| == k
      invariant forall m :: 0 <= m < k ==>
        sections[m] == SemesterSection(sortedKeys[m], SortBy(groups[sortedKeys[m]], NameLe))
    {
      var semesterKey := sortedKeys[k];
      var bucket := SortBucket(groups[semesterKey]);
      sections := sections + [SemesterSection(semesterKey, bucket)];
    }
  }

  /** A graded class is listed under its own term, and only there. */
  lemma {:induction false} ClassInItsOwnBucket(entries: seq<GradedClass>, e: GradedClass, t: Term)
    requires e in entries
    ensures e in Bucket(entries, t) <==> TermOf(e) == t
  {
  }
}
