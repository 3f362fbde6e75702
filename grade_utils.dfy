/** Grade arithmetic: the overall grade of a course from its four sub-grades,
    the display tier of a grade, and the numeric value of a `BAn` level. */
module GradeUtils {
  import opened Seqs
  import opened Strings
  import opened Types

  /** An overall grade: a number, or the string "N/A". */
  datatype Overall = Numeric(value: real) | NotAvailable

  function SubGrades(g: GradeData): seq<SubGrade>
  {
    [g.midterm, g.project, g.final, g.quizzes]
  }

  /** The numeric fields, in field order. */
  function NumericValues(subs: seq<SubGrade>): (r: seq<real>)
    ensures |r| <= |subs|
    ensures forall v :: v in r <==> Num(v) in subs
  {
    if subs == [] then []
    else
      assert forall x :: x in subs <==> x == subs[0] || x in subs[1..] by {
        assert subs == [subs[0]] + subs[1..];
      }
      match subs[0]
      case Num(v) => [v] + NumericValues(subs[1..])
      case Str(_) => NumericValues(subs[1..])
  }

  predicate HasNumeric(g: GradeData)
  {
    g.midterm.Num? || g.project.Num? || g.final.Num? || g.quizzes.Num?
  }

  /** `calculateOverallCourseGrade`: the mean of the numeric sub-grades; "N/A"
      without a record or without a numeric sub-grade. */
  function OverallCourseGrade(record: Option<GradeData>): (r: Overall)
    ensures record.None? ==> r == NotAvailable
    ensures r.NotAvailable? <==> record.None? || !HasNumeric(record.value)
    ensures r.Numeric? ==>
      var vals := NumericValues(SubGrades(record.value));
      |vals| > 0 && r.value == Mean(vals)
  {
    if record.None? then NotAvailable
    else
      var vals := NumericValues(SubGrades(record.value));
      assert |vals| == 0 <==> !HasNumeric(record.value) by {
        var g := record.value;
        if HasNumeric(g) {
          var sg := if g.midterm.Num? then g.midterm else if g.project.Num? then g.project
                    else if g.final.Num? then g.final else g.quizzes;
          assert sg in SubGrades(g);
          assert sg.value in vals;
        }
        if |vals| > 0 {
          assert vals[0] in vals;
          assert Num(vals[0]) in SubGrades(g);
        }
      }
      if |vals| == 0 then NotAvailable
      else Numeric(Mean(vals))
  }

  /** A numeric overall grade lies between the smallest and the largest numeric
      sub-grade. */
  lemma {:induction false} OverallWithinSubGrades(g: GradeData)
    requires HasNumeric(g)
    ensures var vals := NumericValues(SubGrades(g));
      |vals| > 0 &&
      OverallCourseGrade(Some(g)) == Numeric(Mean(vals)) &&
      Min(vals) <= Mean(vals) <= Max(vals)
  {
    var vals := NumericValues(SubGrades(g));
    MeanBounds(vals);
  }

  /** On the 1-6 scale the overall grade stays on the 1-6 scale. */
  lemma {:induction false} OverallOnScale(g: GradeData)
    requires HasNumeric(g)
    requires forall sg :: sg in SubGrades(g) && sg.Num? ==> 1.0 <= sg.value <= 6.0
    ensures var r := OverallCourseGrade(Some(g)); r.Numeric? && 1.0 <= r.value <= 6.0
  {
    var vals := NumericValues(SubGrades(g));
    OverallWithinSubGrades(g);
    assert Num(Min(vals)) in SubGrades(g) && Num(Max(vals)) in SubGrades(g);
  }

  /** String fields are ignored: two records that agree on which fields are
      numbers, and on those numbers, get the same overall grade, whatever the
      text of their string fields. */
  lemma {:induction false} OverallIgnoresText(g: GradeData, h: GradeData)
    requires forall i :: 0 <= i < 4 ==>
      (SubGrades(g)[i].Num? <==> SubGrades(h)[i].Num?) &&
      (SubGrades(g)[i].Num? ==> SubGrades(g)[i] == SubGrades(h)[i])
    ensures OverallCourseGrade(Some(g)) == OverallCourseGrade(Some(h))
  {
    SameNumericValues(SubGrades(g), SubGrades(h));
  }

  lemma {:induction false} SameNumericValues(a: seq<SubGrade>, b: seq<SubGrade>)
    requires |a| == |b|
    requires forall i :: 0 <= i < |a| ==> (a[i].Num? <==> b[i].Num?) && (a[i].Num? ==> a[i] == b[i])
    ensures NumericValues(a) == NumericValues(b)
  {
    if a != [] {
      SameNumericValues(a[1..], b[1..]);
    }
  }

  /** The hist101 record {4, 5, 4, 4} of the sample data averages 4.25. */
  lemma {:induction false} OverallOfHist101()
    ensures OverallCourseGrade(Some(GradeData(Num(4.0), Num(5.0), Num(4.0), Num(4.0)))) == Numeric(4.25)
  {
    var g := GradeData(Num(4.0), Num(5.0), Num(4.0), Num(4.0));
    var vals := NumericValues(SubGrades(g));
    assert vals == [4.0, 5.0, 4.0, 4.0];
    assert Sum(vals[3..]) == 4.0;
    assert Sum(vals[2..]) == 8.0 by { assert vals[2..][1..] == vals[3..]; }
    assert Sum(vals[1..]) == 13.0 by { assert vals[1..][1..] == vals[2..]; }
  }

  /** The all-"N/A" record of cs301 has no overall grade. */
  lemma {:induction false} OverallOfCs301()
    ensures OverallCourseGrade(Some(GradeData(Str("N/A"), Str("N/A"), Str("N/A"), Str("N/A")))) == NotAvailable
  {
  }

  /** Only the numeric fields count: {5, "N/A", 6, "N/A"} averages 5.5. */
  lemma {:induction false} OverallSkipsText()
    ensures OverallCourseGrade(Some(GradeData(Num(5.0), Str("N/A"), Num(6.0), Str("N/A")))) == Numeric(5.5)
  {
    var g := GradeData(Num(5.0), Str("N/A"), Num(6.0), Str("N/A"));
    var vals := NumericValues(SubGrades(g));
    assert vals == [5.0, 6.0];
    assert Sum(vals[1..]) == 6.0;
  }

  /** Display tiers, from the colour classes of `getGradeColorClass`. */
  datatype Tier = Gray | Red | Orange | Yellow | Blue | Lime | Green

  function Rank(t: Tier): nat
  {
    match t
    case Gray => 0 case Red => 1 case Orange => 2 case Yellow => 3
    case Blue => 4 case Lime => 5 case Green => 6
  }

  /** The inclusive lower bound of a coloured tier. */
  function LowerBound(t: Tier): real
    requires t != Gray
  {
    match t
    case Red => 1.0 case Orange => 1.5 case Yellow => 2.5
    case Blue => 3.5 case Lime => 4.5 case Green => 5.5
  }

  function NextTier(t: Tier): Tier
    requires t != Green
  {
    match t
    case Gray => Red case Red => Orange case Orange => Yellow
    case Yellow => Blue case Blue => Lime case Lime => Green
  }

  /** `getGradeColorClass` as a tier: the first threshold, from the top, that
      the grade reaches. */
  function GradeTier(grade: Overall): (t: Tier)
    ensures t == Gray <==> grade.NotAvailable? || grade.value < 1.0
    ensures t != Gray ==> LowerBound(t) <= grade.value
    ensures t != Gray && t != Green ==> grade.value < LowerBound(NextTier(t))
  {
    if grade.NotAvailable? then Gray
    else if grade.value >= 5.5 then Green
    else if grade.value >= 4.5 then Lime
    else if grade.value >= 3.5 then Blue
    else if grade.value >= 2.5 then Yellow
    else if grade.value >= 1.5 then Orange
    else if grade.value >= 1.0 then Red
    else Gray
  }

  function ColorClass(t: Tier): string
  {
    match t
    case Green => "bg-green-200 text-green-800"
    case Lime => "bg-lime-100 text-lime-700"
    case Blue => "bg-blue-100 text-blue-700"
    case Yellow => "bg-yellow-100 text-yellow-700"
    case Orange => "bg-orange-100 text-orange-700"
    case Red => "bg-red-100 text-red-700"
    case Gray => "bg-gray-100 text-gray-600"
  }

  /** `getGradeColorClass`. */
  function GradeColorClass(grade: Overall): (c: string)
    ensures c == "bg-gray-100 text-gray-600" <==> grade.NotAvailable? || grade.value < 1.0
  {
    ColorClass(GradeTier(grade))
  }

  /** A higher grade never gets a lower tier. */
  lemma {:induction false} GradeTierMonotone(a: real, b: real)
    requires a <= b
    ensures Rank(GradeTier(Numeric(a))) <= Rank(GradeTier(Numeric(b)))
  {
  }

  /** The lower bounds are inclusive; "N/A" and grades below 1 share the gray class. */
  lemma {:induction false} GradeTierBoundaries(v: real)
    requires v < 1.0
    ensures GradeTier(Numeric(5.5)) == Green && GradeTier(Numeric(5.49)) == Lime
    ensures GradeTier(Numeric(4.5)) == Lime && GradeTier(Numeric(1.0)) == Red
    ensures GradeColorClass(Numeric(v)) == GradeColorClass(NotAvailable)
  {
  }

  /** Distinct tiers have distinct colour classes. */
  lemma {:induction false} ColorClassInjective(s: Tier, t: Tier)
    requires s != t
    ensures ColorClass(s) != ColorClass(t)
  {
    ColorClassDecodes(s);
    ColorClassDecodes(t);
  }

  /** Characters 3 and 5 of a colour class name its tier. */
  function TierOfKey(c3: char, c5: char): Tier
  {
    if c3 == 'g' then (if c5 == 'e' then Green else Gray)
    else if c3 == 'l' then Lime
    else if c3 == 'b' then Blue
    else if c3 == 'y' then Yellow
    else if c3 == 'o' then Orange
    else Red
  }

  lemma {:induction false} ColorClassDecodes(t: Tier)
    ensures |ColorClass(t)| > 5 && TierOfKey(ColorClass(t)[3], ColorClass(t)[5]) == t
  {
  }

  /** `BA` followed by a digit starts at position `i`. */
  predicate BAMatchAt(s: string, i: int)
  {
    0 <= i && i + 2 < |s| && s[i] == 'B' && s[i + 1] == 'A' && IsDigit(s[i + 2])
  }

  /** Where the unanchored `/BA(\d+)/` search first matches, at or after `from`. */
  function FirstBAMatch(s: string, from: nat): (r: Option<nat>)
    ensures r.Some? ==> from <= r.value && BAMatchAt(s, r.value)
    ensures r.Some? ==> forall j :: from <= j < r.value ==> !BAMatchAt(s, j)
    ensures r.None? ==> forall j :: from <= j ==> !BAMatchAt(s, j)
    decreases |s| - from
  {
    if from + 2 >= |s| then None
    else if BAMatchAt(s, from) then Some(from)
    else FirstBAMatch(s, from + 1)
  }

  /** `getSemesterLevelValue`: the digits after the first `BA`-digit match, as a
      number; 0 for the empty string or when there is no match. */
  function SemesterLevelValue(level: string): (n: nat)
    ensures level == "" ==> n == 0
    ensures (forall j :: !BAMatchAt(level, j)) ==> n == 0
    ensures forall i :: BAMatchAt(level, i) && (forall j :: 0 <= j < i ==> !BAMatchAt(level, j)) ==>
      n == DecimalValue(DigitRun(level[i + 2..]))
  {
    if level == "" then 0
    else match FirstBAMatch(level, 0)
      case Some(i) => DecimalValue(DigitRun(level[i + 2..]))
      case None => 0
  }

  lemma {:induction false} SemesterLevelExamples()
    ensures SemesterLevelValue("BA3") == 3
    ensures SemesterLevelValue("BA12") == 12
    ensures SemesterLevelValue("MA1") == 0
    ensures SemesterLevelValue("ALL") == 0
    ensures SemesterLevelValue("") == 0
  {
    assert BAMatchAt("BA3", 0);
    assert DigitRun("BA3"[2..]) == "3";
    assert BAMatchAt("BA12", 0);
    assert DigitRun("BA12"[2..]) == "12";
    assert DecimalValue("12") == 12 by {
      assert "12"[..1] == "1";
    }
    assert forall j :: !BAMatchAt("MA1", j);
    assert forall j :: !BAMatchAt("ALL", j);
  }
}
