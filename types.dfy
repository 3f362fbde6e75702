/** The records the portal passes between its components. */
module Types {
  import opened Seqs

  datatype Department = Department(departmentCode: string, departmentName: string, headOfDepartment: string)

  /** One sub-grade field, typed `number | string`: any string (usually "N/A")
      is a grade that is not available yet. */
  datatype SubGrade = Num(value: real) | Str(text: string)

  datatype GradeData = GradeData(midterm: SubGrade, project: SubGrade, final: SubGrade, quizzes: SubGrade)

  /** The `grades` dictionary, keyed by course code. */
  type Grades = map<string, GradeData>

  /** A course offering as the views see it. `assignments` is the one optional
      field the portal itself sets. */
  datatype ClassData = ClassData(
    courseCode: string,
    courseName: string,
    instructor: string,
    credits: int,
    majorDepartment: Department,
    availableForSemester: string,
    year: int,
    semester: string,
    prerequisites: string,
    active: bool,
    assignments: Option<seq<GradeData>>)

  /** `grades[code]`, which is `undefined` for a code without a record. */
  function LookupGrades(grades: Grades, code: string): (r: Option<GradeData>)
    ensures r.Some? <==> code in grades
    ensures r.Some? ==> r.value == grades[code]
  {
    if code in grades then Some(grades[code]) else None
  }

  /** `classes.some(c => c.courseCode === code)`. */
  function HasCourse(classes: seq<ClassData>, code: string): (b: bool)
    ensures b <==> exists i :: 0 <= i < |classes| && classes[i].courseCode == code
  {
    if classes == [] then false
    else classes[0].courseCode == code || HasCourse(classes[1..], code)
  }
}
