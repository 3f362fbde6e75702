/** The course mapper of the API layer: database course records become the
    class records the views use, and a successful course response is mapped
    element by element. */
module Api {
  import opened Seqs
  import opened Types
  import CourseCatalog

  /** The reply of a request: `data` and `error` are nullable. */
  datatype ApiResponse<T> = ApiResponse(data: Option<T>, error: Option<string>, success: bool)

  /** A course as the database stores it; both activity flags are optional. */
  datatype DatabaseCourse = DatabaseCourse(
    courseCode: string,
    courseName: string,
    credits: int,
    prerequisites: string,
    isActive: Option<bool>,
    active: Option<bool>,
    majorDepartment: Department,
    availableForSemester: string,
    instructor: string)

  /** Every course from the database is shown as a Fall 2025 offering. */
  const DefaultYear := 2025
  const DefaultSemester := "Fall"

  /** JavaScript truthiness of an optional boolean. */
  predicate Truthy(b: Option<bool>)
  {
    b == Some(true)
  }

  /** `dbCourse.active || dbCourse.isActive || true`: the first truthy operand,
      else the last one. */
  function ActiveFlag(db: DatabaseCourse): (r: bool)
    ensures r
  {
    if Truthy(db.active) then true
    else if Truthy(db.isActive) then true
    else true
  }

  /** `transformCourseToClassData`. */
  function TransformCourse(db: DatabaseCourse): (c: ClassData)
    ensures c.courseCode == db.courseCode && c.courseName == db.courseName
    ensures c.instructor == db.instructor && c.credits == db.credits
    ensures c.availableForSemester == db.availableForSemester && c.prerequisites == db.prerequisites
    ensures c.majorDepartment == db.majorDepartment
    ensures c.year == DefaultYear && c.semester == DefaultSemester
    ensures c.active
    ensures c.assignments.None?
  {
    ClassData(
      db.courseCode, db.courseName, db.instructor, db.credits,
      Department(db.majorDepartment.departmentCode, db.majorDepartment.departmentName,
                 db.majorDepartment.headOfDepartment),
      db.availableForSemester, DefaultYear, DefaultSemester, db.prerequisites,
      ActiveFlag(db), None)
  }

  /** The database fields can be read back from a transformed course: only the
      two activity flags are lost. */
  function Restore(c: ClassData, isActive: Option<bool>, active: Option<bool>): DatabaseCourse
  {
    DatabaseCourse(c.courseCode, c.courseName, c.credits, c.prerequisites, isActive, active,
                   c.majorDepartment, c.availableForSemester, c.instructor)
  }

  lemma {:induction false} TransformRoundTrip(db: DatabaseCourse)
    ensures Restore(TransformCourse(db), db.isActive, db.active) == db
  {
  }

  /** Two records that differ only in their activity flags transform alike. */
  lemma {:induction false} FlagsIgnored(db: DatabaseCourse, isActive: Option<bool>, active: Option<bool>)
    ensures TransformCourse(db.(isActive := isActive, active := active)) == TransformCourse(db)
  {
  }

  /** The replies the request helper builds: a failure carries no data and an
      error text; a success carries no error. */
  predicate FromRequest<T>(response: ApiResponse<T>)
  {
    (response.success ==> response.error.None?) &&
    (!response.success ==> response.data.None? && response.error.Some?)
  }

  /** `getCourses` after the request: a successful reply with data is mapped
      course by course; any other reply is passed on as it is. */
  function GetCourses(response: ApiResponse<seq<DatabaseCourse>>): (r: ApiResponse<seq<ClassData>>)
    requires FromRequest(response)
    ensures response.success && response.data.Some? ==>
      r.success && r.error.None? && r.data.Some? && |r.data.value| == |response.data.value| &&
      forall i :: 0 <= i < |r.data.value| ==> r.data.value[i] == TransformCourse(response.data.value[i])
    ensures !(response.success && response.data.Some?) ==>
      r == ApiResponse(None, response.error, response.success)
    ensures FromRequest(r)
  {
    if response.success && response.data.Some? then
      ApiResponse(Some(MapSeq(response.data.value, TransformCourse)), None, true)
    else
      ApiResponse(None, response.error, response.success)
  }

  /** Every course the API delivers passes the catalog's initial selectors:
      the first catalog view lists all of them, in order. */
  lemma {:induction false} FetchedCoursesShownInitially(response: ApiResponse<seq<DatabaseCourse>>)
    requires FromRequest(response) && response.success && response.data.Some?
    ensures var courses := GetCourses(response).data.value;
      CourseCatalog.FilteredClasses(courses, CourseCatalog.InitialFilters) == courses
  {
    var courses := GetCourses(response).data.value;
    CourseCatalog.ParseInitialYear();
    forall i | 0 <= i < |courses| ensures CourseCatalog.Keep(CourseCatalog.InitialFilters, courses[i]) {
      CourseCatalog.EmptySearchMatches(courses[i].courseCode);
    }
    FilterAll(courses, CourseCatalog.KeepWith(CourseCatalog.InitialFilters));
  }
}
