/** The route table once more, written out: method, path by segments, and pattern of every route in table order. */
module WrittenRoutes {
  import opened Strings
  import opened RouteMatching
  import opened RouteTable

  function WrittenEnrollments(): seq<Route> {
    [ Route("POST", ["enrollments"], "enrollments" + ".create"),
      Route("GET", ["enrollments"], "enrollments" + ".list"),
      Route("GET", ["enrollments", ":id"], "enrollments" + ".findOne"),
      Route("PATCH", ["enrollments", ":id"], "enrollments" + ".update"),
      Route("DELETE", ["enrollments", ":id"], "enrollments" + ".remove") ]
  }

  function WrittenEnrollmentDetails(): seq<Route> {
    [ Route("POST", ["enrollment-details"], "enrollment-details" + ".create"),
      Route("GET", ["enrollment-details"], "enrollment-details" + ".list"),
      Route("GET", ["enrollment-details", ":id"], "enrollment-details" + ".findOne"),
      Route("PATCH", ["enrollment-details", ":id"], "enrollment-details" + ".update"),
      Route("DELETE", ["enrollment-details", ":id"], "enrollment-details" + ".remove") ]
  }

  function WrittenAcademicValidations(): seq<Route> {
    [ Route("GET", ["academic-validations", "prerequisites", "check"], "enrollments.academic.checkPrerequisites"),
      Route("GET", ["academic-validations", "enrollment", "validate"], "enrollments.academic.validateEnrollment") ]
  }

  function WrittenStudents(): seq<Route> {
    [ Route("GET", ["students", "recommended-courses"], "enrollments.students.recommendedCourses") ]
  }

  function WrittenAtomicEnrollment(): seq<Route> {
    [ Route("POST", ["atomic-enrollment", "enroll"], "enrollments.atomic.enroll"),
      Route("POST", ["atomic-enrollment", "enroll", "batch"], "enrollments.atomic.enrollBatch"),
      Route("GET", ["atomic-enrollment", "course-section", ":id", "quota-status"], "enrollments.atomic.quotaStatus"),
      Route("GET", ["atomic-enrollment", "idempotency", "stats"], "enrollments.atomic.idempotencyStats") ]
  }

  function WrittenDatabasePerformance(): seq<Route> {
    [ Route("GET", ["database-performance", "prerequisites"], "enrollments.performance.prerequisites"),
      Route("GET", ["database-performance", "approved-courses"], "enrollments.performance.approvedCourses"),
      Route("GET", ["database-performance", "schedules"], "enrollments.performance.schedules"),
      Route("GET", ["database-performance", "enrollment-count"], "enrollments.performance.enrollmentCount"),
      Route("GET", ["database-performance", "batch-prerequisites"], "enrollments.performance.batchPrerequisites"),
      Route("GET", ["database-performance", "has-passed"], "enrollments.performance.hasPassed"),
      Route("GET", ["database-performance", "student-enrollment-details"], "enrollments.performance.studentEnrollmentDetails") ]
  }

  function WrittenDegreePrograms(): seq<Route> {
    [ Route("POST", ["degree-programs"], "programs.degreePrograms" + ".create"),
      Route("GET", ["degree-programs"], "programs.degreePrograms" + ".list"),
      Route("GET", ["degree-programs", ":id"], "programs.degreePrograms" + ".findOne"),
      Route("PATCH", ["degree-programs", ":id"], "programs.degreePrograms" + ".update"),
      Route("DELETE", ["degree-programs", ":id"], "programs.degreePrograms" + ".remove") ]
  }

  function WrittenStudyPlans(): seq<Route> {
    [ Route("POST", ["study-plans"], "programs.studyPlans" + ".create"),
      Route("GET", ["study-plans"], "programs.studyPlans" + ".list"),
      Route("GET", ["study-plans", ":id"], "programs.studyPlans" + ".findOne"),
      Route("PATCH", ["study-plans", ":id"], "programs.studyPlans" + ".update"),
      Route("DELETE", ["study-plans", ":id"], "programs.studyPlans" + ".remove") ]
  }

  function WrittenLevels(): seq<Route> {
    [ Route("POST", ["levels"], "programs.levels" + ".create"),
      Route("GET", ["levels"], "programs.levels" + ".list"),
      Route("GET", ["levels", ":id"], "programs.levels" + ".findOne"),
      Route("PATCH", ["levels", ":id"], "programs.levels" + ".update"),
      Route("DELETE", ["levels", ":id"], "programs.levels" + ".remove") ]
  }

  function WrittenCourses(): seq<Route> {
    [ Route("POST", ["courses"], "programs.courses" + ".create"),
      Route("GET", ["courses"], "programs.courses" + ".list"),
      Route("GET", ["courses", ":id"], "programs.courses" + ".findOne"),
      Route("PATCH", ["courses", ":id"], "programs.courses" + ".update"),
      Route("DELETE", ["courses", ":id"], "programs.courses" + ".remove") ]
  }

  function WrittenPrerequisites(): seq<Route> {
    [ Route("POST", ["prerequisites"], "programs.prerequisites" + ".create"),
      Route("GET", ["prerequisites"], "programs.prerequisites" + ".list"),
      Route("GET", ["prerequisites", ":id"], "programs.prerequisites" + ".findOne"),
      Route("PATCH", ["prerequisites", ":id"], "programs.prerequisites" + ".update"),
      Route("DELETE", ["prerequisites", ":id"], "programs.prerequisites" + ".remove") ]
  }

  function WrittenAcademicYears(): seq<Route> {
    [ Route("POST", ["academic-years"], "calendar.academicYears" + ".create"),
      Route("GET", ["academic-years"], "calendar.academicYears" + ".list"),
      Route("GET", ["academic-years", ":id"], "calendar.academicYears" + ".findOne"),
      Route("PATCH", ["academic-years", ":id"], "calendar.academicYears" + ".update"),
      Route("DELETE", ["academic-years", ":id"], "calendar.academicYears" + ".remove") ]
  }

  function WrittenTerms(): seq<Route> {
    [ Route("POST", ["terms"], "calendar.terms" + ".create"),
      Route("GET", ["terms"], "calendar.terms" + ".list"),
      Route("GET", ["terms", ":id"], "calendar.terms" + ".findOne"),
      Route("PATCH", ["terms", ":id"], "calendar.terms" + ".update"),
      Route("DELETE", ["terms", ":id"], "calendar.terms" + ".remove") ]
  }

  function WrittenManagements(): seq<Route> {
    [ Route("POST", ["calendar", "managements"], "calendar.academicYears" + ".create"),
      Route("GET", ["calendar", "managements"], "calendar.academicYears" + ".list"),
      Route("GET", ["calendar", "managements", ":id"], "calendar.academicYears" + ".findOne"),
      Route("PATCH", ["calendar", "managements", ":id"], "calendar.academicYears" + ".update"),
      Route("DELETE", ["calendar", "managements", ":id"], "calendar.academicYears" + ".remove") ]
  }

  function WrittenPeriods(): seq<Route> {
    [ Route("POST", ["calendar", "periods"], "calendar.terms" + ".create"),
      Route("GET", ["calendar", "periods"], "calendar.terms" + ".list"),
      Route("GET", ["calendar", "periods", ":id"], "calendar.terms" + ".findOne"),
      Route("PATCH", ["calendar", "periods", ":id"], "calendar.terms" + ".update"),
      Route("DELETE", ["calendar", "periods", ":id"], "calendar.terms" + ".remove") ]
  }

  function WrittenClassrooms(): seq<Route> {
    [ Route("POST", ["classrooms"], "facilities.classrooms" + ".create"),
      Route("GET", ["classrooms"], "facilities.classrooms" + ".list"),
      Route("GET", ["classrooms", ":id"], "facilities.classrooms" + ".findOne"),
      Route("PATCH", ["classrooms", ":id"], "facilities.classrooms" + ".update"),
      Route("DELETE", ["classrooms", ":id"], "facilities.classrooms" + ".remove") ]
  }

  function WrittenCourseSections(): seq<Route> {
    [ Route("POST", ["course-sections"], "teaching.courseSections" + ".create"),
      Route("GET", ["course-sections"], "teaching.courseSections" + ".list"),
      Route("GET", ["course-sections", ":id"], "teaching.courseSections" + ".findOne"),
      Route("PATCH", ["course-sections", ":id"], "teaching.courseSections" + ".update"),
      Route("DELETE", ["course-sections", ":id"], "teaching.courseSections" + ".remove") ]
  }

  function WrittenSchedules(): seq<Route> {
    [ Route("POST", ["schedules"], "teaching.schedules" + ".create"),
      Route("GET", ["schedules"], "teaching.schedules" + ".list"),
      Route("GET", ["schedules", ":id"], "teaching.schedules" + ".findOne"),
      Route("PATCH", ["schedules", ":id"], "teaching.schedules" + ".update"),
      Route("DELETE", ["schedules", ":id"], "teaching.schedules" + ".remove") ]
  }

  function WrittenGrades(): seq<Route> {
    [ Route("POST", ["grades"], "grades" + ".create"),
      Route("GET", ["grades"], "grades" + ".list"),
      Route("GET", ["grades", ":id"], "grades" + ".findOne"),
      Route("PATCH", ["grades", ":id"], "grades" + ".update"),
      Route("DELETE", ["grades", ":id"], "grades" + ".remove") ]
  }

  function WrittenAuth(): seq<Route> {
    [ Route("POST", ["auth", "register"], "auth.register"),
      Route("POST", ["auth", "login"], "auth.login"),
      Route("GET", ["auth", "users"], "auth.get-users"),
      Route("PATCH", ["auth", "update-user"], "auth.update-user"),
      Route("PUT", ["auth", "change-password"], "auth.change-password"),
      Route("POST", ["auth", "logout"], "auth.logout"),
      Route("POST", ["auth", "logout-all"], "auth.logout-all") ]
  }

  function Written(g: nat): seq<Route> {
    match g
    case 0 => WrittenEnrollments()
    case 1 => WrittenEnrollmentDetails()
    case 2 => WrittenAcademicValidations()
    case 3 => WrittenStudents()
    case 4 => WrittenAtomicEnrollment()
    case 5 => WrittenDatabasePerformance()
    case 6 => WrittenDegreePrograms()
    case 7 => WrittenStudyPlans()
    case 8 => WrittenLevels()
    case 9 => WrittenCourses()
    case 10 => WrittenPrerequisites()
    case 11 => WrittenAcademicYears()
    case 12 => WrittenTerms()
    case 13 => WrittenManagements() + WrittenPeriods()
    case 14 => WrittenClassrooms()
    case 15 => WrittenCourseSections()
    case 16 => WrittenSchedules()
    case 17 => WrittenGrades()
    case _ => WrittenAuth()
  }

  /** The path of a route: its segments, each after a slash. */
  lemma PathIs(r: Route, segment: string)
    ensures r.template == [segment] ==> PathOf(r) == "/" + segment
    ensures r.template != [] ==> PathOf(r.(template := r.template + [segment])) == PathOf(r) + "/" + segment
  {
    if r.template != [] {
      JoinLonger(r.template, segment);
      hide Join;
      assert "/" + (Join(r.template, '/') + ['/'] + segment) == ("/" + Join(r.template, '/')) + "/" + segment;
    }
  }

  lemma {:induction false} JoinLonger(parts: seq<string>, part: string)
    requires parts != []
    ensures Join(parts + [part], '/') == Join(parts, '/') + ['/'] + part
  {
    var longer := parts + [part];
    if |parts| == 1 {
      assert longer[1..] == [part];
    } else {
      JoinLonger(parts[1..], part);
      assert longer[1..] == parts[1..] + [part];
      assert parts[0] + ['/'] + (Join(parts[1..], '/') + ['/'] + part) == (parts[0] + ['/'] + Join(parts[1..], '/')) + ['/'] + part;
    }
  }

  lemma CrudIs(prefix: seq<string>, pattern: string, written: seq<Route>)
    requires |written| == 5 && pattern + ".create" == written[0].pattern && pattern + ".list" == written[1].pattern
    requires pattern + ".findOne" == written[2].pattern && pattern + ".update" == written[3].pattern
    requires pattern + ".remove" == written[4].pattern
    requires prefix == written[0].template == written[1].template
    requires prefix + [":id"] == written[2].template == written[3].template == written[4].template
    requires written[0].verb == "POST" && written[1].verb == "GET" && written[2].verb == "GET"
    requires written[3].verb == "PATCH" && written[4].verb == "DELETE"
    ensures Crud(prefix, pattern) == written
  {
  }

  lemma EnrollmentsIsWritten()
    ensures Group(0) == WrittenEnrollments()
  {
    hide Crud, Validations, Students, AtomicEnrollment, Performance, Calendar, Auth;
    assert First(0) == "enrollments" && Resource(0) == "enrollments";
    hide First, Resource;
    CrudIs(["enrollments"], "enrollments", WrittenEnrollments());
  }

  lemma EnrollmentDetailsIsWritten()
    ensures Group(1) == WrittenEnrollmentDetails()
  {
    hide Crud, Validations, Students, AtomicEnrollment, Performance, Calendar, Auth;
    assert First(1) == "enrollment-details" && Resource(1) == "enrollment-details";
    hide First, Resource;
    CrudIs(["enrollment-details"], "enrollment-details", WrittenEnrollmentDetails());
  }

  lemma AcademicValidationsIsWritten()
    ensures Group(2) == WrittenAcademicValidations()
  {
  }

  lemma StudentsIsWritten()
    ensures Group(3) == WrittenStudents()
  {
  }

  lemma AtomicEnrollmentIsWritten()
    ensures Group(4) == WrittenAtomicEnrollment()
  {
  }

  lemma DatabasePerformanceIsWritten()
    ensures Group(5) == WrittenDatabasePerformance()
  {
  }

  lemma DegreeProgramsIsWritten()
    ensures Group(6) == WrittenDegreePrograms()
  {
    hide Crud, Validations, Students, AtomicEnrollment, Performance, Calendar, Auth;
    assert First(6) == "degree-programs" && Resource(6) == "programs.degreePrograms";
    hide First, Resource;
    CrudIs(["degree-programs"], "programs.degreePrograms", WrittenDegreePrograms());
  }

  lemma StudyPlansIsWritten()
    ensures Group(7) == WrittenStudyPlans()
  {
    hide Crud, Validations, Students, AtomicEnrollment, Performance, Calendar, Auth;
    assert First(7) == "study-plans" && Resource(7) == "programs.studyPlans";
    hide First, Resource;
    CrudIs(["study-plans"], "programs.studyPlans", WrittenStudyPlans());
  }

  lemma LevelsIsWritten()
    ensures Group(8) == WrittenLevels()
  {
    hide Crud, Validations, Students, AtomicEnrollment, Performance, Calendar, Auth;
    assert First(8) == "levels" && Resource(8) == "programs.levels";
    hide First, Resource;
    CrudIs(["levels"], "programs.levels", WrittenLevels());
  }

  lemma CoursesIsWritten()
    ensures Group(9) == WrittenCourses()
  {
    hide Crud, Validations, Students, AtomicEnrollment, Performance, Calendar, Auth;
    assert First(9) == "courses" && Resource(9) == "programs.courses";
    hide First, Resource;
    CrudIs(["courses"], "programs.courses", WrittenCourses());
  }

  lemma PrerequisitesIsWritten()
    ensures Group(10) == WrittenPrerequisites()
  {
    hide Crud, Validations, Students, AtomicEnrollment, Performance, Calendar, Auth;
    assert First(10) == "prerequisites" && Resource(10) == "programs.prerequisites";
    hide First, Resource;
    CrudIs(["prerequisites"], "programs.prerequisites", WrittenPrerequisites());
  }

  lemma AcademicYearsIsWritten()
    ensures Group(11) == WrittenAcademicYears()
  {
    hide Crud, Validations, Students, AtomicEnrollment, Performance, Calendar, Auth;
    assert First(11) == "academic-years" && Resource(11) == "calendar.academicYears";
    hide First, Resource;
    CrudIs(["academic-years"], "calendar.academicYears", WrittenAcademicYears());
  }

  lemma TermsIsWritten()
    ensures Group(12) == WrittenTerms()
  {
    hide Crud, Validations, Students, AtomicEnrollment, Performance, Calendar, Auth;
    assert First(12) == "terms" && Resource(12) == "calendar.terms";
    hide First, Resource;
    CrudIs(["terms"], "calendar.terms", WrittenTerms());
  }

  lemma CalendarIsWritten()
    ensures Group(13) == WrittenManagements() + WrittenPeriods()
  {
    ManagementsIsWritten();
    PeriodsIsWritten();
    hide Crud, WrittenManagements, WrittenPeriods;
  }

  lemma ManagementsIsWritten()
    ensures Crud(["calendar", "managements"], "calendar.academicYears") == WrittenManagements()
  {
    hide Crud;
    CrudIs(["calendar", "managements"], "calendar.academicYears", WrittenManagements());
  }

  lemma PeriodsIsWritten()
    ensures Crud(["calendar", "periods"], "calendar.terms") == WrittenPeriods()
  {
    hide Crud;
    CrudIs(["calendar", "periods"], "calendar.terms", WrittenPeriods());
  }

  lemma ClassroomsIsWritten()
    ensures Group(14) == WrittenClassrooms()
  {
    hide Crud, Validations, Students, AtomicEnrollment, Performance, Calendar, Auth;
    assert First(14) == "classrooms" && Resource(14) == "facilities.classrooms";
    hide First, Resource;
    CrudIs(["classrooms"], "facilities.classrooms", WrittenClassrooms());
  }

  lemma CourseSectionsIsWritten()
    ensures Group(15) == WrittenCourseSections()
  {
    hide Crud, Validations, Students, AtomicEnrollment, Performance, Calendar, Auth;
    assert First(15) == "course-sections" && Resource(15) == "teaching.courseSections";
    hide First, Resource;
    CrudIs(["course-sections"], "teaching.courseSections", WrittenCourseSections());
  }

  lemma SchedulesIsWritten()
    ensures Group(16) == WrittenSchedules()
  {
    hide Crud, Validations, Students, AtomicEnrollment, Performance, Calendar, Auth;
    assert First(16) == "schedules" && Resource(16) == "teaching.schedules";
    hide First, Resource;
    CrudIs(["schedules"], "teaching.schedules", WrittenSchedules());
  }

  lemma GradesIsWritten()
    ensures Group(17) == WrittenGrades()
  {
    hide Crud, Validations, Students, AtomicEnrollment, Performance, Calendar, Auth;
    assert First(17) == "grades" && Resource(17) == "grades";
    hide First, Resource;
    CrudIs(["grades"], "grades", WrittenGrades());
  }

  lemma AuthIsWritten()
    ensures Group(18) == WrittenAuth()
  {
  }

  lemma GroupIsWritten(g: nat)
    requires g < GROUPS
    ensures Group(g) == Written(g)
  {
    hide Group, WrittenEnrollments, WrittenEnrollmentDetails, WrittenAcademicValidations, WrittenStudents,
      WrittenAtomicEnrollment, WrittenDatabasePerformance, WrittenDegreePrograms, WrittenStudyPlans,
      WrittenLevels, WrittenCourses, WrittenPrerequisites, WrittenAcademicYears, WrittenTerms,
      WrittenManagements, WrittenPeriods, WrittenClassrooms, WrittenCourseSections, WrittenSchedules,
      WrittenGrades, WrittenAuth;
    match g
    case 0 => EnrollmentsIsWritten();
    case 1 => EnrollmentDetailsIsWritten();
    case 2 => AcademicValidationsIsWritten();
    case 3 => StudentsIsWritten();
    case 4 => AtomicEnrollmentIsWritten();
    case 5 => DatabasePerformanceIsWritten();
    case 6 => DegreeProgramsIsWritten();
    case 7 => StudyPlansIsWritten();
    case 8 => LevelsIsWritten();
    case 9 => CoursesIsWritten();
    case 10 => PrerequisitesIsWritten();
    case 11 => AcademicYearsIsWritten();
    case 12 => TermsIsWritten();
    case 13 => CalendarIsWritten();
    case 14 => ClassroomsIsWritten();
    case 15 => CourseSectionsIsWritten();
    case 16 => SchedulesIsWritten();
    case 17 => GradesIsWritten();
    case 18 => AuthIsWritten();
  }

  /** The first n groups. */
  function WrittenTable(n: nat): seq<Route> {
    if n == 0 then [] else WrittenTable(n - 1) + Written(n - 1)
  }

  lemma {:induction false} GroupsAreWritten(n: nat)
    requires n <= GROUPS
    ensures Groups(n) == WrittenTable(n)
  {
    hide Group, Written;
    if n > 0 {
      GroupsAreWritten(n - 1);
      GroupIsWritten(n - 1);
    }
  }

  /** The table is the one written out here, all nineteen groups of it. */
  lemma TableIsAsWritten()
    ensures Table() == WrittenTable(19)
  {
    GroupsAreWritten(19);
    hide Groups, Written;
  }
}
