/** The route table of the gateway, grouped by first segment in table order. */
module RouteTable {
  import opened RouteMatching

  /** The five routes of a resource. */
  function Crud(prefix: seq<string>, pattern: string): seq<Route> {
    [ Route("POST", prefix, pattern + ".create"),
      Route("GET", prefix, pattern + ".list"),
      Route("GET", prefix + [":id"], pattern + ".findOne"),
      Route("PATCH", prefix + [":id"], pattern + ".update"),
      Route("DELETE", prefix + [":id"], pattern + ".remove") ]
  }

  const GROUPS := 19

  /** The first segment of the routes of a group. */
  function First(g: nat): string {
    match g
    case 0 => "enrollments"
    case 1 => "enrollment-details"
    case 2 => "academic-validations"
    case 3 => "students"
    case 4 => "atomic-enrollment"
    case 5 => "database-performance"
    case 6 => "degree-programs"
    case 7 => "study-plans"
    case 8 => "levels"
    case 9 => "courses"
    case 10 => "prerequisites"
    case 11 => "academic-years"
    case 12 => "terms"
    case 13 => "calendar"
    case 14 => "classrooms"
    case 15 => "course-sections"
    case 16 => "schedules"
    case 17 => "grades"
    case _ => "auth"
  }

  function Validations(): seq<Route> {
    [ Route("GET", ["academic-validations", "prerequisites", "check"], "enrollments.academic.checkPrerequisites"),
      Route("GET", ["academic-validations", "enrollment", "validate"], "enrollments.academic.validateEnrollment") ]
  }

  function Students(): seq<Route> {
    [ Route("GET", ["students", "recommended-courses"], "enrollments.students.recommendedCourses") ]
  }

  function AtomicEnrollment(): seq<Route> {
    [ Route("POST", ["atomic-enrollment", "enroll"], "enrollments.atomic.enroll"),
      Route("POST", ["atomic-enrollment", "enroll", "batch"], "enrollments.atomic.enrollBatch"),
      Route("GET", ["atomic-enrollment", "course-section", ":id", "quota-status"], "enrollments.atomic.quotaStatus"),
      Route("GET", ["atomic-enrollment", "idempotency", "stats"], "enrollments.atomic.idempotencyStats") ]
  }

  function Performance(): seq<Route> {
    [ Route("GET", ["database-performance", "prerequisites"], "enrollments.performance.prerequisites"),
      Route("GET", ["database-performance", "approved-courses"], "enrollments.performance.approvedCourses"),
      Route("GET", ["database-performance", "schedules"], "enrollments.performance.schedules"),
      Route("GET", ["database-performance", "enrollment-count"], "enrollments.performance.enrollmentCount"),
      Route("GET", ["database-performance", "batch-prerequisites"], "enrollments.performance.batchPrerequisites"),
      Route("GET", ["database-performance", "has-passed"], "enrollments.performance.hasPassed"),
      Route("GET", ["database-performance", "student-enrollment-details"], "enrollments.performance.studentEnrollmentDetails") ]
  }

  function Calendar(): seq<Route> {
    Crud(["calendar", "managements"], "calendar.academicYears") + Crud(["calendar", "periods"], "calendar.terms")
  }

  function Auth(): seq<Route> {
    [ Route("POST", ["auth", "register"], "auth.register"),
      Route("POST", ["auth", "login"], "auth.login"),
      Route("GET", ["auth", "users"], "auth.get-users"),
      Route("PATCH", ["auth", "update-user"], "auth.update-user"),
      Route("PUT", ["auth", "change-password"], "auth.change-password"),
      Route("POST", ["auth", "logout"], "auth.logout"),
      Route("POST", ["auth", "logout-all"], "auth.logout-all") ]
  }

  function Group(g: nat): seq<Route>
    requires g < GROUPS
  {
    if g == 2 then Validations()
    else if g == 3 then Students()
    else if g == 4 then AtomicEnrollment()
    else if g == 5 then Performance()
    else if g == 13 then Calendar()
    else if g == 18 then Auth()
    else Crud([First(g)], Resource(g))
  }

  function Resource(g: nat): string {
    match g
    case 0 => "enrollments"
    case 1 => "enrollment-details"
    case 6 => "programs.degreePrograms"
    case 7 => "programs.studyPlans"
    case 8 => "programs.levels"
    case 9 => "programs.courses"
    case 10 => "programs.prerequisites"
    case 11 => "calendar.academicYears"
    case 12 => "calendar.terms"
    case 14 => "facilities.classrooms"
    case 15 => "teaching.courseSections"
    case 16 => "teaching.schedules"
    case _ => "grades"
  }

  function Groups(n: nat): seq<Route>
    requires n <= GROUPS
  {
    if n == 0 then [] else Groups(n - 1) + Group(n - 1)
  }

  function Table(): seq<Route> {
    Groups(GROUPS)
  }

  /** A literal segment, told from others by its length and first letter. */
  predicate Plain(word: string) {
    |word| > 1 && word[0] != ':'
  }

  lemma PlainIsLiteral(word: string)
    requires Plain(word)
    ensures !Wild(word)
  {
  }

  /** The first segment of a route tells its group: its length and first letter are enough. */
  function Place(word: string): nat
    requires word != ""
  {
    match |word|
    case 4 => 18
    case 5 => 12
    case 6 => if word[0] == 'l' then 8 else 17
    case 7 => 9
    case 8 => if word[0] == 's' then 3 else 13
    case 9 => 16
    case 10 => 14
    case 11 => if word[0] == 'e' then 0 else 7
    case 13 => 10
    case 14 => 11
    case 15 => if word[0] == 'c' then 15 else 6
    case 17 => 4
    case 18 => 1
    case _ => if word[0] == 'a' then 2 else 5
  }

  lemma FirstSegments(g: nat)
    requires g < GROUPS
    ensures Plain(First(g)) && Place(First(g)) == g
  {
  }

  /** Routes that are numbered by their literal at one position never overlap. */
  lemma ApartAt(routes: seq<Route>, p: nat, number: string -> nat)
    requires forall i :: 0 <= i < |routes| ==>
      |routes[i].template| > p && Plain(routes[i].template[p]) && number(routes[i].template[p]) == i
    ensures Disjoint(routes)
  {
    forall r, s | r in routes && s in routes && r != s ensures !Compatible(r.template, s.template) {
      PlainIsLiteral(r.template[p]);
      PlainIsLiteral(s.template[p]);
    }
  }

  lemma CrudDisjoint(prefix: seq<string>, pattern: string)
    ensures Disjoint(Crud(prefix, pattern))
  {
    hide Wild;
  }

  lemma ValidationsDisjoint()
    ensures Disjoint(Validations())
  {
    ApartAt(Validations(), 1, (word: string) => if |word| == 13 then 0 else 1);
  }

  /** Routes of one method whose lengths differ never overlap. */
  lemma ApartByLength(routes: seq<Route>)
    requires forall r, s :: r in routes && s in routes && r != s && r.verb == s.verb ==> |r.template| != |s.template|
    ensures Disjoint(routes)
  {
    hide Wild;
  }

  lemma AtomicEnrollmentDisjoint()
    ensures Disjoint(AtomicEnrollment())
  {
    hide Disjoint;
    ApartByLength(AtomicEnrollment());
  }

  lemma PerformanceDisjoint()
    ensures Disjoint(Performance())
  {
    ApartAt(Performance(), 1, (word: string) =>
      match |word|
      case 13 => 0
      case 16 => if word[0] == 'a' then 1 else 3
      case 9 => 2
      case 19 => 4
      case 10 => 5
      case _ => 6);
  }

  lemma AuthDisjoint()
    ensures Disjoint(Auth())
  {
    ApartAt(Auth(), 1, (word: string) =>
      match |word|
      case 8 => 0
      case 5 => if word[0] == 'l' then 1 else 2
      case 11 => 3
      case 15 => 4
      case 6 => 5
      case _ => 6);
  }

  lemma CrudPrefix(prefix: seq<string>, pattern: string)
    ensures forall r :: r in Crud(prefix, pattern) ==> prefix <= r.template
  {
  }

  lemma CalendarDisjoint()
    ensures Disjoint(Calendar())
  {
    var a, b := Crud(["calendar", "managements"], "calendar.academicYears"), Crud(["calendar", "periods"], "calendar.terms");
    CrudDisjoint(["calendar", "managements"], "calendar.academicYears");
    CrudDisjoint(["calendar", "periods"], "calendar.terms");
    CrudPrefix(["calendar", "managements"], "calendar.academicYears");
    CrudPrefix(["calendar", "periods"], "calendar.terms");
    PlainIsLiteral("managements");
    PlainIsLiteral("periods");
    hide Crud, Wild;
    forall r, s | r in a && s in b ensures !Compatible(r.template, s.template) && !Compatible(s.template, r.template) {
      assert r.template[1] == "managements" && s.template[1] == "periods";
    }
  }

  lemma GroupDisjoint(g: nat)
    requires g < GROUPS
    ensures Disjoint(Group(g))
  {
    hide Disjoint, Crud, Validations, Students, AtomicEnrollment, Performance, Calendar, Auth, Resource;
    ValidationsDisjoint();
    AtomicEnrollmentDisjoint();
    PerformanceDisjoint();
    AuthDisjoint();
    CalendarDisjoint();
    StudentsDisjoint();
    CrudDisjoint([First(g)], Resource(g));
  }

  lemma StudentsDisjoint()
    ensures Disjoint(Students())
  {
  }

  /** The group that a route belongs to by its first segment. */
  ghost predicate Within(r: Route, low: nat, high: nat) {
    r.template != [] && Plain(r.template[0]) && low <= Place(r.template[0]) < high
  }

  lemma SpecialFirst()
    ensures First(2) == "academic-validations" && First(3) == "students" && First(4) == "atomic-enrollment"
    ensures First(5) == "database-performance" && First(13) == "calendar" && First(18) == "auth"
  {
  }

  /** All routes of a group begin with its word. */
  ghost predicate AllBegin(routes: seq<Route>, word: string) {
    forall r :: r in routes ==> r.template != [] && r.template[0] == word
  }

  lemma CrudBegins(prefix: seq<string>, pattern: string)
    requires prefix != []
    ensures AllBegin(Crud(prefix, pattern), prefix[0])
  {
    CrudPrefix(prefix, pattern);
    hide Crud;
  }

  lemma CalendarBegins()
    ensures AllBegin(Calendar(), "calendar")
  {
    hide Crud;
    CrudBegins(["calendar", "managements"], "calendar.academicYears");
    CrudBegins(["calendar", "periods"], "calendar.terms");
  }

  lemma EnrollmentGroupsBegin()
    ensures AllBegin(Validations(), "academic-validations") && AllBegin(Students(), "students")
    ensures AllBegin(AtomicEnrollment(), "atomic-enrollment")
  {
  }

  lemma PerformanceBegins()
    ensures AllBegin(Performance(), "database-performance")
  {
  }

  lemma AuthBegins()
    ensures AllBegin(Auth(), "auth")
  {
  }

  lemma GroupFirst(g: nat)
    requires g < GROUPS
    ensures AllBegin(Group(g), First(g))
  {
    hide AllBegin, Crud, Resource, First, Validations, Students, AtomicEnrollment, Performance, Calendar, Auth;
    SpecialFirst();
    CalendarBegins();
    EnrollmentGroupsBegin();
    PerformanceBegins();
    AuthBegins();
    CrudBegins([First(g)], Resource(g));
  }

  lemma GroupWithin(g: nat)
    requires g < GROUPS
    ensures forall r :: r in Group(g) ==> Within(r, g, g + 1)
  {
    GroupFirst(g);
    FirstSegments(g);
    hide Group, First, Place, Plain;
  }

  lemma WithinApart(r: Route, s: Route, n: nat)
    requires Within(r, 0, n) && Within(s, n, n + 1)
    ensures !Compatible(r.template, s.template) && !Compatible(s.template, r.template)
  {
    hide Plain, Place, Wild;
    PlainIsLiteral(r.template[0]);
    PlainIsLiteral(s.template[0]);
  }

  lemma {:induction false} GroupsDisjoint(n: nat)
    requires n <= GROUPS
    ensures Disjoint(Groups(n))
    ensures forall r :: r in Groups(n) ==> Within(r, 0, n)
  {
    hide Group, Within, Compatible;
    if n > 0 {
      GroupsDisjoint(n - 1);
      GroupDisjoint(n - 1);
      GroupWithin(n - 1);
      forall r | r in Groups(n - 1) || r in Group(n - 1) ensures Within(r, 0, n) {
        WithinGrows(r, n - 1);
      }
      forall r, s | r in Groups(n - 1) && s in Group(n - 1)
        ensures !Compatible(r.template, s.template) && !Compatible(s.template, r.template)
      {
        WithinApart(r, s, n - 1);
      }
    }
  }

  lemma WithinGrows(r: Route, n: nat)
    requires Within(r, 0, n) || Within(r, n, n + 1)
    ensures Within(r, 0, n + 1)
  {
  }

  /** No two routes of the table overlap. */
  lemma TableIsDisjoint()
    ensures Disjoint(Table())
  {
    hide Groups, Disjoint;
    GroupsDisjoint(GROUPS);
  }

  lemma ProperWords()
    ensures Proper("prerequisites") && Proper("check") && Proper("enrollment") && Proper("validate") && Proper("recommended-courses")
    ensures Proper("enroll") && Proper("batch") && Proper("course-section") && Proper(":id") && Proper("quota-status")
    ensures Proper("idempotency") && Proper("stats") && Proper("managements") && Proper("periods")
  {
  }

  lemma ProperPerformanceWords()
    ensures Proper("prerequisites") && Proper("approved-courses") && Proper("schedules") && Proper("enrollment-count")
    ensures Proper("batch-prerequisites") && Proper("has-passed") && Proper("student-enrollment-details")
  {
  }

  lemma ProperAuthWords()
    ensures Proper("register") && Proper("login") && Proper("users") && Proper("update-user") && Proper("change-password")
    ensures Proper("logout") && Proper("logout-all")
  {
  }

  lemma ProperEarliestFirst(g: nat)
    requires g < 4
    ensures Proper(First(g))
  {
  }

  lemma ProperEarlyFirst(g: nat)
    requires 4 <= g < 7
    ensures Proper(First(g))
  {
  }

  lemma ProperMiddleFirst(g: nat)
    requires 7 <= g < 13
    ensures Proper(First(g))
  {
  }

  lemma ProperLateFirst(g: nat)
    requires 13 <= g < GROUPS
    ensures Proper(First(g))
  {
  }

  lemma ProperFirst(g: nat)
    requires g < GROUPS
    ensures Proper(First(g))
  {
    hide First, Proper;
    if g < 4 {
      ProperEarliestFirst(g);
    } else if g < 7 {
      ProperEarlyFirst(g);
    } else if g < 13 {
      ProperMiddleFirst(g);
    } else {
      ProperLateFirst(g);
    }
  }

  lemma CrudWellFormed(prefix: seq<string>, pattern: string)
    requires forall i :: 0 <= i < |prefix| ==> Proper(prefix[i])
    ensures WellFormed(Crud(prefix, pattern))
  {
    ProperWords();
    hide Proper;
  }

  lemma ValidationsWellFormed()
    ensures WellFormed(Validations())
  {
    ProperWords();
    SpecialFirst();
    ProperFirst(2);
    hide Proper, First;
  }

  lemma StudentsWellFormed()
    ensures WellFormed(Students())
  {
    ProperWords();
    SpecialFirst();
    ProperFirst(3);
    hide Proper, First;
  }

  lemma AtomicEnrollmentWellFormed()
    ensures WellFormed(AtomicEnrollment())
  {
    ProperWords();
    SpecialFirst();
    ProperFirst(4);
    hide Proper, First;
  }

  lemma PerformanceWellFormed()
    ensures WellFormed(Performance())
  {
    ProperPerformanceWords();
    SpecialFirst();
    ProperFirst(5);
    hide Proper, First;
  }

  lemma AuthWellFormed()
    ensures WellFormed(Auth())
  {
    ProperAuthWords();
    SpecialFirst();
    ProperFirst(18);
    hide Proper, First;
  }

  lemma CalendarWellFormed()
    ensures WellFormed(Calendar())
  {
    ProperWords();
    SpecialFirst();
    ProperFirst(13);
    hide Proper, First, Crud;
    CrudWellFormed(["calendar", "managements"], "calendar.academicYears");
    CrudWellFormed(["calendar", "periods"], "calendar.terms");
  }

  lemma GroupWellFormed(g: nat)
    requires g < GROUPS
    ensures WellFormed(Group(g))
  {
    hide WellFormed, Proper, First, Resource, Crud, Validations, Students, AtomicEnrollment, Performance, Calendar, Auth;
    ProperFirst(g);
    ValidationsWellFormed();
    StudentsWellFormed();
    AtomicEnrollmentWellFormed();
    PerformanceWellFormed();
    AuthWellFormed();
    CalendarWellFormed();
    ResourceWellFormed(First(g), Resource(g));
  }

  lemma ResourceWellFormed(word: string, pattern: string)
    requires Proper(word)
    ensures WellFormed(Crud([word], pattern))
  {
    hide Proper, WellFormed, Crud;
    CrudWellFormed([word], pattern);
  }

  lemma WellFormedConcat(a: seq<Route>, b: seq<Route>)
    requires WellFormed(a) && WellFormed(b)
    ensures WellFormed(a + b)
  {
    hide Proper;
  }

  lemma NothingWellFormed()
    ensures WellFormed([])
  {
  }

  lemma {:induction false} GroupsWellFormed(n: nat)
    requires n <= GROUPS
    ensures WellFormed(Groups(n))
  {
    hide Group, WellFormed;
    if n == 0 {
      NothingWellFormed();
    } else {
      GroupsWellFormed(n - 1);
      GroupWellFormed(n - 1);
      WellFormedConcat(Groups(n - 1), Group(n - 1));
    }
  }

  /** At most one route of the table takes a request, so any rearrangement of it routes every request alike, those
      that no route takes included. */
  lemma TableOrderDoesNotMatter(verb: string, url: string, rearranged: seq<Route>)
    requires SameRoutes(Table(), rearranged)
    ensures FirstMatch(rearranged, verb, url) == FirstMatch(Table(), verb, url)
    ensures forall r, s :: r in Table() && s in Table() && Matches(r, verb, url) && Matches(s, verb, url) ==> r == s
  {
    hide Groups, Disjoint, WellFormed, Matches;
    TableIsDisjoint();
    GroupsWellFormed(GROUPS);
    OrderDoesNotMatter(Table(), rearranged, verb, url);
    forall r, s | r in Table() && s in Table() && Matches(r, verb, url) && Matches(s, verb, url) ensures r == s {
      AtMostOneMatches(Table(), verb, url, r, s);
    }
  }
}
