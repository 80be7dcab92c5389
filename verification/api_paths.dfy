/** The REST paths of the backend, as the client builds them. Path
    parameters are interpolated with `String(v)`. */
module ApiPaths {
  import opened JsValue
  import Lists

  const COURSES_ALL := "/api/courses"
  const INSTANCES_ALL := "/api/instances"
  const COURSES_BY_COURSE_ID := "/api/courses/by-course-id"

  function CourseById(id: Value): string {
    COURSES_ALL + "/" + Display(id)
  }

  function CourseByCourseId(courseId: Value): string {
    COURSES_BY_COURSE_ID + "/" + Display(courseId)
  }

  function InstancesByYearSem(year: Value, semester: Value): string {
    INSTANCES_ALL + "/" + Display(year) + "/" + Display(semester)
  }

  /** The path of one instance extends the path of its year and semester
      by one segment, the course ID. */
  function InstanceByYearSemCourse(year: Value, semester: Value, courseId: Value): (p: string)
    ensures p == InstancesByYearSem(year, semester) + "/" + Display(courseId)
  {
    INSTANCES_ALL + "/" + Display(year) + "/" + Display(semester) + "/" + Display(courseId)
  }

  /** Deletion addresses an instance by the same path that fetches it. */
  function DeleteInstance(year: Value, semester: Value, courseId: Value): (p: string)
    ensures p == InstanceByYearSemCourse(year, semester, courseId)
    ensures p == InstancesByYearSem(year, semester) + "/" + Display(courseId)
  {
    INSTANCES_ALL + "/" + Display(year) + "/" + Display(semester) + "/" + Display(courseId)
  }

  /** A path parameter that stays one segment. */
  predicate Segment(v: Value) {
    '/' !in Display(v)
  }

  lemma InstancesRootSegments()
    ensures Lists.Split(INSTANCES_ALL, '/') == ["", "api", "instances"]
  {
    assert INSTANCES_ALL == "" + ['/'] + "api" + ['/'] + "instances";
    Lists.SplitWhole("", '/');
    Lists.SplitSnoc("", "api", '/');
    Lists.SplitSnoc("" + ['/'] + "api", "instances", '/');
  }

  lemma CoursesRootSegments()
    ensures Lists.Split(COURSES_ALL, '/') == ["", "api", "courses"]
  {
    assert COURSES_ALL == "" + ['/'] + "api" + ['/'] + "courses";
    Lists.SplitWhole("", '/');
    Lists.SplitSnoc("", "api", '/');
    Lists.SplitSnoc("" + ['/'] + "api", "courses", '/');
  }

  /** `/api/courses/{id}` splits back into its parameter. */
  lemma CourseByIdSegments(id: Value)
    requires Segment(id)
    ensures Lists.Split(CourseById(id), '/') == ["", "api", "courses", Display(id)]
  {
    CoursesRootSegments();
    Lists.SplitSnoc(COURSES_ALL, Display(id), '/');
  }

  lemma CoursesByCourseIdRootSegments()
    ensures Lists.Split(COURSES_BY_COURSE_ID, '/') == ["", "api", "courses", "by-course-id"]
  {
    assert COURSES_BY_COURSE_ID == COURSES_ALL + ['/'] + "by-course-id";
    CoursesRootSegments();
    Lists.SplitSnoc(COURSES_ALL, "by-course-id", '/');
  }

  /** `/api/courses/by-course-id/{courseId}` splits back into its parameter. */
  lemma CourseByCourseIdSegments(courseId: Value)
    requires Segment(courseId)
    ensures Lists.Split(CourseByCourseId(courseId), '/')
         == ["", "api", "courses", "by-course-id", Display(courseId)]
  {
    CoursesByCourseIdRootSegments();
    Lists.SplitSnoc(COURSES_BY_COURSE_ID, Display(courseId), '/');
  }

  /** The two ways of fetching one course never collide, whatever
      one-segment parameters they are given: the first path has one
      segment after the root, the second two. */
  lemma CourseRoutesDistinct(id: Value, courseId: Value)
    requires Segment(id) && Segment(courseId)
    ensures CourseById(id) != CourseByCourseId(courseId)
  {
    CourseByIdSegments(id);
    CourseByCourseIdSegments(courseId);
  }

  /** The year/semester path splits back into its parameters. */
  lemma YearSemSegments(year: Value, semester: Value)
    requires Segment(year) && Segment(semester)
    ensures Lists.Split(InstancesByYearSem(year, semester), '/')
         == ["", "api", "instances", Display(year), Display(semester)]
  {
    InstancesRootSegments();
    Lists.SplitSnoc(INSTANCES_ALL, Display(year), '/');
    Lists.SplitSnoc(INSTANCES_ALL + "/" + Display(year), Display(semester), '/');
  }

  /** The instance path (for fetching and for deleting) splits back into
      its three parameters, so distinct one-segment parameters give
      distinct paths. */
  lemma InstanceSegments(year: Value, semester: Value, courseId: Value)
    requires Segment(year) && Segment(semester) && Segment(courseId)
    ensures Lists.Split(DeleteInstance(year, semester, courseId), '/')
         == ["", "api", "instances", Display(year), Display(semester), Display(courseId)]
  {
    YearSemSegments(year, semester);
    Lists.SplitSnoc(InstancesByYearSem(year, semester), Display(courseId), '/');
  }
}
