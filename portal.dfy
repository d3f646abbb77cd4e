/**
 * The stored state of the portal's course side: courses, lectures, enrollments and
 * attendance records, with the three uniqueness constraints as the table invariant,
 * the inserts that must keep it, and the serializers that write to these tables.
 */
module Portal {
  import opened Common
  import opened Tables
  import opened Accounts
  import opened Enrollments
  import opened Lectures

  const DEFAULT_CAPACITY: int := 30

  /** A course row: its capacity and its instructor, if one is assigned. */
  datatype Course = Course(capacity: int, instructor: Option<UserId>)

  /** The columns the enrollment table is unique on: one row per student and course. */
  datatype EnrollmentKey = EnrollmentKey(student: UserId, course: CourseId)

  function EnrollmentKeyOf(e: Enrollment): (k: EnrollmentKey)
    ensures k.student == e.student && k.course == e.course
  {
    EnrollmentKey(e.student, e.course)
  }

  datatype CourseError =
    | InstructorNotLecturer   // "Instructor must have the role 'LECTURER'."
    | InstructorNotFound      // the instructor field offers LECTURER users only: "Invalid pk ... does not exist."
    | CapacityOutOfRange      // the capacity field takes INT values only

  /**
   * `CourseCreateUpdateSerializer.validate_instructor`: no instructor, or one whose role is
   * LECTURER, passes unchanged; any other role is refused.
   */
  function ValidateInstructor(value: User?): (r: Result<User?, CourseError>)
    reads value
    ensures r.Ok? <==> value == null || RoleName(value.role) == "LECTURER"
    ensures r.Ok? ==> r.value == value
  {
    if value != null && value.role != Lecturer then Err(InstructorNotLecturer) else Ok(value)
  }

  /** Some row links the student to the course, whatever its status, exactly when the object table has that key. */
  lemma HasEnrollmentIsHasKey(es: seq<Enrollment>, student: UserId, c: CourseId)
    ensures HasEnrollment(Rows(es), student, c) <==> HasKey(es, EnrollmentKeyOf, EnrollmentKey(student, c))
  {
    var rows := Rows(es);
    if HasEnrollment(rows, student, c) {
      var i :| 0 <= i < |rows| && rows[i].student == student && rows[i].course == c;
      assert EnrollmentKeyOf(es[i]) == EnrollmentKey(student, c);
    }
    if HasKey(es, EnrollmentKeyOf, EnrollmentKey(student, c)) {
      var i :| 0 <= i < |es| && EnrollmentKeyOf(es[i]) == EnrollmentKey(student, c);
      assert rows[i].student == student && rows[i].course == c;
    }
  }

  class Portal {
    var courses: seq<Course>
    var lectures: seq<Lecture>
    var enrollments: seq<Enrollment>
    var attendance: seq<Attendance>

    /** The three uniqueness constraints. Primary keys of courses and lectures are their positions. */
    ghost predicate Valid()
      reads this
    {
      && UniqueBy(lectures, Slot)
      && UniqueBy(enrollments, EnrollmentKeyOf)
      && UniqueBy(attendance, AttendanceKeyOf)
    }

    constructor ()
      ensures Valid()
      ensures courses == [] && lectures == [] && enrollments == [] && attendance == []
    {
      courses, lectures, enrollments, attendance := [], [], [], [];
    }

    /** The enrollment rows as currently stored. */
    function EnrollmentRows(): (rs: seq<EnrollmentRow>)
      reads this, enrollments
      ensures |rs| == |enrollments|
    {
      Rows(enrollments)
    }

    /** `Course.seats_left` for a stored course. */
    function CourseSeatsLeft(c: CourseId): (s: int)
      requires c < |courses|
      reads this, enrollments
      ensures s == courses[c].capacity - |SeatHolders(EnrollmentRows(), c)|
    {
      SeatsLeft(courses[c].capacity, EnrollmentRows(), c)
    }

    /**
     * Creating a course through the course serializer. Every field is validated and every
     * error reported together: the instructor field offers LECTURER users only (the
     * column's `limit_choices_to`), so `validate_instructor` is reached only by an
     * instructor it passes; the capacity field takes INT values only.
     */
    method CreateCourse(capacity: Option<int>, instructor: User?) returns (r: Result<CourseId, set<CourseError>>)
      requires Valid()
      modifies this
      ensures Valid()
      ensures r.Err? <==>
        (instructor != null && RoleName(instructor.role) != "LECTURER") || !IsInt32(capacity.GetOr(DEFAULT_CAPACITY))
      ensures r.Err? ==>
        && courses == old(courses)
        && r.error == (if instructor != null && RoleName(instructor.role) != "LECTURER" then {InstructorNotFound} else {})
                    + (if !IsInt32(capacity.GetOr(DEFAULT_CAPACITY)) then {CapacityOutOfRange} else {})
      ensures r.Ok? ==>
        && r.value == |old(courses)|
        && courses == old(courses) + [Course(capacity.GetOr(DEFAULT_CAPACITY),
                                             if instructor == null then None else Some(instructor.id))]
      ensures lectures == old(lectures) && enrollments == old(enrollments) && attendance == old(attendance)
    {
      var errors: set<CourseError> := {};
      if instructor != null && instructor.role != Lecturer {
        errors := errors + {InstructorNotFound};
      } else {
        assert ValidateInstructor(instructor).Ok?;
      }
      if !IsInt32(capacity.GetOr(DEFAULT_CAPACITY)) {
        errors := errors + {CapacityOutOfRange};
      }
      if errors != {} {
        return Err(errors);
      }
      var course := Course(capacity.GetOr(DEFAULT_CAPACITY), if instructor == null then None else Some(instructor.id));
      r := Ok(|courses|);
      courses := courses + [course];
    }

    /**
     * Saving a new lecture at `now`: refused when a value does not fit its column, and
     * otherwise when the course already has a lecture at that date and start time. The
     * PIN timestamp is stamped with the insertion time, whatever was given.
     */
    method InsertLecture(l: Lecture, now: Instant) returns (r: Result<LectureId, DbError>)
      requires Valid()
      modifies this
      ensures Valid()
      ensures r == Err(DataError) <==> !FitsColumns(l)
      ensures r == Err(IntegrityError) <==> FitsColumns(l) && HasKey(old(lectures), Slot, Slot(l))
      ensures r.Err? ==> lectures == old(lectures)
      ensures r.Ok? ==>
        && r.value == |old(lectures)|
        && lectures == old(lectures) + [l.(pinGeneratedAt := now)]
        && (IsPinActive(lectures[r.value], now) <==> l.pin.Some? && l.pin.value != "")
      ensures courses == old(courses) && enrollments == old(enrollments) && attendance == old(attendance)
    {
      if !FitsColumns(l) {
        return Err(DataError);
      }
      var stamped := l.(pinGeneratedAt := now);
      match Insert(lectures, Slot, stamped)
      case Err(e) =>
        r := Err(e);
      case Ok(t) =>
        r := Ok(|lectures|);
        lectures := t;
    }

    /** Saving a new enrollment row: refused when the student already has a row for the course. */
    method InsertEnrollment(student: UserId, course: CourseId, status: EnrollmentStatus) returns (r: Result<Enrollment, DbError>)
      requires Valid()
      modifies this
      ensures Valid()
      ensures r.Err? <==> HasKey(old(enrollments), EnrollmentKeyOf, EnrollmentKey(student, course))
      ensures r.Err? ==> enrollments == old(enrollments)
      ensures r.Ok? ==>
        && fresh(r.value)
        && enrollments == old(enrollments) + [r.value]
        && r.value.Row() == EnrollmentRow(student, course, status, None, None)
      ensures courses == old(courses) && lectures == old(lectures) && attendance == old(attendance)
    {
      var e := new Enrollment(student, course, status);
      match Insert(enrollments, EnrollmentKeyOf, e)
      case Err(err) =>
        r := Err(err);
      case Ok(t) =>
        enrollments := t;
        r := Ok(e);
    }

    /**
     * Saving a new attendance record: refused when a coordinate does not fit its column,
     * and otherwise when the student already has a record for the lecture.
     */
    method InsertAttendance(student: UserId, course: CourseId, lecture: LectureId, status: Option<AttendanceStatus>,
                            latitude: Option<real>, longitude: Option<real>) returns (r: Result<Attendance, DbError>)
      requires Valid()
      modifies this
      ensures Valid()
      ensures r == Err(DataError) <==>
        !AttendanceFitsColumns(NewAttendance(student, course, lecture, status, latitude, longitude))
      ensures r == Err(IntegrityError) <==>
        && AttendanceFitsColumns(NewAttendance(student, course, lecture, status, latitude, longitude))
        && HasKey(old(attendance), AttendanceKeyOf, AttendanceKey(student, lecture))
      ensures r.Err? ==> attendance == old(attendance)
      ensures r.Ok? ==>
        && r.value == NewAttendance(student, course, lecture, status, latitude, longitude)
        && attendance == old(attendance) + [r.value]
      ensures courses == old(courses) && lectures == old(lectures) && enrollments == old(enrollments)
    {
      var a := NewAttendance(student, course, lecture, status, latitude, longitude);
      if !AttendanceFitsColumns(a) {
        return Err(DataError);
      }
      match Insert(attendance, AttendanceKeyOf, a)
      case Err(err) =>
        r := Err(err);
      case Ok(t) =>
        attendance := t;
        r := Ok(a);
    }

    /**
     * `EnrollmentCreateSerializer.validate_course` followed by `create`: the requesting
     * student is admitted with a new ENROLLED row, or refused and nothing is written.
     */
    method CreateEnrollment(student: UserId, course: CourseId) returns (r: Result<Enrollment, AdmissionError>)
      requires Valid() && course < |courses|
      modifies this
      ensures Valid()
      ensures courses == old(courses) && lectures == old(lectures) && attendance == old(attendance)
      ensures r.Err? ==>
        && enrollments == old(enrollments)
        && ValidateCourse(old(EnrollmentRows()), student, course, courses[course].capacity) == Err(r.error)
      ensures r.Ok? ==>
        && ValidateCourse(old(EnrollmentRows()), student, course, courses[course].capacity) == Ok(course)
        && fresh(r.value)
        && enrollments == old(enrollments) + [r.value]
        && r.value.Row() == AdmittedRow(student, course)
        && |SeatHolders(EnrollmentRows(), course)| <= courses[course].capacity
    {
      var rows := Rows(enrollments);
      var v := ValidateCourse(rows, student, course, courses[course].capacity);
      if v.Err? {
        return Err(v.error);
      }
      HasEnrollmentIsHasKey(enrollments, student, course);
      AdmissionRespectsCapacity(rows, student, course, courses[course].capacity);
      var inserted := InsertEnrollment(student, course, Enrolled);
      match inserted
      case Err(_) =>
        assert false;
      case Ok(e) =>
        assert EnrollmentRows() == rows + [AdmittedRow(student, course)];
        r := Ok(e);
    }
  }
}
