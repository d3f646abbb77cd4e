/**
 * The access rules of the API: role checks on the requesting user, and ownership
 * checks that relate the requesting user to a course, enrollment or attendance object.
 */
module Permissions {
  import opened Common

  /** The requesting user: anonymous, or a signed-in user with a primary key and a role. */
  datatype Requester = Anonymous | Authenticated(id: UserId, role: UserRole)

  /** The instructor column of a course, as seen through a related object. */
  datatype CourseRef = CourseRef(instructor: Option<UserId>)

  /** The objects the ownership checks are applied to, with the attributes each one has. */
  datatype Obj =
    | CourseObj(instructor: Option<UserId>)
    | LectureObj(course: CourseRef)
    | EnrollmentObj(student: UserId, course: CourseRef)
    | AttendanceObj(student: UserId, course: CourseRef)
    | DepartmentObj
    | UserObj(id: UserId)

  predicate HasInstructor(o: Obj) { o.CourseObj? }
  predicate HasCourse(o: Obj) { o.LectureObj? || o.EnrollmentObj? || o.AttendanceObj? }
  predicate HasStudent(o: Obj) { o.EnrollmentObj? || o.AttendanceObj? }

  /** A stored user reference equals the requesting user: it is set, the requester is signed in, and the keys match. */
  predicate RefersTo(ref: Option<UserId>, u: Requester) {
    ref.Some? && u.Authenticated? && ref.value == u.id
  }

  /** `IsAdmin.has_permission`: a signed-in user whose role column reads ADMIN. */
  predicate IsAdmin(u: Requester): (r: bool)
    ensures r <==> u.Authenticated? && RoleName(u.role) == "ADMIN"
  {
    u.Authenticated? && u.role == Admin
  }

  /** `IsInstructor.has_permission`: a signed-in user whose role column reads LECTURER. */
  predicate IsInstructor(u: Requester): (r: bool)
    ensures r <==> u.Authenticated? && RoleName(u.role) == "LECTURER"
  {
    u.Authenticated? && u.role == Lecturer
  }

  /** `IsStudent.has_permission`: a signed-in user whose role column reads STUDENT. */
  predicate IsStudent(u: Requester): (r: bool)
    ensures r <==> u.Authenticated? && RoleName(u.role) == "STUDENT"
  {
    u.Authenticated? && u.role == Student
  }

  /** The three role checks exclude each other, an anonymous requester passes none, and a signed-in one with a listed role passes exactly one. */
  lemma RoleChecksExclusive(u: Requester)
    ensures !(IsAdmin(u) && IsInstructor(u)) && !(IsAdmin(u) && IsStudent(u)) && !(IsInstructor(u) && IsStudent(u))
    ensures u.Anonymous? ==> !IsAdmin(u) && !IsInstructor(u) && !IsStudent(u)
    ensures u.Authenticated? && !u.role.Other? ==> IsAdmin(u) || IsInstructor(u) || IsStudent(u)
  {
  }

  /**
   * `IsInstructorOfCourse.has_object_permission`: granted when the object's own instructor
   * is the requester, else when the instructor of the object's course is, else denied.
   */
  function IsInstructorOfCourse(u: Requester, o: Obj): (r: bool)
    ensures r <==> (HasInstructor(o) && RefersTo(o.instructor, u)) || (HasCourse(o) && RefersTo(o.course.instructor, u))
    ensures u.Anonymous? ==> !r
    ensures o.DepartmentObj? || o.UserObj? ==> !r
  {
    if HasInstructor(o) && RefersTo(o.instructor, u) then true
    else if HasCourse(o) && RefersTo(o.course.instructor, u) then true
    else false
  }

  /** `IsStudentOwnerOfEnrollment.has_object_permission`: the object's student is the requester. */
  function IsStudentOwnerOfEnrollment(u: Requester, o: Obj): (r: bool)
    requires HasStudent(o)
    ensures r <==> u.Authenticated? && u.id == o.student
  {
    RefersTo(Some(o.student), u)
  }

  /** `IsInstructorOfAttendance.has_object_permission`: the instructor of the object's course is the requester. */
  function IsInstructorOfAttendance(u: Requester, o: Obj): (r: bool)
    requires HasCourse(o)
    ensures r <==> o.course.instructor.Some? && u.Authenticated? && u.id == o.course.instructor.value
  {
    RefersTo(o.course.instructor, u)
  }

  /** `IsStudentOwner.has_object_permission`: denied for an object without a student, else the student is the requester. */
  function IsStudentOwner(u: Requester, o: Obj): (r: bool)
    ensures !HasStudent(o) ==> !r
    ensures HasStudent(o) ==> (r <==> u.Authenticated? && u.id == o.student)
  {
    HasStudent(o) && RefersTo(Some(o.student), u)
  }

  /** Where both apply, the generic owner check and the enrollment owner check agree, and so do the two instructor checks on attendance records. */
  lemma OwnershipChecksAgree(u: Requester, o: Obj)
    ensures HasStudent(o) ==> IsStudentOwner(u, o) == IsStudentOwnerOfEnrollment(u, o)
    ensures o.AttendanceObj? ==> IsInstructorOfCourse(u, o) == IsInstructorOfAttendance(u, o)
  {
  }

  /** A course without an instructor grants the instructor check to nobody, on itself or on any object of it. */
  lemma UnassignedCourseGrantsNobody(u: Requester, o: Obj)
    requires (o.CourseObj? && o.instructor.None?) || (HasCourse(o) && o.course.instructor.None?)
    ensures !IsInstructorOfCourse(u, o)
  {
  }
}
