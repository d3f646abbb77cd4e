/**
 * Enrollment rows, their status transitions (`enroll`, `drop`, `complete`), a course's
 * seat count, and the admission check of the enrollment serializer.
 */
module Enrollments {
  import opened Common

  datatype EnrollmentStatus = Pending | Enrolled | Dropped | Completed

  /** The columns of an enrollment row. `grade` is a float column, kept as a real number. */
  datatype EnrollmentRow = EnrollmentRow(
    student: UserId,
    course: CourseId,
    status: EnrollmentStatus,
    grade: Option<real>,
    letter: Option<string>)

  /** The `final_grade_letter` column holds at most two characters. */
  const LETTER_MAX_LENGTH: nat := 2

  /** A grade letter the column takes: none, or at most two characters. */
  predicate LetterFits(letter: Option<string>) {
    letter.None? || |letter.value| <= LETTER_MAX_LENGTH
  }

  /** The status transitions an enrollment object offers. */
  datatype Transition = ToEnrolled | ToDropped | ToCompleted(grade: Option<real>, letter: Option<string>)

  /** The row after a transition. */
  function Apply(t: Transition, r: EnrollmentRow): (r': EnrollmentRow)
    ensures r'.student == r.student && r'.course == r.course
    ensures !t.ToCompleted? ==> r'.grade == r.grade && r'.letter == r.letter
    ensures t == ToEnrolled ==> r'.status == Enrolled
    ensures t == ToDropped ==> r'.status == Dropped
    ensures t.ToCompleted? ==> r'.status == Completed && r'.grade == t.grade && r'.letter == t.letter
  {
    match t
    case ToEnrolled => r.(status := Enrolled)
    case ToDropped => r.(status := Dropped)
    case ToCompleted(g, l) => r.(status := Completed, grade := g, letter := l)
  }

  /** Whether a transition saves the row: `enroll` and `drop` skip the save when the status is already there; `complete` always tries. */
  predicate Writes(t: Transition, r: EnrollmentRow) {
    match t
    case ToEnrolled => r.status != Enrolled
    case ToDropped => r.status != Dropped
    case ToCompleted(_, _) => true
  }

  /** `enroll` and `drop` are idempotent: a second call changes nothing and writes nothing. */
  lemma TransitionIdempotent(t: Transition, r: EnrollmentRow)
    requires !t.ToCompleted?
    ensures Apply(t, Apply(t, r)) == Apply(t, r)
    ensures !Writes(t, Apply(t, r))
    ensures !Writes(t, r) ==> Apply(t, r) == r
  {
  }

  /** An enrollment object; `saves` counts the row writes its methods have made. */
  class Enrollment {
    const student: UserId
    const course: CourseId
    var status: EnrollmentStatus
    var grade: Option<real>
    var letter: Option<string>
    var saves: nat

    function Row(): (r: EnrollmentRow)
      reads this
      ensures r.student == student && r.course == course && r.status == status
    {
      EnrollmentRow(student, course, status, grade, letter)
    }

    /** A new row: no grade and no letter yet. */
    constructor (student: UserId, course: CourseId, status: EnrollmentStatus)
      ensures Row() == EnrollmentRow(student, course, status, None, None)
      ensures saves == 0
    {
      this.student := student;
      this.course := course;
      this.status := status;
      this.grade := None;
      this.letter := None;
      this.saves := 0;
    }

    /** `Enrollment.enroll`. */
    method Enroll()
      modifies this
      ensures Row() == Apply(ToEnrolled, old(Row()))
      ensures saves == old(saves) + (if Writes(ToEnrolled, old(Row())) then 1 else 0)
    {
      if status != Enrolled {
        status := Enrolled;
        saves := saves + 1;
      }
    }

    /** `Enrollment.drop`. */
    method Drop()
      modifies this
      ensures Row() == Apply(ToDropped, old(Row()))
      ensures saves == old(saves) + (if Writes(ToDropped, old(Row())) then 1 else 0)
    {
      if status != Dropped {
        status := Dropped;
        saves := saves + 1;
      }
    }

    /**
     * `Enrollment.complete(grade, letter)`: from any status. The save succeeds exactly when
     * the letter fits its column; a refused save leaves the stored row as it was.
     */
    method Complete(grade: Option<real>, letter: Option<string>) returns (saved: bool)
      modifies this
      ensures saved <==> LetterFits(letter)
      ensures saved ==> Row() == Apply(ToCompleted(grade, letter), old(Row()))
      ensures !saved ==> Row() == old(Row())
      ensures saves == old(saves) + (if saved then 1 else 0)
    {
      saved := LetterFits(letter);
      if saved {
        status := Completed;
        this.grade := grade;
        this.letter := letter;
        saves := saves + 1;
      }
    }
  }

  /** The rows as stored in the table, read from their objects. */
  function Rows(es: seq<Enrollment>): (rs: seq<EnrollmentRow>)
    reads es
    ensures |rs| == |es|
    ensures forall i :: 0 <= i < |es| ==> rs[i] == es[i].Row()
  {
    seq(|es|, i requires 0 <= i < |es| reads es => es[i].Row())
  }

  /** Row `r` holds a seat of course `c`. */
  predicate HoldsSeat(r: EnrollmentRow, c: CourseId) {
    r.course == c && r.status == Enrolled
  }

  /** The number of rows of course `c` whose status is ENROLLED (`enrollments.filter(status='ENROLLED').count()`). */
  function EnrolledCount(rows: seq<EnrollmentRow>, c: CourseId): (n: nat)
    ensures n <= |rows|
    ensures n == 0 <== forall i :: 0 <= i < |rows| ==> !HoldsSeat(rows[i], c)
  {
    if rows == [] then 0
    else EnrolledCount(rows[..|rows| - 1], c) + (if HoldsSeat(rows[|rows| - 1], c) then 1 else 0)
  }

  /** The positions of the rows that hold a seat of course `c`. */
  ghost function SeatHolders(rows: seq<EnrollmentRow>, c: CourseId): set<nat> {
    set i: nat | i < |rows| && HoldsSeat(rows[i], c)
  }

  /** The count agrees with the set of seat-holding rows: PENDING, DROPPED and COMPLETED rows and other courses' rows are not counted. */
  lemma {:induction false} EnrolledCountIsSeatHolders(rows: seq<EnrollmentRow>, c: CourseId)
    ensures EnrolledCount(rows, c) == |SeatHolders(rows, c)|
  {
    if rows != [] {
      var n := |rows| - 1;
      var front := rows[..n];
      EnrolledCountIsSeatHolders(front, c);
      if HoldsSeat(rows[n], c) {
        assert SeatHolders(rows, c) == SeatHolders(front, c) + {n};
      } else {
        assert SeatHolders(rows, c) == SeatHolders(front, c);
      }
    }
  }

  /** Replacing one row changes the count by what the old row held and the new row holds. */
  lemma {:induction false} EnrolledCountUpdate(rows: seq<EnrollmentRow>, i: nat, r: EnrollmentRow, c: CourseId)
    requires i < |rows|
    ensures EnrolledCount(rows[i := r], c)
         == EnrolledCount(rows, c) - (if HoldsSeat(rows[i], c) then 1 else 0) + (if HoldsSeat(r, c) then 1 else 0)
  {
    var n := |rows| - 1;
    var rows' := rows[i := r];
    assert rows'[..n] == if i == n then rows[..n] else rows[..n][i := r];
    if i < n {
      EnrolledCountUpdate(rows[..n], i, r, c);
    }
  }

  /** Appending a row adds one seat exactly when the new row holds a seat of `c`. */
  lemma EnrolledCountAppend(rows: seq<EnrollmentRow>, r: EnrollmentRow, c: CourseId)
    ensures EnrolledCount(rows + [r], c) == EnrolledCount(rows, c) + (if HoldsSeat(r, c) then 1 else 0)
  {
    assert (rows + [r])[..|rows|] == rows;
  }

  /** How each transition moves the seat count of the row's course. */
  lemma TransitionSeats(rows: seq<EnrollmentRow>, i: nat, t: Transition)
    requires i < |rows|
    ensures var c := rows[i].course;
      EnrolledCount(rows[i := Apply(t, rows[i])], c)
        == EnrolledCount(rows, c)
           + (if t == ToEnrolled && rows[i].status != Enrolled then 1 else 0)
           - (if t != ToEnrolled && rows[i].status == Enrolled then 1 else 0)
    ensures forall c :: c != rows[i].course ==> EnrolledCount(rows[i := Apply(t, rows[i])], c) == EnrolledCount(rows, c)
  {
    EnrolledCountUpdate(rows, i, Apply(t, rows[i]), rows[i].course);
    forall c | c != rows[i].course
      ensures EnrolledCount(rows[i := Apply(t, rows[i])], c) == EnrolledCount(rows, c)
    {
      EnrolledCountUpdate(rows, i, Apply(t, rows[i]), c);
    }
  }

  /** `Course.seats_left`: capacity minus the ENROLLED rows of the course; negative when over-booked. */
  function SeatsLeft(capacity: int, rows: seq<EnrollmentRow>, c: CourseId): (s: int)
    ensures s == capacity - |SeatHolders(rows, c)|
    ensures s <= capacity
  {
    EnrolledCountIsSeatHolders(rows, c);
    capacity - EnrolledCount(rows, c)
  }

  /** `Course.is_full`: no seat is left, that is, the ENROLLED rows have reached the capacity. */
  predicate IsFull(capacity: int, rows: seq<EnrollmentRow>, c: CourseId): (r: bool)
    ensures r <==> |SeatHolders(rows, c)| >= capacity
    ensures capacity <= 0 ==> r
  {
    SeatsLeft(capacity, rows, c) <= 0
  }

  /** `Enrollment.objects.filter(student=student, course=c).exists()`: a row links them, whatever its status. */
  predicate HasEnrollment(rows: seq<EnrollmentRow>, student: UserId, c: CourseId): (r: bool)
    ensures r <==> exists row :: row in rows && row.student == student && row.course == c
    ensures !r ==> forall i :: 0 <= i < |rows| && rows[i].course == c ==> rows[i].student != student
  {
    exists i :: 0 <= i < |rows| && rows[i].student == student && rows[i].course == c
  }

  datatype AdmissionError =
    | AlreadyEnrolled   // "You are already enrolled in this course."
    | CourseFull        // "This course is full."

  /**
   * `EnrollmentCreateSerializer.validate_course`: any existing row for the student and the
   * course is refused first, then a full course; otherwise the course passes unchanged.
   */
  function ValidateCourse(rows: seq<EnrollmentRow>, student: UserId, c: CourseId, capacity: int): (r: Result<CourseId, AdmissionError>)
    ensures r == Err(AlreadyEnrolled) <==> HasEnrollment(rows, student, c)
    ensures r == Err(CourseFull) <==> !HasEnrollment(rows, student, c) && |SeatHolders(rows, c)| >= capacity
    ensures r.Ok? ==> r.value == c
  {
    if HasEnrollment(rows, student, c) then Err(AlreadyEnrolled)
    else if IsFull(capacity, rows, c) then Err(CourseFull)
    else Ok(c)
  }

  /** The row `EnrollmentCreateSerializer.create` inserts for the requesting student. */
  function AdmittedRow(student: UserId, c: CourseId): (r: EnrollmentRow)
    ensures r.student == student && r.course == c && HoldsSeat(r, c)
    ensures r.grade == None && r.letter == None
  {
    EnrollmentRow(student, c, Enrolled, None, None)
  }

  /** Admission never over-books: after a validated insert the course holds at most `capacity` seats and one more than before. */
  lemma AdmissionRespectsCapacity(rows: seq<EnrollmentRow>, student: UserId, c: CourseId, capacity: int)
    requires ValidateCourse(rows, student, c, capacity).Ok?
    ensures |SeatHolders(rows + [AdmittedRow(student, c)], c)| == |SeatHolders(rows, c)| + 1
    ensures |SeatHolders(rows + [AdmittedRow(student, c)], c)| <= capacity
  {
    EnrolledCountAppend(rows, AdmittedRow(student, c), c);
    EnrolledCountIsSeatHolders(rows, c);
    EnrolledCountIsSeatHolders(rows + [AdmittedRow(student, c)], c);
  }
}
