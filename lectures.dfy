/**
 * Lecture sessions and attendance records: their columns and defaults, the table keys
 * their uniqueness constraints are declared on, and whether a lecture's PIN is still live.
 */
module Lectures {
  import opened Common

  /** Clock readings are integer microseconds, the resolution of Python's datetime. */
  const SECOND: int := 1_000_000
  const MINUTE: int := 60 * SECOND
  const HOUR: int := 60 * MINUTE
  const DAY: int := 24 * HOUR

  /** A PIN is live for ten minutes after it is generated. */
  const PIN_VALIDITY: int := 10 * MINUTE
  /** The `attendance_pin` column holds at most six characters. */
  const PIN_MAX_LENGTH: nat := 6
  /** The `timezone` column holds at most fifty characters. */
  const TIMEZONE_MAX_LENGTH: nat := 50
  const DEFAULT_RADIUS: int := 100
  const DEFAULT_TIMEZONE: string := "Africa/Cairo"

  /** An instant on the server clock, in microseconds. */
  type Instant = int

  /** A wall-clock time of day, in microseconds after local midnight. */
  type TimeOfDay = t: int | 0 <= t < DAY

  /** A lecture row. Coordinates are decimal columns, kept as real numbers. */
  datatype Lecture = Lecture(
    course: CourseId,
    date: int,            // the scheduled date, as a day number
    start: TimeOfDay,
    end: TimeOfDay,
    latitude: real,
    longitude: real,
    radius: int,          // metres
    timezone: string,
    pin: Option<string>,
    pinGeneratedAt: Instant)

  /**
   * A coordinate the decimal columns take: DECIMAL(9,6) for a lecture and DECIMAL(18,15)
   * for an attendance record both leave three digits before the point.
   */
  predicate CoordinateFits(x: real) {
    -1000.0 < x < 1000.0
  }

  /**
   * The lecture's values fit their columns: coordinates within range, a radius within
   * INT, a PIN of at most six characters, if any, and a zone name of at most fifty.
   */
  predicate FitsColumns(l: Lecture) {
    && CoordinateFits(l.latitude) && CoordinateFits(l.longitude)
    && IsInt32(l.radius)
    && (l.pin.None? || |l.pin.value| <= PIN_MAX_LENGTH)
    && |l.timezone| <= TIMEZONE_MAX_LENGTH
  }

  /** The columns the lecture table is unique on: course, scheduled date and start time. */
  datatype LectureSlot = LectureSlot(course: CourseId, date: int, start: TimeOfDay)

  function Slot(l: Lecture): (s: LectureSlot)
    ensures s.course == l.course && s.date == l.date && s.start == l.start
  {
    LectureSlot(l.course, l.date, l.start)
  }

  /**
   * A lecture created at `now` with the column defaults: radius 100 m, zone
   * Africa/Cairo when none is given, and the PIN timestamp set to the creation time.
   */
  function NewLecture(course: CourseId, date: int, start: TimeOfDay, end: TimeOfDay,
                      latitude: real, longitude: real, radius: Option<int>, timezone: Option<string>,
                      pin: Option<string>, now: Instant): (l: Lecture)
    ensures Slot(l) == LectureSlot(course, date, start) && l.end == end
    ensures l.radius == (if radius.Some? then radius.value else DEFAULT_RADIUS)
    ensures l.timezone == (if timezone.Some? then timezone.value else DEFAULT_TIMEZONE)
    ensures l.pin == pin && l.pinGeneratedAt == now
  {
    Lecture(course, date, start, end, latitude, longitude, radius.GetOr(DEFAULT_RADIUS),
            timezone.GetOr(DEFAULT_TIMEZONE), pin, now)
  }

  /**
   * `Lecture.is_pin_active`: a PIN is present (neither null nor empty) and was generated
   * strictly less than ten minutes before `now`.
   */
  function IsPinActive(l: Lecture, now: Instant): (r: bool)
    ensures (l.pin == None || l.pin == Some("")) ==> !r
    ensures l.pin.Some? && l.pin.value != "" ==> (r <==> now < l.pinGeneratedAt + PIN_VALIDITY)
  {
    match l.pin
    case None => false
    case Some(p) => p != "" && now - l.pinGeneratedAt < PIN_VALIDITY
  }

  /** The ten-minute bound is strict: live one microsecond before it, not at it, and never again after. */
  lemma PinExpiryBoundary(l: Lecture, now: Instant)
    requires l.pin.Some? && l.pin.value != ""
    ensures IsPinActive(l, l.pinGeneratedAt + PIN_VALIDITY - 1)
    ensures !IsPinActive(l, l.pinGeneratedAt + PIN_VALIDITY)
    ensures now >= l.pinGeneratedAt + PIN_VALIDITY ==> !IsPinActive(l, now)
    ensures l.pinGeneratedAt <= now < l.pinGeneratedAt + PIN_VALIDITY ==> IsPinActive(l, now)
  {
  }

  /** A PIN whose timestamp lies ahead of the clock also reads as live: only the upper bound is checked. */
  lemma FuturePinIsActive(l: Lecture, now: Instant)
    requires l.pin.Some? && l.pin.value != "" && now < l.pinGeneratedAt
    ensures IsPinActive(l, now)
  {
  }

  datatype AttendanceStatus = Present | Absent | Late

  /** An attendance row. Coordinates are captured when attendance is marked, if at all. */
  datatype Attendance = Attendance(
    student: UserId,
    course: CourseId,
    lecture: LectureId,
    status: AttendanceStatus,
    latitude: Option<real>,
    longitude: Option<real>)

  /** The columns the attendance table is unique on: one record per student and lecture. */
  datatype AttendanceKey = AttendanceKey(student: UserId, lecture: LectureId)

  function AttendanceKeyOf(a: Attendance): (k: AttendanceKey)
    ensures k.student == a.student && k.lecture == a.lecture
  {
    AttendanceKey(a.student, a.lecture)
  }

  /** The attendance record's coordinates, where given, fit their columns. */
  predicate AttendanceFitsColumns(a: Attendance) {
    (a.latitude.None? || CoordinateFits(a.latitude.value))
    && (a.longitude.None? || CoordinateFits(a.longitude.value))
  }

  /** A new attendance row; its status is ABSENT unless one is given. */
  function NewAttendance(student: UserId, course: CourseId, lecture: LectureId, status: Option<AttendanceStatus>,
                         latitude: Option<real>, longitude: Option<real>): (a: Attendance)
    ensures AttendanceKeyOf(a) == AttendanceKey(student, lecture) && a.course == course
    ensures status.None? ==> a.status == Absent
    ensures status.Some? ==> a.status == status.value
    ensures a.latitude == latitude && a.longitude == longitude
  {
    Attendance(student, course, lecture, status.GetOr(Absent), latitude, longitude)
  }
}
