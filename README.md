# Smart portal record rules in Dafny

This project models the record rules of a role-based academic portal, a Django REST
backend. Its users are administrators, lecturers and students. Courses have a capacity.
Students enrol in courses. Lectures are scheduled sessions that carry a short-lived PIN.
Attendance records link a student to a lecture. The model covers:

- **Users** (`Accounts`): the user manager's `create_user` and `create_superuser`, and
  `User.save`, which keeps the staff flag equal to "role is ADMIN or LECTURER". Also the
  registration serializer, which gives a new user the role STUDENT when none is given
  and passes a name that was left out on as a null.
- **Enrollments and seats** (`Enrollments`): the `enroll`, `drop` and `complete`
  transitions of an enrollment object. Each object counts the row writes it makes, so the
  model can state that `enroll` and `drop` skip the write when nothing changes. Also
  `seats_left` / `is_full`, which count only ENROLLED rows, and the enrollment
  serializer's admission check. A student with any row for the course is refused first.
  Otherwise a full course is refused.
- **Lectures and attendance** (`Lectures`): column defaults, the table keys, and
  `is_pin_active`. A PIN must be present, and the PIN is live for strictly less than
  ten minutes.
- **Helpers** (`Utils`): `generate_random_pin`, modelled as a choice from A–Z0–9 for
  each position, and `is_within_time_window`. The window is the buffered interval
  `[start − w, end + w]` on the current local date, with both ends included. An end
  earlier than the start moves to the next day.
- **Access rules** (`Permissions`): the role checks and the object-ownership checks.
- **Stored state** (`Portal`): the course, lecture, enrollment and attendance tables.
  Their invariant is the three `unique_together` constraints: (course, date, start),
  (student, course) and (student, lecture). Every insert keeps it. The generic
  constraint lives in `Tables`.

Times are integer microseconds, the resolution of Python's datetime. A time of day is
counted from local midnight. The time-window check reads the wall-clock time in the
lecture's zone from a clock passed in as a parameter. Zone names the zone database does
not know fall back to UTC.

## Model

| member | source | states |
|---|---|---|
| Common.RoleOf | backend/api/models.py:42-51 | reading a stored role text gives ADMIN, LECTURER or STUDENT for exactly those texts and any other text as an unlisted role; the text is recovered from the role |
| Common.RoleRoundTrip | backend/api/models.py:42-51 | a user's role written to the column and read back is the same role, and two user roles are equal iff their texts are, so comparing roles is comparing role texts |
| Tables.Insert | backend/api/models.py:181-182 | an insert is refused exactly when the key is already present; otherwise the row is appended; the uniqueness constraint is preserved |
| Tables.InsertAllKeepsUnique | backend/api/models.py:228-230 | any sequence of inserts keeps the table free of duplicate keys, never rewrites an existing row, and leaves every attempted key present |
| Accounts.SetDefault | backend/api/models.py:27-30 | `setdefault` adds the key with the default only when it is absent and changes no other key |
| Accounts.BoolColumn | backend/api/models.py:53-54 | a boolean saved to a boolean column is stored as is; null is refused |
| Accounts.TextColumn | backend/api/models.py:48-51 | a text saved to a character column is stored as is when it fits the column and refused when it is longer; null is refused |
| Accounts.RoleColumn | backend/api/models.py:51 | a text saved to the ten-character role column is refused iff it is longer than ten characters, and otherwise read back as the role whose text it is; null is refused |
| Accounts.NewUserRow | backend/api/models.py:17-24 | an empty email is refused first; the row is stored iff the email fits its column, every keyword is one the model accepts, and every given name, role and flag value is one its column takes; the row then keeps the email, takes names, role, superuser and active flags from the arguments or their defaults ("", STUDENT, false, true), and is staff iff its role is ADMIN or LECTURER |
| Accounts.SuperuserFields | backend/api/models.py:27-30 | the arguments gain is_staff, is_superuser, is_active = True and role = ADMIN where absent; given values are kept |
| Accounts.User.Save | backend/api/models.py:68-73 | after saving, the staff flag is true iff the role is ADMIN or LECTURER, and no other column changes |
| Accounts.UserManager.CreateUser | backend/api/models.py:17-24 | on an error nothing is stored; on success exactly one fresh user is appended, its columns those of NewUserRow, and every stored user stays staff-consistent |
| Accounts.UserManager.CreateSuperuser | backend/api/models.py:26-37 | fails with the staff error iff is_staff was given as anything but True, with the superuser error iff is_superuser was; otherwise the outcome is exactly create_user's on the defaulted arguments: its error with nothing stored, or one fresh user appended whose columns are NewUserRow of those arguments |
| Accounts.RegisteredRow | backend/api/serializers.py:34-43 | given the validated data `create` receives: registering succeeds iff the email is non-empty and fits, both names are given and fit, and the role text fits; the user then has the given email and names, the requested role (STUDENT when none is given), is staff iff that role is ADMIN or LECTURER, is active and not a superuser |
| Accounts.Register | backend/api/serializers.py:34-43 | `create(validated_data)`: on an error nothing is stored and the error is RegisteredRow's; on success exactly one fresh user is appended whose columns are RegisteredRow's |
| Accounts.RegistrationWithoutFirstNameRefused | backend/api/serializers.py:39 | a registration that leaves out the first name is refused with the first-name column's error, whatever else is given |
| Accounts.IntendedRegisteredRow | backend/api/models.py:49-50 | corrected registration: a name left out is stored as the empty text and is never a reason to refuse; with both names given it agrees with RegisteredRow |
| Accounts.SuperuserDefaults | backend/api/models.py:26-37 | a superuser created from an email alone is an active ADMIN with the staff and superuser flags set |
| Accounts.SuperuserWithStudentRoleIsNotStaff | backend/api/models.py:68-73 | a superuser created with role STUDENT passes the is_staff check but is stored as non-staff |
| Enrollments.Apply | backend/api/models.py:187-201 | enroll and drop set their status and keep grade and letter; complete sets COMPLETED with the given grade and letter from any status; student and course never change |
| Enrollments.TransitionIdempotent | backend/api/models.py:187-195 | enroll and drop are idempotent and the second call writes nothing; a call that would not write leaves the row unchanged |
| Enrollments.Enrollment.Enroll | backend/api/models.py:187-190 | the object's row becomes Apply(enroll) of the old row; one write exactly when the status was not ENROLLED |
| Enrollments.Enrollment.Drop | backend/api/models.py:192-195 | the object's row becomes Apply(drop) of the old row; one write exactly when the status was not DROPPED |
| Enrollments.Enrollment.Complete | backend/api/models.py:179-201 | the save succeeds, and counts as one write, iff the letter is absent or at most two characters; then the row becomes COMPLETED with the given grade and letter; a refused save leaves the stored row, and so the seat count, as it was |
| Enrollments.EnrolledCount | backend/api/models.py:113 | the count of ENROLLED rows of a course is at most the number of rows, and zero when no row holds a seat |
| Enrollments.EnrolledCountIsSeatHolders | backend/api/models.py:112-114 | the count equals the number of rows of the course whose status is ENROLLED; PENDING, DROPPED and COMPLETED rows and other courses are not counted |
| Enrollments.EnrolledCountUpdate | backend/api/models.py:112-114 | replacing one row changes the count by the seat the new row holds minus the seat the old row held |
| Enrollments.EnrolledCountAppend | backend/api/models.py:113 | appending a row adds one to the count exactly when the row is an ENROLLED row of the course |
| Enrollments.TransitionSeats | backend/api/models.py:187-201 | enroll takes a seat iff the row was not ENROLLED; drop and complete free a seat iff it was; other courses' counts do not move |
| Enrollments.SeatsLeft | backend/api/models.py:112-114 | seats left is the capacity minus the number of ENROLLED rows of the course, never more than the capacity |
| Enrollments.IsFull | backend/api/models.py:116-117 | a course is full iff its ENROLLED rows reach its capacity; a course of capacity zero or less is always full |
| Enrollments.HasEnrollment | backend/api/serializers.py:111 | the lookup finds a row iff some row of the table has the student and the course, whatever its status |
| Enrollments.ValidateCourse | backend/api/serializers.py:106-118 | refused as already enrolled iff any row links the student to the course, whatever its status; otherwise refused as full iff the course is full; otherwise the course passes unchanged |
| Enrollments.AdmittedRow | backend/api/serializers.py:120-126 | the inserted row has the requesting student, the course, status ENROLLED and no grade |
| Enrollments.AdmissionRespectsCapacity | backend/api/serializers.py:106-126 | a validated admission takes exactly one more seat and never takes the course past its capacity |
| Lectures.NewLecture | backend/api/models.py:130-145 | a new lecture has the 100 m radius and Africa/Cairo zone defaults, and its PIN timestamp is the creation time |
| Lectures.IsPinActive | backend/api/models.py:154-159 | no PIN or an empty PIN is never active; otherwise the PIN is active iff fewer than ten minutes have passed since it was generated |
| Lectures.PinExpiryBoundary | backend/api/models.py:154-159 | active one microsecond before the ten-minute mark, inactive at it and after it, active throughout the ten minutes from generation |
| Lectures.FuturePinIsActive | backend/api/models.py:159 | a PIN whose timestamp is ahead of the clock is active, since only the upper bound is compared |
| Lectures.NewAttendance | backend/api/models.py:213-226 | a new attendance record has status ABSENT unless one is given, and keeps the student, course, lecture and coordinates |
| Utils.GenerateRandomPin | backend/api/utils.py:32-35 | the PIN has exactly the requested number of characters (none for a negative length), each an upper-case letter or a digit |
| Utils.DefaultPinFitsColumn | backend/api/models.py:144 | a PIN of the default length six fits the six-character column and is not empty |
| Utils.FreshPinLiveness | backend/api/models.py:154-159 | a default-length PIN stored at time t is active exactly while less than ten minutes have passed since t |
| Utils.ResolveZone | backend/api/utils.py:42-48 | a known zone name stands for itself; an unknown one falls back to UTC |
| Utils.InWindow | backend/api/utils.py:52-72 | when end ≥ start the time must lie in [start − w, end + w]; when end < start, in [start − w, end + 24 h + w]; both ends inclusive |
| Utils.IsWithinTimeWindow | backend/api/utils.py:37-72 | with t the time of day in the resolved zone: for a lecture within one day, open iff start − w ≤ t ≤ end + w; for one crossing midnight with a non-negative buffer, open iff t ≥ start − w, the end never limiting it; the default buffer is 15 minutes |
| Utils.WindowIgnoresDate | backend/api/utils.py:50-57 | two clocks that agree on the time of day in the zone give the same answer, whatever their dates |
| Utils.UnknownZoneFallsBackToUtc | backend/api/utils.py:42-48 | a zone name unknown to the zone database answers exactly as "UTC" does |
| Utils.WindowMonotone | backend/api/utils.py:67-72 | widening the buffer never turns an accepted time into a refused one |
| Utils.CrossingLectureRefusedAfterMidnight | backend/api/utils.py:53-65 | a 23:00–01:00 lecture is refused at 00:30 with the default buffer |
| Utils.InWindowAcrossMidnight | backend/api/utils.py:63-72 | corrected window: unchanged for a lecture within one day; for one crossing midnight with a non-negative buffer, open iff the time is at or after start − w or at or before end + w |
| Utils.CrossingLectureOpenAfterMidnight | backend/api/utils.py:63-72 | with the corrected window the 23:00–01:00 lecture is open at 00:30 |
| Permissions.IsAdmin | backend/api/permissions.py:4-8 | granted iff the user is signed in and the role text is ADMIN |
| Permissions.IsInstructor | backend/api/permissions.py:10-14 | granted iff the user is signed in and the role text is LECTURER |
| Permissions.IsStudent | backend/api/permissions.py:16-20 | granted iff the user is signed in and the role text is STUDENT |
| Permissions.RoleChecksExclusive | backend/api/permissions.py:4-20 | at most one of IsAdmin, IsInstructor and IsStudent holds; an anonymous user passes none; a signed-in user with a listed role passes exactly one |
| Permissions.IsInstructorOfCourse | backend/api/permissions.py:27-34 | granted iff the object's own instructor is the user or the instructor of the object's course is; never to an anonymous user, a department or a user object |
| Permissions.IsStudentOwnerOfEnrollment | backend/api/permissions.py:41-43 | granted iff the enrollment's student is the signed-in user |
| Permissions.IsInstructorOfAttendance | backend/api/permissions.py:50-52 | granted iff the record's course has an instructor and it is the signed-in user |
| Permissions.IsStudentOwner | backend/api/permissions.py:59-62 | denied for an object without a student; otherwise granted iff that student is the signed-in user |
| Permissions.OwnershipChecksAgree | backend/api/permissions.py:41-62 | the generic owner check agrees with the enrollment owner check, and on attendance records the course-instructor check agrees with the attendance-instructor check |
| Permissions.UnassignedCourseGrantsNobody | backend/api/permissions.py:27-34 | a course without an instructor grants the instructor check to nobody, on itself or through a related object |
| Portal.ValidateInstructor | backend/api/serializers.py:83-87 | no instructor, or one with role LECTURER, passes unchanged; any other role is refused |
| Portal.HasEnrollmentIsHasKey | backend/api/serializers.py:110-112 | the serializer's "already enrolled" lookup finds a row exactly when the enrollment table's key is present |
| Portal.Portal.CourseSeatsLeft | backend/api/models.py:112-114 | a stored course's seats left is its capacity minus its ENROLLED rows |
| Portal.Portal.CreateCourse | backend/api/models.py:92-104 | refused iff an instructor is given whose role is not LECTURER (the field offers LECTURER users only) or the capacity is outside INT, with exactly those errors reported together; otherwise one course row is appended, capacity 30 by default |
| Portal.Portal.InsertLecture | backend/api/models.py:136-148 | refused as a data error iff a coordinate is outside DECIMAL(9,6), the radius outside INT, the PIN over six characters or the zone name over fifty; otherwise refused as a duplicate iff the course already has a lecture on that date at that start time; otherwise appended with its PIN timestamp set to the insertion time, so a non-empty PIN is live at that moment; the table invariant holds |
| Portal.Portal.InsertEnrollment | backend/api/models.py:181-182 | refused iff the student already has a row for the course; otherwise one fresh row is appended; the table invariant holds |
| Portal.Portal.InsertAttendance | backend/api/models.py:224-230 | refused as a data error iff a given coordinate is outside DECIMAL(18,15); otherwise refused as a duplicate iff the student already has a record for the lecture; otherwise the record is appended with status ABSENT by default; the table invariant holds |
| Portal.Portal.CreateEnrollment | backend/api/serializers.py:106-126 | refused with ValidateCourse's error and nothing written, or one fresh ENROLLED row for the student is appended; the uniqueness invariant holds and the course stays within its capacity |

## Left out

- `calculate_distance` (backend/api/utils.py:9-30): a floating-point haversine using trigonometry, `atan2` and `sqrt`. No code in this model uses it.
- Randomness: `generate_random_pin` picks each character by an arbitrary choice from the alphabet. Its distribution is not modelled.
- Time-zone localisation: the clock parameter supplies the local date and time in a zone. Daylight-saving effects of `localize`, such as ambiguous or missing local times, are not modelled, so instants and wall-clock times are treated alike.
- `normalize_email`, `set_password` and password hashing are library calls and are not modelled. The values of the `date_joined`, `master_pin`, `last_login`, `password` and primary-key keyword arguments are accepted and not followed; the primary key is the row's position.
- Accounts.RegisteredRow: models `create(validated_data)` only. The serializer's field validation that runs before it is not modelled: the role choices, the email format, and the name lengths. A role such as "ROOT" or a malformed email is refused there and never reaches `create`.
- Accounts.NewUserRow: a keyword that names no column of the user model is refused, as the model's constructor raises a TypeError for it; keywords that name a read-only property or a many-to-many field are treated the same way, and `email` given twice is refused. Character columns are checked against their lengths as MySQL does in strict mode, its default since version 5.7; a server run without strict mode would truncate instead.
- The unique constraint on the user's email and the uniqueness of course and department codes are not modelled.
- Accounts.NewUserRow: only booleans and the texts t/True/1 and f/False/0 are accepted for a boolean column, and null is refused. The database layer's exact exception class, and which error comes first when several values are bad, are approximated.
- Portal.Portal.CreateCourse: only the instructor and capacity fields are modelled. The validation of the name, code, description, credits, department and dates is not, and neither is the serializer's update path.
- Foreign keys: the ids in enrollment and attendance rows are not checked against the user, course and lecture tables. Cascading deletes are not modelled. Creating an enrollment assumes the course exists, because the serializer's course field resolves the key before `validate_course` runs.
- Concurrency: the uniqueness constraints are modelled as a sequential table invariant. Races between the admission check and the insert are enforced by the database and are not modelled.
- Persistence: an object and its stored row are modelled as one. Enrollment objects count their writes, and user objects do not. When `complete` is refused by the database, the Python object keeps the new values in memory while the stored row keeps the old ones; the model follows the stored row.
- JWT claim customisation, the read-only field lists of the serializers, the views, URL routing, admin registration and settings: these are wiring with no rules.
- The `master_pin` column is declared but used nowhere, so it is not modelled. No code issues or rotates PINs, marks attendance, overrides attendance or builds attendance reports, and the model does not invent them.
- Lecture coordinates and radius are stored but never compared, because the distance check is out of scope. The timezone choices are not enforced when a row is saved, so any name of at most fifty characters is kept. A coordinate is taken to fit its decimal column when it lies strictly between −1000 and 1000; a value that rounds up to 1000 at the column's precision is not singled out.

## Findings

| source | as written | input that shows it | evidently intended | confidence | as-written member | corrected member |
|---|---|---|---|---|---|---|
| backend/api/serializers.py:39-40 | a name left out of the registration reaches `create_user` as None, and the NOT NULL name column refuses it | email "a@b.c", no first name: refused with an integrity error | accepted with an empty first name, since the name fields are declared optional (models.py:49-50) | medium, not executed | Accounts.RegistrationWithoutFirstNameRefused | Accounts.IntendedRegisteredRow |
| backend/api/utils.py:53-65 | start and end are placed on the current local date, and only the end moves to the next day, so a lecture that crosses midnight is outside its window once midnight has passed | start 23:00, end 01:00, now 00:30 local, buffer 15 minutes: refused | accepted, since the lecture that began at 23:00 the previous evening is still running | high, not executed | Utils.CrossingLectureRefusedAfterMidnight | Utils.InWindowAcrossMidnight |
