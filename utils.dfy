/**
 * The helpers of the attendance layer: PIN generation and the lecture time-window
 * test. The time-window test reads the current wall-clock time in the lecture's zone
 * from a clock passed in as a parameter; time zones are identified by name.
 */
module Utils {
  import opened Common
  import opened Lectures

  /** The characters a PIN is drawn from: upper-case ASCII letters, then digits. */
  const PIN_ALPHABET: string := "ABCDEFGHIJKLMNOPQRSTUVWXYZ0123456789"
  const DEFAULT_PIN_LENGTH: int := 6

  /** The shape of a PIN asked for with `length`: that many characters (none when negative), all from the alphabet. */
  predicate PinShaped(s: string, length: int) {
    |s| == (if length < 0 then 0 else length)
    && forall i :: 0 <= i < |s| ==> s[i] in PIN_ALPHABET
  }

  /**
   * `generate_random_pin(length)`: one character per position, each an arbitrary choice
   * from the alphabet (the source draws it at random).
   */
  method GenerateRandomPin(length: int := DEFAULT_PIN_LENGTH) returns (pin: string)
    ensures PinShaped(pin, length)
  {
    pin := "";
    var i := 0;
    while i < length
      invariant i <= if length < 0 then 0 else length
      invariant |pin| == i
      invariant forall k :: 0 <= k < |pin| ==> pin[k] in PIN_ALPHABET
    {
      assert PIN_ALPHABET[0] in PIN_ALPHABET;
      var c :| c in PIN_ALPHABET;
      pin := pin + [c];
      i := i + 1;
    }
  }

  /** A PIN of the default length fits the six-character PIN column and is never empty. */
  lemma DefaultPinFitsColumn(s: string)
    requires PinShaped(s, DEFAULT_PIN_LENGTH)
    ensures |s| <= PIN_MAX_LENGTH && s != ""
  {
  }

  /** A default-length PIN stored at `t` is live exactly during the ten minutes from `t`. */
  lemma FreshPinLiveness(l: Lecture, s: string, t: Instant, now: Instant)
    requires PinShaped(s, DEFAULT_PIN_LENGTH)
    ensures IsPinActive(l.(pin := Some(s), pinGeneratedAt := t), now) <==> now - t < PIN_VALIDITY
  {
    DefaultPinFitsColumn(s);
  }

  /** The local date and wall-clock time in some zone. */
  datatype LocalDateTime = LocalDateTime(date: int, time: TimeOfDay)

  /** The zone a lecture's zone name stands for: itself when the zone database knows it, otherwise UTC. */
  function ResolveZone(name: string, known: set<string>): (z: string)
    ensures name in known ==> z == name
    ensures name !in known ==> z == "UTC"
  {
    if name in known then name else "UTC"
  }

  const DEFAULT_WINDOW_MINUTES: int := 15

  /**
   * The time-window comparison, with every instant measured from today's local midnight:
   * start and end are put on today's date, the end moves to the next day when it is
   * earlier than the start, and `now` must lie in the buffered interval, both ends included.
   */
  function InWindow(start: TimeOfDay, end: TimeOfDay, now: int, windowMinutes: int): (r: bool)
    ensures end >= start ==>
      (r <==> start - windowMinutes * MINUTE <= now <= end + windowMinutes * MINUTE)
    ensures end < start ==>
      (r <==> start - windowMinutes * MINUTE <= now <= end + DAY + windowMinutes * MINUTE)
  {
    var startAt := start;
    var endAt := if end < start then end + DAY else end;
    var buffer := windowMinutes * MINUTE;
    startAt - buffer <= now && now <= endAt + buffer
  }

  /**
   * `is_within_time_window(start, end, zone, window)`: reads the clock in the lecture's
   * zone (UTC when the name is unknown) and compares its time of day with the window.
   * For a lecture that crosses midnight the moved end lies beyond any time of today, so
   * only the buffered start is ever compared.
   */
  function IsWithinTimeWindow(start: TimeOfDay, end: TimeOfDay, zone: string, known: set<string>,
                              clock: string -> LocalDateTime, windowMinutes: int := DEFAULT_WINDOW_MINUTES): (r: bool)
    ensures var now := clock(ResolveZone(zone, known)).time;
      end >= start ==> (r <==> start - windowMinutes * MINUTE <= now <= end + windowMinutes * MINUTE)
    ensures var now := clock(ResolveZone(zone, known)).time;
      end < start && windowMinutes >= 0 ==> (r <==> start - windowMinutes * MINUTE <= now)
  {
    var local := clock(ResolveZone(zone, known));
    InWindow(start, end, local.time, windowMinutes)
  }

  /** Only the zone's time of day matters: two clocks that agree on it agree on the answer, whatever their dates. */
  lemma WindowIgnoresDate(start: TimeOfDay, end: TimeOfDay, zone: string, known: set<string>,
                          c1: string -> LocalDateTime, c2: string -> LocalDateTime, windowMinutes: int)
    requires c1(ResolveZone(zone, known)).time == c2(ResolveZone(zone, known)).time
    ensures IsWithinTimeWindow(start, end, zone, known, c1, windowMinutes)
         == IsWithinTimeWindow(start, end, zone, known, c2, windowMinutes)
  {
  }

  /** An unknown zone name behaves exactly like "UTC". */
  lemma UnknownZoneFallsBackToUtc(start: TimeOfDay, end: TimeOfDay, zone: string, known: set<string>,
                                  clock: string -> LocalDateTime, windowMinutes: int)
    requires zone !in known
    ensures IsWithinTimeWindow(start, end, zone, known, clock, windowMinutes)
         == IsWithinTimeWindow(start, end, "UTC", known, clock, windowMinutes)
  {
  }

  /** Widening the buffer never closes the window. */
  lemma WindowMonotone(start: TimeOfDay, end: TimeOfDay, now: int, w1: int, w2: int)
    requires w1 <= w2
    ensures InWindow(start, end, now, w1) ==> InWindow(start, end, now, w2)
  {
  }

  /**
   * The window is anchored to the current date only, so a lecture that runs past midnight
   * is refused after midnight: 23:00 to 01:00, checked at 00:30 with the default buffer.
   */
  lemma CrossingLectureRefusedAfterMidnight()
    ensures !InWindow(23 * HOUR, 1 * HOUR, 30 * MINUTE, DEFAULT_WINDOW_MINUTES)
  {
  }

  /**
   * The window a lecture that runs past midnight evidently intends: the session that
   * started today, or the one that started yesterday and is still running.
   */
  function InWindowAcrossMidnight(start: TimeOfDay, end: TimeOfDay, now: TimeOfDay, windowMinutes: int): (r: bool)
    ensures end >= start ==> r == InWindow(start, end, now, windowMinutes)
    ensures end < start && windowMinutes >= 0 ==>
      (r <==> now >= start - windowMinutes * MINUTE || now <= end + windowMinutes * MINUTE)
  {
    InWindow(start, end, now, windowMinutes)
    || (end < start && InWindow(start, end, now + DAY, windowMinutes))
  }

  /** With the corrected window the 23:00 to 01:00 lecture is open at 00:30. */
  lemma CrossingLectureOpenAfterMidnight()
    ensures InWindowAcrossMidnight(23 * HOUR, 1 * HOUR, 30 * MINUTE, DEFAULT_WINDOW_MINUTES)
  {
  }
}
