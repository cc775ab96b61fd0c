/**
 * `formatTime` of src/lib/utils.ts. The French branch ("19/01/2026 à 14:30:45") is string
 * work and is modelled; the ISO branch (`new Date`, `toLocaleTimeString('fr-FR')`) is the
 * opaque parameter `localeTime`, which yields `None` for an invalid date.
 */
module Utils {
  import opened Wrappers
  import opened Strings

  const FrenchSeparator: char := 'à'

  /** The trimmed text after the first `à` and before the second, when the timestamp holds an `à`. */
  function FrenchTimePart(timestamp: string): (part: Option<string>)
    ensures part.Some? <==> FrenchSeparator in timestamp
    ensures part.Some? ==> |Split(timestamp, FrenchSeparator)| >= 2
  {
    if FrenchSeparator in timestamp then Some(Trim(Split(timestamp, FrenchSeparator)[1])) else None
  }

  /**
   * `timestamp` is `a à b c`, where neither `a` nor `b` holds an `à` and `c` is empty or starts
   * at an `à`: `b` is the text between the first `à` and the second.
   */
  predicate FrenchWindow(timestamp: string, a: string, b: string, c: string)
  {
    && timestamp == a + [FrenchSeparator] + b + c
    && FrenchSeparator !in a && FrenchSeparator !in b
    && (c == [] || c[0] == FrenchSeparator)
  }

  /**
   * The French part, stated without `Split`: with an `à` present, the timestamp is a window
   * `a à b c` and the part is `b` trimmed. Without an `à` there is no part.
   */
  lemma FrenchTimePartWindow(timestamp: string)
    ensures FrenchTimePart(timestamp).None? <==> FrenchSeparator !in timestamp
    ensures FrenchSeparator in timestamp ==>
      exists a, b, c :: FrenchWindow(timestamp, a, b, c) && FrenchTimePart(timestamp) == Some(Trim(b))
  {
    if FrenchSeparator in timestamp {
      var parts := Split(timestamp, FrenchSeparator);
      var c := SplitFirstTwo(timestamp, FrenchSeparator);
      var a, b := parts[0], parts[1];
      assert FrenchWindow(timestamp, a, b, c);
      assert FrenchTimePart(timestamp) == Some(Trim(b));
    }
  }

  /** With `sep` present, the string is its first part, `sep`, its second part and a rest that starts at a `sep`. */
  lemma SplitFirstTwo(s: string, sep: char) returns (c: string)
    requires sep in s
    ensures |Split(s, sep)| >= 2
    ensures s == Split(s, sep)[0] + [sep] + Split(s, sep)[1] + c
    ensures c == [] || c[0] == sep
  {
    var parts := Split(s, sep);
    JoinSplit(s, sep);
    var tail := parts[1..];
    assert tail[0] == parts[1];
    c := if |parts| == 2 then [] else [sep] + Join(parts[2..], sep);
    assert Join(tail, sep) == parts[1] + c by {
      if |parts| > 2 {
        assert tail[1..] == parts[2..];
      }
    }
  }

  /** `formatTime`. */
  function FormatTime(timestamp: string, localeTime: string -> Option<string>): (r: string)
    ensures var part := FrenchTimePart(timestamp);
      part.Some? && part.value != "" ==>
        && |r| == (if |part.value| < 5 then |part.value| else 5)
        && r == part.value[..|r|]
        && r != "" && !IsSpace(r[0])
    ensures var part := FrenchTimePart(timestamp);
      part.None? || part.value == "" ==> r == localeTime(timestamp).GetOr(timestamp)
  {
    var part := FrenchTimePart(timestamp);
    if part.Some? && part.value != "" then
      var t := part.value;
      if |t| < 5 then t else t[..5]
    else
      match localeTime(timestamp)
      case Some(formatted) => formatted
      case None => timestamp
  }

  /** The French branch reads the text between the first and the second `à`. */
  lemma FrenchPartBetweenFirstAndSecond(date: string, rest: string)
    requires FrenchSeparator !in date
    ensures FrenchTimePart(date + [FrenchSeparator] + rest) == Some(Trim(Split(rest, FrenchSeparator)[0]))
  {
    var timestamp := date + [FrenchSeparator] + rest;
    SplitAfterFirst(date, rest, FrenchSeparator);
    assert timestamp[|date|] == FrenchSeparator;
    var parts := Split(timestamp, FrenchSeparator);
    assert parts[1] == Split(rest, FrenchSeparator)[0];
  }

  /** A French timestamp `<date> à <clock>` shows the clock cut to its first five characters. */
  lemma FormatTimeFrench(date: string, clock: string, localeTime: string -> Option<string>)
    requires FrenchSeparator !in date && FrenchSeparator !in clock
    requires clock != [] && !IsSpace(clock[0]) && !IsSpace(clock[|clock| - 1])
    ensures FormatTime(date + [FrenchSeparator, ' '] + clock, localeTime) == (if |clock| < 5 then clock else clock[..5])
  {
    var rest := [' '] + clock;
    var timestamp := date + [FrenchSeparator, ' '] + clock;
    assert timestamp == date + [FrenchSeparator] + rest;
    FrenchPartBetweenFirstAndSecond(date, rest);
    assert FrenchSeparator !in rest;
    SplitNoSeparator(rest, FrenchSeparator);
    TrimLeadingSpace(' ', clock);
    TrimUnpadded(clock);
    assert FrenchTimePart(timestamp) == Some(clock);
  }

  lemma ClockPrefix()
    ensures "14:30:45"[..5] == "14:30"
  {
  }

  /** The example of the source comment. */
  lemma FormatTimeExample(localeTime: string -> Option<string>)
    ensures FormatTime("19/01/2026 à 14:30:45", localeTime) == "14:30"
  {
    var date, clock := "19/01/2026 ", "14:30:45";
    assert date + [FrenchSeparator, ' '] + clock == "19/01/2026 à 14:30:45";
    FormatTimeFrench(date, clock, localeTime);
    ClockPrefix();
  }

  /** Without a usable French part and without a valid date, the input is returned unchanged. */
  lemma FormatTimeFallsBackToInput(timestamp: string, localeTime: string -> Option<string>)
    requires FrenchSeparator !in timestamp || AllSpace(Split(timestamp, FrenchSeparator)[1])
    requires localeTime(timestamp).None?
    ensures FormatTime(timestamp, localeTime) == timestamp
  {
  }
}
