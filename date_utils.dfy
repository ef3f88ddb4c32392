/** lib/dateUtils.ts: timestamps from the database are read as UTC by appending `Z` when
    they carry no zone; the formatting itself is done by a date library. */
module DateUtils {
  import opened Wrappers
  import opened Text

  const DefaultAbsoluteFormat := "d MMM yyyy · h:mm a"
  const FullTimestampFormat := "EEEE, MMMM d, yyyy 'at' h:mm:ss a"

  /** The string already says which zone it is in: it ends in `Z`, contains `+`, or has a
      `-` at index 10 or later (the hyphens of the date part come before that). */
  predicate HasZoneMarker(s: string) {
    EndsWithChar(s, 'Z') || '+' in s || ContainsFrom(s, '-', 10)
  }

  /** The string handed to `new Date` in parseUTCToLocal. */
  function NormalizeUtc(s: string): (r: string)
    ensures HasZoneMarker(r)
    ensures r == s || r == s + "Z"
  {
    if !EndsWithChar(s, 'Z') && '+' !in s && !ContainsFrom(s, '-', 10) then s + "Z" else s
  }

  /** `Z` is appended exactly when the string has no zone marker. */
  lemma NormalizeAppendsIffNoMarker(s: string)
    ensures NormalizeUtc(s) == s + "Z" <==> !HasZoneMarker(s)
    ensures NormalizeUtc(s) == s <==> HasZoneMarker(s)
  {
    if NormalizeUtc(s) == s + "Z" {
      assert |s + "Z"| != |s|;
    }
  }

  /** Normalising twice is normalising once. */
  lemma NormalizeIdempotent(s: string)
    ensures NormalizeUtc(NormalizeUtc(s)) == NormalizeUtc(s)
  {
    NormalizeAppendsIffNoMarker(NormalizeUtc(s));
  }

  lemma Examples()
    ensures NormalizeUtc("2025-12-24T15:00:00") == "2025-12-24T15:00:00Z"
    ensures NormalizeUtc("2025-12-24T15:00:00Z") == "2025-12-24T15:00:00Z"
    ensures NormalizeUtc("2025-12-24T15:00:00+05:30") == "2025-12-24T15:00:00+05:30"
    ensures NormalizeUtc("2025-12-24T15:00:00-05:00") == "2025-12-24T15:00:00-05:00"
  {
    var bare := "2025-12-24T15:00:00";
    assert '+' !in bare by {
      assert forall i :: 0 <= i < |bare| ==> bare[i] != '+';
    }
    assert !ContainsFrom(bare, '-', 10) by {
      assert forall i :: 10 <= i < |bare| ==> bare[i] != '-';
    }
    assert "2025-12-24T15:00:00+05:30"[19] == '+';
    assert "2025-12-24T15:00:00-05:00"[19] == '-';
  }

  /** formatRelativeTime; `distanceToNow` stands for the date library's relative
      formatting of the parsed instant. */
  function FormatRelativeTime(ts: string, distanceToNow: string -> string): string {
    distanceToNow(NormalizeUtc(ts))
  }

  /** formatAbsoluteTime; `format` stands for the date library's `format` of the parsed
      instant with a pattern, and a missing pattern is the default one. */
  function FormatAbsoluteTime(ts: string, formatStr: Option<string>, format: (string, string) -> string): (r: string)
    ensures formatStr.None? ==> r == format(NormalizeUtc(ts), DefaultAbsoluteFormat)
  {
    format(NormalizeUtc(ts), if formatStr.Some? then formatStr.value else DefaultAbsoluteFormat)
  }

  /** formatFullTimestamp: the absolute format with the long pattern. */
  function FormatFullTimestamp(ts: string, format: (string, string) -> string): (r: string)
    ensures r == FormatAbsoluteTime(ts, Some(FullTimestampFormat), format)
  {
    format(NormalizeUtc(ts), FullTimestampFormat)
  }

  /** A timestamp that was already normalised is formatted the same as the original. */
  lemma FormattingIgnoresPriorNormalisation(ts: string, formatStr: Option<string>,
                                            format: (string, string) -> string, distanceToNow: string -> string)
    ensures FormatAbsoluteTime(NormalizeUtc(ts), formatStr, format) == FormatAbsoluteTime(ts, formatStr, format)
    ensures FormatRelativeTime(NormalizeUtc(ts), distanceToNow) == FormatRelativeTime(ts, distanceToNow)
  {
    NormalizeIdempotent(ts);
  }
}
