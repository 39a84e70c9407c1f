/** The display helpers of the session list: the `m:ss` duration text and the
    status badge's label and colour classes. Arithmetic follows JavaScript:
    `Math.floor(x / 60)` rounds down and `x % 60` keeps the sign of `x`. */
module SessionList {
  import opened Records
  import opened Text

  /** JavaScript's `a % m` for a positive `m`: truncated, so the remainder has the sign of `a`. */
  function JsRemainder(a: int, m: int): (r: int)
    requires m > 0
    ensures a >= 0 ==> r == a % m
    ensures -m < r < m
  {
    if a >= 0 then a % m else -((-a) % m)
  }

  /** `s.padStart(width, fill)`. */
  function PadStart(s: string, width: nat, fill: char): (r: string)
    ensures |r| == if |s| >= width then |s| else width
    ensures r[|r| - |s|..] == s
    ensures forall i :: 0 <= i < |r| - |s| ==> r[i] == fill
  {
    if |s| >= width then s else seq(width - |s|, _ => fill) + s
  }

  /** The seconds field: the remainder's decimal form, padded to two characters with '0'. */
  function SecondsField(seconds: int): string {
    PadStart(IntToString(JsRemainder(seconds, 60)), 2, '0')
  }

  /** `formatDuration`: "N/A" for a missing or zero value, otherwise minutes, a
      colon and the two-character seconds field. */
  function FormatDuration(seconds: Option<int>): (r: string)
    ensures (seconds.None? || seconds.value == 0) <==> r == "N/A"
  {
    if seconds.None? || seconds.value == 0 then "N/A"
    else
      // Dafny's `/` by a positive divisor rounds down, like Math.floor(seconds / 60).
      var text := IntToString(seconds.value / 60) + ":" + SecondsField(seconds.value);
      assert text[|IntToString(seconds.value / 60)|] == ':';
      assert ':' !in "N/A";
      text
  }

  /** How many times `c` occurs in `s`. */
  function Occurrences(s: string, c: char): nat {
    if s == [] then 0 else (if s[0] == c then 1 else 0) + Occurrences(s[1..], c)
  }

  lemma {:induction false} OccurrencesAppend(a: string, b: string, c: char)
    ensures Occurrences(a + b, c) == Occurrences(a, c) + Occurrences(b, c)
  {
    if a == [] {
      assert a + b == b;
    } else {
      assert (a + b)[0] == a[0];
      assert (a + b)[1..] == a[1..] + b;
      OccurrencesAppend(a[1..], b, c);
    }
  }

  lemma {:induction false} OccurrencesAbsent(s: string, c: char)
    requires c !in s
    ensures Occurrences(s, c) == 0
  {
    if s != [] {
      assert c !in s[1..] by { assert forall i :: 0 <= i < |s[1..]| ==> s[1..][i] == s[i + 1]; }
      OccurrencesAbsent(s[1..], c);
    }
  }

  /** For a positive number of seconds the text is the minutes' digits, one
      colon and two digits whose value is the seconds below sixty. */
  lemma FormatDurationParts(seconds: int)
    requires seconds > 0
    ensures FormatDuration(Some(seconds)) == NatToString(seconds / 60) + ":" + SecondsField(seconds)
    ensures |SecondsField(seconds)| == 2 && AllDigits(SecondsField(seconds))
    ensures DigitsValue(SecondsField(seconds)) == seconds % 60 < 60
  {
    var secs := seconds % 60;
    NatToStringShort(secs);
    NatToStringRoundTrip(secs);
    var digits := NatToString(secs);
    var field := SecondsField(seconds);
    if secs < 10 {
      assert field == ['0'] + digits;
      assert field[..1] == ['0'];
      assert DigitsValue(field) == DigitsValue(['0']) * 10 + DigitValue(digits[0]);
    } else {
      assert field == digits;
    }
  }

  /** A non-zero number of seconds is written with exactly one colon. */
  lemma FormatDurationOneColon(seconds: int)
    requires seconds != 0
    ensures Occurrences(FormatDuration(Some(seconds)), ':') == 1
  {
    var minutes := IntToString(seconds / 60);
    var field := SecondsField(seconds);
    var remainder := IntToString(JsRemainder(seconds, 60));
    NoColonInNumber(seconds / 60);
    NoColonInNumber(JsRemainder(seconds, 60));
    assert ':' !in field by {
      if |remainder| < 2 {
        assert field == seq(2 - |remainder|, _ => '0') + remainder;
      }
    }
    OccurrencesAbsent(minutes, ':');
    OccurrencesAbsent(field, ':');
    OccurrencesAppend(minutes, ":", ':');
    OccurrencesAppend(minutes + ":", field, ':');
  }

  lemma NoColonInNumber(n: int)
    ensures ':' !in IntToString(n)
  {
    var digits := NatToString(if n < 0 then -n else n);
    assert forall i :: 0 <= i < |digits| ==> digits[i] != ':';
  }

  /** Reads an `m:ss` text back to seconds: the digits before the first colon
      are minutes, the two digits after it are seconds. */
  function ParseDuration(text: string): Option<int> {
    if ':' !in text then None
    else
      var i := FirstIndex(text, ':');
      MinutesAndSeconds(text[..i], text[i + 1..])
  }

  /** Minutes times sixty plus seconds, for at least one minute digit and exactly two second digits. */
  function MinutesAndSeconds(minutes: string, secs: string): Option<int> {
    if |minutes| >= 1 && AllDigits(minutes) && |secs| == 2 && AllDigits(secs)
    then Some(DigitsValue(minutes) * 60 + DigitsValue(secs))
    else None
  }

  lemma MinutesAndSecondsOfDigits(minutes: string, secs: string)
    requires |minutes| >= 1 && AllDigits(minutes) && |secs| == 2 && AllDigits(secs)
    ensures MinutesAndSeconds(minutes, secs) == Some(DigitsValue(minutes) * 60 + DigitsValue(secs))
  {
  }

  lemma DigitsHaveNoColon(s: string)
    requires AllDigits(s)
    ensures ':' !in s
  {
  }

  /** A text with no colon before its first colon reads as its two sides. */
  lemma ParseDurationAt(before: string, after: string)
    requires ':' !in before
    ensures ParseDuration(before + ":" + after) == MinutesAndSeconds(before, after)
  {
    ColonAfter(before, after);
    var text := before + ":" + after;
    assert text[..|before|] == before;
    assert text[|before| + 1..] == after;
  }

  /** In `before + ":" + after` with no colon in `before`, the first colon follows `before`. */
  lemma ColonAfter(before: string, after: string)
    requires ':' !in before
    ensures ':' in before + ":" + after
    ensures FirstIndex(before + ":" + after, ':') == |before|
  {
    var text := before + ":" + after;
    assert text[|before|] == ':';
    assert text[..|before|] == before;
    FirstIndexUnique(text, ':', |before|);
  }

  /** Round trip: minutes times sixty plus seconds, read back from the text, is the input. */
  lemma FormatDurationRoundTrip(seconds: int)
    requires seconds > 0
    ensures ParseDuration(FormatDuration(Some(seconds))) == Some(seconds)
  {
    var minutes := NatToString(seconds / 60);
    var field := SecondsField(seconds);
    FormatDurationParts(seconds);
    DigitsHaveNoColon(minutes);
    ParseDurationAt(minutes, field);
    MinutesAndSecondsOfDigits(minutes, field);
    NatToStringRoundTrip(seconds / 60);
    DivModIdentity(seconds);
    assert FormatDuration(Some(seconds)) == minutes + ":" + field;
    assert ParseDuration(minutes + ":" + field) == Some(DigitsValue(minutes) * 60 + DigitsValue(field));
    assert DigitsValue(minutes) == seconds / 60;
    assert DigitsValue(field) == seconds % 60;
    assert DigitsValue(minutes) * 60 + DigitsValue(field) == seconds;
    var text := FormatDuration(Some(seconds));
    assert ParseDuration(text) == ParseDuration(minutes + ":" + field);
    assert ParseDuration(text) == Some(seconds);
  }

  lemma DivModIdentity(n: nat)
    ensures (n / 60) * 60 + n % 60 == n
  {
  }

  /** The status as written in the data: `uploading`, `processing`, `ready`, `failed`. */
  function StatusName(status: Status): string {
    match status
    case Uploading => "uploading"
    case Processing => "processing"
    case Ready => "ready"
    case Failed => "failed"
  }

  /** `s.charAt(0).toUpperCase() + s.slice(1)`. */
  function Capitalize(s: string): (r: string)
    ensures |r| == |s|
    ensures |s| > 0 ==> r[0] == UpperChar(s[0]) && r[1..] == s[1..]
  {
    if s == [] then "" else [UpperChar(s[0])] + s[1..]
  }

  /** A word of lower-case ASCII letters. */
  predicate LowerWord(s: string) {
    |s| > 0 && forall i :: 0 <= i < |s| ==> 'a' <= s[i] <= 'z'
  }

  /** Capitalizing a lower-case word gives an upper-case initial, and lower-casing undoes it. */
  lemma CapitalizeLowerWord(s: string)
    requires LowerWord(s)
    ensures 'A' <= Capitalize(s)[0] <= 'Z'
    ensures Lower(Capitalize(s)) == s
  {
    var c := Capitalize(s);
    forall i | 0 <= i < |s| ensures Lower(c)[i] == s[i] {
      if i > 0 {
        assert c[i] == c[1..][i - 1] == s[1..][i - 1] == s[i];
      }
    }
  }

  lemma StatusNameIsLowerWord(status: Status)
    ensures LowerWord(StatusName(status))
  {
  }

  /** The badge label: the status with its first letter upper-cased. */
  function StatusLabel(status: Status): (text: string)
    ensures |text| > 0 && 'A' <= text[0] <= 'Z'
    ensures Lower(text) == StatusName(status)
  {
    StatusNameIsLowerWord(status);
    CapitalizeLowerWord(StatusName(status));
    Capitalize(StatusName(status))
  }

  /** The four labels are `Uploading`, `Processing`, `Ready` and `Failed`. */
  lemma StatusLabelValues()
    ensures StatusLabel(Uploading) == "Uploading"
    ensures StatusLabel(Processing) == "Processing"
    ensures StatusLabel(Ready) == "Ready"
    ensures StatusLabel(Failed) == "Failed"
  {
    assert UpperChar('u') == 'U' && UpperChar('p') == 'P' && UpperChar('r') == 'R' && UpperChar('f') == 'F';
    assert Capitalize("uploading") == "Uploading";
    assert Capitalize("processing") == "Processing";
    assert Capitalize("ready") == "Ready";
    assert Capitalize("failed") == "Failed";
  }

  /** Different statuses get different labels. */
  lemma StatusLabelInjective(a: Status, b: Status)
    ensures StatusLabel(a) == StatusLabel(b) ==> a == b
  {
    if StatusLabel(a) == StatusLabel(b) {
      assert StatusName(a) == StatusName(b);
      assert StatusName(a)[0] == StatusName(b)[0];
    }
  }

  /** The badge's colour classes, one entry per status. */
  function StatusColor(status: Status): string {
    match status
    case Uploading => "bg-blue-100 text-blue-800"
    case Processing => "bg-yellow-100 text-yellow-800"
    case Ready => "bg-green-100 text-green-800"
    case Failed => "bg-red-100 text-red-800"
  }

  /** Every status has a colour class, and no two statuses share one. */
  lemma StatusColorsDistinct(a: Status, b: Status)
    ensures |StatusColor(a)| > 0
    ensures a != b ==> StatusColor(a) != StatusColor(b)
  {
    assert a != b ==> |StatusColor(a)| != |StatusColor(b)|;
  }
}
