/** The text over which a transcript's tokens are counted: one
    `speaker: text` line per segment, joined by newlines. The tokenizer
    itself is an external encoder and is passed in as a function. */
module Tokens {
  import opened Records
  import Text

  /** The line written for one segment. */
  function Line(s: Segment): string {
    s.speaker + ": " + s.text
  }

  /** The lines of all segments in segment order. */
  function Lines(segments: seq<Segment>): (lines: seq<string>)
    ensures |lines| == |segments|
    ensures forall i :: 0 <= i < |segments| ==> lines[i] == Line(segments[i])
  {
    seq(|segments|, i requires 0 <= i < |segments| => Line(segments[i]))
  }

  /** `segments.map(s => `${s.speaker}: ${s.text}`).join('\n')`. */
  function FullText(segments: seq<Segment>): string {
    if |segments| == 0 then ""
    else if |segments| == 1 then Line(segments[0])
    else Line(segments[0]) + "\n" + FullText(segments[1..])
  }

  /** `countTranscriptTokens`: the tokenizer applied to the full text. */
  function CountTranscriptTokens(segments: seq<Segment>, countTokens: string -> nat): nat {
    countTokens(FullText(segments))
  }

  /** No segments give the empty text, and one segment gives its line with no separator. */
  lemma FullTextShort(segments: seq<Segment>)
    requires |segments| <= 1
    ensures |segments| == 0 ==> FullText(segments) == ""
    ensures |segments| == 1 ==> FullText(segments) == segments[0].speaker + ": " + segments[0].text
  {
  }

  /** Appending a segment to a non-empty list extends the text by a newline and that segment's line. */
  lemma {:induction false} FullTextAppend(segments: seq<Segment>, s: Segment)
    requires |segments| >= 1
    ensures FullText(segments + [s]) == FullText(segments) + "\n" + Line(s)
  {
    if |segments| == 1 {
      assert (segments + [s])[1..] == [s];
    } else {
      assert (segments + [s])[1..] == segments[1..] + [s];
      FullTextAppend(segments[1..], s);
    }
  }

  /** `text.split('\n')`. */
  function SplitLines(text: string): (parts: seq<string>)
    ensures |parts| >= 1
    decreases |text|
  {
    if '\n' !in text then [text]
    else
      var i := Text.FirstIndex(text, '\n');
      [text[..i]] + SplitLines(text[i + 1..])
  }

  /** Splitting a line, a newline and a rest gives the line followed by the rest's pieces. */
  lemma SplitAfterLine(line: string, rest: string)
    requires '\n' !in line
    ensures SplitLines(line + "\n" + rest) == [line] + SplitLines(rest)
  {
    var text := line + "\n" + rest;
    assert text[|line|] == '\n';
    assert text[..|line|] == line;
    Text.FirstIndexUnique(text, '\n', |line|);
    assert text[|line| + 1..] == rest;
  }

  /** Neither the speaker label nor the text of a segment holds a newline. */
  predicate SingleLine(s: Segment) {
    '\n' !in s.speaker && '\n' !in s.text
  }

  predicate SingleLineSegments(segments: seq<Segment>) {
    forall i :: 0 <= i < |segments| ==> SingleLine(segments[i])
  }

  lemma SingleLineHasNoNewline(s: Segment)
    requires SingleLine(s)
    ensures '\n' !in Line(s)
  {
  }

  /** When no segment holds a newline, splitting the full text at newlines gives
      back exactly the segment lines, one per segment and in order. */
  lemma {:induction false} FullTextSplitsIntoLines(segments: seq<Segment>)
    requires |segments| >= 1
    requires SingleLineSegments(segments)
    ensures SplitLines(FullText(segments)) == Lines(segments)
  {
    var first := Line(segments[0]);
    SingleLineHasNoNewline(segments[0]);
    if |segments| == 1 {
      assert FullText(segments) == first;
      assert Lines(segments) == [first];
    } else {
      var rest := segments[1..];
      assert SingleLineSegments(rest) by {
        forall i | 0 <= i < |rest| ensures SingleLine(rest[i]) {
          assert rest[i] == segments[i + 1];
        }
      }
      FullTextSplitsIntoLines(rest);
      var restText := FullText(rest);
      assert FullText(segments) == first + "\n" + restText;
      SplitAfterLine(first, restText);
      LinesCons(segments);
    }
  }

  lemma LinesCons(segments: seq<Segment>)
    requires |segments| >= 1
    ensures Lines(segments) == [Line(segments[0])] + Lines(segments[1..])
  {
    var a := Lines(segments);
    var b := [Line(segments[0])] + Lines(segments[1..]);
    assert |a| == |b|;
    forall i | 0 <= i < |a| ensures a[i] == b[i] {
      if i > 0 {
        assert segments[1..][i - 1] == segments[i];
      }
    }
  }

  /** Segments that agree on speaker and text give the same text, whatever their timings. */
  lemma {:induction false} FullTextIgnoresTimings(a: seq<Segment>, b: seq<Segment>)
    requires |a| == |b|
    requires forall i :: 0 <= i < |a| ==> a[i].speaker == b[i].speaker && a[i].text == b[i].text
    ensures FullText(a) == FullText(b)
  {
    if |a| > 1 {
      FullTextIgnoresTimings(a[1..], b[1..]);
    }
  }

  /** The token count depends on the segments only through the joined text:
      timings do not change it. */
  lemma TokenCountIgnoresTimings(a: seq<Segment>, b: seq<Segment>, countTokens: string -> nat)
    requires |a| == |b|
    requires forall i :: 0 <= i < |a| ==> a[i].speaker == b[i].speaker && a[i].text == b[i].text
    ensures CountTranscriptTokens(a, countTokens) == CountTranscriptTokens(b, countTokens)
  {
    FullTextIgnoresTimings(a, b);
  }
}
