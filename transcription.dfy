/** Finalising a completed transcription job on the server: projecting the
    provider's utterances to segments, then writing one transcript row and
    updating the session, against an in-memory picture of the relational store. */
module Transcription {
  import opened Records
  import Tokens

  /** One diarized utterance as the provider reports it (the fields the server reads). */
  datatype Utterance = Utterance(speaker: string, text: string, start: int, end: int)

  /** The parts of the provider's finished job that the server reads:
      the utterances, which may be missing, and the audio length in whole
      seconds, which may be missing. */
  datatype ProviderTranscript = ProviderTranscript(
    utterances: Option<seq<Utterance>>,
    audioDuration: Option<int>)

  /** A stored transcript row; the segments are kept as the sequence itself. */
  datatype TranscriptRow = TranscriptRow(sessionId: string, segments: seq<Segment>, speakerAIsJake: bool)

  /** The segment of one utterance carries its speaker, text, start and end. */
  predicate SegmentOf(s: Segment, u: Utterance) {
    s.speaker == u.speaker && s.text == u.text && s.start == u.start && s.end == u.end
  }

  /** `utterances.map(u => ({ speaker, text, start, end }))`. */
  function ToSegments(utterances: seq<Utterance>): (segments: seq<Segment>)
    ensures |segments| == |utterances|
    ensures forall i :: 0 <= i < |utterances| ==> SegmentOf(segments[i], utterances[i])
  {
    if utterances == [] then []
    else
      var u := utterances[0];
      [Segment(u.speaker, u.text, u.start, u.end)] + ToSegments(utterances[1..])
  }

  /** `parseUtterances`: no segments when the utterances are missing or empty,
      otherwise one segment per utterance, in order, with the same four fields. */
  function ParseUtterances(t: ProviderTranscript): (segments: seq<Segment>)
    ensures t.utterances.None? ==> segments == []
    ensures t.utterances.Some? ==>
      |segments| == |t.utterances.value| &&
      forall i :: 0 <= i < |segments| ==> SegmentOf(segments[i], t.utterances.value[i])
  {
    if t.utterances.None? || |t.utterances.value| == 0 then []
    else ToSegments(t.utterances.value)
  }

  /** The stored duration in milliseconds, `(audio_duration || 0) * 1000`,
      for a duration given in whole seconds. */
  function DurationMs(audioDuration: Option<int>): (ms: int)
    ensures ms % 1000 == 0
    ensures audioDuration.None? ==> ms == 0
    ensures audioDuration.Some? ==> ms / 1000 == audioDuration.value
  {
    if audioDuration.None? then 0 else audioDuration.value * 1000
  }

  /** The relational store as far as finalising touches it: session rows by id
      and the transcript rows in insertion order. */
  class Database {
    var sessions: map<string, Session>
    var transcripts: seq<TranscriptRow>

    /** Every session row is stored under its own id. */
    predicate Valid()
      reads this
    {
      forall id :: id in sessions ==> sessions[id].id == id
    }

    constructor (rows: map<string, Session>)
      requires forall id :: id in rows ==> rows[id].id == id
      ensures Valid()
      ensures sessions == rows && transcripts == []
    {
      sessions, transcripts := rows, [];
    }

    /** `processCompletedTranscript`. The transcript row is inserted first; it
        references its session, so the insert fails, changing nothing, when no
        session has that id. Otherwise the session becomes `ready` with the
        duration in milliseconds and the token count, which is 0 when the
        tokenizer (`countTokens`) is unavailable. Nothing guards against a
        second call for the same session: each call adds one more row. */
    method ProcessCompletedTranscript(sessionId: string, t: ProviderTranscript, countTokens: Option<string -> nat>)
      returns (ok: bool)
      requires Valid()
      modifies this
      ensures Valid()
      ensures ok == (sessionId in old(sessions))
      ensures !ok ==> sessions == old(sessions) && transcripts == old(transcripts)
      ensures ok ==> transcripts == old(transcripts) + [TranscriptRow(sessionId, ParseUtterances(t), true)]
      ensures ok ==> sessions.Keys == old(sessions).Keys
      ensures ok ==> forall id :: id in sessions && id != sessionId ==> sessions[id] == old(sessions)[id]
      ensures ok ==> sessions[sessionId] == old(sessions)[sessionId].(
        status := Ready,
        duration := Some(DurationMs(t.audioDuration)),
        tokenCount := if countTokens.None? then 0
                      else Tokens.CountTranscriptTokens(ParseUtterances(t), countTokens.value))
    {
      var segments := ParseUtterances(t);
      if sessionId !in sessions {
        return false;
      }
      transcripts := transcripts + [TranscriptRow(sessionId, segments, true)];

      var tokenCount := 0;
      if countTokens.Some? {
        tokenCount := Tokens.CountTranscriptTokens(segments, countTokens.value);
      }

      var row := sessions[sessionId];
      sessions := sessions[sessionId := row.(
        status := Ready,
        duration := Some(DurationMs(t.audioDuration)),
        tokenCount := tokenCount)];
      ok := true;
    }

    /** Finalising the same session twice leaves two transcript rows for it. */
    method FinaliseTwice(sessionId: string, t: ProviderTranscript, countTokens: Option<string -> nat>)
      requires Valid()
      requires sessionId in sessions
      modifies this
      ensures Valid()
      ensures |transcripts| == |old(transcripts)| + 2
      ensures transcripts[|transcripts| - 2] == transcripts[|transcripts| - 1]
      ensures transcripts[|transcripts| - 1].sessionId == sessionId
      ensures sessionId in sessions && sessions[sessionId].status == Ready
    {
      var first := ProcessCompletedTranscript(sessionId, t, countTokens);
      var second := ProcessCompletedTranscript(sessionId, t, countTokens);
    }
  }
}
