# Audio transcription sessions: a verified model of the deterministic core

The application lets a user upload an M4A recording. A third-party speech-to-text service transcribes it with speaker diarization, and the application stores and lists the resulting sessions and transcripts. Most of the code is UI, HTTP plumbing and SDK/ORM wrappers. This Dafny project models the five small pieces of deterministic logic in it:

- **Client session store** (`session_store.dfy`, module `SessionStore`). The class `Store` holds the fields `sessions`, `loading` and `error` and offers `FetchSessions`, `AddSession`, `UpdateSession` and `UploadSession`. Each awaited network call becomes a parameter `Outcome<T>`: either the value, or a thrown error whose message may be missing. The list computations are the functions `Merge` (object spread) and `UpdateMatching` (the `map`).
- **Transcript finalisation** (`transcription.dfy`, module `Transcription`). `ParseUtterances` projects the provider's utterances to segments. The class `Database` is an in-memory picture of the relational store: session rows by id, plus transcript rows in insertion order. Its method `ProcessCompletedTranscript` inserts the transcript row and then updates the session. The tokenizer is passed in as `Option<string -> nat>`; `None` stands for a tokenizer that is unavailable or throws.
- **Transcript text** (`tokens.dfy`, module `Tokens`). `FullText` is the `speaker: text` lines joined by newlines. `CountTranscriptTokens` applies a caller-supplied tokenizer to that text, so the tokenizer stays uninterpreted.
- **Display helpers** (`session_list.dfy`, module `SessionList`). `FormatDuration` produces the `m:ss` text using JavaScript arithmetic: `Math.floor` for minutes and the truncating `%` for seconds. `ParseDuration` reads that text back. `StatusLabel` and `StatusColor` implement the status badge.
- **Upload drop handler** (`audio_upload.dfy`, module `AudioUpload`). The class `UploadPanel` holds `uploading`, `progress` and `error`. `OnDrop` validates the first dropped file and uploads it through `Store.UploadSession`.

Shared pieces:
- `records.dfy` (`Records`) holds the Session, Question and Transcript record shapes and the Segment record.
- `text.dfy` (`Text`) holds ASCII case mapping, suffix tests, character search and decimal digits.
- `duration_units.dfy` (`DurationUnits`) shows how the server's stored duration and the client's display fit together.

The server stores `duration` in milliseconds (`backend/src/services/transcription.ts:66`). The list passes that value to `formatDuration` (`frontend/components/SessionList.tsx:134`), which treats its argument as seconds (`frontend/components/SessionList.tsx:19-23`). The model keeps both as written. `DurationUnits.DisplayedDurationIsThousandfold` proves that the displayed text always reads back as a thousand times the recording's length in seconds. For example, a 90-second recording is shown as `1500:00`.

A transcript row names its session through a foreign key. So `ProcessCompletedTranscript` models the insert for an unknown session id as failing, with nothing changed. The database schema itself is not part of this model.

## Model

| member | source | states |
|---|---|---|
| SessionStore.Store.constructor | frontend/store/sessionStore.ts:15-18 | The store starts with no sessions, not loading and no error. |
| SessionStore.Store.FetchSessions | frontend/store/sessionStore.ts:20-28 | Afterwards `loading` is false. On success `sessions` is the fetched list and `error` is null. On failure `error` is the thrown message and `sessions` is unchanged. |
| SessionStore.Store.AddSession | frontend/store/sessionStore.ts:30-34 | The new session is at index 0, followed by all earlier sessions in their order. Length grows by exactly one, so a repeated id is not removed. `loading` and `error` are unchanged. |
| SessionStore.Store.UpdateSession | frontend/store/sessionStore.ts:36-42 | `sessions` becomes `UpdateMatching` of the old list. `loading` and `error` are unchanged. |
| SessionStore.UpdateMatching | frontend/store/sessionStore.ts:38-40 | Length and order are kept. Every entry whose id matches becomes the merge of that entry with the update. Every other entry stays exactly as it was. |
| SessionStore.UpdateAbsentId | frontend/store/sessionStore.ts:38-40 | An update for an id that no session has leaves the list equal to what it was. |
| SessionStore.UpdateIdempotent | frontend/store/sessionStore.ts:38-40 | Applying the same update twice gives the same list as applying it once. |
| SessionStore.Merge | frontend/store/sessionStore.ts:39 | The empty update leaves a session unchanged. |
| SessionStore.MergeFields | frontend/store/sessionStore.ts:39 | Each field present in the update takes the new value. Each absent field keeps the session's old value. |
| SessionStore.MergeIdempotent | frontend/store/sessionStore.ts:39 | Merging the same update again changes nothing more. |
| SessionStore.Store.UploadSession | frontend/store/sessionStore.ts:44-54 | The outcome is returned (a failure propagates) and `loading` is unchanged. On success the returned session is at the head of `sessions`, followed by the old list, and `error` is null. On failure `error` is the message and `sessions` is unchanged. |
| Transcription.ToSegments | backend/src/services/transcription.ts:31-36 | One segment per utterance, in order, with the same speaker, text, start and end. |
| Transcription.ParseUtterances | backend/src/services/transcription.ts:26-37 | Missing utterances give no segments. Otherwise the segments have the utterances' length, and the i-th segment carries the i-th utterance's four fields. |
| Transcription.DurationMs | backend/src/services/transcription.ts:66 | A missing audio duration gives 0. Otherwise the result is a whole number of thousands that divides back to the duration in seconds. |
| Transcription.Database.constructor | backend/src/services/transcription.ts:40-70 | The store starts with the given session rows, each keyed by its own id, and no transcripts. |
| Transcription.Database.ProcessCompletedTranscript | backend/src/services/transcription.ts:40-70 | It succeeds exactly when the session exists; otherwise nothing changes. On success exactly one transcript row is appended, holding this session's parsed segments and `speakerAIsJake = true`. The session becomes `ready`, with the duration in milliseconds. Its token count is the tokenizer applied to the full text, or 0 without a tokenizer. Other sessions and the key set are unchanged. |
| Transcription.Database.FinaliseTwice | backend/src/services/transcription.ts:44-50 | Finalising the same session twice leaves two identical transcript rows for it, because there is no guard against repeats. |
| Tokens.FullTextShort | backend/src/services/tokens.ts:11 | An empty segment list gives the empty text. One segment gives exactly `speaker + ": " + text`, with no separator. |
| Tokens.FullTextAppend | backend/src/services/tokens.ts:11 | Appending a segment to a non-empty list extends the text by a newline followed by that segment's line. |
| Tokens.FullTextSplitsIntoLines | backend/src/services/tokens.ts:11 | When no speaker or text holds a newline, splitting the full text at newlines gives back exactly the segment lines, one per segment and in segment order. |
| Tokens.FullTextIgnoresTimings | backend/src/services/tokens.ts:11 | Segment lists that agree on speakers and texts give the same full text, whatever their start and end times. |
| Tokens.TokenCountIgnoresTimings | backend/src/services/tokens.ts:10-13 | The token count depends on the segments only through the joined text, so timings never change it. |
| SessionList.FormatDuration | frontend/components/SessionList.tsx:19-24 | The text is `"N/A"` exactly when the value is null or 0. |
| SessionList.FormatDurationParts | frontend/components/SessionList.tsx:21-23 | For positive seconds the text is the decimal form of `seconds / 60`, rounded down, then a colon, then exactly two digits. Those two digits have the value `seconds % 60`, which is below 60. |
| SessionList.FormatDurationOneColon | frontend/components/SessionList.tsx:23 | Every non-zero value, negative ones included, is written with exactly one colon. |
| SessionList.FormatDurationRoundTrip | frontend/components/SessionList.tsx:21-23 | Reading the text back as minutes × 60 + seconds gives the original positive value. |
| SessionList.StatusLabel | frontend/components/SessionList.tsx:36 | The label starts with an upper-case letter, and lower-casing it gives back the status name. |
| SessionList.StatusLabelValues | frontend/components/SessionList.tsx:36 | The labels are `Uploading`, `Processing`, `Ready` and `Failed`. |
| SessionList.StatusLabelInjective | frontend/components/SessionList.tsx:36 | Different statuses get different labels. |
| SessionList.StatusColorsDistinct | frontend/components/SessionList.tsx:27-32 | Each of the four statuses has a non-empty colour class, and no two statuses share one. |
| AudioUpload.IsM4aNameChars | frontend/components/AudioUpload.tsx:21 | A name passes the extension check exactly when it ends in `.`, `m`/`M`, `4`, `a`/`A`, so case is ignored. |
| AudioUpload.IsM4aNameExamples | frontend/components/AudioUpload.tsx:21 | `X.M4A` and `talk.M4a` pass. `talk.mp3`, `m4a` and `talk.m4a.txt` do not. |
| AudioUpload.FailureText | frontend/components/AudioUpload.tsx:38 | The shown failure text is the error's message when it has a non-empty one, and otherwise `"Failed to upload file"`. |
| AudioUpload.UploadPanel.constructor | frontend/components/AudioUpload.tsx:11-13 | The panel starts not uploading, with progress 0 and no error. |
| AudioUpload.UploadPanel.OnDrop | frontend/components/AudioUpload.tsx:15-42 | An empty drop changes nothing and starts no upload. Only the first file is looked at. If its name fails the check, `error` is set to `"Only M4A audio files are allowed"`, the upload state and the store are untouched, and no upload starts. If the name passes, the store's upload runs; `uploading` is set, `error` cleared and `progress` zeroed first. On success the panel navigates away and `uploading` stays true, while the store holds the new session at its head. On failure `error` is the failure text, `uploading` is false and `progress` is 0. |
| DurationUnits.DisplayedDurationIsThousandfold | backend/src/services/transcription.ts:66 | The stored duration of a recording of `n > 0` seconds, once formatted, reads back as `1000 * n` seconds and never as `n`. |
| DurationUnits.NinetySecondsShownAs1500Minutes | frontend/components/SessionList.tsx:19-23 | The stored duration of a 90-second recording is displayed as `1500:00`. |

## Left out

- Network and SDK calls are not modelled: `getSessions`, `uploadAudio` and the rest of the API client, and the provider's `submitTranscription` and `getTranscriptionStatus`. Each awaited outcome is a parameter instead.
- The tokenizer `countTokens` (a tiktoken encoder) is a function parameter and is never interpreted.
- The HTTP routes, the server bootstrap, the database connection lifecycle and the SDK client construction are not modelled: the routes are placeholders returning fixed JSON.
- Polling timers, `stopAllPolling`, speaker swap and server-side status reconciliation are not modelled, because none of them is implemented in this code.
- Segments are stored as the sequence itself; JSON serialisation of segments is not modelled.
- Transcription.DurationMs: takes the provider's audio duration as whole seconds, so `Math.round` of a fractional value is not modelled.
- AudioUpload.UploadPanel.OnDrop: does not model the progress callback's percentages (floating point), so `progress` stays 0 on success in the model; the navigation itself is reduced to the returned flag.
- SessionList.FormatDuration: takes an integer, so fractional and NaN inputs are not modelled.
- `formatDate` is not modelled, because it depends on the locale.
- JSX rendering and the React, zustand and Next.js hooks are not modelled, and neither are the pages and layout.
- `toLowerCase` and `toUpperCase` are modelled on ASCII letters only, with no Unicode case folding.
- SessionStore.SessionPatch: a field present with the explicit value `undefined` (which a spread copies as `undefined`) is not modelled; a field is either absent or carries a value.
- Transcription.Database.ProcessCompletedTranscript: the database's automatic refresh of `updatedAt` is not modelled (it needs a clock), and neither are the generated transcript id and other database failures.
- Question rows and the stubbed question answering are not modelled beyond the `Question` record shape.
