/** The records that the client and the server exchange: the Session, Question
    and Transcript shapes of the client's API layer, and the transcript
    segment the server builds from the provider's utterances. */
module Records {

  /** A value that may be absent (`null`, `undefined`, or a field left out). */
  datatype Option<T> = None | Some(value: T)

  /** The four lifecycle states of a session. */
  datatype Status = Uploading | Processing | Ready | Failed

  /** One uploaded recording and its processing state. */
  datatype Session = Session(
    id: string,
    fileName: string,
    filePath: string,
    duration: Option<int>,       // milliseconds, null until known
    status: Status,
    assemblyId: Option<string>,  // the provider's job id
    tokenCount: int,
    createdAt: string,
    updatedAt: string)

  /** A question asked about a session, with its answer. */
  datatype Question = Question(
    id: string,
    sessionId: string,
    question: string,
    answer: string,
    tokenCount: int,
    createdAt: string)

  /** A stored transcript as the client receives it: `segments` is serialised text. */
  datatype Transcript = Transcript(
    id: string,
    sessionId: string,
    segments: string,
    speakerAIsJake: bool)

  /** One diarized stretch of speech; `start` and `end` are in milliseconds. */
  datatype Segment = Segment(speaker: string, text: string, start: int, end: int)
}
