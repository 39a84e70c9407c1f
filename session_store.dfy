/** The client's session store: an in-memory list of sessions with a loading
    flag and an error message, and the four actions that change them. Each
    awaited network call is replaced by its outcome, passed in by the caller. */
module SessionStore {
  import opened Records

  /** What an awaited call produced: its value, or a thrown error whose
      `message` property may be missing. */
  datatype Outcome<T> = Succeeded(value: T) | Thrown(message: Option<string>)

  /** A `Partial<Session>`: a field that is `Some` is present in the update. */
  datatype SessionPatch = SessionPatch(
    id: Option<string>,
    fileName: Option<string>,
    filePath: Option<string>,
    duration: Option<Option<int>>,
    status: Option<Status>,
    assemblyId: Option<Option<string>>,
    tokenCount: Option<int>,
    createdAt: Option<string>,
    updatedAt: Option<string>)

  /** The empty update `{}`. */
  const NoChanges := SessionPatch(None, None, None, None, None, None, None, None, None)

  /** One field of `{ ...current, ...update }`. */
  function Pick<T>(update: Option<T>, current: T): T {
    if update.Some? then update.value else current
  }

  /** `{ ...session, ...updates }`: the fields present in the update replace those of the session. */
  function Merge(s: Session, p: SessionPatch): (r: Session)
    ensures p == NoChanges ==> r == s
  {
    Session(
      Pick(p.id, s.id),
      Pick(p.fileName, s.fileName),
      Pick(p.filePath, s.filePath),
      Pick(p.duration, s.duration),
      Pick(p.status, s.status),
      Pick(p.assemblyId, s.assemblyId),
      Pick(p.tokenCount, s.tokenCount),
      Pick(p.createdAt, s.createdAt),
      Pick(p.updatedAt, s.updatedAt))
  }

  /** Every field present in the update takes the new value; every other field keeps the old one. */
  lemma MergeFields(s: Session, p: SessionPatch)
    ensures p.id.Some? ==> Merge(s, p).id == p.id.value
    ensures p.id.None? ==> Merge(s, p).id == s.id
    ensures p.fileName.Some? ==> Merge(s, p).fileName == p.fileName.value
    ensures p.fileName.None? ==> Merge(s, p).fileName == s.fileName
    ensures p.filePath.Some? ==> Merge(s, p).filePath == p.filePath.value
    ensures p.filePath.None? ==> Merge(s, p).filePath == s.filePath
    ensures p.duration.Some? ==> Merge(s, p).duration == p.duration.value
    ensures p.duration.None? ==> Merge(s, p).duration == s.duration
    ensures p.status.Some? ==> Merge(s, p).status == p.status.value
    ensures p.status.None? ==> Merge(s, p).status == s.status
    ensures p.assemblyId.Some? ==> Merge(s, p).assemblyId == p.assemblyId.value
    ensures p.assemblyId.None? ==> Merge(s, p).assemblyId == s.assemblyId
    ensures p.tokenCount.Some? ==> Merge(s, p).tokenCount == p.tokenCount.value
    ensures p.tokenCount.None? ==> Merge(s, p).tokenCount == s.tokenCount
    ensures p.createdAt.Some? ==> Merge(s, p).createdAt == p.createdAt.value
    ensures p.createdAt.None? ==> Merge(s, p).createdAt == s.createdAt
    ensures p.updatedAt.Some? ==> Merge(s, p).updatedAt == p.updatedAt.value
    ensures p.updatedAt.None? ==> Merge(s, p).updatedAt == s.updatedAt
  {
  }

  /** Merging the same update a second time changes nothing more. */
  lemma MergeIdempotent(s: Session, p: SessionPatch)
    ensures Merge(Merge(s, p), p) == Merge(s, p)
  {
  }

  /** The list that `updateSession` computes: `sessions.map(s => s.id === id ? {...s, ...updates} : s)`. */
  function UpdateMatching(sessions: seq<Session>, id: string, p: SessionPatch): (r: seq<Session>)
    ensures |r| == |sessions|
    ensures forall i :: 0 <= i < |sessions| && sessions[i].id == id ==> r[i] == Merge(sessions[i], p)
    ensures forall i :: 0 <= i < |sessions| && sessions[i].id != id ==> r[i] == sessions[i]
  {
    if sessions == [] then []
    else
      var head := if sessions[0].id == id then Merge(sessions[0], p) else sessions[0];
      [head] + UpdateMatching(sessions[1..], id, p)
  }

  /** An update for an id that no session has leaves the list as it was. */
  lemma UpdateAbsentId(sessions: seq<Session>, id: string, p: SessionPatch)
    requires forall i :: 0 <= i < |sessions| ==> sessions[i].id != id
    ensures UpdateMatching(sessions, id, p) == sessions
  {
  }

  /** Applying the same update twice is the same as applying it once. */
  lemma UpdateIdempotent(sessions: seq<Session>, id: string, p: SessionPatch)
    ensures UpdateMatching(UpdateMatching(sessions, id, p), id, p) == UpdateMatching(sessions, id, p)
  {
  }

  /** The store: the cached session list, newest first, and the request state. */
  class Store {
    var sessions: seq<Session>
    var loading: bool
    var error: Option<string>

    /** The initial state: no sessions, not loading, no error. */
    constructor ()
      ensures sessions == [] && !loading && error == None
    {
      sessions, loading, error := [], false, None;
    }

    /** `fetchSessions`: mark loading, clear the error, then store the fetched
        list or the error message; loading ends either way. */
    method FetchSessions(response: Outcome<seq<Session>>)
      modifies this
      ensures !loading
      ensures response.Succeeded? ==> sessions == response.value && error == None
      ensures response.Thrown? ==> sessions == old(sessions) && error == response.message
    {
      loading, error := true, None;
      match response
      case Succeeded(fetched) =>
        sessions, loading := fetched, false;
      case Thrown(message) =>
        error, loading := message, false;
    }

    /** `addSession`: the new session goes first and the earlier ones follow in
        their order, with no check for a repeated id. */
    method AddSession(s: Session)
      modifies this
      ensures sessions == [s] + old(sessions)
      ensures |sessions| == |old(sessions)| + 1
      ensures loading == old(loading) && error == old(error)
    {
      sessions := [s] + sessions;
    }

    /** `updateSession`: merge the update into every session with the given id. */
    method UpdateSession(id: string, updates: SessionPatch)
      modifies this
      ensures sessions == UpdateMatching(old(sessions), id, updates)
      ensures loading == old(loading) && error == old(error)
    {
      sessions := UpdateMatching(sessions, id, updates);
    }

    /** `uploadSession`: clear the error, then add the uploaded session and
        return it, or record the error message and pass the failure on. */
    method UploadSession(response: Outcome<Session>) returns (r: Outcome<Session>)
      modifies this
      ensures r == response
      ensures loading == old(loading)
      ensures response.Succeeded? ==>
        sessions == [response.value] + old(sessions) && sessions[0] == r.value && error == None
      ensures response.Thrown? ==> sessions == old(sessions) && error == response.message
    {
      error := None;
      match response
      case Succeeded(uploaded) =>
        AddSession(uploaded);
        r := Succeeded(uploaded);
      case Thrown(message) =>
        error := message;
        r := Thrown(message);
    }
  }
}
