/** The upload panel's drop handler: it checks the dropped file's extension,
    then hands the file to the session store and tracks the upload in its
    `uploading`, `progress` and `error` state. */
module AudioUpload {
  import opened Records
  import opened Text
  import SessionStore

  /** A dropped file, as far as the handler reads it. */
  datatype DroppedFile = DroppedFile(name: string)

  const WrongFormatMessage := "Only M4A audio files are allowed"
  const UploadFailedMessage := "Failed to upload file"

  /** `name.toLowerCase().endsWith('.m4a')`. */
  predicate IsM4aName(name: string) {
    EndsWith(Lower(name), ".m4a")
  }

  /** The check ignores case: a name passes exactly when it ends in a dot, an
      `m` or `M`, a `4` and an `a` or `A`. */
  lemma IsM4aNameChars(name: string)
    ensures IsM4aName(name) <==>
      |name| >= 4 &&
      name[|name| - 4] == '.' &&
      (name[|name| - 3] == 'm' || name[|name| - 3] == 'M') &&
      name[|name| - 2] == '4' &&
      (name[|name| - 1] == 'a' || name[|name| - 1] == 'A')
  {
    var n := |name|;
    if n >= 4 {
      var tail := Lower(name)[n - 4..];
      assert tail == [LowerChar(name[n - 4]), LowerChar(name[n - 3]), LowerChar(name[n - 2]), LowerChar(name[n - 1])];
    }
  }

  /** Upper-case and mixed-case extensions pass, other extensions do not. */
  lemma IsM4aNameExamples()
    ensures IsM4aName("X.M4A") && IsM4aName("talk.m4a") && IsM4aName("talk.M4a")
    ensures !IsM4aName("talk.mp3") && !IsM4aName("m4a") && !IsM4aName("talk.m4a.txt")
  {
    IsM4aNameChars("X.M4A");
    IsM4aNameChars("talk.m4a");
    IsM4aNameChars("talk.M4a");
    IsM4aNameChars("talk.mp3");
    IsM4aNameChars("m4a");
    IsM4aNameChars("talk.m4a.txt");
  }

  /** `err.message || 'Failed to upload file'`: a missing or empty message gives the fallback. */
  function FailureText(message: Option<string>): (text: string)
    ensures text != ""
    ensures message.Some? && message.value != "" ==> text == message.value
    ensures (message.None? || message.value == "") ==> text == UploadFailedMessage
  {
    if message.Some? && message.value != "" then message.value else UploadFailedMessage
  }

  /** The component state of the upload panel. */
  class UploadPanel {
    var uploading: bool
    var progress: int
    var error: Option<string>

    constructor ()
      ensures !uploading && progress == 0 && error == None
    {
      uploading, progress, error := false, 0, None;
    }

    /** `onDrop`. Only the first dropped file is looked at. A wrong extension
        sets the format error and starts nothing. An accepted file sets
        `uploading`, clears the error and zeroes the progress, then uploads
        through the store; the outcome of that upload is `response`. On success
        the panel navigates away (`navigated`) with `uploading` still set; on
        failure it shows the message and resets `uploading` and `progress`. */
    method OnDrop(files: seq<DroppedFile>, store: SessionStore.Store, response: SessionStore.Outcome<Session>)
      returns (navigated: bool)
      modifies this, store
      ensures |files| == 0 ==>
        !navigated && unchanged(this) && unchanged(store)
      ensures |files| > 0 && !IsM4aName(files[0].name) ==>
        !navigated && unchanged(store) &&
        error == Some(WrongFormatMessage) && uploading == old(uploading) && progress == old(progress)
      ensures |files| > 0 && IsM4aName(files[0].name) && response.Succeeded? ==>
        navigated && uploading && progress == 0 && error == None &&
        store.sessions == [response.value] + old(store.sessions) && store.error == None &&
        store.loading == old(store.loading)
      ensures |files| > 0 && IsM4aName(files[0].name) && response.Thrown? ==>
        !navigated && !uploading && progress == 0 && error == Some(FailureText(response.message)) &&
        store.sessions == old(store.sessions) && store.error == response.message &&
        store.loading == old(store.loading)
    {
      navigated := false;
      if |files| == 0 {
        return;
      }
      var file := files[0];
      if !IsM4aName(file.name) {
        error := Some(WrongFormatMessage);
        return;
      }

      uploading := true;
      error := None;
      progress := 0;

      var result := store.UploadSession(response);
      match result
      case Succeeded(_) =>
        navigated := true;
      case Thrown(message) =>
        error := Some(FailureText(message));
        uploading := false;
        progress := 0;
    }
  }
}
