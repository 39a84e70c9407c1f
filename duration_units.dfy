/** Where the server's stored duration meets the client's display: the server
    stores milliseconds, while the list formats its argument as seconds. */
module DurationUnits {
  import opened Records
  import Transcription
  import SessionList
  import Text

  /** A recording of `audioSeconds` seconds is displayed as if it lasted a
      thousand times as many seconds: the text reads back as `1000 * audioSeconds`. */
  lemma DisplayedDurationIsThousandfold(audioSeconds: int)
    requires audioSeconds > 0
    ensures SessionList.ParseDuration(SessionList.FormatDuration(Some(Transcription.DurationMs(Some(audioSeconds)))))
      == Some(1000 * audioSeconds)
    ensures SessionList.ParseDuration(SessionList.FormatDuration(Some(Transcription.DurationMs(Some(audioSeconds)))))
      != Some(audioSeconds)
  {
    var ms := Transcription.DurationMs(Some(audioSeconds));
    assert ms == 1000 * audioSeconds;
    assert ms > audioSeconds;
    SessionList.FormatDurationRoundTrip(ms);
  }

  /** A 90-second recording is shown as "1500:00" rather than "1:30". */
  lemma NinetySecondsShownAs1500Minutes()
    ensures SessionList.FormatDuration(Some(Transcription.DurationMs(Some(90)))) == "1500:00"
  {
    assert Transcription.DurationMs(Some(90)) == 90000;
    assert Text.NatToString(1) == "1";
    assert Text.NatToString(15) == "15";
    assert Text.NatToString(150) == "150";
    assert Text.NatToString(1500) == "1500";
    assert Text.IntToString(0) == "0";
    assert SessionList.SecondsField(90000) == "00";
  }
}
