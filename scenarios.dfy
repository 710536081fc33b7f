/**
 * The two worked examples of the service's behaviour, on concrete code
 * units: one request from query to redirect, and one start-up sweep.
 */
module Scenarios {
  import opened JsText
  import QueryValidator
  import ArtifactName
  import RequestFlow
  import Sweep

  /** The code units of the scenario's query, title and file name. */
  lemma LofiBeatsUnits()
    ensures Js("lofi beats") == [0x6C, 0x6F, 0x66, 0x69, 0x20, 0x62, 0x65, 0x61, 0x74, 0x73]
    ensures Js("Lofi Beats") == [0x4C, 0x6F, 0x66, 0x69, 0x20, 0x42, 0x65, 0x61, 0x74, 0x73]
    ensures Js("lofi_beats.mp3") == [0x6C, 0x6F, 0x66, 0x69, 0x5F, 0x62, 0x65, 0x61, 0x74, 0x73, 0x2E, 0x6D, 0x70, 0x33]
  {
  }

  /** The title `Lofi Beats` is stored as `lofi_beats.mp3`. */
  lemma LofiBeatsName()
    ensures ArtifactName.FileName(Js("Lofi Beats")) == Js("lofi_beats.mp3")
  {
  }

  /** The query `lofi beats` passes the validator. */
  lemma LofiBeatsQueryAccepted()
    ensures QueryValidator.Validate(Js("lofi beats")) == QueryValidator.Accepted(Js("lofi beats"))
  {
    LofiBeatsUnits();
    QueryValidator.PlainQueryAccepted(Js("lofi beats"));
  }

  /** The redirect location `/lofi_beats.mp3` is `/` followed by the stored name. */
  lemma LofiBeatsLocation()
    ensures Js("/lofi_beats.mp3") == [Slash] + Js("lofi_beats.mp3")
  {
  }

  /**
   * Query `lofi beats`, first hit `Lofi Beats` of 200 seconds, empty
   * directory, finished transcode: the answer is the redirect to
   * `/lofi_beats.mp3` and that file is now present.
   */
  lemma LofiBeatsEndToEnd()
    ensures RequestFlow.Route(Js("lofi beats"),
                              RequestFlow.Items([RequestFlow.Video(Js("abc123"), Js("Lofi Beats"))]),
                              RequestFlow.Info(200), {}, RequestFlow.Finished)
              == RequestFlow.Served(RequestFlow.Redirect(Js("/lofi_beats.mp3")), {Js("lofi_beats.mp3")})
  {
    LofiBeatsQueryAccepted();
    LofiBeatsName();
    LofiBeatsLocation();
  }

  /** `old.mp3` ends in `.mp3` and `notes.txt` does not. */
  lemma StartupNamesClassified()
    ensures Sweep.IsMp3(Js("old.mp3"))
    ensures !Sweep.IsMp3(Js("notes.txt"))
  {
    assert Js("old.mp3") == [0x6F, 0x6C, 0x64] + ArtifactName.Mp3Suffix;
    var keep := Js("notes.txt");
    // the unit after the last dot of `notes.txt` is `t`, where `.mp3` has `m`
    assert keep[|keep| - 4..][1] == keep[6] != ArtifactName.Mp3Suffix[1];
  }

  /** A directory holding `old.mp3` and `notes.txt` keeps only `notes.txt` after the sweep. */
  lemma OldMp3Swept()
    ensures Sweep.Swept({Js("old.mp3"), Js("notes.txt")}, {}) == {Js("notes.txt")}
  {
    StartupNamesClassified();
  }
}
