/**
 * The start-up sweep of the working directory: every name ending in `.mp3`
 * is unlinked, each on its own, so a failed unlink leaves that one name in
 * place and the others still go.
 */
module Sweep {
  import opened JsText
  import ArtifactName
  import RequestFlow

  /** `file.endsWith('.mp3')`, case-sensitive. */
  predicate IsMp3(name: JsString)
    ensures IsMp3(name) <==>
              |name| >= 4 && name[|name| - 4..] == [Dot, 0x6D, 0x70, 0x33]
  {
    EndsWith(name, ArtifactName.Mp3Suffix)
  }

  /**
   * The directory after the sweep, given the names whose unlink fails:
   * nothing is added, every name not ending in `.mp3` stays, and the only
   * `.mp3` names left are those whose unlink failed.
   */
  function Swept(files: set<JsString>, unlinkFails: set<JsString>): (r: set<JsString>)
    ensures r <= files
    ensures forall n :: n in files && !IsMp3(n) ==> n in r
    ensures forall n :: n in r && IsMp3(n) ==> n in unlinkFails
    ensures forall n :: n in files && n in unlinkFails ==> n in r
  {
    set n | n in files && (!IsMp3(n) || n in unlinkFails)
  }

  /** Sweeping again with the same failures removes nothing more. */
  lemma SweepIdempotent(files: set<JsString>, unlinkFails: set<JsString>)
    ensures Swept(Swept(files, unlinkFails), unlinkFails) == Swept(files, unlinkFails)
  {
  }

  /** After a sweep in which every unlink succeeds, no derived file name is present. */
  lemma CleanSweepLeavesNoArtifact(files: set<JsString>, title: JsString)
    ensures ArtifactName.FileName(title) !in Swept(files, {})
  {
  }

  /**
   * So the first download of any title after such a sweep is a cache miss:
   * it transcodes, and its answer is the transcode's.
   */
  lemma FirstDownloadAfterCleanSweepTranscodes(files: set<JsString>, title: JsString,
                                               transcode: RequestFlow.Transcode)
    ensures var s := RequestFlow.DownloadAudio(title, Swept(files, {}), transcode);
            s.response == if transcode.Finished? then RequestFlow.RedirectTo(ArtifactName.FileName(title))
                          else RequestFlow.Text(RequestFlow.ConversionError)
  {
  }
}
