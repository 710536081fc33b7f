/**
 * The service's one piece of shared state, the working directory, and the
 * operations that change it: the start-up sweep and the request handlers,
 * each proved to do what the corresponding function of Sweep or RequestFlow
 * says.
 */
module Server {
  import opened JsText
  import QueryValidator
  import ArtifactName
  import RequestFlow
  import Sweep

  /** The working directory, known by the names of its files. */
  class WorkingDirectory {
    var files: set<JsString>

    constructor (initial: set<JsString>)
      ensures files == initial
    {
      files := initial;
    }

    /**
     * limparArquivosMP3. `readOk` is false when listing the directory fails,
     * in which case nothing is removed; `unlinkFails` holds the names whose
     * unlink fails. Each listed name is looked at once, in any order.
     */
    method CleanUp(readOk: bool, unlinkFails: set<JsString>)
      modifies this
      ensures files == if readOk then Sweep.Swept(old(files), unlinkFails) else old(files)
    {
      if !readOk {
        return;
      }
      var listing := files;
      ghost var seen: set<JsString> := {};
      while listing != {}
        invariant listing + seen == old(files) && listing !! seen
        invariant files == old(files) - (set n | n in seen && Sweep.IsMp3(n) && n !in unlinkFails)
        decreases listing
      {
        var name :| name in listing;
        if Sweep.IsMp3(name) {
          if name !in unlinkFails {
            files := files - {name};
          }
        }
        listing := listing - {name};
        seen := seen + {name};
      }
    }

    /** downloadAudioAsMP3: check for the derived name, else transcode into it. */
    method DownloadAudio(title: JsString, transcode: RequestFlow.Transcode) returns (response: RequestFlow.Response)
      modifies this
      ensures RequestFlow.Served(response, files) == RequestFlow.DownloadAudio(title, old(files), transcode)
    {
      var name := ArtifactName.FileName(title);
      if name in files {
        response := RequestFlow.RedirectTo(name);
        return;
      }
      match transcode
      case Finished =>
        files := files + {name};
        response := RequestFlow.RedirectTo(name);
      case Failed(partial) =>
        if partial {
          files := files + {name};
        }
        response := RequestFlow.Text(RequestFlow.ConversionError);
    }

    /** The `/:query` handler: validate, search, then download. */
    method HandleQuery(query: JsString, search: RequestFlow.SearchReply, info: RequestFlow.InfoReply,
                       transcode: RequestFlow.Transcode) returns (response: RequestFlow.Response)
      modifies this
      ensures RequestFlow.Served(response, files) ==
                RequestFlow.HandleQuery(query, search, info, old(files), transcode)
    {
      var verdict := QueryValidator.Validate(query);
      if verdict.Rejected? {
        response := RequestFlow.BadRequest(verdict.reason);
        return;
      }
      match RequestFlow.SearchVideo(search, info)
      case Answer(r) =>
        response := r;
      case Download(video) =>
        response := DownloadAudio(video.title, transcode);
    }

    /** A request for `/<segment>`: the empty segment reaches `/`, any other `/:query`. */
    method Serve(segment: JsString, search: RequestFlow.SearchReply, info: RequestFlow.InfoReply,
                 transcode: RequestFlow.Transcode) returns (response: RequestFlow.Response)
      modifies this
      ensures RequestFlow.Served(response, files) ==
                RequestFlow.Route(segment, search, info, old(files), transcode)
    {
      if segment == [] {
        response := RequestFlow.HandleRoot();
      } else {
        response := HandleQuery(segment, search, info, transcode);
      }
    }
  }
}
