/**
 * What one request to the service decides, with the search provider, the
 * stream resolver and the transcoder replaced by their outcomes, which are
 * given as inputs. The working directory is the set of its file names; the
 * result of a request is the response and that set afterwards.
 *
 * The steps run in the order the route handlers chain them: validation,
 * search and first-hit selection, the duration gate, then the cache check
 * and the transcode.
 */
module RequestFlow {
  import opened JsText
  import QueryValidator
  import ArtifactName

  /** One search hit; of the list, only the first hit's id and title are read. */
  datatype Video = Video(id: JsString, title: JsString)

  /** What the keyword search produced. */
  datatype SearchReply =
    | SearchThrew                // the search call failed
    | NoItems                    // no result object, or one without an item list
    | Items(items: seq<Video>)   // the item list, in the provider's order

  /** What the metadata lookup for the first hit produced. */
  datatype InfoReply = InfoFailed | Info(lengthSeconds: int)

  /** How the transcode into the artifact file ended. */
  datatype Transcode = Finished | Failed(leftPartialFile: bool)

  datatype Response =
    | BadRequest(reason: string)    // 400 with a JSON error body
    | Redirect(location: JsString)  // redirect to a file of the working directory
    | Text(message: string)         // plain-text answer

  /** A response together with the working directory's file names afterwards. */
  datatype Served = Served(response: Response, files: set<JsString>)

  /** Longest accepted video, in seconds; the limit itself is accepted. */
  const MaxDurationSeconds := 500

  const EmptyQuery := "A consulta não pode estar vazia ou apenas com espaços."
  const NoVideoFound := "Nenhum vídeo encontrado."
  const SearchError := "Erro ao buscar vídeo."
  const InfoError := "Erro ao obter informações do vídeo."
  const VideoTooLong := "O vídeo é muito longo para ser convertido."
  const ConversionError := "Erro durante o download ou conversão."

  /** The redirect to `/<name>`. */
  function RedirectTo(name: JsString): Response
  {
    Redirect([Slash] + name)
  }

  /**
   * A response that, if it is a redirect, points at `/<name>` for a name that
   * is in `files` and ends in `.mp3`.
   */
  predicate RedirectsIntoDirectory(r: Response, files: set<JsString>)
  {
    r.Redirect? ==>
      |r.location| > 0 && r.location[0] == Slash &&
      r.location[1..] in files && EndsWith(r.location[1..], ArtifactName.Mp3Suffix)
  }

  /**
   * downloadAudioAsMP3: an existing file of the derived name is served as it
   * is; otherwise the transcode writes it, and the answer is the redirect on
   * success or the error text on failure, which may leave a partial file.
   */
  function DownloadAudio(title: JsString, files: set<JsString>, transcode: Transcode): (s: Served)
    ensures files <= s.files <= files + {ArtifactName.FileName(title)}
    ensures s.response.Redirect? ==>
              s.response == RedirectTo(ArtifactName.FileName(title)) &&
              ArtifactName.FileName(title) in s.files
    ensures RedirectsIntoDirectory(s.response, s.files)
    ensures s.response.Redirect? || s.response == Text(ConversionError)
  {
    var name := ArtifactName.FileName(title);
    if name in files then
      Served(RedirectTo(name), files)
    else
      match transcode
      case Finished => Served(RedirectTo(name), files + {name})
      case Failed(partial) => Served(Text(ConversionError), if partial then files + {name} else files)
  }

  /** What the search step decides: answer now, or download this video. */
  datatype Lookup = Answer(response: Response) | Download(video: Video)

  /**
   * searchVideo up to the download: the first hit of a non-empty list, kept
   * only when its reported length does not exceed the limit.
   */
  function SearchVideo(search: SearchReply, info: InfoReply): (l: Lookup)
    ensures l.Download? <==>
              search.Items? && |search.items| > 0 &&
              info.Info? && info.lengthSeconds <= MaxDurationSeconds
    ensures l.Download? ==> l.video == search.items[0]
    ensures l.Answer? ==> l.response.Text?
    ensures search.SearchThrew? ==> l == Answer(Text(SearchError))
    ensures search.NoItems? || search == Items([]) ==> l == Answer(Text(NoVideoFound))
    ensures search.Items? && |search.items| > 0 && info.InfoFailed? ==> l == Answer(Text(InfoError))
    ensures search.Items? && |search.items| > 0 && info.Info? && info.lengthSeconds > MaxDurationSeconds ==>
              l == Answer(Text(VideoTooLong))
  {
    match search
    case SearchThrew => Answer(Text(SearchError))
    case NoItems => Answer(Text(NoVideoFound))
    case Items(items) =>
      if |items| == 0 then Answer(Text(NoVideoFound))
      else
        match info
        case InfoFailed => Answer(Text(InfoError))
        case Info(seconds) =>
          if seconds > MaxDurationSeconds then Answer(Text(VideoTooLong)) else Download(items[0])
  }

  /**
   * The `/:query` handler. A request never removes a file, adds at most the
   * derived name of one title, answers 400 exactly when validation fails, and
   * redirects only to an `.mp3` file that is present afterwards.
   */
  function HandleQuery(query: JsString, search: SearchReply, info: InfoReply,
                       files: set<JsString>, transcode: Transcode): (s: Served)
    ensures s.response.BadRequest? <==> QueryValidator.Validate(query).Rejected?
    ensures files <= s.files
    ensures s.files == files || exists title :: s.files == files + {ArtifactName.FileName(title)}
    ensures RedirectsIntoDirectory(s.response, s.files)
    ensures QueryValidator.Validate(query).Rejected? ==>
              s == Served(BadRequest(QueryValidator.Validate(query).reason), files)
    ensures QueryValidator.Validate(query).Accepted? && SearchVideo(search, info).Answer? ==>
              s == Served(SearchVideo(search, info).response, files)
    ensures QueryValidator.Validate(query).Accepted? && SearchVideo(search, info).Download? ==>
              s == DownloadAudio(SearchVideo(search, info).video.title, files, transcode)
  {
    match QueryValidator.Validate(query)
    case Rejected(reason) => Served(BadRequest(reason), files)
    case Accepted(_) =>
      match SearchVideo(search, info)
      case Answer(r) => Served(r, files)
      case Download(video) => DownloadAudio(video.title, files, transcode)
  }

  /** The `/` handler: a 400 whose reason is none of the `/:query` route's reasons. */
  function HandleRoot(): (r: Response)
    ensures r.BadRequest?
    ensures r.reason !in {QueryValidator.QueryTooLong, QueryValidator.InvalidQuery, QueryValidator.InvalidCharacters}
  {
    BadRequest(EmptyQuery)
  }

  /**
   * Routing on the path segment after `/`, for a segment the static-file
   * middleware did not answer first: empty goes to `/`, anything else to
   * `/:query`.
   */
  function Route(segment: JsString, search: SearchReply, info: InfoReply,
                 files: set<JsString>, transcode: Transcode): (s: Served)
    ensures segment == [] ==> s == Served(BadRequest(EmptyQuery), files)
    ensures segment != [] ==> s == HandleQuery(segment, search, info, files, transcode)
    ensures s.response.BadRequest? <==> segment == [] || QueryValidator.Validate(segment).Rejected?
    ensures files <= s.files
  {
    if segment == [] then Served(HandleRoot(), files)
    else HandleQuery(segment, search, info, files, transcode)
  }

  /** The empty path is always answered with 400 and touches nothing. */
  lemma EmptyPathRejected(search: SearchReply, info: InfoReply, files: set<JsString>, transcode: Transcode)
    ensures Route([], search, info, files, transcode) == Served(BadRequest(EmptyQuery), files)
  {
  }

  /**
   * A query the validator rejects is answered with its reason whatever the
   * search, lookup and transcode would have done: none of them is reached.
   */
  lemma RejectedQueryReachesNothing(query: JsString, s1: SearchReply, i1: InfoReply, t1: Transcode,
                                    s2: SearchReply, i2: InfoReply, t2: Transcode, files: set<JsString>)
    requires QueryValidator.Validate(query).Rejected?
    ensures HandleQuery(query, s1, i1, files, t1) == HandleQuery(query, s2, i2, files, t2)
              == Served(BadRequest(QueryValidator.Validate(query).reason), files)
  {
  }

  /** An empty or missing result list is answered "no video", and nothing is written. */
  lemma NoVideoAnswer(query: JsString, search: SearchReply, info: InfoReply,
                      files: set<JsString>, transcode: Transcode)
    requires QueryValidator.Validate(query).Accepted?
    requires search == NoItems || search == Items([])
    ensures HandleQuery(query, search, info, files, transcode) == Served(Text(NoVideoFound), files)
  {
  }

  /** Only the first hit matters: lists that agree on it are handled alike. */
  lemma OnlyFirstHitMatters(query: JsString, items1: seq<Video>, items2: seq<Video>, info: InfoReply,
                            files: set<JsString>, transcode: Transcode)
    requires |items1| > 0 && |items2| > 0 && items1[0] == items2[0]
    ensures HandleQuery(query, Items(items1), info, files, transcode)
              == HandleQuery(query, Items(items2), info, files, transcode)
  {
  }

  /**
   * The duration gate runs before the cache check: a video longer than the
   * limit is refused, and nothing is written, whether or not its file is
   * already present.
   */
  lemma DurationGateBeforeCache(query: JsString, items: seq<Video>, seconds: int,
                                files: set<JsString>, transcode: Transcode)
    requires QueryValidator.Validate(query).Accepted?
    requires |items| > 0 && seconds > MaxDurationSeconds
    ensures HandleQuery(query, Items(items), Info(seconds), files, transcode)
              == Served(Text(VideoTooLong), files)
  {
  }

  /** A video of at most the limit, 500 seconds included, goes on to the download of the first hit. */
  lemma DurationWithinLimitProceeds(query: JsString, items: seq<Video>, seconds: int,
                                    files: set<JsString>, transcode: Transcode)
    requires QueryValidator.Validate(query).Accepted?
    requires |items| > 0 && seconds <= MaxDurationSeconds
    ensures HandleQuery(query, Items(items), Info(seconds), files, transcode)
              == DownloadAudio(items[0].title, files, transcode)
  {
  }

  /**
   * Cache hit: when the derived name is present the answer is the redirect to
   * it, the directory is unchanged, and the transcode outcome plays no part.
   */
  lemma CacheHitSkipsTranscode(title: JsString, files: set<JsString>, t1: Transcode, t2: Transcode)
    requires ArtifactName.FileName(title) in files
    ensures DownloadAudio(title, files, t1) == DownloadAudio(title, files, t2)
              == Served(RedirectTo(ArtifactName.FileName(title)), files)
  {
  }

  /**
   * Cache miss: a finished transcode adds exactly the derived name and
   * redirects to it; a failed one answers the error text, and adds the name
   * exactly when it left a partial file.
   */
  lemma CacheMissTranscodes(title: JsString, files: set<JsString>, transcode: Transcode)
    requires ArtifactName.FileName(title) !in files
    ensures transcode == Finished ==>
              DownloadAudio(title, files, transcode)
                == Served(RedirectTo(ArtifactName.FileName(title)), files + {ArtifactName.FileName(title)})
    ensures transcode.Failed? ==> DownloadAudio(title, files, transcode).response == Text(ConversionError)
    ensures transcode == Failed(false) ==> DownloadAudio(title, files, transcode).files == files
    ensures transcode == Failed(true) ==>
              DownloadAudio(title, files, transcode).files == files + {ArtifactName.FileName(title)}
  {
  }

  /**
   * A failed transcode that left a partial file is never retried: every later
   * request for the same title is redirected to that file.
   */
  lemma PartialFilePoisonsCache(title: JsString, files: set<JsString>, later: Transcode)
    ensures var first := DownloadAudio(title, files, Failed(true));
            DownloadAudio(title, first.files, later) == Served(RedirectTo(ArtifactName.FileName(title)), first.files)
  {
  }

  /**
   * Titles that derive the same name share one artifact: once the first is
   * stored, a request for the second is served the first's file without a
   * transcode.
   */
  lemma CollidingTitlesShareArtifact(t1: JsString, t2: JsString, files: set<JsString>, later: Transcode)
    requires ArtifactName.FileName(t1) == ArtifactName.FileName(t2)
    ensures var first := DownloadAudio(t1, files, Finished);
            DownloadAudio(t2, first.files, later) == Served(first.response, first.files)
  {
  }

  /**
   * A non-empty segment made only of spaces is not refused with 400, although
   * the `/` route's message says such queries are refused: it reaches the
   * search like any other accepted query.
   */
  lemma SpacesOnlySegmentNotRefused(segment: JsString, search: SearchReply, info: InfoReply,
                                    files: set<JsString>, transcode: Transcode)
    requires 0 < |segment| <= QueryValidator.MaxQueryLength
    requires forall c :: c in segment ==> c == Space
    ensures !Route(segment, search, info, files, transcode).response.BadRequest?
  {
    QueryValidator.SpacesOnlyQueryAccepted(segment);
  }
}
