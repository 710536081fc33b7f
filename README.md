# A verified model of the music-download service's decision logic

The service answers `GET /<query>`. It checks the query, searches for a video, takes the first hit, refuses videos longer than 500 seconds, and derives a file name from the video title. It then redirects to that `.mp3` file, transcoding it first unless a file of that name already exists. At start-up it deletes every `.mp3` file in the directory of its script.

This project models that logic in Dafny and proves its properties. The search provider, the metadata lookup and the transcoder are not modelled; their outcomes are inputs. The directory is modelled as the set of its file names.

Strings are sequences of UTF-16 code units (`JsText.CodeUnit`), so `|s|` is JavaScript's `s.length`. The Portuguese messages are kept as constants.

Modules:

- `JsText` (`js_text.dfy`): code units, ASCII character classes, `includes` and `endsWith`.
- `QueryValidator` (`query_validator.dfy`): the three ordered rules of the `/:query` route.
- `ArtifactName` (`artifact_name.dfy`): the file name derived from a title.
- `RequestFlow` (`request_flow.dfy`): one request as a function of the inputs. It returns the response and the directory afterwards.
- `Sweep` (`sweep.dfy`): the effect of the start-up sweep on the directory.
- `Server` (`server.dfy`): the working directory as a class. The sweep is a loop over the listing. The download and the handlers update the directory in place, and each is proved equal to its function in `Sweep` or `RequestFlow`.
- `Scenarios` (`scenarios.dfy`): the end-to-end example (`lofi beats` redirects to `/lofi_beats.mp3`) and the start-up example (`old.mp3` is removed, `notes.txt` stays).

The model follows the code's order of steps. The duration gate (index.js:54) runs before the cache check (index.js:16). So a video over the limit is refused even when its file is already cached (`RequestFlow.DurationGateBeforeCache`).

The message of the `/` route says that empty or whitespace-only queries are refused. Only the empty path is refused, though: a non-empty query made only of spaces passes all three rules (`QueryValidator.SpacesOnlyQueryAccepted`) and is not answered 400 (`RequestFlow.SpacesOnlySegmentNotRefused`).

## Model

| member | source | states |
|---|---|---|
| `QueryValidator.Validate` | index.js:104-115 | an accepted query is handed on unchanged; every rejection carries one of the three reasons |
| `QueryValidator.ValidateByCodeUnits` | index.js:106-114 | restated unit by unit: "too long" iff length > 100; "invalid" iff length <= 100 and the query has `/` or two adjacent dots; "invalid characters" iff both earlier rules pass and some unit is in the denylist; accepted iff no rule fails |
| `QueryValidator.HasDeniedUnit` | index.js:112 | the regex test holds iff some unit of the query is one of the class's 21 units; it is false on the empty query |
| `QueryValidator.DenylistIsDeniedUnits` | index.js:112 | the class `[<>{}[\]()"'`!@#$%^&*+=]` holds exactly `!` to `+`, `<` to `>`, `@`, `[`, `]`, `^`, the backquote, `{` and `}`, none of them a letter, a digit or a space |
| `QueryValidator.SingleDotAllowed` | index.js:109-111 | a lone `.` is not refused (`a.b` is accepted) |
| `QueryValidator.PlainQueryAccepted` | index.js:106-115 | a query of at most 100 units made of ASCII letters, digits and spaces is accepted unchanged |
| `QueryValidator.SpacesOnlyQueryAccepted` | index.js:104-115 | a query of 1 to 100 spaces passes all three rules |
| `QueryValidator.RejectionSurvivesContext` | index.js:106-114 | adding text on either side of a query can only make an earlier rule fail; a rejected query stays rejected in any longer query |
| `JsText.Includes` | index.js:109 | `includes` is true for the empty needle and false for a needle longer than the string |
| `JsText.IncludesUnit` | index.js:109 | `includes("/")` holds iff `/` is a unit of the query |
| `JsText.EndsWith` | index.js:83 | every string ends with the empty string |
| `JsText.EndsWithByUnits` | index.js:83 | `endsWith` holds iff the suffix is no longer than the string and its units are the string's last units, in order |
| `JsText.IncludesPair` | index.js:109 | `includes("..")` holds iff two adjacent units are both `.` |
| `ArtifactName.ReplaceNonAlnum` | index.js:13 | the `replace` keeps the length, and its result is pure ASCII, so an ASCII-only lower-casing is exact on it |
| `ArtifactName.ToLowerCase` | index.js:13 | defined on ASCII input only, which is what it receives; keeps the length, leaves no ASCII capital, turns each capital into its small letter and leaves every other unit as it is |
| `ArtifactName.Stem` | index.js:13 | each title unit becomes its lower-cased ASCII letter or digit, or `_` |
| `ArtifactName.FileName` | index.js:13 | the name is the title's length plus 4 units and ends in `.mp3`; each unit before the suffix is in `[a-z0-9_]` and is determined by the title unit at that position |
| `ArtifactName.SameFileNameIff` | index.js:13 | two titles give the same name iff they have equal length and agree unit by unit after case and non-alphanumerics are erased |
| `ArtifactName.FileNameNotInjective` | index.js:13 | `A!` and `a?` both give `a_.mp3` |
| `ArtifactName.StemIdempotent` | index.js:13 | deriving a stem from a stem changes nothing |
| `ArtifactName.StemOfConcat` | index.js:13 | the derivation distributes over concatenation |
| `ArtifactName.FileNameHasNoTraversal` | index.js:13-16 | a derived name never contains `..` or `/` |
| `RequestFlow.DownloadAudio` | index.js:12-40 | only the derived name can be added and nothing is removed; a redirect always points at the derived name, present afterwards; any other answer is the conversion-error text |
| `RequestFlow.SearchVideo` | index.js:42-72 | the download is reached iff the list is non-empty and the lookup reports at most 500 seconds (500 passes), and it is always the first hit; a failed search answers "Erro ao buscar vídeo.", a missing or empty list "Nenhum vídeo encontrado.", a failed lookup "Erro ao obter informações do vídeo.", and over 500 seconds "O vídeo é muito longo para ser convertido." |
| `RequestFlow.HandleQuery` | index.js:104-116 | 400 iff the validator rejects, with the validator's reason and no write; otherwise a search answer is sent with the directory unchanged, and a download is `RequestFlow.DownloadAudio` of the first hit's title; a request never removes a file and adds at most one derived name; every redirect points at a present `.mp3` file |
| `RequestFlow.HandleRoot` | index.js:100-102 | the `/` route answers 400 with a reason that differs from all three reasons of the `/:query` route |
| `RequestFlow.Route` | index.js:100-116 | the empty segment gets the `/` answer with no write; any other segment gets the `/:query` handler's result; 400 iff the segment is empty or the validator rejects it; no file is removed |
| `RequestFlow.SpacesOnlySegmentNotRefused` | index.js:100-115 | a segment of 1 to 100 spaces is not answered 400, although the `/` route's message says such queries are refused |
| `RequestFlow.EmptyPathRejected` | index.js:100-102 | the empty path always gets the 400 empty-query answer and changes nothing |
| `RequestFlow.RejectedQueryReachesNothing` | index.js:104-115 | a rejected query's answer does not depend on the search, lookup or transcode, and the directory is unchanged |
| `RequestFlow.NoVideoAnswer` | index.js:45-67 | a missing or empty result list answers "Nenhum vídeo encontrado." and writes nothing |
| `RequestFlow.OnlyFirstHitMatters` | index.js:45-48 | result lists that agree on the first hit are handled alike |
| `RequestFlow.DurationGateBeforeCache` | index.js:52-58 | a video over 500 seconds is refused with the "too long" text whether or not its file is already present; nothing is written |
| `RequestFlow.DurationWithinLimitProceeds` | index.js:54-58 | at most 500 seconds, 500 included, the request becomes the download of the first hit's title |
| `RequestFlow.CacheHitSkipsTranscode` | index.js:16-20 | with the derived name present, the answer is the redirect to it whatever the transcode would do, and the directory is unchanged |
| `RequestFlow.CacheMissTranscodes` | index.js:22-39 | with the name absent, a finished transcode adds exactly that name and redirects to `/<name>`; a failed one answers the error text, leaving the directory unchanged without a partial file and adding exactly the name with one |
| `RequestFlow.PartialFilePoisonsCache` | index.js:16-39 | after a failed transcode that left a partial file, every later request for that title is redirected to the partial file |
| `RequestFlow.CollidingTitlesShareArtifact` | index.js:13-20 | a second title with the same derived name is served the first title's file, without a transcode |
| `Sweep.IsMp3` | index.js:83 | a name is swept iff it has at least four units and its last four are `.mp3`, case-sensitive |
| `Sweep.Swept` | index.js:82-93 | the sweep adds nothing; names not ending in `.mp3` stay; the only `.mp3` names left are those whose unlink failed, and those all stay |
| `Sweep.SweepIdempotent` | index.js:82-93 | sweeping again with the same failures removes nothing more |
| `Sweep.CleanSweepLeavesNoArtifact` | index.js:82-93 | after a sweep with no failed unlink, no derived file name is present |
| `Sweep.FirstDownloadAfterCleanSweepTranscodes` | index.js:12-39 | after such a sweep, the first download of any title is a cache miss and gives the transcode's answer |
| `Server.WorkingDirectory.CleanUp` | index.js:75-95 | the loop over the listing leaves exactly the swept directory; if the listing fails, nothing changes |
| `Server.WorkingDirectory.DownloadAudio` | index.js:12-40 | the in-place check-then-write gives the answer and new directory of `RequestFlow.DownloadAudio` |
| `Server.WorkingDirectory.HandleQuery` | index.js:104-116 | the in-place handler gives the answer and new directory of `RequestFlow.HandleQuery` |
| `Server.WorkingDirectory.Serve` | index.js:100-116 | routing, in place, of a segment the static-file middleware did not answer: the empty segment to `/`, any other to `/:query` |
| `Scenarios.LofiBeatsName` | index.js:13 | the title `Lofi Beats` is stored as `lofi_beats.mp3` |
| `Scenarios.LofiBeatsEndToEnd` | index.js:42-58 | the query `lofi beats`, with first hit `Lofi Beats` of 200 seconds, an empty directory and a finished transcode, redirects to `/lofi_beats.mp3`; that file is then present |
| `Scenarios.StartupNamesClassified` | index.js:83 | `old.mp3` ends in `.mp3` and `notes.txt` does not |
| `Scenarios.OldMp3Swept` | index.js:82-93 | the sweep of a directory holding `old.mp3` and `notes.txt` leaves only `notes.txt` |

## Left out

- Express itself: routing middleware, `app.listen` on port 3000, status codes and JSON bodies. Responses are the `Response` datatype (`BadRequest`, `Redirect`, `Text`).
- Percent-decoding of the route parameter. The model receives the decoded segment.
- The keyword search, the metadata lookup, the audio stream and the ffmpeg transcode (codec, 192 kbps bitrate). These are foreign library calls; their outcomes are the inputs `SearchReply`, `InfoReply` and `Transcode`. Whether a failed transcode leaves a partial file depends on when ffmpeg fails, so that is an input too (`Failed(leftPartialFile)`).
- Static file serving. `express.static` over the script's directory is mounted before both routes (index.js:10). With its default options, a segment naming an existing file whose name does not start with `.` is served as that file and never reaches `/:query`; a segment naming a subdirectory is answered with a redirect to the same path plus `/`. A segment naming a dot-entry is ignored and falls through to `/:query`. That includes `.mp3`, the name `ArtifactName.FileName` gives an empty title, so the redirect `/.mp3` becomes a search for `.mp3`. `RequestFlow.Route` and `Server.WorkingDirectory.Serve` model only the segments that fall through to the routes.
- One directory. The existence check and the transcode's output file (index.js:16, 31) resolve the bare file name against the process's current directory. The sweep and the static middleware use the script's directory (index.js:10, 76). The model assumes the service is started from its script's directory, so the two are the same. Started from elsewhere, the sweep would never remove an artifact, and a redirect would not reach the file that was written.
- The video id. It forms the URL used both for the metadata lookup and for the audio stream the transcode reads (index.js:22, 48, 52, 58). Its effect is carried by the `InfoReply` and `Transcode` inputs.
- The reported length is a decimal string that `>` converts to a number. The model takes it as an integer. A non-numeric string would compare as NaN and pass the gate; that case is not modelled.
- A hit without a `title`. The download would throw inside an async function whose promise nobody handles (index.js:13, 58). No response would be sent, and on Node.js 15 and later the unhandled rejection ends the whole process, so the server stops serving every later request too. The model's `Video` always has a title.
- Asynchrony and concurrency. The sweep's unlinks are asynchronous and race with the server start. Two requests can race on the same file name. The model runs the sweep and each request to completion, one at a time.
- `toLowerCase` on non-ASCII text (for example U+00C0 to U+00E0, or U+0130 to two units). `ArtifactName.ToLowerCase` requires ASCII input and uses the ASCII table. Its one caller passes the ASCII output of the `replace` (`ArtifactName.ReplaceNonAlnum`), where the two agree.
- Console logging.
