# cutflow export compiler, upload rules and editor state, in Dafny

cutflow is a small web video editor. A timeline of clips (video, image, audio, text),
text overlays and effects is turned into an ffmpeg invocation. This happens in two places:

- in the browser, by `exportVideo` and `buildFFmpegArgs` in `src/utils/ffmpegClient.js`,
  running on ffmpeg.wasm;
- on the server, by the `POST /api/export` handler of `server.js`.

The servers also accept uploads through a multer file filter. They store each upload under
a `{timestamp}-{random}-{original}` name, recover the original name when listing, and derive
a media type and a default duration from the extension. `remote-server.js` can guard its
routes with an API key. The editor page (`src/App.jsx`) keeps a list of text overlays, a
playhead and an export progress bar.

This project models those pieces as pure Dafny functions over immutable datatypes, and proves
what they promise.

| file | module | what it holds |
|---|---|---|
| `wrappers.dfy` | `Wrappers` | `Option` and `Result` |
| `strings.dfy` | `Strings` | JavaScript string operations the source relies on: `split`/`join`, `toLowerCase` (ASCII), `replace` of the first occurrence, `padStart`, `trim`, decimal rendering of naturals |
| `seqs.dfy` | `Seqs` | `filter` and counting over sequences |
| `timeline.dfy` | `Timeline` | clips, text items and effects; the stable sort by start time and the visual/audio partitions both compilers begin with |
| `graph.dfy` | `Graph` | typed filter-graph nodes and labels, argument tokens, the argument layout both compilers share, and a parser that reads an argument list back |
| `client.dfy` | `ClientCompiler` | `exportVideo` up to the point where ffmpeg runs, and `buildFFmpegArgs` |
| `client_properties.dfy` | `ClientProperties` | per-clip nodes, the text chain, effect selection and parameters, colour normalisation |
| `client_export.dfy` | `ClientExportProperties` | end-to-end properties of an export: input order, argument layout, flags, node counts, maps |
| `server.dfy` | `ServerCompiler`, `ServerProperties` | the `/api/export` handler up to `exec`, and what it guarantees |
| `upload.dfy` | `Upload`, `UploadProperties` | the file filter shared by both servers, stored names and their recovery, the listed type and default duration |
| `apikey.dfy` | `ApiKey`, `ApiKeyProperties` | `verifyApiKey` |
| `editor.dfy` | `Editor`, `EditorProperties` | add/update/delete of text overlays, seek, the playback tick, `formatTime`, export progress |

## How the source is modelled

- **Typed plans instead of strings.** The filter graph is a sequence of typed `Node`s with
  typed `Label`s (`v{i}`, `outv`, `a{i}`, `outa`, `{base}_text{i}`, `{base}_text`,
  `{base}_effect`). An argument list is a sequence of `Arg` tokens. Both compilers lay
  out a `Plan` the same way: inputs, `-filter_complex` (dropped when the graph is empty),
  maps, `-t`, `-shortest` when asked for, then the fixed encode flags. The browser then
  adds `-y output.mp4`; the server wraps the plan in `ffmpeg … "out" -y`. A parser reads
  every argument list back into its plan, so the layout is proved to lose nothing.
- **No I/O.** The server's `fs.existsSync` becomes an `onDisk: string -> bool` parameter.
  `Date.now()` and `Math.random()` become natural-number parameters. ffmpeg.wasm file
  writes are modelled only by the names the files are written under.
- **Times are `real`s and intensities are integer percentages.** `Math.round` is taken
  half-up on integers.
- **`%` on a possibly negative number follows JavaScript:** the remainder takes the
  sign of the dividend (`Editor.JsRem60`). `path.extname` follows Node's POSIX rules
  (`Upload.ExtName`).
- **Clip ids.** The browser compiler finds a clip's input with `inputFiles.find(f => f.id
  === clip.id)`. The model does the same (`ClientCompiler.FindInput`). The lemmas that say
  "clip `i`'s node reads clip `i`'s own file" assume that ids name clips (`Timeline.IdsIdentify`).
- **Where the source text and its design description disagree, the model follows the code:**
  - the effect applied is the first applicable one in list order, not in time order;
  - the zoom factor is `1 + 0.2 · intensity/100`, so at most 1.2;
  - the server does not reject a non-empty clip list that holds no visual or audio clip;
    it compiles a command with no inputs (`ServerProperties.OnlyTextCompiles`).

## Model

| member | source | states |
|---|---|---|
| Timeline.SortByStart | src/utils/ffmpegClient.js:85 | the sorted clips are in start-time order and are a permutation of the timeline |
| Timeline.SortIsStable | src/utils/ffmpegClient.js:85 | clips with the same start time come out in their timeline order, as with JavaScript's stable sort |
| Timeline.PartitionsOfSorted | src/utils/ffmpegClient.js:85-89 | each partition is sorted, holds exactly the timeline's clips of its group, and keeps ties in timeline order |
| Timeline.PartitionsHoldNoText | src/utils/ffmpegClient.js:88-89 | no clip of either partition is a text clip |
| Timeline.PartitionMembers | server.js:322-326 | both partitions hold only clips of the request |
| Graph.InputArgs | src/utils/ffmpegClient.js:191-193 | one `-i name` pair per input, in input order |
| Graph.BodyRoundTrip | src/utils/ffmpegClient.js:324-345 | the laid-out arguments read back as the plan they came from, whatever follows them |
| Graph.FlagsInBody | src/utils/ffmpegClient.js:324-338 | `-shortest` appears iff the plan asks for it; `-filter_complex` appears iff the graph has a node |
| ClientCompiler.FileExtensionIsLastSegment | src/utils/ffmpegClient.js:353-355 | the extension is the lower-cased text after the last dot: dot-free, a suffix of the name, preceded by a dot unless it is the whole name |
| ClientCompiler.InputFilesFrom | src/utils/ffmpegClient.js:96-104 | one loop writes exactly the clips that have a file, in order, with consecutive indices from its start |
| ClientCompiler.InputFilesNamed | src/utils/ffmpegClient.js:96-115 | every file one loop writes is named `input_v{i}.{ext}` or `input_a{i}.{ext}`, falling back to `mp4`/`mp3` |
| ClientCompiler.InputFiles | src/utils/ffmpegClient.js:92-115 | the inputs are the visual clips with files, then the audio clips with files, indexed 0, 1, 2, … without gaps |
| ClientCompiler.InputFilesIsLoop | src/utils/ffmpegClient.js:92-115 | the two loops run one after the other write exactly that input list |
| ClientCompiler.InputFilesWritten | src/utils/ffmpegClient.js:98-110 | input `k` is named `input_v…` when it is a visual clip's file and `input_a…` when it is an audio clip's |
| ClientCompiler.FindInput | src/utils/ffmpegClient.js:198-199 | a found input is one written for a clip with that id; none is found only when no input has that id |
| ClientCompiler.FindInputIsFirst | src/utils/ffmpegClient.js:198-199 | an input is found exactly when some input has the id, and it is the first such input in the list |
| ClientCompiler.FindTextClip | src/utils/ffmpegClient.js:230-231 | a found clip is a text clip for that text in the search list; none is found only when no such clip exists |
| ClientCompiler.FindTextClipIsFirst | src/utils/ffmpegClient.js:230-231 | a clip is found exactly when the search list has a text clip for the text, and it is the first such clip |
| ClientCompiler.TextFileNamesFrom | src/utils/ffmpegClient.js:118-133 | the loop writes one text file for each text whose text clip is found, as many as there are texts the overlay chain can show |
| ClientCompiler.VisualNodes | src/utils/ffmpegClient.js:197-212 | every node is clip `i`'s chain `v{i}` reading the input found for its id; every clip with a found input gets one |
| ClientCompiler.AudioNodes | src/utils/ffmpegClient.js:305-312 | every node is clip `i`'s trim `a{i}` to min(span, total duration), reading the input found for its id; every clip with a found input gets one |
| ClientCompiler.TextNodes | src/utils/ffmpegClient.js:229-257 | the text loop emits only drawtext nodes |
| ClientCompiler.NormalizeColor | src/utils/ffmpegClient.js:240-247 | the normalised colour always starts with `0x` |
| ClientProperties.NormalizeColorNamed | src/utils/ffmpegClient.js:240-247 | a missing colour and `white`/`#white` become `0xFFFFFF`; `black`/`#black` become `0x000000` |
| ClientProperties.NormalizeColorCases | src/utils/ffmpegClient.js:240-247 | a `0x` colour is kept; a leading `#` changes nothing; any other colour gets `0x` in front |
| ClientProperties.NormalizeColorIdempotent | src/utils/ffmpegClient.js:240-247 | normalising an already normalised colour changes nothing |
| ClientProperties.SelectedIsFirstApplicable | src/utils/ffmpegClient.js:265-268 | no effect is selected iff none is zoom, fade or blur; otherwise the selected one is the first such in list order |
| ClientProperties.SelectedHasOp | src/utils/ffmpegClient.js:266-291 | every selected effect has a filter |
| ClientProperties.EffectNotTimeOrdered | src/utils/ffmpegClient.js:266-268 | a blur listed first wins over an earlier-starting zoom listed second |
| ClientProperties.BlurRadiusRounds | src/utils/ffmpegClient.js:287 | for intensities 0–100 the blur radius is in [1, 5], is the half-up rounding of 5·i/100 when above 1, and is 1 iff 5·i < 150 |
| ClientProperties.EffectParameters | src/utils/ffmpegClient.js:271-291 | zoom scales by 1 + i/500, in (1, 1.2] (1.1 for i = 0, which stands for 50); fade lasts d = 1 for a span of at least 2 and d = span/2 below, in and out, fading out at end − d; blur has a radius in [1, 5]; sparkle has no filter |
| ClientProperties.EffectNodesShape | src/utils/ffmpegClient.js:265-298 | at most one effect node: exactly one when an effect is selected, reading the current label and writing `{label}_effect` |
| ClientProperties.ClientStepsShape | src/utils/ffmpegClient.js:204-210 | every visual chain scales and pads to 1920x1080 first and resets timestamps last; it loops iff the clip is an image; it trims to the clip's span |
| ClientProperties.FoundInputIsClip | src/utils/ffmpegClient.js:198-199 | when ids name clips, a clip's input is found iff it has a file, and the found input is that clip's own |
| ClientProperties.VisualNodeForClip | src/utils/ffmpegClient.js:197-212 | visual clip `i` gets a node `v{i}` iff it has a file; that node reads the clip's own file with the clip's chain |
| ClientProperties.AudioNodeForClip | src/utils/ffmpegClient.js:305-312 | audio clip `i` gets a trim `a{i}` iff it has a file; that trim reads the clip's own file and is capped at the total duration |
| ClientProperties.AudioSectionShape | src/utils/ffmpegClient.js:304-321 | the audio half holds only trims and one amix (`inputs=N`, `duration=longest`, `dropout_transition=0`) iff there are two or more audio clips; it maps `[outa]`, `[a0]` or nothing |
| ClientProperties.VideoSectionHasNoAudio | src/utils/ffmpegClient.js:196-301 | the video half holds no audio node |
| ClientProperties.VideoSectionConcats | src/utils/ffmpegClient.js:214-221 | exactly one concat node iff there are two or more visual clips, counted over every visual clip whether or not it has a file |
| ClientProperties.VideoSectionConcatNode | src/utils/ffmpegClient.js:214-218 | with two or more visual clips the concat node is `n=count:v=1:a=0` over `[v0]`…`[v{n-1}]`, all clips counted, writing `[outv]` |
| ClientProperties.VideoSectionEffects | src/utils/ffmpegClient.js:264-298 | exactly one effect node iff there is a visual clip and an applicable effect |
| ClientProperties.VideoSectionTexts | src/utils/ffmpegClient.js:224-262 | the drawtext nodes of the video half are exactly the text chain's |
| ClientProperties.VideoSectionMaps | src/utils/ffmpegClient.js:215-300 | the one video map is the effect's output when an effect applies, else the stream after the text step |
| ClientProperties.TextNodesIsChain | src/utils/ffmpegClient.js:229-257 | the text loop draws exactly the chain of the texts it finds a text clip for, in list order |
| ClientProperties.TextNodesRunOut | src/utils/ffmpegClient.js:231 | once the text files run out, the loop draws nothing more |
| ClientProperties.TextNodesCount | src/utils/ffmpegClient.js:229-257 | the loop draws min(found texts, unused files) overlays |
| ClientProperties.TextNodesChain | src/utils/ffmpegClient.js:229-257 | overlay `j` draws the `j`-th found text from the `j`-th file, between its clip's start and end; it reads the previous overlay's label, and writes `{base}_text` when its running count is one less than the number of texts, `{base}_text{count}` otherwise |
| ClientExportProperties.InputsOrdered | src/utils/ffmpegClient.js:92-115 | inputs are indexed by position, each is a clip of the partitions with a file, visual inputs are named `input_v…` and audio inputs `input_a…`, and no visual input follows an audio one |
| ClientExportProperties.ClientArgsOpenWithInputs | src/utils/ffmpegClient.js:191-193 | the browser arguments open with exactly one `-i name` pair per plan input |
| ClientExportProperties.ExportInputsOrdered | src/utils/ffmpegClient.js:84-115 | in an export, inputs are numbered in writing order, each is a timeline clip with a file, and all visual inputs precede all audio inputs |
| ClientExportProperties.ExportArgsOpenWithInputs | src/utils/ffmpegClient.js:137 | the arguments of an export begin with `-i name` for each written input, in writing order |
| ClientExportProperties.AudioPresent | src/utils/ffmpegClient.js:89 | the audio partition is non-empty iff the timeline has an audio clip |
| ClientExportProperties.ExportReadsBack | src/utils/ffmpegClient.js:324-347 | an export's arguments read back as its plan, with `-t` the total duration, and end with `-y output.mp4` |
| ClientExportProperties.InputNamesAreNotFlags | src/utils/ffmpegClient.js:99-110 | every input name begins with `i`, so none can be read as a flag |
| ClientExportProperties.ExportFlags | src/utils/ffmpegClient.js:324-338 | `-shortest` is passed iff the timeline has an audio clip; `-filter_complex` iff the graph has a node |
| ClientExportProperties.NoTextFound | src/utils/ffmpegClient.js:118-134 | searching clips with no text clip finds no text, so no text file is written |
| ClientExportProperties.NoTextOverlaysInExport | src/utils/ffmpegClient.js:118-134 | an export writes no text file and its graph holds no drawtext node, since the partitions hold no text clip |
| ClientExportProperties.PlanConcatCount | src/utils/ffmpegClient.js:214-221 | a browser plan has one concat node iff there are two or more visual clips |
| ClientExportProperties.PlanAMixCount | src/utils/ffmpegClient.js:315-321 | a browser plan has one amix node iff there are two or more audio clips |
| ClientExportProperties.PlanEffectCount | src/utils/ffmpegClient.js:264-298 | a browser plan has one effect node iff there is a visual clip and an applicable effect |
| ClientExportProperties.PlanNodeCounts | src/utils/ffmpegClient.js:214-321 | the three counts above together |
| ClientExportProperties.ExportMaps | src/utils/ffmpegClient.js:300-321 | the video map comes first (`[outv]`, `[v0]` or its `_effect` stream), then the audio map (`[outa]` or `[a0]`) |
| ServerCompiler.StatusOf | server.js:314-316 | an empty request answers 400; every other failure answers 500 |
| ServerCompiler.StripLeadingSlash | server.js:335 | only one leading slash is removed; a path without one is unchanged |
| ServerCompiler.ResolveAll | server.js:334-371 | resolution succeeds iff every clip has a path naming an existing file; it then yields the files in clip order; otherwise it fails with the first failing clip's error |
| ServerCompiler.ServerVisualNodes | server.js:334-353 | visual clip `i` reads input `i` and is labelled `v{i}`; its chain starts by scaling, padding and resetting timestamps, loops iff the clip is an image, and has no trim |
| ServerCompiler.ServerAudioNodes | server.js:367-379 | audio clip `i` reads input `visual count + i`, is trimmed to its full span with no cap, and is labelled `a{i}` |
| ServerProperties.EmptyRequestRejected | server.js:314-316 | an absent or empty clip list fails with status 400 before anything is resolved |
| ServerProperties.ExportResolvesAll | server.js:333-371 | a non-empty request compiles iff every visual and audio clip resolves; a failure names the first failing clip in input order and answers 500 |
| ServerProperties.OnlyTextCompiles | server.js:322-409 | a request with only a text or effect clip compiles, since neither needs a file |
| ServerProperties.ServerGraphShape | server.js:333-389 | the graph is the visual chains, one concat over all visual clips iff there are two or more, the audio trims, and one amix with `duration=longest` and no `dropout_transition` iff there are two or more audio clips |
| ServerProperties.ServerCommandInputs | server.js:396-398 | a command is `ffmpeg` followed by one `-i` pair per input |
| ServerProperties.ServerCommandRoundTrip | server.js:392-409 | a command reads back as its plan and output path |
| ServerProperties.CompiledIsCommand | server.js:322-409 | a compiled request is the command of the plan built from the resolved sources |
| ServerProperties.PlanCommandInputs | server.js:396-398 | the command passes the resolved files as quoted `-i` inputs, in order |
| ServerProperties.CompiledCommandInputs | server.js:333-398 | in a compiled command the sources follow `ffmpeg` as `-i "file"` pairs, visual clips first, each sorted by start time |
| ServerProperties.CompiledCommandReadsBack | server.js:392-409 | a compiled command reads back as the plan of the sorted partitions, then the quoted output path and `-y` |
| ServerProperties.ServerFlags | server.js:392-409 | a server command never carries `-shortest`, and carries `-filter_complex` iff the graph has a node |
| Upload.DefaultDuration | server.js:254 | the listed default is 5 seconds for an image and 30 for anything else |
| UploadProperties.AllowListIsGroups | server.js:84-95 | the allow-list is exactly the image, video and audio extensions, and the three groups do not overlap |
| UploadProperties.ExtNameShape | server.js:83 | an extension is empty, or a dot followed by dot-free text; it holds no slash and ends the path |
| UploadProperties.FilterAcceptsIffAllowed | server.js:83-117 | a file is accepted iff its lower-cased extension is on the allow-list, whatever its MIME type |
| UploadProperties.FilterRejections | remote-server.js:56-89 | a rejection always names the extension; the final rejection by file type is never reached |
| UploadProperties.FilterIgnoresCase | remote-server.js:57-77 | `clip.MP4` is accepted, even with a generic MIME type |
| UploadProperties.FilterRejectsText | remote-server.js:57-64 | `memo.txt` is rejected with its extension, even with a video MIME type |
| UploadProperties.StoredNameFields | server.js:72-73 | a stored name splits at dashes into the decimal timestamp, the decimal random number, and the original name's own fields |
| UploadProperties.OriginalNameOfParts | server.js:269-270 | a name `a-b-tail` with no dash in `a` or `b` recovers as `tail` |
| UploadProperties.StoredNameRoundTrip | server.js:269-270 | recovering the original name from a stored name gives back the original name, dashes included |
| UploadProperties.OriginalNameCases | server.js:269-270 | a name with fewer than two dashes is returned unchanged; otherwise everything after the second dash is returned |
| UploadProperties.StoredNameHasNoSlash | remote-server.js:44-48 | a stored name has no slash when the original name has none |
| UploadProperties.StoredNameKeepsExt | remote-server.js:44-48 | a stored name has the original name's extension |
| UploadProperties.AcceptedUploadIsListed | server.js:247-254 | an accepted upload is listed with its extension group's type, never as unknown, and with a 5-second default iff it is an image |
| UploadProperties.ListedTypeIsGroup | server.js:247-252 | the listed type is video, audio or image iff the lower-cased extension is in that group, and unknown iff it is off the allow-list |
| ApiKey.StatusOf | remote-server.js:99-107 | the middleware answers 401 exactly when it refuses a request, and sends no status of its own when it calls `next()` |
| ApiKeyProperties.OpenWithoutKey | remote-server.js:96-100 | with no `API_KEY` configured, every request passes |
| ApiKeyProperties.PassesIffKeyMatches | remote-server.js:102-107 | with a key configured, a request passes iff it supplies that key; every other request gets 401 |
| ApiKeyProperties.BearerSuppliesKey | remote-server.js:94 | a `Bearer <key>` header supplies `<key>`, whatever the query says |
| ApiKeyProperties.RawHeaderIsKey | remote-server.js:94 | a header without `Bearer ` in it supplies itself |
| ApiKeyProperties.QueryIsFallback | remote-server.js:94 | the query parameter is used iff the header is absent or leaves nothing once `Bearer ` is removed |
| ApiKeyProperties.EmptyBearerUsesQuery | remote-server.js:94-107 | a bare `Bearer ` header falls back to the query key; without any key the request is refused |
| Editor.Apply | src/App.jsx:76 | every field present in the patch replaces the overlay's; every absent one is kept |
| Editor.UpdateText | src/App.jsx:75-77 | updating keeps the length of the list |
| Editor.Seek | src/App.jsx:51-55 | the playhead lands in [0, 150]: the clicked fraction times 150 inside the bar, clamped at either end |
| Editor.TickClamped | src/App.jsx:29-35 | at or past the end the tick stops on the end; otherwise playback goes on, advancing by at most one second |
| Editor.ExportProgress | src/App.jsx:84-98 | progress runs 10, 20, …, 100 and then stays at 100 as the export ends, never leaving [0, 100] |
| EditorProperties.AddTextAppends | src/App.jsx:57-73 | exactly one overlay with the defaults is appended iff the input has a non-blank character, selecting it and clearing the input; otherwise nothing changes |
| EditorProperties.UpdateTextTouchesOnlyMatches | src/App.jsx:75-77 | an overlay with another id is left as it was; a matching one gets the patched fields |
| EditorProperties.UpdateWithoutMatch | src/App.jsx:75-77 | without a matching overlay, updating changes nothing |
| EditorProperties.UpdateTextIdempotent | src/App.jsx:75-77 | applying the same patch twice is applying it once, when the patch keeps the id |
| EditorProperties.DeleteTextRemoves | src/App.jsx:79-82 | deleting removes every overlay with the id, keeps the others in their order (deleting from `a + b` is deleting from `a`, then from `b`), shortens the list by their number, and clears the selection |
| EditorProperties.DeleteTextIdempotent | src/App.jsx:79-82 | deleting twice is deleting once |
| EditorProperties.TickBound | src/App.jsx:29-35 | from any non-negative playhead, the tick as written returns exactly 150 and stops playback at or past the end, and otherwise adds one second and keeps playing, staying below 151 |
| EditorProperties.TickOvershoots | src/App.jsx:29-35 | seeking to 149.5 and ticking sets the playhead to 150.5, past the end of the bar, with playback still on; the next tick returns it to 150 and stops |
| EditorProperties.PlayStaysInRange | src/App.jsx:25-39 | with the clamped tick, playback from any point of the bar stays on the bar and stops only at the end |
| EditorProperties.SeekThenPlay | src/App.jsx:51-55 | a seek followed by clamped playback never leaves the bar |
| EditorProperties.TwoDigits | src/App.jsx:104 | a number below 100, padded to two digits, is two digits that read back as itself |
| EditorProperties.MinutesAndSeconds | src/App.jsx:102-103 | for a non-negative time, the minutes and seconds fields satisfy 60·m + s = floor(seconds), with s in [0, 59] |
| EditorProperties.ParseClockOf | src/App.jsx:104 | an `m:ss` display with seconds below 60 reads back as 60·m + ss |
| EditorProperties.FormatTimeReadsBack | src/App.jsx:101-105 | for a non-negative time, the display reads back as its whole seconds |
| EditorProperties.ProgressTickBounds | src/App.jsx:89-96 | a tick from a multiple of ten in [0, 100] stays a multiple of ten in [0, 100], and ends the export iff progress was 100 |

## Left out

- File and process I/O:
  - ffmpeg.wasm loading, `writeFile`/`readFile`/`deleteFile` and the Blob;
  - the server's `exec` of ffmpeg and its error and missing-output answers;
  - ffprobe duration probing in `/api/files`.

  The model ends where the argument list is built.
- The output file name `output-{Date.now()}.mp4` and the directory joins: the output path is a
  parameter.
- `ServerCompiler.JoinPath` does not model `path.join`'s normalisation of `.`, `..` and
  repeated slashes, because the existence check is a parameter over whatever path is built.
- Rendering of numbers and filter strings: times, scale factors and durations stay typed.
  This covers JavaScript's number-to-string, the exact `between(t,…)` text, the server's
  `-t undefined` when the request has no duration (server.js:401), and shell quoting of
  paths that contain `"`.
- The browser export without a total duration: `totalDuration.toString()`
  (src/utils/ffmpegClient.js:333) throws a `TypeError`, which `exportVideo` logs and rethrows
  (src/utils/ffmpegClient.js:178-181). The model takes the total duration as a `real`, so
  this error path is not modelled.
- `Strings.ToLower` lowers ASCII letters only; `toLowerCase` on other letters is not
  modelled.
- Ids from `Date.now()` and the random part of stored names are parameters.
- The 500 MB multer size limit, Express, CORS, static serving and server startup are not part
  of this model. The remote server's routes other than its file filter, stored names and key
  check are not part of it either.
- `src/utils/indexedDB.js`, `src/main.jsx`, `scripts/svg-to-png.js` and the page's rendering
  and styling are not part of this model.
- `UploadProperties.StoredNameKeepsExt`, `UploadProperties.StoredNameHasNoSlash` and
  `UploadProperties.AcceptedUploadIsListed`: stated only for original names without a slash.
  The source does not reject such a name, and `path.extname` of a stored name with one
  depends on where the slash falls.
- `UploadProperties.StoredNameKeepsExt` also requires a non-empty extension. A name whose
  extension is empty but whose stored name has one is left out: `.mp4` has no extension,
  yet `1-2-.mp4` has `.mp4`. The file filter rejects every such name before it is stored.
- `ClientProperties.VisualNodeForClip`, `ClientProperties.AudioNodeForClip` and
  `ClientProperties.FoundInputIsClip` assume that clip ids name clips. With duplicate ids,
  `find` returns the first input with that id (`ClientCompiler.FindInputIsFirst`), and a
  clip then reads the file of the first clip that shares its id.
- `EditorProperties.FormatTimeReadsBack`: stated for non-negative times only. A negative
  time is displayed through `Math.floor` and a negative remainder (`Editor.JsRem60`), but
  nothing is proved about that display.
- The label after the text step: when fewer overlays are drawn than there are texts,
  `{base}_text` is mapped without any node writing it. This is modelled as written
  (`ClientProperties.TextNodesChain` says which node writes it). It never shows in an
  export, because no text overlay is ever produced (`ClientExportProperties.NoTextOverlaysInExport`).

## Findings

| source | as written | input that shows it | evidently intended | confidence | as-written member | corrected member |
|---|---|---|---|---|---|---|
| src/App.jsx:29-35 | the tick returns `prev + 1` whenever `prev < 150`, so a playhead set by a seek to a fractional position less than a second before the end is pushed past it | a seek to 149.5 (`Seek(149.5 / 150)`), then one tick, sets `currentTime` to 150.5 with playback still on. For one 500 ms tick the progress bar is drawn about 100.3% wide (src/App.jsx:229). The `m:ss` display still reads `2:30` | the playhead stays in [0, 150]: the step is clamped to the end | medium; not executed | EditorProperties.TickOvershoots | EditorProperties.PlayStaysInRange |
