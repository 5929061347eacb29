/** The browser-side compiler (`exportVideo` and `buildFFmpegArgs` in
    src/utils/ffmpegClient.js): it writes every clip's file into ffmpeg.wasm's
    file system and builds one argument list. Visual clips are trimmed and images
    looped, text overlays are chained, at most one effect is applied, audio trims are
    capped at the total duration and `-shortest` is added when audio is present. */
module ClientCompiler {
  import opened Wrappers
  import opened Strings
  import opened Seqs
  import opened Timeline
  import opened Graph

  /** A clip whose file has been written as `fileName`: `{ ...clip, fileName, inputIndex }`. */
  datatype InputFile = InputFile(clip: Clip, fileName: string, index: nat)

  /** The nodes a part of the graph contributes and the stream it maps to the output. */
  datatype Section = Section(nodes: seq<Node>, maps: seq<Label>)

  /** What an export produces before ffmpeg runs: the written inputs, the written text
      files and the argument list. */
  datatype ClientExport = ClientExport(inputs: seq<InputFile>, textFiles: seq<string>, args: seq<Arg>)

  function Min(a: real, b: real): real { if a <= b then a else b }

  // ---------------------------------------------------------------------------
  // Inputs

  /** `filename.split('.').pop().toLowerCase()`. */
  function FileExtension(name: string): string
  {
    ToLower(Last(Split(name, '.')))
  }

  /** The extension is the lower-cased text after the last dot, or the whole lower-cased
      name when there is no dot. */
  lemma FileExtensionIsLastSegment(name: string)
    ensures var r := FileExtension(name);
      && '.' !in r
      && |r| <= |name| && r == ToLower(name[|name| - |r|..])
      && (|r| < |name| ==> name[|name| - |r| - 1] == '.')
  {
    SplitLastIsSuffix(name, '.');
    var last := Last(Split(name, '.'));
    var r := ToLower(last);
    forall i | 0 <= i < |r| ensures r[i] != '.' {
      assert last[i] != '.';
    }
  }

  /** `input_v{index}.{ext}` for visual clips and `input_a{index}.{ext}` for audio clips;
      a missing extension becomes `mp4` or `mp3`. */
  function InputName(audio: bool, index: nat, name: string): string
  {
    var ext := FileExtension(name);
    (if audio then "input_a" else "input_v") + NatToString(index) + "."
      + (if ext == "" then (if audio then "mp3" else "mp4") else ext)
  }

  lemma InputNamePrefix(audio: bool, index: nat, name: string)
    ensures StartsWith(InputName(audio, index, name), if audio then "input_a" else "input_v")
  {
  }

  /** `f` carries the name `exportVideo` gives the file of its clip at its index. */
  predicate WrittenAs(f: InputFile, audio: bool)
  {
    HasFile(f.clip) && f.fileName == InputName(audio, f.index, f.clip.file.value.name)
  }

  /** One loop of `exportVideo` over a clip group: clips with a file are written with
      consecutive input indices from `start`; clips without a file are skipped. */
  function InputFilesFrom(clips: seq<Clip>, audio: bool, start: nat): (r: seq<InputFile>)
    ensures |r| == |Filter(clips, HasFile)|
    ensures forall k :: 0 <= k < |r| ==>
      && r[k].clip == Filter(clips, HasFile)[k]
      && r[k].index == start + k
      && HasFile(r[k].clip)
  {
    if |clips| == 0 then []
    else if HasFile(clips[0]) then
      var rest := InputFilesFrom(clips[1..], audio, start + 1);
      var f := Filter(clips, HasFile);
      assert f == [clips[0]] + Filter(clips[1..], HasFile);
      var r := [InputFile(clips[0], InputName(audio, start, clips[0].file.value.name), start)] + rest;
      assert forall k :: 1 <= k < |r| ==> r[k] == rest[k - 1] && f[k] == Filter(clips[1..], HasFile)[k - 1];
      r
    else
      assert Filter(clips, HasFile) == Filter(clips[1..], HasFile);
      InputFilesFrom(clips[1..], audio, start)
  }

  lemma {:induction false} InputFilesNamed(clips: seq<Clip>, audio: bool, start: nat)
    ensures forall k :: 0 <= k < |InputFilesFrom(clips, audio, start)| ==>
      WrittenAs(InputFilesFrom(clips, audio, start)[k], audio)
  {
    hide InputName, NormalizeColor;
    if |clips| > 0 {
      var next := if HasFile(clips[0]) then start + 1 else start;
      InputFilesNamed(clips[1..], audio, next);
      var r := InputFilesFrom(clips, audio, start);
      var rest := InputFilesFrom(clips[1..], audio, next);
      if HasFile(clips[0]) {
        assert r == [InputFile(clips[0], InputName(audio, start, clips[0].file.value.name), start)] + rest;
        assert forall k :: 1 <= k < |r| ==> r[k] == rest[k - 1];
        assert WrittenAs(r[0], audio);
      } else {
        assert r == rest;
      }
    }
  }

  /** The input list of `exportVideo`: the visual clips' files, then the audio clips'
      files, numbered from 0 without gaps and named by group and number. */
  function InputFiles(visual: seq<Clip>, audio: seq<Clip>): (r: seq<InputFile>)
    ensures |r| == |Filter(visual, HasFile)| + |Filter(audio, HasFile)|
    ensures forall k :: 0 <= k < |r| ==> r[k].index == k && HasFile(r[k].clip)
    ensures forall k :: 0 <= k < |Filter(visual, HasFile)| ==> r[k].clip == Filter(visual, HasFile)[k]
    ensures forall k :: |Filter(visual, HasFile)| <= k < |r| ==>
      r[k].clip == Filter(audio, HasFile)[k - |Filter(visual, HasFile)|]
  {
    var vf := Filter(visual, HasFile);
    var clips := vf + Filter(audio, HasFile);
    assert forall k :: 0 <= k < |clips| ==> HasFile(clips[k]);
    seq(|clips|, k requires 0 <= k < |clips| =>
      InputFile(clips[k], InputName(k >= |vf|, k, clips[k].file.value.name), k))
  }

  /** Input `k` is named for its group and number: `input_v...` for a visual clip's file
      and `input_a...` for an audio clip's. */
  lemma InputFilesWritten(visual: seq<Clip>, audio: seq<Clip>, k: nat)
    requires k < |InputFiles(visual, audio)|
    ensures WrittenAs(InputFiles(visual, audio)[k], k >= |Filter(visual, HasFile)|)
    ensures k < |Filter(visual, HasFile)| ==> StartsWith(InputFiles(visual, audio)[k].fileName, "input_v")
    ensures k >= |Filter(visual, HasFile)| ==> StartsWith(InputFiles(visual, audio)[k].fileName, "input_a")
  {
    var f := InputFiles(visual, audio)[k];
    InputNamePrefix(k >= |Filter(visual, HasFile)|, k, f.clip.file.value.name);
  }

  /** The two loops of `exportVideo`, one after the other, write exactly that list. */
  lemma InputFilesIsLoop(visual: seq<Clip>, audio: seq<Clip>)
    ensures InputFilesFrom(visual, false, 0) + InputFilesFrom(audio, true, |Filter(visual, HasFile)|)
         == InputFiles(visual, audio)
  {
    hide InputName;
    var vs := InputFilesFrom(visual, false, 0);
    var aus := InputFilesFrom(audio, true, |vs|);
    InputFilesNamed(visual, false, 0);
    InputFilesNamed(audio, true, |vs|);
    var r := InputFiles(visual, audio);
    forall k | 0 <= k < |r| ensures (vs + aus)[k] == r[k] {
      InputFilesWritten(visual, audio, k);
      if k < |vs| {
        assert (vs + aus)[k] == vs[k];
        assert WrittenAs(vs[k], false) && WrittenAs(r[k], false);
        assert vs[k].clip == r[k].clip && vs[k].index == r[k].index;
      } else {
        assert (vs + aus)[k] == aus[k - |vs|];
        assert WrittenAs(aus[k - |vs|], true) && WrittenAs(r[k], true);
        assert aus[k - |vs|].clip == r[k].clip && aus[k - |vs|].index == r[k].index;
      }
    }
  }

  /** Position `k` holds the first input written for clip `id`. */
  predicate FirstInputWithId(inputs: seq<InputFile>, id: nat, k: int)
  {
    0 <= k < |inputs| && inputs[k].clip.id == id && forall j :: 0 <= j < k ==> inputs[j].clip.id != id
  }

  /** `inputFiles.find(f => f.id === id)`: the first input written for a clip with that id. */
  function FindInput(inputs: seq<InputFile>, id: nat): (r: Option<InputFile>)
    ensures r.Some? ==> r.value in inputs && r.value.clip.id == id
    ensures r.None? ==> forall k :: 0 <= k < |inputs| ==> inputs[k].clip.id != id
  {
    if |inputs| == 0 then None
    else if inputs[0].clip.id == id then Some(inputs[0])
    else FindInput(inputs[1..], id)
  }

  /** `find` returns the first input for the id: there is a result exactly when some input
      has the id, and then it is the one at the first such position. */
  lemma {:induction false} FindInputIsFirst(inputs: seq<InputFile>, id: nat)
    ensures FindInput(inputs, id).Some? <==> exists k :: FirstInputWithId(inputs, id, k)
    ensures forall k :: FirstInputWithId(inputs, id, k) ==> FindInput(inputs, id) == Some(inputs[k])
  {
    if |inputs| > 0 && inputs[0].clip.id != id {
      FindInputIsFirst(inputs[1..], id);
      forall k | FirstInputWithId(inputs, id, k)
        ensures k > 0 && FirstInputWithId(inputs[1..], id, k - 1)
      {
        assert k != 0;
        forall j | 0 <= j < k - 1 ensures inputs[1..][j].clip.id != id {
          assert inputs[1..][j] == inputs[j + 1];
        }
      }
      if FindInput(inputs, id).Some? {
        var k :| FirstInputWithId(inputs[1..], id, k);
        assert FirstInputWithId(inputs, id, k + 1) by {
          forall j | 0 <= j < k + 1 ensures inputs[j].clip.id != id {
            if j > 0 { assert inputs[j] == inputs[1..][j - 1]; }
          }
        }
      }
    } else if |inputs| > 0 {
      assert FirstInputWithId(inputs, id, 0);
    }
  }

  // ---------------------------------------------------------------------------
  // Text overlays

  /** Position `k` holds the first text clip for text `textId`. */
  predicate FirstTextClipFor(search: seq<Clip>, textId: nat, k: int)
  {
    && 0 <= k < |search| && search[k].kind == TextClip && search[k].textId == Some(textId)
    && forall j :: 0 <= j < k ==> !(search[j].kind == TextClip && search[j].textId == Some(textId))
  }

  /** `[...videoClips, ...audioClips].find(c => c.type === 'text' && c.textId === id)`. */
  function FindTextClip(search: seq<Clip>, textId: nat): (r: Option<Clip>)
    ensures r.Some? ==> r.value in search && r.value.kind == TextClip && r.value.textId == Some(textId)
    ensures r.None? ==> forall k :: 0 <= k < |search| ==>
      !(search[k].kind == TextClip && search[k].textId == Some(textId))
  {
    if |search| == 0 then None
    else if search[0].kind == TextClip && search[0].textId == Some(textId) then Some(search[0])
    else FindTextClip(search[1..], textId)
  }

  /** `find` returns the first text clip for the text: there is a result exactly when such
      a clip exists, and then it is the one at the first such position. */
  lemma {:induction false} FindTextClipIsFirst(search: seq<Clip>, textId: nat)
    ensures FindTextClip(search, textId).Some? <==> exists k :: FirstTextClipFor(search, textId, k)
    ensures forall k :: FirstTextClipFor(search, textId, k) ==> FindTextClip(search, textId) == Some(search[k])
  {
    if |search| > 0 && !(search[0].kind == TextClip && search[0].textId == Some(textId)) {
      FindTextClipIsFirst(search[1..], textId);
      forall k | FirstTextClipFor(search, textId, k)
        ensures k > 0 && FirstTextClipFor(search[1..], textId, k - 1)
      {
        assert k != 0;
        forall j | 0 <= j < k - 1 ensures !(search[1..][j].kind == TextClip && search[1..][j].textId == Some(textId)) {
          assert search[1..][j] == search[j + 1];
        }
      }
      if FindTextClip(search, textId).Some? {
        var k :| FirstTextClipFor(search[1..], textId, k);
        assert FirstTextClipFor(search, textId, k + 1) by {
          forall j | 0 <= j < k + 1 ensures !(search[j].kind == TextClip && search[j].textId == Some(textId)) {
            if j > 0 { assert search[j] == search[1..][j - 1]; }
          }
        }
      }
    } else if |search| > 0 {
      assert FirstTextClipFor(search, textId, 0);
    }
  }

  /** The text-file loop of `exportVideo` from position `k`: `text_{k}.txt` for every text
      whose text clip is found, so one file per text the overlay chain can show. */
  function TextFileNamesFrom(texts: seq<TextItem>, search: seq<Clip>, k: nat): (r: seq<string>)
    requires k <= |texts|
    ensures |r| <= |texts| - k
    ensures |r| == |FoundTexts(texts, search, k)|
    decreases |texts| - k
  {
    if k == |texts| then []
    else
      (if FindTextClip(search, texts[k].id).Some? then ["text_" + NatToString(k) + ".txt"] else [])
        + TextFileNamesFrom(texts, search, k + 1)
  }

  function TextFileNames(texts: seq<TextItem>, search: seq<Clip>): seq<string>
  {
    TextFileNamesFrom(texts, search, 0)
  }

  /** `text.color || 'white'`, a leading `#` dropped, `white`/`black` spelled out, and
      `0x` put in front of anything else that lacks it. */
  function NormalizeColor(color: string): (r: string)
    ensures StartsWith(r, "0x")
  {
    var c := if color == "" then "white" else color;
    var s := if |c| > 0 && c[0] == '#' then c[1..] else c;
    if !StartsWith(s, "0x") && s != "white" && s != "black" then "0x" + s
    else if s == "white" then "0xFFFFFF"
    else if s == "black" then "0x000000"
    else s
  }

  /** The texts from position `k` on that have a text clip, each with its clip: the
      overlays a chain can show, in list order. */
  function FoundTexts(texts: seq<TextItem>, search: seq<Clip>, k: nat): (r: seq<(TextItem, Clip)>)
    requires k <= |texts|
    decreases |texts| - k
  {
    if k == |texts| then []
    else match FindTextClip(search, texts[k].id)
      case None => FoundTexts(texts, search, k + 1)
      case Some(c) => [(texts[k], c)] + FoundTexts(texts, search, k + 1)
  }

  /** The drawtext node for text `t` shown during its clip `c`. */
  function DrawTextFor(t: TextItem, c: Clip, file: string, src: Label, out: Label): Node
  {
    DrawText(src, file, if t.fontSize == 0 then 48 else t.fontSize, NormalizeColor(t.color),
             if t.x == 0 then 100 else t.x, if t.y == 0 then 100 else t.y,
             c.startTime, c.endTime, out)
  }

  /** The text-overlay loop of `buildFFmpegArgs` from position `k`, after `emitted` nodes,
      with `cur` the label the next node reads. */
  function TextNodes(texts: seq<TextItem>, search: seq<Clip>, files: seq<string>, base: Label,
                     k: nat, emitted: nat, cur: Label): (r: seq<Node>)
    requires k <= |texts|
    ensures forall j :: 0 <= j < |r| ==> r[j].DrawText?
    decreases |texts| - k
  {
    if k == |texts| then []
    else match FindTextClip(search, texts[k].id)
      case None => TextNodes(texts, search, files, base, k + 1, emitted, cur)
      case Some(c) =>
        if emitted >= |files| then TextNodes(texts, search, files, base, k + 1, emitted, cur)
        else
          var next := if emitted == |texts| - 1 then TextLast(base) else TextStep(base, emitted);
          [DrawTextFor(texts[k], c, files[emitted], cur, next)]
            + TextNodes(texts, search, files, base, k + 1, emitted + 1, next)
  }

  // ---------------------------------------------------------------------------
  // Effects

  predicate Applicable(e: Effect) { e.kind == Zoom || e.kind == Fade || e.kind == Blur }

  /** `effects.filter(e => ['zoom', 'fade', 'blur'].includes(e.type))[0]`. */
  function SelectedEffect(effects: seq<Effect>): Option<Effect>
  {
    var app := Filter(effects, Applicable);
    if |app| > 0 then Some(app[0]) else None
  }

  /** `effect.intensity || 50`, as a percentage. */
  function IntensityPercent(e: Effect): int
  {
    if e.intensity == 0 then 50 else e.intensity
  }

  /** `Math.max(1, Math.round(percent / 100 * 5))`, rounding halves up. */
  function BlurRadius(percent: int): int
  {
    var rounded := (5 * percent + 50) / 100;
    if rounded < 1 then 1 else rounded
  }

  /** The filter the `switch` builds for an effect; none for a kind it does not handle. */
  function EffectOpFor(e: Effect): Option<EffectOp>
  {
    var i := IntensityPercent(e) as real / 100.0;
    match e.kind
    case Zoom => Some(ZoomBy(1.0 + i * 0.2))
    case Fade =>
      var span := (e.endTime - e.startTime) / 2.0;
      var d := if 1.0 <= span then 1.0 else span;
      Some(FadeInOut(e.startTime, d, e.endTime - d))
    case Blur => Some(BoxBlur(BlurRadius(IntensityPercent(e))))
    case Sparkle => None
  }

  // ---------------------------------------------------------------------------
  // Graph

  /** The per-clip chain: scale and pad to 1920x1080; an image is looped and then trimmed
      to the clip's span, a video is trimmed directly. */
  function ClientSteps(c: Clip): seq<VStep>
  {
    var d := c.endTime - c.startTime;
    if c.kind == ImageClip then [ScaleFit1080, Pad1080, ResetPts, LoopForever, TrimTo(d), ResetPts]
    else [ScaleFit1080, Pad1080, TrimTo(d), ResetPts]
  }

  /** The `videoClips.forEach` loop over the first `n` clips: clip `i` yields a node
      labelled `v{i}` when an input is found for its id. */
  function VisualNodes(clips: seq<Clip>, inputs: seq<InputFile>, n: nat): (r: seq<Node>)
    requires n <= |clips|
    ensures forall j :: 0 <= j < |r| ==>
      && r[j].VisualChain? && r[j].out.V? && r[j].out.i < n
      && FindInput(inputs, clips[r[j].out.i].id).Some?
      && r[j].input == FindInput(inputs, clips[r[j].out.i].id).value.index
      && r[j].steps == ClientSteps(clips[r[j].out.i])
    ensures forall i :: 0 <= i < n && FindInput(inputs, clips[i].id).Some? ==>
      exists j :: 0 <= j < |r| && r[j].out == V(i)
  {
    if n == 0 then []
    else
      var prev := VisualNodes(clips, inputs, n - 1);
      match FindInput(inputs, clips[n - 1].id)
      case None => prev
      case Some(f) =>
        var r := prev + [VisualChain(f.index, ClientSteps(clips[n - 1]), V(n - 1))];
        assert r[|prev|].out == V(n - 1);
        assert forall j :: 0 <= j < |prev| ==> r[j] == prev[j];
        r
  }

  /** The `audioClips.forEach` loop over the first `n` clips: clip `i` is trimmed to the
      smaller of its span and the total duration and labelled `a{i}`. */
  function AudioNodes(clips: seq<Clip>, inputs: seq<InputFile>, total: real, n: nat): (r: seq<Node>)
    requires n <= |clips|
    ensures forall j :: 0 <= j < |r| ==>
      && r[j].AudioTrim? && r[j].out.A? && r[j].out.i < n
      && FindInput(inputs, clips[r[j].out.i].id).Some?
      && r[j].input == FindInput(inputs, clips[r[j].out.i].id).value.index
      && r[j].seconds == Min(clips[r[j].out.i].endTime - clips[r[j].out.i].startTime, total)
    ensures forall i :: 0 <= i < n && FindInput(inputs, clips[i].id).Some? ==>
      exists j :: 0 <= j < |r| && r[j].out == A(i)
  {
    if n == 0 then []
    else
      var prev := AudioNodes(clips, inputs, total, n - 1);
      var c := clips[n - 1];
      match FindInput(inputs, c.id)
      case None => prev
      case Some(f) =>
        var node := AudioTrim(f.index, Min(c.endTime - c.startTime, total), A(n - 1));
        assert node.out.i == n - 1 && FindInput(inputs, clips[node.out.i].id) == Some(f);
        var r := prev + [node];
        assert forall j :: 0 <= j < |prev| ==> r[j] == prev[j];
        assert r[|prev|] == node;
        r
  }

  /** `[v0]...[v{n-1}]concat=n={n}:v=1:a=0[outv]` when there is more than one visual clip. */
  function ConcatNodes(videoClips: seq<Clip>): seq<Node>
  {
    if |videoClips| > 1 then [Concat(VLabels(|videoClips|), |videoClips|, 1, 0, OutV)] else []
  }

  /** The combined visual stream: `outv` after a concat, `v0` otherwise. */
  function BaseLabel(videoClips: seq<Clip>): Label
  {
    if |videoClips| > 1 then OutV else V(0)
  }

  /** `texts && texts.length > 0 && textFileNames.length > 0`. */
  predicate TextOn(texts: seq<TextItem>, textFiles: seq<string>)
  {
    |texts| > 0 && |textFiles| > 0
  }

  function TextChainNodes(videoClips: seq<Clip>, audioClips: seq<Clip>, texts: seq<TextItem>,
                          textFiles: seq<string>): seq<Node>
  {
    if TextOn(texts, textFiles) then
      TextNodes(texts, videoClips + audioClips, textFiles, BaseLabel(videoClips), 0, 0, BaseLabel(videoClips))
    else []
  }

  /** The video label after the text step: `{base}_text` once the text branch ran. */
  function AfterText(videoClips: seq<Clip>, texts: seq<TextItem>, textFiles: seq<string>): Label
  {
    if TextOn(texts, textFiles) then TextLast(BaseLabel(videoClips)) else BaseLabel(videoClips)
  }

  /** The one effect node, labelled `{src}_effect`, if an effect is selected. */
  function EffectNodes(src: Label, effects: seq<Effect>): seq<Node>
  {
    match SelectedEffect(effects)
    case None => []
    case Some(e) =>
      match EffectOpFor(e)
      case None => []
      case Some(op) => [EffectNode(src, op, Effected(src))]
  }

  /** The video half of `buildFFmpegArgs`: per-clip nodes, the concat node, the text
      chain, the effect, and the one video map. */
  function VideoSection(videoClips: seq<Clip>, audioClips: seq<Clip>, inputs: seq<InputFile>,
                        texts: seq<TextItem>, textFiles: seq<string>, effects: seq<Effect>): Section
  {
    if |videoClips| == 0 then Section([], [])
    else
      var afterText := AfterText(videoClips, texts, textFiles);
      var effectNodes := EffectNodes(afterText, effects);
      Section(VisualNodes(videoClips, inputs, |videoClips|) + ConcatNodes(videoClips)
                + TextChainNodes(videoClips, audioClips, texts, textFiles) + effectNodes,
              [if |effectNodes| > 0 then Effected(afterText) else afterText])
  }

  /** The audio half of `buildFFmpegArgs`: per-clip trims, the amix node, the audio map. */
  function AudioSection(audioClips: seq<Clip>, inputs: seq<InputFile>, total: real): Section
  {
    if |audioClips| == 0 then Section([], [])
    else
      var perClip := AudioNodes(audioClips, inputs, total, |audioClips|);
      if |audioClips| > 1 then
        Section(perClip + [AMix(ALabels(|audioClips|), |audioClips|, Longest, true, OutA)], [OutA])
      else Section(perClip, [A(0)])
  }

  /** The plan `buildFFmpegArgs` lays out. */
  function ClientPlan(videoClips: seq<Clip>, audioClips: seq<Clip>, inputs: seq<InputFile>,
                      texts: seq<TextItem>, textFiles: seq<string>, effects: seq<Effect>, total: real): Plan
  {
    var vs := VideoSection(videoClips, audioClips, inputs, texts, textFiles, effects);
    var au := AudioSection(audioClips, inputs, total);
    Plan(seq(|inputs|, k requires 0 <= k < |inputs| => Lit(inputs[k].fileName)),
         vs.nodes + au.nodes, vs.maps + au.maps, total, |audioClips| > 0)
  }

  /** The client's argument layout: the body, then `-y output.mp4`. */
  function ClientArgs(p: Plan): seq<Arg>
  {
    Body(p) + [Lit("-y"), Lit("output.mp4")]
  }

  /** Reads a client argument list back into its plan. */
  function ParseClientArgs(args: seq<Arg>): Option<Plan>
  {
    match ParseBody(args)
    case None => None
    case Some((p, rest)) => if rest == [Lit("-y"), Lit("output.mp4")] then Some(p) else None
  }

  /** `buildFFmpegArgs`. */
  function BuildArgs(videoClips: seq<Clip>, audioClips: seq<Clip>, inputs: seq<InputFile>,
                     texts: seq<TextItem>, textFiles: seq<string>, effects: seq<Effect>, total: real): seq<Arg>
  {
    ClientArgs(ClientPlan(videoClips, audioClips, inputs, texts, textFiles, effects, total))
  }

  /** The plan `exportVideo` hands to `buildFFmpegArgs`. */
  function ExportPlan(clips: seq<Clip>, texts: seq<TextItem>, effects: seq<Effect>, total: real): Plan
  {
    var sorted := SortByStart(clips);
    var visual := VisualClips(sorted);
    var audio := AudioClips(sorted);
    var inputs := InputFiles(visual, audio);
    ClientPlan(visual, audio, inputs, texts, TextFileNames(texts, visual + audio), effects, total)
  }

  /** `exportVideo` up to the point where ffmpeg runs: sort, partition, write the inputs
      and the text files, build the arguments. */
  function ExportVideo(clips: seq<Clip>, texts: seq<TextItem>, effects: seq<Effect>, total: real): ClientExport
  {
    var sorted := SortByStart(clips);
    var visual := VisualClips(sorted);
    var audio := AudioClips(sorted);
    var inputs := InputFiles(visual, audio);
    var textFiles := TextFileNames(texts, visual + audio);
    ClientExport(inputs, textFiles, BuildArgs(visual, audio, inputs, texts, textFiles, effects, total))
  }
}
