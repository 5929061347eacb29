/** What `exportVideo` guarantees end to end: the order of the inputs it writes, the
    shape of the argument list it runs, the node counts and maps of its graph, and the
    text overlays it never produces because no partition holds a text clip. */
module ClientExportProperties {
  import opened Wrappers
  import opened Strings
  import opened Seqs
  import opened Timeline
  import opened Graph
  import opened ClientCompiler
  import opened ClientProperties

  // ---------------------------------------------------------------------------
  // Inputs

  /** Inputs written for a visual group and an audio group are numbered 0, 1, 2, ...;
      the visual ones (`input_v...`) all precede the audio ones (`input_a...`). */
  lemma InputsOrdered(visual: seq<Clip>, audio: seq<Clip>)
    requires forall c :: c in visual ==> IsVisual(c)
    requires forall c :: c in audio ==> IsAudio(c)
    ensures forall k :: 0 <= k < |InputFiles(visual, audio)| ==>
      && InputFiles(visual, audio)[k].index == k
      && HasFile(InputFiles(visual, audio)[k].clip)
      && InputFiles(visual, audio)[k].clip in visual + audio
    ensures forall k :: 0 <= k < |InputFiles(visual, audio)| ==>
      (IsVisual(InputFiles(visual, audio)[k].clip) && StartsWith(InputFiles(visual, audio)[k].fileName, "input_v"))
      || (IsAudio(InputFiles(visual, audio)[k].clip) && StartsWith(InputFiles(visual, audio)[k].fileName, "input_a"))
    ensures forall k, j ::
      (0 <= k < j < |InputFiles(visual, audio)| && IsAudio(InputFiles(visual, audio)[k].clip))
      ==> IsAudio(InputFiles(visual, audio)[j].clip)
  {
    hide InputFiles, InputName, NormalizeColor;
    var ins := InputFiles(visual, audio);
    var fv := Filter(visual, HasFile);
    var fa := Filter(audio, HasFile);
    FilterMembers(visual, HasFile);
    FilterMembers(audio, HasFile);
    forall k | 0 <= k < |ins|
      ensures k < |fv| ==>
        IsVisual(ins[k].clip) && ins[k].clip in visual && StartsWith(ins[k].fileName, "input_v")
      ensures k >= |fv| ==>
        IsAudio(ins[k].clip) && ins[k].clip in audio && StartsWith(ins[k].fileName, "input_a")
    {
      InputFilesWritten(visual, audio, k);
      if k < |fv| {
        assert ins[k].clip == fv[k];
      } else {
        assert ins[k].clip == fa[k - |fv|];
      }
    }
  }

  /** The client's arguments open with one `-i name` pair per input of the plan. */
  lemma ClientArgsOpenWithInputs(p: Plan)
    ensures |ClientArgs(p)| > 2 * |p.inputs|
    ensures forall k :: 0 <= k < |p.inputs| ==>
      ClientArgs(p)[2 * k] == Lit("-i") && ClientArgs(p)[2 * k + 1] == p.inputs[k]
  {
    hide FilterArgs, MapArgs, TailArgs;
    var ins := InputArgs(p.inputs);
    var rest := FilterArgs(p.graph) + MapArgs(p.maps) + TailArgs(p.duration, p.shortest);
    assert ClientArgs(p) == ins + rest + [Lit("-y"), Lit("output.mp4")];
    forall k | 0 <= k < |p.inputs|
      ensures ClientArgs(p)[2 * k] == Lit("-i") && ClientArgs(p)[2 * k + 1] == p.inputs[k]
    {
      assert ClientArgs(p)[2 * k] == ins[2 * k];
      assert ClientArgs(p)[2 * k + 1] == ins[2 * k + 1];
    }
  }

  /** What an export is made of: the inputs of the sorted partitions and the client
      arguments of the export plan, whose inputs are the written file names. */
  lemma ExportParts(clips: seq<Clip>, texts: seq<TextItem>, effects: seq<Effect>, total: real)
    ensures ExportVideo(clips, texts, effects, total).inputs
         == InputFiles(VisualClips(SortByStart(clips)), AudioClips(SortByStart(clips)))
    ensures ExportVideo(clips, texts, effects, total).args == ClientArgs(ExportPlan(clips, texts, effects, total))
    ensures |ExportPlan(clips, texts, effects, total).inputs| == |ExportVideo(clips, texts, effects, total).inputs|
    ensures forall k :: 0 <= k < |ExportPlan(clips, texts, effects, total).inputs| ==>
      ExportPlan(clips, texts, effects, total).inputs[k] == Lit(ExportVideo(clips, texts, effects, total).inputs[k].fileName)
  {
  }

  /** Inputs are numbered 0, 1, 2, ... in the order written; every one is a clip of the
      timeline that has a file; and all visual inputs (`input_v...`) precede all audio
      inputs (`input_a...`). */
  lemma ExportInputsOrdered(clips: seq<Clip>, texts: seq<TextItem>, effects: seq<Effect>, total: real)
    ensures forall k :: 0 <= k < |ExportVideo(clips, texts, effects, total).inputs| ==>
      && ExportVideo(clips, texts, effects, total).inputs[k].index == k
      && HasFile(ExportVideo(clips, texts, effects, total).inputs[k].clip)
      && ExportVideo(clips, texts, effects, total).inputs[k].clip in clips
    ensures forall k :: 0 <= k < |ExportVideo(clips, texts, effects, total).inputs| ==>
      (IsVisual(ExportVideo(clips, texts, effects, total).inputs[k].clip)
         && StartsWith(ExportVideo(clips, texts, effects, total).inputs[k].fileName, "input_v"))
      || (IsAudio(ExportVideo(clips, texts, effects, total).inputs[k].clip)
         && StartsWith(ExportVideo(clips, texts, effects, total).inputs[k].fileName, "input_a"))
    ensures forall k, j ::
      (0 <= k < j < |ExportVideo(clips, texts, effects, total).inputs|
       && IsAudio(ExportVideo(clips, texts, effects, total).inputs[k].clip))
      ==> IsAudio(ExportVideo(clips, texts, effects, total).inputs[j].clip)
  {
    var sorted := SortByStart(clips);
    var visual := VisualClips(sorted);
    var audio := AudioClips(sorted);
    ExportParts(clips, texts, effects, total);
    hide ExportVideo, ExportPlan, InputFiles, InputName, NormalizeColor;
    PartitionMembers(clips);
    forall c | c in visual ensures IsVisual(c) {
      var m :| 0 <= m < |visual| && visual[m] == c;
    }
    forall c | c in audio ensures IsAudio(c) {
      var m :| 0 <= m < |audio| && audio[m] == c;
    }
    InputsOrdered(visual, audio);
  }

  /** The arguments open with one `-i name` pair per input, in input order. */
  lemma ExportArgsOpenWithInputs(clips: seq<Clip>, texts: seq<TextItem>, effects: seq<Effect>, total: real)
    ensures |ExportVideo(clips, texts, effects, total).args| > 2 * |ExportVideo(clips, texts, effects, total).inputs|
    ensures forall k :: 0 <= k < |ExportVideo(clips, texts, effects, total).inputs| ==>
      && ExportVideo(clips, texts, effects, total).args[2 * k] == Lit("-i")
      && ExportVideo(clips, texts, effects, total).args[2 * k + 1]
         == Lit(ExportVideo(clips, texts, effects, total).inputs[k].fileName)
  {
    ExportParts(clips, texts, effects, total);
    hide ExportVideo, InputFiles, InputName, NormalizeColor;
    ClientArgsOpenWithInputs(ExportPlan(clips, texts, effects, total));
  }

  // ---------------------------------------------------------------------------
  // Arguments

  /** The partition of audio clips is empty exactly when the timeline has no audio clip. */
  lemma AudioPresent(clips: seq<Clip>)
    ensures |AudioClips(SortByStart(clips))| > 0 <==> exists c :: c in clips && IsAudio(c)
  {
    PartitionsOfSorted(clips, 0.0);
    FilterHead(clips, IsAudio);
    var a := AudioClips(SortByStart(clips));
    if |a| > 0 {
      assert a[0] in multiset(AudioClips(clips));
    }
  }

  /** The argument list reads back as the plan it was laid out from, with `-t` set to
      the total duration, and ends with `-y output.mp4`. */
  lemma ExportReadsBack(clips: seq<Clip>, texts: seq<TextItem>, effects: seq<Effect>, total: real)
    ensures ParseClientArgs(ExportVideo(clips, texts, effects, total).args) == Some(ExportPlan(clips, texts, effects, total))
    ensures ExportPlan(clips, texts, effects, total).duration == total
    ensures |ExportVideo(clips, texts, effects, total).args| >= 2
    ensures ExportVideo(clips, texts, effects, total).args[|ExportVideo(clips, texts, effects, total).args| - 2..]
         == [Lit("-y"), Lit("output.mp4")]
  {
    ExportParts(clips, texts, effects, total);
    BodyRoundTrip(ExportPlan(clips, texts, effects, total), [Lit("-y"), Lit("output.mp4")]);
  }

  /** No written input is named like a flag: every name begins with `input_`. */
  lemma InputNamesAreNotFlags(visual: seq<Clip>, audio: seq<Clip>)
    ensures forall k :: 0 <= k < |InputFiles(visual, audio)| ==>
      |InputFiles(visual, audio)[k].fileName| > 0 && InputFiles(visual, audio)[k].fileName[0] == 'i'
  {
  }

  /** `-shortest` appears exactly when the timeline has an audio clip, and
      `-filter_complex` exactly when the graph has a node. */
  lemma ExportFlags(clips: seq<Clip>, texts: seq<TextItem>, effects: seq<Effect>, total: real)
    ensures Lit("-shortest") in ExportVideo(clips, texts, effects, total).args
        <==> exists c :: c in clips && IsAudio(c)
    ensures Lit("-filter_complex") in ExportVideo(clips, texts, effects, total).args
        <==> |ExportPlan(clips, texts, effects, total).graph| > 0
  {
    var p := ExportPlan(clips, texts, effects, total);
    ExportParts(clips, texts, effects, total);
    InputNamesAreNotFlags(VisualClips(SortByStart(clips)), AudioClips(SortByStart(clips)));
    AudioPresent(clips);
    assert p.shortest == (|AudioClips(SortByStart(clips))| > 0);
    FlagsInBody(p, [Lit("-y"), Lit("output.mp4")]);
  }

  // ---------------------------------------------------------------------------
  // Graph

  /** No text clip can be found among clips of which none is a text clip. */
  lemma {:induction false} NoTextFound(texts: seq<TextItem>, search: seq<Clip>, k: nat)
    requires k <= |texts|
    requires forall c :: c in search ==> c.kind != TextClip
    ensures TextFileNamesFrom(texts, search, k) == []
    decreases |texts| - k
  {
    if k < |texts| {
      NoTextFound(texts, search, k + 1);
      assert FindTextClip(search, texts[k].id).None?;
    }
  }

  /** The text branch never runs in an export: the partitions hold no text clip, so no
      text file is written and no drawtext node is built. */
  lemma NoTextOverlaysInExport(clips: seq<Clip>, texts: seq<TextItem>, effects: seq<Effect>, total: real)
    ensures ExportVideo(clips, texts, effects, total).textFiles == []
    ensures Count(ExportPlan(clips, texts, effects, total).graph, IsDrawText) == 0
  {
    var sorted := SortByStart(clips);
    var visual := VisualClips(sorted);
    var audio := AudioClips(sorted);
    var inputs := InputFiles(visual, audio);
    PartitionsHoldNoText(sorted);
    NoTextFound(texts, visual + audio, 0);
    var textFiles := TextFileNames(texts, visual + audio);
    assert textFiles == [];
    var vs := VideoSection(visual, audio, inputs, texts, textFiles, effects);
    var au := AudioSection(audio, inputs, total);
    VideoSectionTexts(visual, audio, inputs, texts, textFiles, effects);
    AudioSectionShape(audio, inputs, total);
    CountNone(au.nodes, IsDrawText);
    CountAppend(vs.nodes, au.nodes, IsDrawText);
  }

  /** Node counts of any plan the client lays out: one concat node exactly when there is
      more than one visual clip, one amix node exactly when there is more than one audio
      clip, one effect node exactly when there is a visual clip and an applicable effect. */
  lemma PlanNodeCounts(visual: seq<Clip>, audio: seq<Clip>, inputs: seq<InputFile>, texts: seq<TextItem>,
                       textFiles: seq<string>, effects: seq<Effect>, total: real)
    ensures Count(ClientPlan(visual, audio, inputs, texts, textFiles, effects, total).graph, IsConcat)
         == if |visual| > 1 then 1 else 0
    ensures Count(ClientPlan(visual, audio, inputs, texts, textFiles, effects, total).graph, IsAMix)
         == if |audio| > 1 then 1 else 0
    ensures Count(ClientPlan(visual, audio, inputs, texts, textFiles, effects, total).graph, IsEffect)
         == if |visual| > 0 && SelectedEffect(effects).Some? then 1 else 0
  {
    PlanConcatCount(visual, audio, inputs, texts, textFiles, effects, total);
    PlanAMixCount(visual, audio, inputs, texts, textFiles, effects, total);
    PlanEffectCount(visual, audio, inputs, texts, textFiles, effects, total);
  }

  /** The graph of a plan is its video section followed by its audio section. */
  lemma PlanGraph(visual: seq<Clip>, audio: seq<Clip>, inputs: seq<InputFile>, texts: seq<TextItem>,
                  textFiles: seq<string>, effects: seq<Effect>, total: real)
    ensures ClientPlan(visual, audio, inputs, texts, textFiles, effects, total).graph
         == VideoSection(visual, audio, inputs, texts, textFiles, effects).nodes + AudioSection(audio, inputs, total).nodes
  {
  }

  lemma PlanConcatCount(visual: seq<Clip>, audio: seq<Clip>, inputs: seq<InputFile>, texts: seq<TextItem>,
                        textFiles: seq<string>, effects: seq<Effect>, total: real)
    ensures Count(ClientPlan(visual, audio, inputs, texts, textFiles, effects, total).graph, IsConcat)
         == if |visual| > 1 then 1 else 0
  {
    var vs := VideoSection(visual, audio, inputs, texts, textFiles, effects);
    var au := AudioSection(audio, inputs, total);
    PlanGraph(visual, audio, inputs, texts, textFiles, effects, total);
    VideoSectionConcats(visual, audio, inputs, texts, textFiles, effects);
    AudioSectionShape(audio, inputs, total);
    CountNone(au.nodes, IsConcat);
    CountAppend(vs.nodes, au.nodes, IsConcat);
  }

  lemma PlanAMixCount(visual: seq<Clip>, audio: seq<Clip>, inputs: seq<InputFile>, texts: seq<TextItem>,
                      textFiles: seq<string>, effects: seq<Effect>, total: real)
    ensures Count(ClientPlan(visual, audio, inputs, texts, textFiles, effects, total).graph, IsAMix)
         == if |audio| > 1 then 1 else 0
  {
    var vs := VideoSection(visual, audio, inputs, texts, textFiles, effects);
    var au := AudioSection(audio, inputs, total);
    PlanGraph(visual, audio, inputs, texts, textFiles, effects, total);
    VideoSectionHasNoAudio(visual, audio, inputs, texts, textFiles, effects);
    AudioSectionShape(audio, inputs, total);
    CountNone(vs.nodes, IsAMix);
    CountAppend(vs.nodes, au.nodes, IsAMix);
  }

  lemma PlanEffectCount(visual: seq<Clip>, audio: seq<Clip>, inputs: seq<InputFile>, texts: seq<TextItem>,
                        textFiles: seq<string>, effects: seq<Effect>, total: real)
    ensures Count(ClientPlan(visual, audio, inputs, texts, textFiles, effects, total).graph, IsEffect)
         == if |visual| > 0 && SelectedEffect(effects).Some? then 1 else 0
  {
    var vs := VideoSection(visual, audio, inputs, texts, textFiles, effects);
    var au := AudioSection(audio, inputs, total);
    PlanGraph(visual, audio, inputs, texts, textFiles, effects, total);
    VideoSectionEffects(visual, audio, inputs, texts, textFiles, effects);
    AudioSectionShape(audio, inputs, total);
    CountNone(au.nodes, IsEffect);
    CountAppend(vs.nodes, au.nodes, IsEffect);
  }

  /** The maps of an export: the video stream first (`[outv]` or `[v0]`, or its
      `_effect` stream when an effect applies), then the audio stream (`[outa]` after
      mixing, `[a0]` for one clip). */
  lemma ExportMaps(clips: seq<Clip>, texts: seq<TextItem>, effects: seq<Effect>, total: real)
    ensures ExportPlan(clips, texts, effects, total).maps ==
      (if |VisualClips(SortByStart(clips))| == 0 then []
       else if SelectedEffect(effects).Some? then
         [Effected(if |VisualClips(SortByStart(clips))| > 1 then OutV else V(0))]
       else [if |VisualClips(SortByStart(clips))| > 1 then OutV else V(0)])
      + (if |AudioClips(SortByStart(clips))| == 0 then []
         else if |AudioClips(SortByStart(clips))| == 1 then [A(0)] else [OutA])
  {
    var sorted := SortByStart(clips);
    var visual := VisualClips(sorted);
    var audio := AudioClips(sorted);
    var inputs := InputFiles(visual, audio);
    PartitionsHoldNoText(sorted);
    NoTextFound(texts, visual + audio, 0);
    var textFiles := TextFileNames(texts, visual + audio);
    VideoSectionMaps(visual, audio, inputs, texts, textFiles, effects);
    AudioSectionShape(audio, inputs, total);
  }
}
