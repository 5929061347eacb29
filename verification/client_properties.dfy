/** What the browser-side compiler guarantees about the inputs it writes, the graph it
    builds and the argument list it returns. */
module ClientProperties {
  import opened Wrappers
  import opened Strings
  import opened Seqs
  import opened Timeline
  import opened Graph
  import opened ClientCompiler

  lemma Count4(a: seq<Node>, b: seq<Node>, c: seq<Node>, d: seq<Node>, p: Node -> bool)
    ensures Count(a + b + c + d, p) == Count(a, p) + Count(b, p) + Count(c, p) + Count(d, p)
  {
    CountAppend(a + b + c, d, p);
    CountAppend(a + b, c, p);
    CountAppend(a, b, p);
  }

  /** The effect `buildFFmpegArgs` picks is the first applicable one in list order. */
  lemma SelectedIsFirstApplicable(effects: seq<Effect>)
    ensures SelectedEffect(effects).None? <==> forall j :: 0 <= j < |effects| ==> !Applicable(effects[j])
    ensures SelectedEffect(effects).Some? ==>
      exists k :: 0 <= k < |effects| && effects[k] == SelectedEffect(effects).value
        && Applicable(effects[k]) && forall j :: 0 <= j < k ==> !Applicable(effects[j])
  {
    FilterHead(effects, Applicable);
  }

  /** Every selected effect has a filter. */
  lemma SelectedHasOp(effects: seq<Effect>)
    ensures SelectedEffect(effects).Some? ==> EffectOpFor(SelectedEffect(effects).value).Some?
  {
  }

  // ---------------------------------------------------------------------------
  // Sections

  /** The audio half holds only trims and at most one amix; it maps `[outa]` after mixing
      more than one clip, `[a0]` for a single clip, and nothing without audio. */
  lemma AudioSectionShape(audio: seq<Clip>, inputs: seq<InputFile>, total: real)
    ensures forall j :: 0 <= j < |AudioSection(audio, inputs, total).nodes| ==>
      AudioSection(audio, inputs, total).nodes[j].AudioTrim? || AudioSection(audio, inputs, total).nodes[j].AMix?
    ensures Count(AudioSection(audio, inputs, total).nodes, IsAMix) == if |audio| > 1 then 1 else 0
    ensures |audio| > 1 ==> AMix(ALabels(|audio|), |audio|, Longest, true, OutA) in AudioSection(audio, inputs, total).nodes
    ensures AudioSection(audio, inputs, total).maps ==
      if |audio| == 0 then [] else if |audio| == 1 then [A(0)] else [OutA]
  {
    if |audio| > 0 {
      var perClip := AudioNodes(audio, inputs, total, |audio|);
      CountNone(perClip, IsAMix);
      if |audio| > 1 {
        var m := AMix(ALabels(|audio|), |audio|, Longest, true, OutA);
        CountAppend(perClip, [m], IsAMix);
        assert (perClip + [m])[|perClip|] == m;
      }
    }
  }

  lemma EffectNodesShape(src: Label, effects: seq<Effect>)
    ensures forall j :: 0 <= j < |EffectNodes(src, effects)| ==> EffectNodes(src, effects)[j].EffectNode?
    ensures |EffectNodes(src, effects)| == if SelectedEffect(effects).Some? then 1 else 0
    ensures SelectedEffect(effects).Some? ==>
      EffectNodes(src, effects) == [EffectNode(src, EffectOpFor(SelectedEffect(effects).value).value, Effected(src))]
  {
    SelectedHasOp(effects);
  }

  /** A sequence of nodes of one kind counts its length for that kind and zero for others. */
  lemma CountOneKind(s: seq<Node>, p: Node -> bool)
    requires forall j :: 0 <= j < |s| ==> p(s[j])
    ensures Count(s, p) == |s|
  {
    CountIsFilterLength(s, p);
    AllKept(s, p);
  }

  /** The pieces the video half is made of. */
  function VideoParts(videoClips: seq<Clip>, audioClips: seq<Clip>, inputs: seq<InputFile>,
                      texts: seq<TextItem>, textFiles: seq<string>, effects: seq<Effect>): (seq<Node>, seq<Node>, seq<Node>, seq<Node>)
  {
    (VisualNodes(videoClips, inputs, |videoClips|), ConcatNodes(videoClips),
     TextChainNodes(videoClips, audioClips, texts, textFiles),
     EffectNodes(AfterText(videoClips, texts, textFiles), effects))
  }

  lemma VideoSectionNodes(videoClips: seq<Clip>, audioClips: seq<Clip>, inputs: seq<InputFile>,
                          texts: seq<TextItem>, textFiles: seq<string>, effects: seq<Effect>, p: Node -> bool)
    requires |videoClips| > 0
    ensures Count(VideoSection(videoClips, audioClips, inputs, texts, textFiles, effects).nodes, p)
      == Count(VideoParts(videoClips, audioClips, inputs, texts, textFiles, effects).0, p)
       + Count(VideoParts(videoClips, audioClips, inputs, texts, textFiles, effects).1, p)
       + Count(VideoParts(videoClips, audioClips, inputs, texts, textFiles, effects).2, p)
       + Count(VideoParts(videoClips, audioClips, inputs, texts, textFiles, effects).3, p)
  {
    var parts := VideoParts(videoClips, audioClips, inputs, texts, textFiles, effects);
    assert VideoSection(videoClips, audioClips, inputs, texts, textFiles, effects).nodes
      == parts.0 + parts.1 + parts.2 + parts.3;
    Count4(parts.0, parts.1, parts.2, parts.3, p);
  }

  /** The video half holds no audio node. */
  lemma VideoSectionHasNoAudio(videoClips: seq<Clip>, audioClips: seq<Clip>, inputs: seq<InputFile>,
                               texts: seq<TextItem>, textFiles: seq<string>, effects: seq<Effect>)
    ensures forall j :: 0 <= j < |VideoSection(videoClips, audioClips, inputs, texts, textFiles, effects).nodes| ==>
      && !VideoSection(videoClips, audioClips, inputs, texts, textFiles, effects).nodes[j].AudioTrim?
      && !VideoSection(videoClips, audioClips, inputs, texts, textFiles, effects).nodes[j].AMix?
  {
    if |videoClips| > 0 {
      var parts := VideoParts(videoClips, audioClips, inputs, texts, textFiles, effects);
      EffectNodesShape(AfterText(videoClips, texts, textFiles), effects);
      assert forall j :: 0 <= j < |parts.0| ==> parts.0[j].VisualChain?;
      assert forall j :: 0 <= j < |parts.2| ==> parts.2[j].DrawText?;
      AllOf4(parts.0, parts.1, parts.2, parts.3, NotAudio);
      assert VideoSection(videoClips, audioClips, inputs, texts, textFiles, effects).nodes
        == parts.0 + parts.1 + parts.2 + parts.3;
    }
  }

  predicate NotAudio(n: Node) { !n.AudioTrim? && !n.AMix? }

  /** A property of every element of four sequences holds of every element of their
      concatenation. */
  lemma AllOf4(a: seq<Node>, b: seq<Node>, c: seq<Node>, d: seq<Node>, p: Node -> bool)
    requires forall j :: 0 <= j < |a| ==> p(a[j])
    requires forall j :: 0 <= j < |b| ==> p(b[j])
    requires forall j :: 0 <= j < |c| ==> p(c[j])
    requires forall j :: 0 <= j < |d| ==> p(d[j])
    ensures forall j :: 0 <= j < |a + b + c + d| ==> p((a + b + c + d)[j])
  {
    forall j | 0 <= j < |a + b + c + d| ensures p((a + b + c + d)[j]) {
      if j < |a| { assert (a + b + c + d)[j] == a[j]; }
      else if j < |a| + |b| { assert (a + b + c + d)[j] == b[j - |a|]; }
      else if j < |a| + |b| + |c| { assert (a + b + c + d)[j] == c[j - |a| - |b|]; }
      else { assert (a + b + c + d)[j] == d[j - |a| - |b| - |c|]; }
    }
  }

  /** One concat node exactly when there is more than one visual clip. */
  lemma VideoSectionConcats(videoClips: seq<Clip>, audioClips: seq<Clip>, inputs: seq<InputFile>,
                            texts: seq<TextItem>, textFiles: seq<string>, effects: seq<Effect>)
    ensures Count(VideoSection(videoClips, audioClips, inputs, texts, textFiles, effects).nodes, IsConcat)
      == if |videoClips| > 1 then 1 else 0
  {
    if |videoClips| > 0 {
      var parts := VideoParts(videoClips, audioClips, inputs, texts, textFiles, effects);
      VideoSectionNodes(videoClips, audioClips, inputs, texts, textFiles, effects, IsConcat);
      EffectNodesShape(AfterText(videoClips, texts, textFiles), effects);
      CountNone(parts.0, IsConcat);
      CountOneKind(parts.1, IsConcat);
      CountNone(parts.2, IsConcat);
      CountNone(parts.3, IsConcat);
    }
  }

  /** With more than one visual clip, the concat node joins `[v0]`...`[v{n-1}]`, all of
      them and not only those with a file, into one video stream `[outv]`. */
  lemma VideoSectionConcatNode(videoClips: seq<Clip>, audioClips: seq<Clip>, inputs: seq<InputFile>,
                               texts: seq<TextItem>, textFiles: seq<string>, effects: seq<Effect>)
    requires |videoClips| > 1
    ensures Concat(VLabels(|videoClips|), |videoClips|, 1, 0, OutV)
      in VideoSection(videoClips, audioClips, inputs, texts, textFiles, effects).nodes
  {
    var parts := VideoParts(videoClips, audioClips, inputs, texts, textFiles, effects);
    var nodes := VideoSection(videoClips, audioClips, inputs, texts, textFiles, effects).nodes;
    assert nodes == parts.0 + parts.1 + parts.2 + parts.3;
    assert nodes[|parts.0|] == parts.1[0];
  }

  /** One effect node exactly when there is a visual clip and an applicable effect. */
  lemma VideoSectionEffects(videoClips: seq<Clip>, audioClips: seq<Clip>, inputs: seq<InputFile>,
                            texts: seq<TextItem>, textFiles: seq<string>, effects: seq<Effect>)
    ensures Count(VideoSection(videoClips, audioClips, inputs, texts, textFiles, effects).nodes, IsEffect)
      == if |videoClips| > 0 && SelectedEffect(effects).Some? then 1 else 0
  {
    if |videoClips| > 0 {
      var parts := VideoParts(videoClips, audioClips, inputs, texts, textFiles, effects);
      VideoSectionNodes(videoClips, audioClips, inputs, texts, textFiles, effects, IsEffect);
      EffectNodesShape(AfterText(videoClips, texts, textFiles), effects);
      CountNone(parts.0, IsEffect);
      CountNone(parts.1, IsEffect);
      CountNone(parts.2, IsEffect);
      CountOneKind(parts.3, IsEffect);
    }
  }

  /** The drawtext nodes are exactly the text chain's. */
  lemma VideoSectionTexts(videoClips: seq<Clip>, audioClips: seq<Clip>, inputs: seq<InputFile>,
                          texts: seq<TextItem>, textFiles: seq<string>, effects: seq<Effect>)
    ensures Count(VideoSection(videoClips, audioClips, inputs, texts, textFiles, effects).nodes, IsDrawText)
      == if |videoClips| > 0 then |TextChainNodes(videoClips, audioClips, texts, textFiles)| else 0
  {
    if |videoClips| > 0 {
      var parts := VideoParts(videoClips, audioClips, inputs, texts, textFiles, effects);
      VideoSectionNodes(videoClips, audioClips, inputs, texts, textFiles, effects, IsDrawText);
      EffectNodesShape(AfterText(videoClips, texts, textFiles), effects);
      CountNone(parts.0, IsDrawText);
      CountNone(parts.1, IsDrawText);
      CountOneKind(parts.2, IsDrawText);
      CountNone(parts.3, IsDrawText);
    }
  }

  /** The one video map: the effect's output if an effect applies, else the stream after
      the text step. */
  lemma VideoSectionMaps(videoClips: seq<Clip>, audioClips: seq<Clip>, inputs: seq<InputFile>,
                         texts: seq<TextItem>, textFiles: seq<string>, effects: seq<Effect>)
    ensures VideoSection(videoClips, audioClips, inputs, texts, textFiles, effects).maps ==
      if |videoClips| == 0 then []
      else if SelectedEffect(effects).Some? then [Effected(AfterText(videoClips, texts, textFiles))]
      else [AfterText(videoClips, texts, textFiles)]
  {
    EffectNodesShape(AfterText(videoClips, texts, textFiles), effects);
  }

  lemma {:induction false} AllKept<T>(s: seq<T>, p: T -> bool)
    requires forall i :: 0 <= i < |s| ==> p(s[i])
    ensures Filter(s, p) == s
  {
    if |s| > 0 {
      AllKept(s[1..], p);
    }
  }

  // ---------------------------------------------------------------------------
  // Per-clip chains

  /** Every visual chain scales and pads to 1920x1080 first and ends by resetting
      timestamps; it is trimmed once, to the clip's span; it loops exactly when the clip
      is an image, and the loop comes before the trim. */
  lemma ClientStepsShape(c: Clip)
    ensures |ClientSteps(c)| >= 4
    ensures ClientSteps(c)[0] == ScaleFit1080 && ClientSteps(c)[1] == Pad1080
    ensures ClientSteps(c)[|ClientSteps(c)| - 1] == ResetPts
    ensures LoopForever in ClientSteps(c) <==> c.kind == ImageClip
    ensures exists k ::
      && 0 <= k < |ClientSteps(c)|
      && ClientSteps(c)[k] == TrimTo(c.endTime - c.startTime)
      && (forall j :: 0 <= j < |ClientSteps(c)| && ClientSteps(c)[j].TrimTo? ==> j == k)
      && (forall j :: 0 <= j < |ClientSteps(c)| && ClientSteps(c)[j] == LoopForever ==> j < k)
  {
    var s := ClientSteps(c);
    if c.kind == ImageClip {
      assert s[4] == TrimTo(c.endTime - c.startTime);
    } else {
      assert s[2] == TrimTo(c.endTime - c.startTime);
    }
  }

  /** A clip of either group that has a file has an input written for it. */
  lemma InputOfClip(visual: seq<Clip>, audio: seq<Clip>, c: Clip)
    requires c in visual + audio && HasFile(c)
    ensures exists k :: 0 <= k < |InputFiles(visual, audio)| && InputFiles(visual, audio)[k].clip == c
  {
    hide InputName, NormalizeColor;
    var ins := InputFiles(visual, audio);
    var fv := Filter(visual, HasFile);
    var fa := Filter(audio, HasFile);
    FilterMembers(visual, HasFile);
    FilterMembers(audio, HasFile);
    if c in visual {
      var k :| 0 <= k < |fv| && fv[k] == c;
      assert ins[k].clip == c;
    } else {
      var k :| 0 <= k < |fa| && fa[k] == c;
      assert ins[|fv| + k].clip == c;
    }
  }

  /** When ids name clips, `find` by id returns the input written for that very clip,
      and it finds one exactly when the clip has a file. */
  lemma FoundInputIsClip(visual: seq<Clip>, audio: seq<Clip>, c: Clip)
    requires IdsIdentify(visual + audio) && c in visual + audio
    ensures FindInput(InputFiles(visual, audio), c.id).Some? <==> HasFile(c)
    ensures FindInput(InputFiles(visual, audio), c.id).Some? ==>
      && FindInput(InputFiles(visual, audio), c.id).value.clip == c
      && FindInput(InputFiles(visual, audio), c.id).value.index < |InputFiles(visual, audio)|
      && InputFiles(visual, audio)[FindInput(InputFiles(visual, audio), c.id).value.index]
         == FindInput(InputFiles(visual, audio), c.id).value
  {
    hide InputName, NormalizeColor;
    var ins := InputFiles(visual, audio);
    var fv := Filter(visual, HasFile);
    var fa := Filter(audio, HasFile);
    FilterMembers(visual, HasFile);
    FilterMembers(audio, HasFile);
    forall k | 0 <= k < |ins| ensures ins[k].clip in visual + audio {
      if k < |fv| {
        assert ins[k].clip == fv[k];
      } else {
        assert ins[k].clip == fa[k - |fv|];
      }
    }
    if HasFile(c) {
      InputOfClip(visual, audio, c);
    }
    match FindInput(ins, c.id)
    case Some(f) =>
      var k :| 0 <= k < |ins| && ins[k] == f;
      assert f.clip in visual + audio;
    case None =>
  }

  /** Visual clip `i` gets a chain labelled `v{i}` exactly when it has a file; the chain
      reads that clip's own input and carries the clip's steps. */
  lemma VisualNodeForClip(visual: seq<Clip>, audio: seq<Clip>, i: nat)
    requires IdsIdentify(visual + audio) && i < |visual|
    ensures (exists j :: 0 <= j < |VisualNodes(visual, InputFiles(visual, audio), |visual|)|
               && VisualNodes(visual, InputFiles(visual, audio), |visual|)[j].out == V(i))
            <==> HasFile(visual[i])
    ensures forall j :: (0 <= j < |VisualNodes(visual, InputFiles(visual, audio), |visual|)|
                         && VisualNodes(visual, InputFiles(visual, audio), |visual|)[j].out == V(i)) ==>
      && VisualNodes(visual, InputFiles(visual, audio), |visual|)[j].steps == ClientSteps(visual[i])
      && VisualNodes(visual, InputFiles(visual, audio), |visual|)[j].input < |InputFiles(visual, audio)|
      && InputFiles(visual, audio)[VisualNodes(visual, InputFiles(visual, audio), |visual|)[j].input].clip
         == visual[i]
  {
    var ins := InputFiles(visual, audio);
    var nodes := VisualNodes(visual, ins, |visual|);
    assert visual[i] in visual + audio;
    FoundInputIsClip(visual, audio, visual[i]);
    var found := FindInput(ins, visual[i].id);
    forall j | 0 <= j < |nodes| && nodes[j].out == V(i)
      ensures found.Some? && nodes[j].steps == ClientSteps(visual[i])
      ensures nodes[j].input < |ins| && ins[nodes[j].input].clip == visual[i]
    {
      assert nodes[j].out.i == i;
    }
  }

  /** Audio clip `i` gets a trim labelled `a{i}` exactly when it has a file; the trim
      reads that clip's own input and keeps the smaller of its span and the total. */
  lemma AudioNodeForClip(visual: seq<Clip>, audio: seq<Clip>, total: real, i: nat)
    requires IdsIdentify(visual + audio) && i < |audio|
    ensures (exists j :: 0 <= j < |AudioNodes(audio, InputFiles(visual, audio), total, |audio|)|
               && AudioNodes(audio, InputFiles(visual, audio), total, |audio|)[j].out == A(i))
            <==> HasFile(audio[i])
    ensures forall j :: (0 <= j < |AudioNodes(audio, InputFiles(visual, audio), total, |audio|)|
                         && AudioNodes(audio, InputFiles(visual, audio), total, |audio|)[j].out == A(i)) ==>
      && AudioNodes(audio, InputFiles(visual, audio), total, |audio|)[j].seconds
         == Min(audio[i].endTime - audio[i].startTime, total)
      && AudioNodes(audio, InputFiles(visual, audio), total, |audio|)[j].input < |InputFiles(visual, audio)|
      && InputFiles(visual, audio)[AudioNodes(audio, InputFiles(visual, audio), total, |audio|)[j].input].clip
         == audio[i]
  {
    assert audio[i] in visual + audio;
    FoundInputIsClip(visual, audio, audio[i]);
    var ins := InputFiles(visual, audio);
    AudioNodeIn(audio, ins, AudioNodes(audio, ins, total, |audio|), total, i);
  }

  /** The audio node labelled `a{i}`, over any input list whose lookup of clip `i` is
      faithful. */
  lemma AudioNodeIn(audio: seq<Clip>, ins: seq<InputFile>, nodes: seq<Node>, total: real, i: nat)
    requires i < |audio| && nodes == AudioNodes(audio, ins, total, |audio|)
    requires FindInput(ins, audio[i].id).Some? <==> HasFile(audio[i])
    requires FindInput(ins, audio[i].id).Some? ==>
      && FindInput(ins, audio[i].id).value.clip == audio[i]
      && FindInput(ins, audio[i].id).value.index < |ins|
      && ins[FindInput(ins, audio[i].id).value.index] == FindInput(ins, audio[i].id).value
    ensures (exists j :: 0 <= j < |nodes| && nodes[j].out == A(i)) <==> HasFile(audio[i])
    ensures forall j :: (0 <= j < |nodes| && nodes[j].out == A(i)) ==>
      && nodes[j].seconds == Min(audio[i].endTime - audio[i].startTime, total)
      && nodes[j].input < |ins| && ins[nodes[j].input].clip == audio[i]
  {
    forall j | 0 <= j < |nodes| && nodes[j].out == A(i)
      ensures FindInput(ins, audio[i].id).Some?
    {
      assert nodes[j].out.i == i;
    }
  }

  // ---------------------------------------------------------------------------
  // Text chain

  function MinNat(a: nat, b: nat): nat { if a <= b then a else b }

  /** Node `j` of `r` draws the `j`-th found text from file `files[emitted + j]`, gated to
      its clip's window. */
  predicate ChainDraws(r: seq<Node>, found: seq<(TextItem, Clip)>, files: seq<string>, emitted: nat)
  {
    && |r| <= |found|
    && emitted + |r| <= |files|
    && forall j :: 0 <= j < |r| ==>
         && r[j].DrawText?
         && r[j] == DrawTextFor(found[j].0, found[j].1, files[emitted + j], r[j].src, r[j].out)
  }

  /** Node `j` writes `{base}_text` when its running count `emitted + j` reaches
      `textCount - 1`, and `{base}_text{count}` otherwise. */
  predicate ChainLabels(r: seq<Node>, emitted: nat, base: Label, textCount: nat)
  {
    forall j :: 0 <= j < |r| ==>
      r[j].DrawText? &&
      r[j].out == (if emitted + j == textCount - 1 then TextLast(base) else TextStep(base, emitted + j))
  }

  /** The first node reads `cur` and every later node reads what the one before wrote. */
  predicate ChainLinks(r: seq<Node>, cur: Label)
  {
    && (forall j :: 0 <= j < |r| ==> r[j].DrawText?)
    && (|r| > 0 ==> r[0].src == cur)
    && (forall j :: 0 < j < |r| ==> r[j].src == r[j - 1].out)
  }

  predicate ChainSpec(r: seq<Node>, found: seq<(TextItem, Clip)>, files: seq<string>, emitted: nat,
                      base: Label, cur: Label, textCount: nat)
  {
    ChainDraws(r, found, files, emitted) && ChainLabels(r, emitted, base, textCount) && ChainLinks(r, cur)
  }

  /** One more drawn overlay in front of a chain keeps it a chain. */
  lemma ChainCons(node: Node, rest: seq<Node>, first: (TextItem, Clip), found: seq<(TextItem, Clip)>,
                  files: seq<string>, emitted: nat, base: Label, cur: Label, next: Label, textCount: nat)
    requires emitted < |files|
    requires next == if emitted == textCount - 1 then TextLast(base) else TextStep(base, emitted)
    requires node == DrawTextFor(first.0, first.1, files[emitted], cur, next)
    requires ChainSpec(rest, found, files, emitted + 1, base, next, textCount)
    ensures ChainSpec([node] + rest, [first] + found, files, emitted, base, cur, textCount)
  {
    ChainConsDraws(node, rest, first, found, files, emitted, cur, next);
    ChainConsLabels(node, rest, emitted, base, next, textCount);
    ChainConsLinks(node, rest, cur, next);
  }

  lemma ChainConsDraws(node: Node, rest: seq<Node>, first: (TextItem, Clip), found: seq<(TextItem, Clip)>,
                       files: seq<string>, emitted: nat, cur: Label, next: Label)
    requires emitted < |files|
    requires node == DrawTextFor(first.0, first.1, files[emitted], cur, next)
    requires ChainDraws(rest, found, files, emitted + 1)
    ensures ChainDraws([node] + rest, [first] + found, files, emitted)
  {
    hide NormalizeColor;
    var r := [node] + rest;
    var f := [first] + found;
    forall j | 0 < j < |r|
      ensures r[j] == rest[j - 1] && f[j] == found[j - 1]
    {
    }
  }

  lemma ChainConsLabels(node: Node, rest: seq<Node>, emitted: nat, base: Label, next: Label, textCount: nat)
    requires node.DrawText? && node.out == next
    requires next == if emitted == textCount - 1 then TextLast(base) else TextStep(base, emitted)
    requires ChainLabels(rest, emitted + 1, base, textCount)
    ensures ChainLabels([node] + rest, emitted, base, textCount)
  {
    var r := [node] + rest;
    forall j | 0 < j < |r|
      ensures r[j] == rest[j - 1]
    {
    }
  }

  lemma ChainConsLinks(node: Node, rest: seq<Node>, cur: Label, next: Label)
    requires node.DrawText? && node.src == cur && node.out == next
    requires ChainLinks(rest, next)
    ensures ChainLinks([node] + rest, cur)
  {
    var r := [node] + rest;
    forall j | 0 < j < |r|
      ensures r[j] == rest[j - 1]
    {
    }
  }

  /** The chain of overlays drawn for a list of found texts, from file `files[emitted]` on,
      starting from label `cur`: one overlay per text while files remain. */
  function ChainOf(found: seq<(TextItem, Clip)>, files: seq<string>, base: Label, emitted: nat,
                   cur: Label, textCount: nat): seq<Node>
    decreases |found|
  {
    if |found| == 0 || emitted >= |files| then []
    else
      var next := if emitted == textCount - 1 then TextLast(base) else TextStep(base, emitted);
      [DrawTextFor(found[0].0, found[0].1, files[emitted], cur, next)]
        + ChainOf(found[1..], files, base, emitted + 1, next, textCount)
  }

  /** The text loop draws exactly the chain of the texts it finds a clip for. */
  lemma {:induction false} TextNodesIsChain(texts: seq<TextItem>, search: seq<Clip>, files: seq<string>,
                                            base: Label, k: nat, emitted: nat, cur: Label)
    requires k <= |texts|
    ensures TextNodes(texts, search, files, base, k, emitted, cur)
         == ChainOf(FoundTexts(texts, search, k), files, base, emitted, cur, |texts|)
    decreases |texts| - k
  {
    hide NormalizeColor;
    if k < |texts| {
      match FindTextClip(search, texts[k].id)
      case None =>
        TextNodesIsChain(texts, search, files, base, k + 1, emitted, cur);
      case Some(c) =>
        var found := FoundTexts(texts, search, k);
        assert found == [(texts[k], c)] + FoundTexts(texts, search, k + 1);
        assert found[1..] == FoundTexts(texts, search, k + 1);
        if emitted < |files| {
          var next := if emitted == |texts| - 1 then TextLast(base) else TextStep(base, emitted);
          TextNodesIsChain(texts, search, files, base, k + 1, emitted + 1, next);
        } else {
          TextNodesIsChain(texts, search, files, base, k + 1, emitted, cur);
          TextNodesRunOut(texts, search, files, base, k + 1, emitted, cur);
        }
    }
  }

  /** Once the files run out the text loop draws nothing more. */
  lemma {:induction false} TextNodesRunOut(texts: seq<TextItem>, search: seq<Clip>, files: seq<string>,
                                           base: Label, k: nat, emitted: nat, cur: Label)
    requires k <= |texts| && emitted >= |files|
    ensures TextNodes(texts, search, files, base, k, emitted, cur) == []
    decreases |texts| - k
  {
    hide NormalizeColor;
    if k < |texts| {
      TextNodesRunOut(texts, search, files, base, k + 1, emitted, cur);
    }
  }

  /** A chain has one overlay per found text while files remain. */
  lemma {:induction false} ChainOfCount(found: seq<(TextItem, Clip)>, files: seq<string>, base: Label,
                                        emitted: nat, cur: Label, textCount: nat)
    requires emitted <= |files|
    ensures |ChainOf(found, files, base, emitted, cur, textCount)| == MinNat(|found|, |files| - emitted)
    decreases |found|
  {
    hide NormalizeColor;
    if |found| > 0 && emitted < |files| {
      var next := if emitted == textCount - 1 then TextLast(base) else TextStep(base, emitted);
      ChainOfCount(found[1..], files, base, emitted + 1, next, textCount);
    }
  }

  /** A chain meets the chain specification. */
  lemma {:induction false} ChainOfSpec(found: seq<(TextItem, Clip)>, files: seq<string>, base: Label,
                                       emitted: nat, cur: Label, textCount: nat)
    requires emitted <= |files|
    ensures ChainSpec(ChainOf(found, files, base, emitted, cur, textCount), found, files, emitted, base, cur,
                      textCount)
    decreases |found|
  {
    hide NormalizeColor;
    if |found| > 0 && emitted < |files| {
      var next := if emitted == textCount - 1 then TextLast(base) else TextStep(base, emitted);
      var node := DrawTextFor(found[0].0, found[0].1, files[emitted], cur, next);
      ChainOfSpec(found[1..], files, base, emitted + 1, next, textCount);
      assert found == [found[0]] + found[1..];
      ChainCons(node, ChainOf(found[1..], files, base, emitted + 1, next, textCount), found[0], found[1..],
                files, emitted, base, cur, next, textCount);
    }
  }

  /** The text loop draws as many overlays as there are found texts and unused files. */
  lemma TextNodesCount(texts: seq<TextItem>, search: seq<Clip>, files: seq<string>,
                       base: Label, k: nat, emitted: nat, cur: Label)
    requires k <= |texts| && emitted <= |files|
    ensures |TextNodes(texts, search, files, base, k, emitted, cur)|
         == MinNat(|FoundTexts(texts, search, k)|, |files| - emitted)
  {
    TextNodesIsChain(texts, search, files, base, k, emitted, cur);
    ChainOfCount(FoundTexts(texts, search, k), files, base, emitted, cur, |texts|);
  }

  /** The overlays the text loop draws are the found texts in list order, each reading the
      label the previous one wrote. */
  lemma TextNodesChain(texts: seq<TextItem>, search: seq<Clip>, files: seq<string>,
                       base: Label, k: nat, emitted: nat, cur: Label)
    requires k <= |texts| && emitted <= |files|
    ensures ChainSpec(TextNodes(texts, search, files, base, k, emitted, cur), FoundTexts(texts, search, k),
                      files, emitted, base, cur, |texts|)
  {
    TextNodesIsChain(texts, search, files, base, k, emitted, cur);
    ChainOfSpec(FoundTexts(texts, search, k), files, base, emitted, cur, |texts|);
  }

  // ---------------------------------------------------------------------------
  // Effect parameters

  /** `Math.max(1, Math.round(percent / 100 * 5))` for a percentage in [0, 100] is the
      nearest whole radius, halves rounded up, and lies in [1, 5]. */
  lemma BlurRadiusRounds(percent: int)
    requires 0 <= percent <= 100
    ensures 1 <= BlurRadius(percent) <= 5
    ensures BlurRadius(percent) > 1 ==>
      100 * BlurRadius(percent) - 50 <= 5 * percent < 100 * BlurRadius(percent) + 50
    ensures BlurRadius(percent) == 1 <==> 5 * percent < 150
  {
  }

  /** The parameters of the applied effect for an intensity in [0, 100]: zoom by
      1 + intensity/500, in (1, 1.2]; blur by a radius in [1, 5]; and a fade in and out of
      min(1, span/2) seconds that ends at the effect's end; intensity 0 acts as 50. */
  lemma EffectParameters(e: Effect)
    requires 0 <= e.intensity <= 100
    ensures e.kind == Sparkle <==> EffectOpFor(e).None?
    ensures e.kind == Zoom ==> (EffectOpFor(e).Some? && EffectOpFor(e).value.ZoomBy?
      && 1.0 < EffectOpFor(e).value.factor <= 1.2
      && (e.intensity == 0 ==> EffectOpFor(e).value.factor == 1.1)
      && (e.intensity > 0 ==> EffectOpFor(e).value.factor == 1.0 + e.intensity as real / 500.0))
    ensures e.kind == Blur ==> (EffectOpFor(e).Some? && EffectOpFor(e).value.BoxBlur?
      && 1 <= EffectOpFor(e).value.radius <= 5
      && (e.intensity == 0 ==> EffectOpFor(e).value.radius == 3))
    ensures e.kind == Fade ==> (EffectOpFor(e).Some? && EffectOpFor(e).value.FadeInOut?
      && EffectOpFor(e).value.start == e.startTime
      && EffectOpFor(e).value.length <= 1.0
      && EffectOpFor(e).value.outStart + EffectOpFor(e).value.length == e.endTime
      && (e.endTime - e.startTime >= 2.0 ==> EffectOpFor(e).value.length == 1.0)
      && (e.endTime - e.startTime < 2.0 ==> EffectOpFor(e).value.length == (e.endTime - e.startTime) / 2.0)
      && (e.startTime <= e.endTime ==>
            e.startTime + EffectOpFor(e).value.length <= EffectOpFor(e).value.outStart))
  {
    if e.kind == Blur {
      BlurRadiusRounds(IntensityPercent(e));
    }
  }

  /** Effects are taken in list order, not by time: a later blur listed before an earlier
      zoom is the one applied. */
  lemma EffectNotTimeOrdered()
    ensures SelectedEffect([Effect(2, Blur, 5.0, 6.0, 50), Effect(1, Zoom, 0.0, 2.0, 50)])
         == Some(Effect(2, Blur, 5.0, 6.0, 50))
  {
    var es := [Effect(2, Blur, 5.0, 6.0, 50), Effect(1, Zoom, 0.0, 2.0, 50)];
    assert Filter(es, Applicable) == [es[0]] + Filter(es[1..], Applicable);
  }

  // ---------------------------------------------------------------------------
  // Colours

  /** Absent means white; white and black, with or without `#`, are spelled out. */
  lemma NormalizeColorNamed()
    ensures NormalizeColor("") == "0xFFFFFF"
    ensures NormalizeColor("white") == "0xFFFFFF" && NormalizeColor("#white") == "0xFFFFFF"
    ensures NormalizeColor("black") == "0x000000" && NormalizeColor("#black") == "0x000000"
  {
    assert "#white"[1..] == "white";
    assert "#black"[1..] == "black";
  }

  /** A `0x` colour is kept, a leading `#` is dropped, and anything else gets `0x` in
      front. */
  lemma NormalizeColorCases(color: string)
    ensures StartsWith(color, "0x") ==> NormalizeColor(color) == color
    ensures |color| > 0 && color[0] != '#' ==> NormalizeColor("#" + color) == NormalizeColor(color)
    ensures |color| > 0 && color[0] != '#' && !StartsWith(color, "0x") && color != "white" && color != "black"
      ==> NormalizeColor(color) == "0x" + color
  {
    if |color| > 0 && color[0] != '#' {
      assert ("#" + color)[1..] == color;
    }
  }

  /** Normalising twice changes nothing. */
  lemma NormalizeColorIdempotent(color: string)
    ensures NormalizeColor(NormalizeColor(color)) == NormalizeColor(color)
  {
    var r := NormalizeColor(color);
    assert r[0] == '0';
  }
}
