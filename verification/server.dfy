/** The server-side compiler (`POST /api/export` in server.js): it resolves every clip's
    uploaded path, aborts when one is missing, and assembles one shell command. Unlike
    the browser compiler it trims no visual clip, caps no audio trim, draws no text,
    applies no effect and never passes `-shortest`. */
module ServerCompiler {
  import opened Wrappers
  import opened Strings
  import opened Seqs
  import opened Timeline
  import opened Graph

  /** Why an export request fails before ffmpeg runs. */
  datatype ExportError =
    | NoClips                  // `clips` absent or empty
    | MissingPath(clipId: nat) // `clip.path.replace` on a clip without a path throws
    | SourceNotFound(path: string)

  /** The HTTP status each failure answers with: 400 for an empty request, 500 for a
      failure inside the `try` block. */
  function StatusOf(e: ExportError): (code: int)
    ensures code == 400 <==> e.NoClips?
    ensures code == 400 || code == 500
  {
    if e.NoClips? then 400 else 500
  }

  /** `p.replace(/^\//, '')`. */
  function StripLeadingSlash(p: string): (r: string)
    ensures |p| == 0 || p[0] != '/' ==> r == p
    ensures |p| > 0 && p[0] == '/' ==> p == "/" + r
  {
    if |p| > 0 && p[0] == '/' then p[1..] else p
  }

  /** `path.join(root, rel)`, without the normalisation of `.`, `..` and repeated slashes. */
  function JoinPath(root: string, rel: string): string
  {
    root + "/" + rel
  }

  /** The file a clip's path names on the server, if it has a path. */
  function SourceOf(c: Clip, root: string): Option<string>
  {
    match c.path
    case None => None
    case Some(p) => Some(JoinPath(root, StripLeadingSlash(p)))
  }

  /** A clip resolves when it has a path and the file it names exists. */
  predicate Resolves(c: Clip, root: string, onDisk: string -> bool)
  {
    SourceOf(c, root).Some? && onDisk(SourceOf(c, root).value)
  }

  /** The error the `forEach` body throws for a clip that does not resolve. */
  function ResolveError(c: Clip, root: string): ExportError
  {
    match SourceOf(c, root)
    case None => MissingPath(c.id)
    case Some(f) => SourceNotFound(f)
  }

  /** The resolved files of `clips` in order, or the error of the first clip that does
      not resolve. */
  function ResolveAll(clips: seq<Clip>, root: string, onDisk: string -> bool): (r: Result<seq<string>, ExportError>)
    ensures r.Ok? <==> forall k :: 0 <= k < |clips| ==> Resolves(clips[k], root, onDisk)
    ensures r.Ok? ==> (|r.value| == |clips|
      && forall k :: 0 <= k < |clips| ==> SourceOf(clips[k], root) == Some(r.value[k]))
    ensures r.Err? ==> exists k ::
      && 0 <= k < |clips| && !Resolves(clips[k], root, onDisk)
      && r.error == ResolveError(clips[k], root)
      && forall j :: 0 <= j < k ==> Resolves(clips[j], root, onDisk)
  {
    if |clips| == 0 then Ok([])
    else if !Resolves(clips[0], root, onDisk) then Err(ResolveError(clips[0], root))
    else
      match ResolveAll(clips[1..], root, onDisk)
      case Err(e) =>
        assert forall j :: 1 <= j < |clips| ==> clips[j] == clips[1..][j - 1];
        Err(e)
      case Ok(rest) =>
        var r := [SourceOf(clips[0], root).value] + rest;
        assert forall j :: 1 <= j < |clips| ==> clips[j] == clips[1..][j - 1] && r[j] == rest[j - 1];
        Ok(r)
  }

  // ---------------------------------------------------------------------------
  // Graph

  /** The per-clip chain: scale and pad to 1920x1080, reset timestamps, and loop an
      image; nothing is trimmed. */
  function ServerSteps(c: Clip): seq<VStep>
  {
    if c.kind == ImageClip then [ScaleFit1080, Pad1080, ResetPts, LoopForever]
    else [ScaleFit1080, Pad1080, ResetPts]
  }

  /** Visual clip `i` reads input `i` and is labelled `v{i}`; its chain scales, pads and
      resets timestamps, loops iff the clip is an image, and never trims. */
  function ServerVisualNodes(visual: seq<Clip>): (r: seq<Node>)
    ensures |r| == |visual|
    ensures forall i :: 0 <= i < |r| ==>
      && r[i].VisualChain? && r[i].input == i && r[i].out == V(i)
      && |r[i].steps| >= 3 && r[i].steps[..3] == [ScaleFit1080, Pad1080, ResetPts]
      && (LoopForever in r[i].steps <==> visual[i].kind == ImageClip)
      && (forall j :: 0 <= j < |r[i].steps| ==> !r[i].steps[j].TrimTo?)
  {
    seq(|visual|, i requires 0 <= i < |visual| => VisualChain(i, ServerSteps(visual[i]), V(i)))
  }

  /** Audio clip `i` reads input `offset + i`, is trimmed to its full span and labelled `a{i}`. */
  function ServerAudioNodes(audio: seq<Clip>, offset: nat): (r: seq<Node>)
    ensures |r| == |audio|
    ensures forall i :: 0 <= i < |r| ==>
      && r[i].AudioTrim? && r[i].input == offset + i && r[i].out == A(i)
      && r[i].seconds == audio[i].endTime - audio[i].startTime
  {
    seq(|audio|, i requires 0 <= i < |audio| => AudioTrim(offset + i, audio[i].endTime - audio[i].startTime, A(i)))
  }

  function ServerConcat(visual: seq<Clip>): seq<Node>
  {
    if |visual| > 1 then [Concat(VLabels(|visual|), |visual|, 1, 0, OutV)] else []
  }

  /** `amix=inputs={n}:duration=longest`, with no `dropout_transition`. */
  function ServerMix(audio: seq<Clip>): seq<Node>
  {
    if |audio| > 1 then [AMix(ALabels(|audio|), |audio|, Longest, false, OutA)] else []
  }

  function ServerMaps(visual: seq<Clip>, audio: seq<Clip>): seq<Label>
  {
    (if |visual| == 0 then [] else if |visual| > 1 then [OutV] else [V(0)])
      + (if |audio| == 0 then [] else if |audio| > 1 then [OutA] else [A(0)])
  }

  /** The plan of an export whose sources all resolved to `files`. */
  function ServerPlan(visual: seq<Clip>, audio: seq<Clip>, files: seq<string>, duration: real): Plan
  {
    Plan(seq(|files|, k requires 0 <= k < |files| => Quoted(files[k])),
         ServerVisualNodes(visual) + ServerConcat(visual) + ServerAudioNodes(audio, |visual|) + ServerMix(audio),
         ServerMaps(visual, audio), duration, false)
  }

  /** `ffmpeg`, the body, the quoted output path, then `-y`. */
  function ServerCommand(p: Plan, outPath: string): seq<Arg>
  {
    [Lit("ffmpeg")] + Body(p) + [Quoted(outPath), Lit("-y")]
  }

  /** Reads a server command back into its plan and output path. */
  function ParseServerCommand(args: seq<Arg>): Option<(Plan, string)>
  {
    if |args| == 0 || args[0] != Lit("ffmpeg") then None
    else match ParseBody(args[1..])
      case None => None
      case Some((p, rest)) =>
        if |rest| == 2 && rest[0].Quoted? && rest[1] == Lit("-y") then Some((p, rest[0].s)) else None
  }

  /** The clips in input order: the sorted visual clips, then the sorted audio clips. */
  function InputOrder(clips: seq<Clip>): seq<Clip>
  {
    var sorted := SortByStart(clips);
    VisualClips(sorted) + AudioClips(sorted)
  }

  /** The `/api/export` handler up to `exec`: the clip list as sent (absent or present),
      the duration, the server's directory, the output path and the existence check of
      the file system. */
  function CompileExport(clips: Option<seq<Clip>>, duration: real, root: string, outPath: string,
                         onDisk: string -> bool): Result<seq<Arg>, ExportError>
  {
    if clips.None? || |clips.value| == 0 then Err(NoClips)
    else
      var sorted := SortByStart(clips.value);
      var visual := VisualClips(sorted);
      var audio := AudioClips(sorted);
      match ResolveAll(InputOrder(clips.value), root, onDisk)
      case Err(e) => Err(e)
      case Ok(files) => Ok(ServerCommand(ServerPlan(visual, audio, files, duration), outPath))
  }
}

/** What the server compiler guarantees: when it refuses, which clip is to blame and with
    which status; when it succeeds, which input each node reads and what the command holds. */
module ServerProperties {
  import opened Wrappers
  import opened Strings
  import opened Seqs
  import opened Timeline
  import opened Graph
  import opened ServerCompiler

  /** An absent or empty clip list answers 400 before anything is resolved. */
  lemma EmptyRequestRejected(clips: Option<seq<Clip>>, duration: real, root: string, outPath: string,
                             onDisk: string -> bool)
    ensures CompileExport(clips, duration, root, outPath, onDisk).Err?
         && StatusOf(CompileExport(clips, duration, root, outPath, onDisk).error) == 400
        <==> clips.None? || |clips.value| == 0
  {
  }

  /** A non-empty request compiles exactly when every visual and every audio clip
      resolves; otherwise it answers 500, blaming the first clip in visual-then-audio
      order that does not. */
  lemma ExportResolvesAll(clips: seq<Clip>, duration: real, root: string, outPath: string, onDisk: string -> bool)
    requires |clips| > 0
    ensures CompileExport(Some(clips), duration, root, outPath, onDisk).Ok?
        <==> forall k :: 0 <= k < |InputOrder(clips)| ==>
               Resolves((InputOrder(clips))[k], root, onDisk)
    ensures CompileExport(Some(clips), duration, root, outPath, onDisk).Err? ==>
      && StatusOf(CompileExport(Some(clips), duration, root, outPath, onDisk).error) == 500
      && exists k :: 0 <= k < |InputOrder(clips)|
           && !Resolves((InputOrder(clips))[k], root, onDisk)
           && CompileExport(Some(clips), duration, root, outPath, onDisk).error
              == ResolveError((InputOrder(clips))[k], root)
  {
  }

  /** Text and effect clips need no file: a request holding only such clips compiles
      to a command with no input, whatever exists on disk. */
  lemma OnlyTextCompiles(c: Clip, duration: real, root: string, outPath: string, onDisk: string -> bool)
    requires c.kind == TextClip || c.kind == EffectClip
    ensures CompileExport(Some([c]), duration, root, outPath, onDisk).Ok?
  {
    assert SortByStart([c]) == [c];
    assert VisualClips([c]) == [] && AudioClips([c]) == [];
  }

  /** Where each node of a server plan sits and what it reads: visual clip `i` reads
      input `i` with no trim, looping only an image; audio clip `i` reads input
      `|visual| + i`, trimmed to its full span; the concat and amix nodes appear exactly
      when their group has more than one clip. */
  lemma ServerGraphShape(visual: seq<Clip>, audio: seq<Clip>, files: seq<string>, duration: real)
    ensures |ServerPlan(visual, audio, files, duration).graph|
         == |visual| + |audio| + (if |visual| > 1 then 1 else 0) + (if |audio| > 1 then 1 else 0)
    ensures forall i :: 0 <= i < |visual| ==>
      && ServerPlan(visual, audio, files, duration).graph[i].VisualChain?
      && ServerPlan(visual, audio, files, duration).graph[i].input == i
      && ServerPlan(visual, audio, files, duration).graph[i].out == V(i)
      && (LoopForever in ServerPlan(visual, audio, files, duration).graph[i].steps <==> visual[i].kind == ImageClip)
      && (forall j :: 0 <= j < |ServerPlan(visual, audio, files, duration).graph[i].steps| ==>
            !ServerPlan(visual, audio, files, duration).graph[i].steps[j].TrimTo?)
    ensures |visual| > 1 ==>
      ServerPlan(visual, audio, files, duration).graph[|visual|] == Concat(VLabels(|visual|), |visual|, 1, 0, OutV)
    ensures forall i :: 0 <= i < |audio| ==>
      ServerPlan(visual, audio, files, duration).graph[|visual| + (if |visual| > 1 then 1 else 0) + i]
        == AudioTrim(|visual| + i, audio[i].endTime - audio[i].startTime, A(i))
    ensures |audio| > 1 ==>
      ServerPlan(visual, audio, files, duration).graph[|ServerPlan(visual, audio, files, duration).graph| - 1]
        == AMix(ALabels(|audio|), |audio|, Longest, false, OutA)
  {
    var vn := ServerVisualNodes(visual);
    var cn := ServerConcat(visual);
    var an := ServerAudioNodes(audio, |visual|);
    var mn := ServerMix(audio);
    var g := ServerPlan(visual, audio, files, duration).graph;
    assert g == vn + cn + an + mn;
    assert forall i :: 0 <= i < |visual| ==> g[i] == vn[i];
    assert forall i :: 0 <= i < |audio| ==> g[|vn| + |cn| + i] == an[i];
  }

  /** A server command is `ffmpeg` followed by one `-i` pair per input. */
  lemma ServerCommandInputs(p: Plan, outPath: string)
    ensures |ServerCommand(p, outPath)| > 2 * |p.inputs|
    ensures ServerCommand(p, outPath)[0] == Lit("ffmpeg")
    ensures forall k :: 0 <= k < |p.inputs| ==>
      ServerCommand(p, outPath)[2 * k + 1] == Lit("-i") && ServerCommand(p, outPath)[2 * k + 2] == p.inputs[k]
  {
    hide FilterArgs, MapArgs, TailArgs;
    var ins := InputArgs(p.inputs);
    var rest := FilterArgs(p.graph) + MapArgs(p.maps) + TailArgs(p.duration, p.shortest);
    assert ServerCommand(p, outPath) == [Lit("ffmpeg")] + (ins + rest + [Quoted(outPath), Lit("-y")]);
    forall k | 0 <= k < |p.inputs|
      ensures ServerCommand(p, outPath)[2 * k + 1] == Lit("-i") && ServerCommand(p, outPath)[2 * k + 2] == p.inputs[k]
    {
      assert ServerCommand(p, outPath)[2 * k + 1] == ins[2 * k];
      assert ServerCommand(p, outPath)[2 * k + 2] == ins[2 * k + 1];
    }
  }

  /** A server command reads back as its plan and output path. */
  lemma ServerCommandRoundTrip(p: Plan, outPath: string)
    ensures ParseServerCommand(ServerCommand(p, outPath)) == Some((p, outPath))
  {
    var tail := [Quoted(outPath), Lit("-y")];
    BodyRoundTrip(p, tail);
    assert ServerCommand(p, outPath)[1..] == Body(p) + tail;
  }

  /** A compiled request is the command of the plan built from the resolved sources. */
  lemma CompiledIsCommand(clips: seq<Clip>, duration: real, root: string, outPath: string, onDisk: string -> bool)
    requires |clips| > 0
    requires CompileExport(Some(clips), duration, root, outPath, onDisk).Ok?
    ensures ResolveAll(InputOrder(clips), root, onDisk).Ok?
    ensures CompileExport(Some(clips), duration, root, outPath, onDisk).value
         == ServerCommand(ServerPlan(VisualClips(SortByStart(clips)), AudioClips(SortByStart(clips)),
                                     ResolveAll(InputOrder(clips), root, onDisk).value, duration), outPath)
  {
  }

  /** The command of a server plan passes its files as quoted `-i` inputs, in order. */
  lemma PlanCommandInputs(visual: seq<Clip>, audio: seq<Clip>, files: seq<string>, duration: real, outPath: string)
    ensures |ServerCommand(ServerPlan(visual, audio, files, duration), outPath)| > 2 * |files|
    ensures ServerCommand(ServerPlan(visual, audio, files, duration), outPath)[0] == Lit("ffmpeg")
    ensures forall k :: 0 <= k < |files| ==>
      && ServerCommand(ServerPlan(visual, audio, files, duration), outPath)[2 * k + 1] == Lit("-i")
      && ServerCommand(ServerPlan(visual, audio, files, duration), outPath)[2 * k + 2] == Quoted(files[k])
  {
    ServerCommandInputs(ServerPlan(visual, audio, files, duration), outPath);
  }

  /** In a compiled command the sources follow `ffmpeg` as `-i "file"` pairs, visual
      clips first and in sorted order, so that audio clip `i` is input `|visual| + i`. */
  lemma CompiledCommandInputs(clips: seq<Clip>, duration: real, root: string, outPath: string,
                              onDisk: string -> bool, cmd: seq<Arg>)
    requires CompileExport(Some(clips), duration, root, outPath, onDisk) == Ok(cmd)
    ensures |cmd| > 2 * |InputOrder(clips)|
    ensures cmd[0] == Lit("ffmpeg")
    ensures forall k :: 0 <= k < |InputOrder(clips)| ==>
      && cmd[2 * k + 1] == Lit("-i")
      && SourceOf(InputOrder(clips)[k], root).Some?
      && cmd[2 * k + 2] == Quoted(SourceOf(InputOrder(clips)[k], root).value)
  {
    var files := ResolveAll(InputOrder(clips), root, onDisk).value;
    CompiledIsCommand(clips, duration, root, outPath, onDisk);
    hide CompileExport, ServerCommand, ServerPlan;
    PlanCommandInputs(VisualClips(SortByStart(clips)), AudioClips(SortByStart(clips)), files, duration, outPath);
  }

  /** A compiled command reads back as its plan followed by the quoted output path. */
  lemma CompiledCommandReadsBack(clips: seq<Clip>, duration: real, root: string, outPath: string,
                                 onDisk: string -> bool, cmd: seq<Arg>)
    requires CompileExport(Some(clips), duration, root, outPath, onDisk) == Ok(cmd)
    ensures ParseServerCommand(cmd) == Some((ServerPlan(VisualClips(SortByStart(clips)), AudioClips(SortByStart(clips)),
                                              ResolveAll(InputOrder(clips), root, onDisk).value, duration), outPath))
  {
    var files := ResolveAll(InputOrder(clips), root, onDisk).value;
    var p := ServerPlan(VisualClips(SortByStart(clips)), AudioClips(SortByStart(clips)), files, duration);
    CompiledIsCommand(clips, duration, root, outPath, onDisk);
    ServerCommandRoundTrip(p, outPath);
  }

  /** A server command never carries `-shortest`, and carries `-filter_complex` exactly
      when there is a visual or an audio clip. */
  lemma ServerFlags(visual: seq<Clip>, audio: seq<Clip>, files: seq<string>, duration: real, outPath: string)
    ensures Lit("-shortest") !in ServerCommand(ServerPlan(visual, audio, files, duration), outPath)
    ensures Lit("-filter_complex") in ServerCommand(ServerPlan(visual, audio, files, duration), outPath)
        <==> |visual| + |audio| > 0
  {
    var p := ServerPlan(visual, audio, files, duration);
    var tail := [Quoted(outPath), Lit("-y")];
    FlagsInBody(p, tail);
    ServerGraphShape(visual, audio, files, duration);
    assert ServerCommand(p, outPath) == [Lit("ffmpeg")] + (Body(p) + tail);
  }
}
