/** The typed form of an ffmpeg invocation: labelled filter-graph nodes, the argument
    tokens, and the layout shared by both compilers, with a parser that reads a layout
    back into its parts. Rendering nodes to ffmpeg's filter syntax is not modelled. */
module Graph {
  import opened Wrappers

  /** Stream labels: `v{i}`, `outv`, `a{i}`, `outa`, `{base}_text{i}`, `{base}_text`
      and `{base}_effect`. */
  datatype Label =
    | V(i: nat)
    | OutV
    | A(i: nat)
    | OutA
    | TextStep(base: Label, i: nat)
    | TextLast(base: Label)
    | Effected(base: Label)

  /** One filter of a per-clip visual chain. */
  datatype VStep =
    | ScaleFit1080   // scale=1920:1080:force_original_aspect_ratio=decrease
    | Pad1080        // pad=1920:1080:(ow-iw)/2:(oh-ih)/2
    | ResetPts       // setpts=PTS-STARTPTS
    | LoopForever    // loop=loop=-1:size=1:start=0
    | TrimTo(seconds: real)

  datatype EffectOp =
    | ZoomBy(factor: real)
    | FadeInOut(start: real, length: real, outStart: real)
    | BoxBlur(radius: int)

  /** amix's `duration` option. */
  datatype MixPolicy = Longest | Shortest | First

  datatype Node =
    | VisualChain(input: nat, steps: seq<VStep>, out: Label)
    | Concat(ins: seq<Label>, n: nat, videoStreams: nat, audioStreams: nat, out: Label)
    | DrawText(src: Label, textFile: string, fontSize: int, color: string, x: int, y: int,
               from: real, until: real, out: Label)
    | EffectNode(src: Label, op: EffectOp, out: Label)
    | AudioTrim(input: nat, seconds: real, out: Label)
    | AMix(ins: seq<Label>, n: nat, policy: MixPolicy, dropoutZero: bool, out: Label)

  /** One argument token; `Quoted` is a path written inside double quotes. */
  datatype Arg =
    | Lit(s: string)
    | Quoted(s: string)
    | FilterGraph(nodes: seq<Node>)
    | MapOf(l: Label)
    | Seconds(t: real)

  /** The parts every invocation is laid out from. */
  datatype Plan = Plan(inputs: seq<Arg>, graph: seq<Node>, maps: seq<Label>, duration: real, shortest: bool)

  /** `[v0][v1]...[v{n-1}]`. */
  function VLabels(n: nat): (r: seq<Label>)
    ensures |r| == n && forall i :: 0 <= i < n ==> r[i] == V(i)
  {
    seq(n, i requires 0 <= i < n => V(i))
  }

  /** `[a0][a1]...[a{n-1}]`. */
  function ALabels(n: nat): (r: seq<Label>)
    ensures |r| == n && forall i :: 0 <= i < n ==> r[i] == A(i)
  {
    seq(n, i requires 0 <= i < n => A(i))
  }

  /** The fixed encode flags: libx264 at preset medium and CRF 23, AAC audio at 192k. */
  const EncodeFlags: seq<Arg> :=
    [Lit("-c:v"), Lit("libx264"), Lit("-preset"), Lit("medium"), Lit("-crf"), Lit("23"),
     Lit("-c:a"), Lit("aac"), Lit("-b:a"), Lit("192k")]

  predicate IsConcat(n: Node) { n.Concat? }
  predicate IsAMix(n: Node) { n.AMix? }
  predicate IsDrawText(n: Node) { n.DrawText? }
  predicate IsEffect(n: Node) { n.EffectNode? }

  // ---------------------------------------------------------------------------
  // Layout

  /** Putting `tag f(s[0])` in front of the pairs of `s[1..]` gives the pairs of `s`. */
  lemma PairsCons<T>(tag: Arg, s: seq<T>, f: T -> Arg, t: seq<Arg>)
    requires |s| > 0 && |t| == 2 * (|s| - 1)
    requires forall k :: 0 <= k < |s| - 1 ==> t[2 * k] == tag && t[2 * k + 1] == f(s[1..][k])
    ensures var r := [tag, f(s[0])] + t;
      forall k :: 0 <= k < |s| ==> r[2 * k] == tag && r[2 * k + 1] == f(s[k])
  {
    var r := [tag, f(s[0])] + t;
    forall k | 0 <= k < |s|
      ensures r[2 * k] == tag && r[2 * k + 1] == f(s[k])
    {
      if k > 0 {
        assert r[2 * k] == t[2 * (k - 1)] && r[2 * k + 1] == t[2 * (k - 1) + 1];
        assert s[1..][k - 1] == s[k];
      }
    }
  }

  /** `-i x` once per input, in order. */
  function InputArgs(ins: seq<Arg>): (r: seq<Arg>)
    ensures |r| == 2 * |ins|
    ensures forall k :: 0 <= k < |ins| ==> r[2 * k] == Lit("-i") && r[2 * k + 1] == ins[k]
  {
    if |ins| == 0 then []
    else
      PairsCons(Lit("-i"), ins, (a: Arg) => a, InputArgs(ins[1..]));
      [Lit("-i"), ins[0]] + InputArgs(ins[1..])
  }

  /** `-filter_complex graph`, dropped when the graph has no node. */
  function FilterArgs(g: seq<Node>): seq<Arg>
  {
    if |g| > 0 then [Lit("-filter_complex"), FilterGraph(g)] else []
  }

  /** `-map [label]` once per mapped stream, in order. */
  function MapArgs(ls: seq<Label>): (r: seq<Arg>)
    ensures |r| == 2 * |ls|
    ensures forall k :: 0 <= k < |ls| ==> r[2 * k] == Lit("-map") && r[2 * k + 1] == MapOf(ls[k])
  {
    if |ls| == 0 then []
    else
      PairsCons(Lit("-map"), ls, (l: Label) => MapOf(l), MapArgs(ls[1..]));
      [Lit("-map"), MapOf(ls[0])] + MapArgs(ls[1..])
  }

  /** `-t d`, `-shortest` when asked for, then the encode flags. */
  function TailArgs(d: real, shortest: bool): seq<Arg>
  {
    [Lit("-t"), Seconds(d)] + (if shortest then [Lit("-shortest")] else []) + EncodeFlags
  }

  /** Inputs, graph, maps, duration, `-shortest`, encode flags: the order both compilers use. */
  function Body(p: Plan): seq<Arg>
  {
    InputArgs(p.inputs) + FilterArgs(p.graph) + MapArgs(p.maps) + TailArgs(p.duration, p.shortest)
  }

  // ---------------------------------------------------------------------------
  // Reading a layout back

  function ParseInputs(args: seq<Arg>): (seq<Arg>, seq<Arg>)
  {
    if |args| >= 2 && args[0] == Lit("-i") then
      var (ins, rest) := ParseInputs(args[2..]);
      ([args[1]] + ins, rest)
    else ([], args)
  }

  function ParseFilter(args: seq<Arg>): (seq<Node>, seq<Arg>)
  {
    if |args| >= 2 && args[0] == Lit("-filter_complex") && args[1].FilterGraph? then
      (args[1].nodes, args[2..])
    else ([], args)
  }

  function ParseMaps(args: seq<Arg>): (seq<Label>, seq<Arg>)
  {
    if |args| >= 2 && args[0] == Lit("-map") && args[1].MapOf? then
      var (ls, rest) := ParseMaps(args[2..]);
      ([args[1].l] + ls, rest)
    else ([], args)
  }

  function ParseTail(args: seq<Arg>): Option<(real, bool, seq<Arg>)>
  {
    if |args| >= 2 && args[0] == Lit("-t") && args[1].Seconds? then
      var d := args[1].t;
      var rest := args[2..];
      var shortest := |rest| >= 1 && rest[0] == Lit("-shortest");
      var rest' := if shortest then rest[1..] else rest;
      if |rest'| >= |EncodeFlags| && rest'[..|EncodeFlags|] == EncodeFlags then
        Some((d, shortest, rest'[|EncodeFlags|..]))
      else None
    else None
  }

  /** Reads a body back into its plan and the arguments that follow it. */
  function ParseBody(args: seq<Arg>): Option<(Plan, seq<Arg>)>
  {
    var (ins, r1) := ParseInputs(args);
    var (g, r2) := ParseFilter(r1);
    var (ms, r3) := ParseMaps(r2);
    match ParseTail(r3)
    case None => None
    case Some((d, sh, rest)) => Some((Plan(ins, g, ms, d, sh), rest))
  }

  lemma {:induction false} ParseInputsOf(ins: seq<Arg>, rest: seq<Arg>)
    requires |rest| == 0 || rest[0] != Lit("-i")
    ensures ParseInputs(InputArgs(ins) + rest) == (ins, rest)
  {
    if |ins| > 0 {
      var a := InputArgs(ins) + rest;
      assert a[2..] == InputArgs(ins[1..]) + rest;
      ParseInputsOf(ins[1..], rest);
      assert [ins[0]] + ins[1..] == ins;
    } else {
      assert InputArgs(ins) + rest == rest;
    }
  }

  lemma {:induction false} ParseMapsOf(ls: seq<Label>, rest: seq<Arg>)
    requires |rest| == 0 || rest[0] != Lit("-map")
    ensures ParseMaps(MapArgs(ls) + rest) == (ls, rest)
  {
    if |ls| > 0 {
      var a := MapArgs(ls) + rest;
      assert a[2..] == MapArgs(ls[1..]) + rest;
      ParseMapsOf(ls[1..], rest);
      assert [ls[0]] + ls[1..] == ls;
    } else {
      assert MapArgs(ls) + rest == rest;
    }
  }

  lemma ParseTailOf(d: real, shortest: bool, tail: seq<Arg>)
    ensures ParseTail(TailArgs(d, shortest) + tail) == Some((d, shortest, tail))
  {
    var a := TailArgs(d, shortest) + tail;
    var rest := a[2..];
    if shortest {
      assert rest == [Lit("-shortest")] + (EncodeFlags + tail);
      assert rest[1..] == EncodeFlags + tail;
    } else {
      assert rest == EncodeFlags + tail;
      assert rest[0] == Lit("-c:v");
    }
    assert (EncodeFlags + tail)[..|EncodeFlags|] == EncodeFlags;
    assert (EncodeFlags + tail)[|EncodeFlags|..] == tail;
  }

  lemma ParseFilterOf(g: seq<Node>, rest: seq<Arg>)
    requires |rest| == 0 || rest[0] != Lit("-filter_complex")
    ensures ParseFilter(FilterArgs(g) + rest) == (g, rest)
  {
    if |g| > 0 {
      assert (FilterArgs(g) + rest)[2..] == rest;
    } else {
      assert FilterArgs(g) + rest == rest;
    }
  }

  /** A body reads back as the plan it was laid out from, whatever follows it. */
  lemma BodyRoundTrip(p: Plan, tail: seq<Arg>)
    ensures ParseBody(Body(p) + tail) == Some((p, tail))
  {
    var t := TailArgs(p.duration, p.shortest) + tail;
    var m := MapArgs(p.maps) + t;
    var f := FilterArgs(p.graph) + m;
    assert Body(p) + tail == InputArgs(p.inputs) + f;
    assert t[0] == Lit("-t");
    assert m[0] == Lit("-map") || m[0] == Lit("-t");
    assert f[0] == Lit("-filter_complex") || f[0] == m[0];
    ParseInputsOf(p.inputs, f);
    ParseFilterOf(p.graph, m);
    ParseMapsOf(p.maps, t);
    ParseTailOf(p.duration, p.shortest, tail);
  }

  lemma InputArgsMembers(ins: seq<Arg>, x: Arg)
    requires x in InputArgs(ins)
    ensures x == Lit("-i") || x in ins
  {
    var r := InputArgs(ins);
    var j :| 0 <= j < |r| && r[j] == x;
    var k := j / 2;
    if j % 2 == 0 {
      assert r[2 * k] == Lit("-i");
    } else {
      assert r[2 * k + 1] == ins[k];
    }
  }

  lemma MapArgsMembers(ls: seq<Label>, x: Arg)
    requires x in MapArgs(ls)
    ensures x == Lit("-map") || x.MapOf?
  {
    var r := MapArgs(ls);
    var j :| 0 <= j < |r| && r[j] == x;
    var k := j / 2;
    if j % 2 == 0 {
      assert r[2 * k] == Lit("-map");
    } else {
      assert r[2 * k + 1] == MapOf(ls[k]);
    }
  }

  /** When no input and nothing after the body spells them, `-shortest` appears exactly
      when the plan asks for it and `-filter_complex` exactly when the graph has a node. */
  lemma FlagsInBody(p: Plan, tail: seq<Arg>)
    requires Lit("-shortest") !in p.inputs && Lit("-filter_complex") !in p.inputs
    requires Lit("-shortest") !in tail && Lit("-filter_complex") !in tail
    ensures Lit("-shortest") in Body(p) + tail <==> p.shortest
    ensures Lit("-filter_complex") in Body(p) + tail <==> |p.graph| > 0
  {
    var i := InputArgs(p.inputs);
    var f := FilterArgs(p.graph);
    var m := MapArgs(p.maps);
    var t := TailArgs(p.duration, p.shortest);
    assert Body(p) + tail == i + f + m + t + tail;
    if Lit("-shortest") in i { InputArgsMembers(p.inputs, Lit("-shortest")); }
    if Lit("-filter_complex") in i { InputArgsMembers(p.inputs, Lit("-filter_complex")); }
    if Lit("-shortest") in m { MapArgsMembers(p.maps, Lit("-shortest")); }
    if Lit("-filter_complex") in m { MapArgsMembers(p.maps, Lit("-filter_complex")); }
    assert Lit("-shortest") !in EncodeFlags && Lit("-filter_complex") !in EncodeFlags;
    if p.shortest {
      assert t[2] == Lit("-shortest");
    }
    if |p.graph| > 0 {
      assert f[0] == Lit("-filter_complex");
    }
  }
}
