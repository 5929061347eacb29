/** The editor page of src/App.jsx: the list of text overlays and the edits on it, the
    playhead (seeking, the playback tick), the `m:ss` time display and the simulated
    export progress. The page's other state (login, the video list, dialogs) is
    rendering only. */
module Editor {
  import opened Wrappers
  import opened Strings
  import opened Seqs
  import opened Timeline

  /** The length of the edited video in seconds, fixed in the page. */
  const Duration: real := 150.0

  // ---------------------------------------------------------------------------
  // Text overlays

  /** The part of the page state the text edits touch. */
  datatype TextState = TextState(
    texts: seq<TextItem>,
    selected: Option<nat>,
    newContent: string,
    showInput: bool)

  /** The overlay `addText` creates for `content`, with the page's defaults. */
  function NewText(id: nat, content: string): TextItem
  {
    TextItem(id, content, 100, 200, 32, "#FFFFFF", "Arial")
  }

  /** `addText`: a non-blank input becomes a new overlay at the end of the list, which is
      selected; the input is cleared and closed. A blank input changes nothing. The id
      (`Date.now()` in the page) is a parameter. */
  function AddText(st: TextState, id: nat): TextState
  {
    if Trim(st.newContent) != "" then
      TextState(st.texts + [NewText(id, st.newContent)], Some(id), "", false)
    else st
  }

  /** The fields `updateText` may be given; an absent field is left alone. */
  datatype TextPatch = TextPatch(
    id: Option<nat>,
    content: Option<string>,
    x: Option<int>,
    y: Option<int>,
    fontSize: Option<int>,
    color: Option<string>,
    fontFamily: Option<string>)

  function Override<T>(current: T, patch: Option<T>): T
  {
    if patch.Some? then patch.value else current
  }

  /** `{ ...t, ...updates }`: every field present in the patch replaces the overlay's. */
  function Apply(t: TextItem, p: TextPatch): (r: TextItem)
    ensures p.content.Some? ==> r.content == p.content.value
    ensures p.content.None? ==> r.content == t.content
    ensures p.x.Some? ==> r.x == p.x.value
    ensures p.x.None? ==> r.x == t.x
    ensures p.fontSize.Some? ==> r.fontSize == p.fontSize.value
    ensures p.fontSize.None? ==> r.fontSize == t.fontSize
    ensures p.id.Some? ==> r.id == p.id.value
    ensures p.id.None? ==> r.id == t.id
    ensures p.y.Some? ==> r.y == p.y.value
    ensures p.y.None? ==> r.y == t.y
    ensures p.color.Some? ==> r.color == p.color.value
    ensures p.color.None? ==> r.color == t.color
    ensures p.fontFamily.Some? ==> r.fontFamily == p.fontFamily.value
    ensures p.fontFamily.None? ==> r.fontFamily == t.fontFamily
  {
    TextItem(Override(t.id, p.id), Override(t.content, p.content), Override(t.x, p.x),
             Override(t.y, p.y), Override(t.fontSize, p.fontSize), Override(t.color, p.color),
             Override(t.fontFamily, p.fontFamily))
  }

  /** `updateText(id, updates)`: patch every overlay whose id matches. */
  function UpdateText(texts: seq<TextItem>, id: nat, p: TextPatch): (r: seq<TextItem>)
    ensures |r| == |texts|
  {
    seq(|texts|, i requires 0 <= i < |texts| => if texts[i].id == id then Apply(texts[i], p) else texts[i])
  }

  /** `deleteText(id)`: drop every overlay with that id and clear the selection. */
  function DeleteText(st: TextState, id: nat): TextState
  {
    st.(texts := Filter(st.texts, (t: TextItem) => t.id != id), selected := None)
  }

  // ---------------------------------------------------------------------------
  // Playhead

  /** `handleSeek`: the clicked fraction of the bar, scaled to the duration and clamped
      into it. */
  function Seek(fraction: real): (t: real)
    ensures 0.0 <= t <= Duration
    ensures 0.0 <= fraction <= 1.0 ==> t == fraction * Duration
    ensures fraction < 0.0 ==> t == 0.0
    ensures fraction > 1.0 ==> t == Duration
  {
    var scaled := fraction * Duration;
    var upper := if Duration < scaled then Duration else scaled;
    if 0.0 < upper then upper else 0.0
  }

  /** The result of one playback tick: the new time, and whether playback goes on. */
  datatype TickResult = TickResult(time: real, playing: bool)

  /** The 500 ms tick as written: at or past the end it stops on the end; otherwise it
      moves on one second, with no clamp. */
  function Tick(prev: real): TickResult
  {
    if prev >= Duration then TickResult(Duration, false) else TickResult(prev + 1.0, true)
  }

  /** The tick with the step clamped to the end, so that the playhead never passes it. */
  function TickClamped(prev: real): (r: TickResult)
    ensures prev >= Duration ==> r == TickResult(Duration, false)
    ensures prev < Duration ==> r.playing && prev < r.time <= prev + 1.0
  {
    if prev >= Duration then TickResult(Duration, false)
    else if prev + 1.0 > Duration then TickResult(Duration, true)
    else TickResult(prev + 1.0, true)
  }

  /** The playhead after `n` clamped ticks from `start`, stopping once playback stops. */
  function Play(start: real, n: nat): TickResult
  {
    if n == 0 then TickResult(start, true)
    else
      var r := Play(start, n - 1);
      if r.playing then TickClamped(r.time) else r
  }

  // ---------------------------------------------------------------------------
  // Time display

  /** JavaScript's `x % 60` on a number: the remainder takes the sign of `x`. */
  function JsRem60(x: real): real
  {
    var q := if x >= 0.0 then (x / 60.0).Floor else -((-x / 60.0).Floor);
    x - 60.0 * (q as real)
  }

  /** `formatTime(seconds)`: `Math.floor(s / 60)`, a colon, and `Math.floor(s % 60)`
      padded to two characters with zeros. */
  function FormatTime(seconds: real): string
  {
    var mins := (seconds / 60.0).Floor;
    var secs := JsRem60(seconds).Floor;
    IntToString(mins) + ":" + PadStart(IntToString(secs), 2, '0')
  }

  // ---------------------------------------------------------------------------
  // Export progress

  /** The result of one 300 ms export tick: the new progress, and whether it goes on. */
  datatype ProgressResult = ProgressResult(progress: int, exporting: bool)

  /** One export tick: at or past 100 the export ends on 100; otherwise progress moves
      on by 10. */
  function ProgressTick(prev: int): ProgressResult
  {
    if prev >= 100 then ProgressResult(100, false) else ProgressResult(prev + 10, true)
  }

  /** `handleExport`: progress starts at 0 and ticks until the export ends; the values
      it takes after each tick, in order. */
  method ExportProgress() returns (trace: seq<int>)
    ensures |trace| == 11
    ensures forall i :: 0 <= i < 10 ==> trace[i] == 10 * (i + 1)
    ensures trace[10] == 100
    ensures forall i :: 0 <= i < |trace| ==> 0 <= trace[i] <= 100
  {
    var progress := 0;
    var exporting := true;
    trace := [];
    while exporting
      invariant 0 <= progress <= 100 && progress % 10 == 0
      invariant exporting ==> |trace| == progress / 10
      invariant !exporting ==> |trace| == 11 && progress == 100
      invariant forall i :: 0 <= i < |trace| && i < 10 ==> trace[i] == 10 * (i + 1)
      invariant |trace| == 11 ==> trace[10] == 100
      decreases (if exporting then 1 else 0), 100 - progress
    {
      var r := ProgressTick(progress);
      progress, exporting := r.progress, r.exporting;
      trace := trace + [progress];
    }
  }
}

module EditorProperties {
  import opened Wrappers
  import opened Strings
  import opened Seqs
  import opened Timeline
  import opened Editor

  /** Adding a text appends exactly one overlay, with the defaults, exactly when the
      input holds something other than whitespace; the earlier overlays are kept. */
  lemma AddTextAppends(st: TextState, id: nat)
    ensures var r := AddText(st, id);
      |r.texts| == |st.texts| + 1 <==> exists i :: 0 <= i < |st.newContent| && !IsJsSpace(st.newContent[i])
    ensures var r := AddText(st, id);
      |r.texts| == |st.texts| + 1 ==>
        r.texts[..|st.texts|] == st.texts
        && r.texts[|st.texts|] == TextItem(id, st.newContent, 100, 200, 32, "#FFFFFF", "Arial")
        && r.selected == Some(id) && r.newContent == "" && !r.showInput
    ensures var r := AddText(st, id);
      |r.texts| != |st.texts| + 1 ==> r == st
  {
    TrimEmptyIffBlank(st.newContent);
  }

  /** Updating keeps the length and order of the list, leaves every overlay with another
      id as it was, and gives a matching one exactly the patched fields. */
  lemma UpdateTextTouchesOnlyMatches(texts: seq<TextItem>, id: nat, p: TextPatch, i: nat)
    requires i < |texts|
    ensures texts[i].id != id ==> UpdateText(texts, id, p)[i] == texts[i]
    ensures texts[i].id == id ==> UpdateText(texts, id, p)[i] == Apply(texts[i], p)
  {
  }

  /** Without a matching overlay, updating changes nothing. */
  lemma UpdateWithoutMatch(texts: seq<TextItem>, id: nat, p: TextPatch)
    requires forall i :: 0 <= i < |texts| ==> texts[i].id != id
    ensures UpdateText(texts, id, p) == texts
  {
  }

  /** Applying the same patch twice is applying it once, as long as it keeps the id. */
  lemma UpdateTextIdempotent(texts: seq<TextItem>, id: nat, p: TextPatch)
    requires p.id.None? || p.id == Some(id)
    ensures UpdateText(UpdateText(texts, id, p), id, p) == UpdateText(texts, id, p)
  {
    var once := UpdateText(texts, id, p);
    forall i | 0 <= i < |texts|
      ensures UpdateText(once, id, p)[i] == once[i]
    {
      if texts[i].id == id {
        assert once[i].id == id;
      }
    }
  }

  /** Deleting removes every overlay with the id, keeps the others in order, clears the
      selection, and leaves the input alone. */
  lemma DeleteTextRemoves(st: TextState, id: nat)
    ensures forall t :: t in DeleteText(st, id).texts <==> t in st.texts && t.id != id
    ensures |DeleteText(st, id).texts| == |st.texts| - Count(st.texts, (t: TextItem) => t.id == id)
    ensures DeleteText(st, id).selected == None
    ensures DeleteText(st, id).newContent == st.newContent
    ensures forall a, b :: st.texts == a + b ==>
      DeleteText(st, id).texts == Filter(a, (t: TextItem) => t.id != id) + Filter(b, (t: TextItem) => t.id != id)
  {
    forall a, b | st.texts == a + b
      ensures DeleteText(st, id).texts == Filter(a, (t: TextItem) => t.id != id) + Filter(b, (t: TextItem) => t.id != id)
    {
      FilterAppend(a, b, (t: TextItem) => t.id != id);
    }
    FilterMembers(st.texts, (t: TextItem) => t.id != id);
    DeletedCount(st.texts, id);
  }

  lemma {:induction false} DeletedCount(texts: seq<TextItem>, id: nat)
    ensures |Filter(texts, (t: TextItem) => t.id != id)| == |texts| - Count(texts, (t: TextItem) => t.id == id)
  {
    if |texts| > 0 {
      DeletedCount(texts[1..], id);
    }
  }

  /** Deleting twice is deleting once. */
  lemma {:induction false} DeleteTextIdempotent(texts: seq<TextItem>, id: nat)
    ensures Filter(Filter(texts, (t: TextItem) => t.id != id), (t: TextItem) => t.id != id)
         == Filter(texts, (t: TextItem) => t.id != id)
  {
    if |texts| > 0 {
      DeleteTextIdempotent(texts[1..], id);
    }
  }

  /** The tick as written, from any playhead: at or past the end it stops playback and
      returns exactly the end; before the end it adds one second and keeps playing, so the
      playhead stays below one second past the end. */
  lemma TickBound(prev: real)
    requires 0.0 <= prev
    ensures 0.0 <= Tick(prev).time < Duration + 1.0
    ensures prev >= Duration ==> Tick(prev) == TickResult(Duration, false)
    ensures prev < Duration ==> Tick(prev) == TickResult(prev + 1.0, true)
    ensures !Tick(prev).playing <==> prev >= Duration
  {
  }

  /** As written, a tick from a playhead less than a second before the end passes the
      end: after seeking to 149.5 s the next tick sets the playhead to 150.5 s of a 150 s
      video, and only the tick after that brings it back to the end and stops. */
  lemma TickOvershoots()
    ensures Seek(149.5 / 150.0) == 149.5
    ensures Tick(149.5) == TickResult(150.5, true)
    ensures Tick(149.5).time > Duration
    ensures Tick(150.5) == TickResult(Duration, false)
  {
  }

  /** With the clamp, playback from any position on the bar stays on the bar, and after
      enough ticks it stops on the end. */
  lemma {:induction false} PlayStaysInRange(start: real, n: nat)
    requires 0.0 <= start <= Duration
    ensures 0.0 <= Play(start, n).time <= Duration
    ensures !Play(start, n).playing ==> Play(start, n).time == Duration
    ensures Play(start, n).playing ==> Play(start, n).time >= start
  {
    if n > 0 {
      PlayStaysInRange(start, n - 1);
    }
  }

  /** A seek followed by clamped playback never leaves the bar. */
  lemma SeekThenPlay(fraction: real, n: nat)
    ensures 0.0 <= Play(Seek(fraction), n).time <= Duration
  {
    PlayStaysInRange(Seek(fraction), n);
  }

  /** A number below 100 rendered and padded to two characters reads back as itself. */
  lemma TwoDigits(x: nat)
    requires x < 100
    ensures |PadStart(NatToString(x), 2, '0')| == 2
    ensures AllDigits(PadStart(NatToString(x), 2, '0'))
    ensures DigitsValue(PadStart(NatToString(x), 2, '0')) == x
  {
    NatToStringRoundTrip(x);
    var s := NatToString(x);
    if x < 10 {
      assert s == [DigitChar(x)];
      var p := PadStart(s, 2, '0');
      assert p == ['0', DigitChar(x)];
      assert p[..1] == ['0'];
      assert DigitsValue(p[..1]) == 0;
    } else {
      assert |s| == 2 by {
        assert NatToString(x / 10) == [DigitChar(x / 10)];
      }
    }
  }

  /** For a non-negative time, the minutes are `floor(s / 60)` and the seconds field is
      what remains of the whole seconds, below 60. */
  lemma MinutesAndSeconds(seconds: real)
    requires seconds >= 0.0
    ensures 0 <= (seconds / 60.0).Floor
    ensures JsRem60(seconds).Floor == seconds.Floor - 60 * (seconds / 60.0).Floor
    ensures 0 <= JsRem60(seconds).Floor < 60
  {
    var m := (seconds / 60.0).Floor;
    assert JsRem60(seconds) == seconds - 60.0 * (m as real);
  }

  /** Reading an `m:ss` display back as whole seconds: minutes, a colon, then exactly
      two digits of seconds below 60. */
  function ParseClock(r: string): Option<int>
  {
    if |r| < 4 || r[|r| - 3] != ':' then None
    else
      var ms := r[..|r| - 3];
      var ss := r[|r| - 2..];
      if AllDigits(ms) && AllDigits(ss) && DigitsValue(ss) <= 59
      then Some(60 * DigitsValue(ms) + DigitsValue(ss))
      else None
  }

  /** A display built from a minutes field and a two-digit seconds field below 60 reads
      back as their value. */
  lemma ParseClockOf(r: string, ms: string, ss: string, v: int)
    requires r == ms + ":" + ss
    requires |ms| >= 1 && |ss| == 2 && AllDigits(ms) && AllDigits(ss) && DigitsValue(ss) <= 59
    requires v == 60 * DigitsValue(ms) + DigitsValue(ss)
    ensures ParseClock(r) == Some(v)
  {
    ClockSplit(ms, ss);
  }

  lemma ClockSplit(ms: string, ss: string)
    requires |ss| == 2
    ensures |ms + ":" + ss| == |ms| + 3
    ensures (ms + ":" + ss)[|ms| + 3 - 3] == ':'
    ensures (ms + ":" + ss)[..|ms|] == ms
    ensures (ms + ":" + ss)[|ms| + 3 - 2..] == ss
  {
    var r := ms + ":" + ss;
    assert r[..|ms|] == ms;
    assert r[|ms| + 1..] == ss;
  }

  /** For a non-negative time, the display reads back as the whole seconds: the whole
      minutes, a colon and two digits of seconds below 60. */
  lemma FormatTimeReadsBack(seconds: real)
    requires seconds >= 0.0
    ensures ParseClock(FormatTime(seconds)) == Some(seconds.Floor)
  {
    MinutesAndSeconds(seconds);
    var m := (seconds / 60.0).Floor;
    var secs := JsRem60(seconds).Floor;
    var ms := NatToString(m);
    var ss := PadStart(NatToString(secs), 2, '0');
    assert FormatTime(seconds) == ms + ":" + ss;
    TwoDigits(secs);
    NatToStringRoundTrip(m);
    ParseClockOf(FormatTime(seconds), ms, ss, seconds.Floor);
  }

  /** Progress values after each tick are multiples of ten up to 100, and at 100 the
      next tick ends the export. */
  lemma ProgressTickBounds(prev: int)
    requires 0 <= prev <= 100 && prev % 10 == 0
    ensures 0 <= ProgressTick(prev).progress <= 100
    ensures ProgressTick(prev).progress % 10 == 0
    ensures !ProgressTick(prev).exporting <==> prev == 100
  {
  }
}
