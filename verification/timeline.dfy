/** The timeline data the editor hands to both compilers: clips, text overlays and
    effects, and the "sort by start time, then split into visual and audio" step that
    both compilers begin with. */
module Timeline {
  import opened Wrappers
  import opened Seqs

  /** The `type` field of a clip. */
  datatype ClipKind = VideoClip | ImageClip | AudioClip | TextClip | EffectClip

  /** A browser `File`; only its name matters to the compiler. */
  datatype MediaFile = MediaFile(name: string)

  /** A clip on the timeline. `file` is the browser-side source (client compiler),
      `path` the uploaded file's server path such as `/uploads/x.mp4` (server compiler),
      `textId` the overlay a text clip shows. */
  datatype Clip = Clip(
    id: nat,
    kind: ClipKind,
    startTime: real,
    endTime: real,
    file: Option<MediaFile>,
    path: Option<string>,
    textId: Option<nat>)

  /** A text overlay; a field that is 0 or "" counts as absent where the source uses `||`. */
  datatype TextItem = TextItem(
    id: nat,
    content: string,
    x: int,
    y: int,
    fontSize: int,
    color: string,
    fontFamily: string)

  datatype EffectKind = Zoom | Fade | Blur | Sparkle

  /** A visual effect with its own time window and an intensity percentage. */
  datatype Effect = Effect(id: nat, kind: EffectKind, startTime: real, endTime: real, intensity: int)

  predicate IsVisual(c: Clip) { c.kind == VideoClip || c.kind == ImageClip }

  predicate IsAudio(c: Clip) { c.kind == AudioClip }

  predicate HasFile(c: Clip) { c.file.Some? }

  /** An id names one clip: clips of `cs` with the same id are the same clip. */
  predicate IdsIdentify(cs: seq<Clip>)
  {
    forall x, y | x in cs && y in cs :: x.id == y.id ==> x == y
  }

  // ---------------------------------------------------------------------------
  // Sorting by start time

  predicate SortedByStart(cs: seq<Clip>)
  {
    forall i, j :: 0 <= i < j < |cs| ==> cs[i].startTime <= cs[j].startTime
  }

  /** Inserts `c` in front of the first clip that does not start earlier, so that clips
      with equal start times keep their relative order. */
  function InsertByStart(c: Clip, cs: seq<Clip>): (r: seq<Clip>)
    requires SortedByStart(cs)
    ensures SortedByStart(r)
    ensures multiset(r) == multiset(cs) + multiset{c}
  {
    if |cs| == 0 || c.startTime <= cs[0].startTime then [c] + cs
    else
      var rest := InsertByStart(c, cs[1..]);
      assert cs == [cs[0]] + cs[1..];
      HeadBelowRest(c, cs, rest);
      [cs[0]] + rest
  }

  /** The head of a sorted list stays in front of the rest once a later-starting clip is
      inserted into the rest. */
  lemma HeadBelowRest(c: Clip, cs: seq<Clip>, rest: seq<Clip>)
    requires SortedByStart(cs) && |cs| > 0 && cs[0].startTime < c.startTime
    requires multiset(rest) == multiset(cs[1..]) + multiset{c}
    requires SortedByStart(rest)
    ensures SortedByStart([cs[0]] + rest)
  {
    forall i | 0 <= i < |rest| ensures cs[0].startTime <= rest[i].startTime {
      assert rest[i] in multiset(rest);
      if rest[i] != c {
        assert rest[i] in cs[1..];
        var j :| 0 <= j < |cs[1..]| && cs[1..][j] == rest[i];
        assert cs[j + 1] == rest[i];
      }
    }
    var s := [cs[0]] + rest;
    forall i, j | 0 <= i < j < |s| ensures s[i].startTime <= s[j].startTime {
      assert s[j] == rest[j - 1];
      if i > 0 {
        assert s[i] == rest[i - 1];
      }
    }
  }

  /** `[...clips].sort((a, b) => a.startTime - b.startTime)`: a stable sort by start time. */
  function SortByStart(cs: seq<Clip>): (r: seq<Clip>)
    ensures SortedByStart(r)
    ensures multiset(r) == multiset(cs)
  {
    if |cs| == 0 then []
    else
      assert cs == [cs[0]] + cs[1..];
      InsertByStart(cs[0], SortByStart(cs[1..]))
  }

  function StartsAt(k: real): Clip -> bool
  {
    (c: Clip) => c.startTime == k
  }

  lemma {:induction false} InsertKeepsTies(c: Clip, cs: seq<Clip>, k: real)
    requires SortedByStart(cs)
    ensures Filter(InsertByStart(c, cs), StartsAt(k))
         == if c.startTime == k then [c] + Filter(cs, StartsAt(k)) else Filter(cs, StartsAt(k))
  {
    if |cs| == 0 || c.startTime <= cs[0].startTime {
      assert ([c] + cs)[1..] == cs;
    } else {
      InsertKeepsTies(c, cs[1..], k);
      assert ([cs[0]] + InsertByStart(c, cs[1..]))[1..] == InsertByStart(c, cs[1..]);
    }
  }

  /** Stability: the clips starting at any one time come out in their input order. */
  lemma {:induction false} SortIsStable(cs: seq<Clip>, k: real)
    ensures Filter(SortByStart(cs), StartsAt(k)) == Filter(cs, StartsAt(k))
  {
    if |cs| > 0 {
      SortIsStable(cs[1..], k);
      InsertKeepsTies(cs[0], SortByStart(cs[1..]), k);
    }
  }

  // ---------------------------------------------------------------------------
  // Partitions

  /** `sorted.filter(c => c.type === 'video' || c.type === 'image')`. */
  function VisualClips(cs: seq<Clip>): seq<Clip>
  {
    Filter(cs, IsVisual)
  }

  /** `sorted.filter(c => c.type === 'audio')`. */
  function AudioClips(cs: seq<Clip>): seq<Clip>
  {
    Filter(cs, IsAudio)
  }

  lemma {:induction false} FilterKeepsSorted(cs: seq<Clip>, p: Clip -> bool)
    requires SortedByStart(cs)
    ensures SortedByStart(Filter(cs, p))
  {
    if |cs| > 0 {
      FilterKeepsSorted(cs[1..], p);
      FilterMembers(cs[1..], p);
    }
  }

  lemma {:induction false} FilterInsert(c: Clip, cs: seq<Clip>, p: Clip -> bool)
    requires SortedByStart(cs)
    ensures multiset(Filter(InsertByStart(c, cs), p))
         == multiset(Filter(cs, p)) + (if p(c) then multiset{c} else multiset{})
  {
    if |cs| == 0 || c.startTime <= cs[0].startTime {
      assert ([c] + cs)[1..] == cs;
    } else {
      FilterInsert(c, cs[1..], p);
      assert ([cs[0]] + InsertByStart(c, cs[1..]))[1..] == InsertByStart(c, cs[1..]);
    }
  }

  lemma {:induction false} FilterSortPermutes(cs: seq<Clip>, p: Clip -> bool)
    ensures multiset(Filter(SortByStart(cs), p)) == multiset(Filter(cs, p))
  {
    if |cs| > 0 {
      FilterSortPermutes(cs[1..], p);
      FilterInsert(cs[0], SortByStart(cs[1..]), p);
    }
  }

  /** Each partition of the sorted clips is sorted by start time, holds exactly the
      clips of that group, and keeps clips with equal start times in their input order. */
  lemma PartitionsOfSorted(cs: seq<Clip>, k: real)
    ensures SortedByStart(VisualClips(SortByStart(cs)))
    ensures SortedByStart(AudioClips(SortByStart(cs)))
    ensures multiset(VisualClips(SortByStart(cs))) == multiset(VisualClips(cs))
    ensures multiset(AudioClips(SortByStart(cs))) == multiset(AudioClips(cs))
    ensures Filter(VisualClips(SortByStart(cs)), StartsAt(k)) == Filter(VisualClips(cs), StartsAt(k))
    ensures Filter(AudioClips(SortByStart(cs)), StartsAt(k)) == Filter(AudioClips(cs), StartsAt(k))
  {
    FilterKeepsSorted(SortByStart(cs), IsVisual);
    FilterKeepsSorted(SortByStart(cs), IsAudio);
    FilterSortPermutes(cs, IsVisual);
    FilterSortPermutes(cs, IsAudio);
    SortIsStable(cs, k);
    FilterCommutes(SortByStart(cs), IsVisual, StartsAt(k));
    FilterCommutes(cs, IsVisual, StartsAt(k));
    FilterCommutes(SortByStart(cs), IsAudio, StartsAt(k));
    FilterCommutes(cs, IsAudio, StartsAt(k));
  }

  lemma {:induction false} FilterCommutes(cs: seq<Clip>, p: Clip -> bool, q: Clip -> bool)
    ensures Filter(Filter(cs, p), q) == Filter(Filter(cs, q), p)
  {
    if |cs| > 0 {
      FilterCommutes(cs[1..], p, q);
    }
  }

  /** No clip of either partition is a text clip. */
  lemma PartitionsHoldNoText(cs: seq<Clip>)
    ensures forall c :: c in VisualClips(cs) + AudioClips(cs) ==> c.kind != TextClip
  {
  }

  /** Both partitions of the sorted clips hold only clips of the original list. */
  lemma PartitionMembers(cs: seq<Clip>)
    ensures forall c :: c in VisualClips(SortByStart(cs)) + AudioClips(SortByStart(cs)) ==> c in cs
  {
    PartitionsOfSorted(cs, 0.0);
    FilterMembers(cs, IsVisual);
    FilterMembers(cs, IsAudio);
    forall c | c in VisualClips(SortByStart(cs)) + AudioClips(SortByStart(cs)) ensures c in cs {
      if c in VisualClips(SortByStart(cs)) {
        assert c in multiset(VisualClips(cs));
      } else {
        assert c in multiset(AudioClips(cs));
      }
    }
  }

  lemma PartitionsIdentify(cs: seq<Clip>)
    requires IdsIdentify(cs)
    ensures IdsIdentify(VisualClips(SortByStart(cs)) + AudioClips(SortByStart(cs)))
  {
    PartitionMembers(cs);
  }
}
