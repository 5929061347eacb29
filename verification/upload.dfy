/** Upload handling shared by server.js and remote-server.js: the extension allow-list
    filter multer applies, the `{timestamp}-{random}-{original}` name an upload is
    stored under, the recovery of the original name in `/api/files`, and the media type
    and default duration that listing derives from the extension. */
module Upload {
  import opened Wrappers
  import opened Strings

  // ---------------------------------------------------------------------------
  // Extensions

  const ImageExts: set<string> := {".jpeg", ".jpg", ".png", ".gif", ".webp"}
  const VideoExts: set<string> := {".mp4", ".mov", ".avi", ".mkv", ".webm"}
  const AudioExts: set<string> := {".mp3", ".wav", ".m4a", ".aac", ".ogg"}

  /** `allowedExts`, in the order the source lists them. */
  const AllowedExts: seq<string> :=
    [".jpeg", ".jpg", ".png", ".gif", ".webp", ".mp4", ".mov", ".avi", ".mkv", ".webm",
     ".mp3", ".wav", ".m4a", ".aac", ".ogg"]

  /** `s` without its trailing slashes. */
  function TrimTrailingSlashes(s: string): (r: string)
    ensures StartsWith(s, r)
    ensures |r| == 0 || r[|r| - 1] != '/'
    ensures forall i :: |r| <= i < |s| ==> s[i] == '/'
  {
    if |s| > 0 && s[|s| - 1] == '/' then TrimTrailingSlashes(s[..|s| - 1]) else s
  }

  /** The last path segment, ignoring trailing slashes. */
  function BaseName(p: string): (r: string)
    ensures '/' !in r
  {
    var t := TrimTrailingSlashes(p);
    match LastIndexOf(t, '/')
    case None => t
    case Some(i) => t[i + 1..]
  }

  /** Node's `path.extname` (POSIX): from the last dot of the last segment to its end;
      empty when the segment has no dot, when its only leading part is that dot (as in
      `.bashrc`), or when the segment is `..`. */
  function ExtName(p: string): string
  {
    var b := BaseName(p);
    match LastIndexOf(b, '.')
    case None => ""
    case Some(d) => if d == 0 || b == ".." then "" else b[d..]
  }

  /** `['.jpeg', ...].includes(ext)` for the three groups. */
  predicate IsImageExt(ext: string) { ext in ImageExts }
  predicate IsVideoExt(ext: string) { ext in VideoExts }
  predicate IsAudioExt(ext: string) { ext in AudioExts }

  // ---------------------------------------------------------------------------
  // The multer file filter

  datatype Rejection =
    | UnsupportedExtension(ext: string) // "unsupported file extension: {ext}"
    | UnsupportedType(name: string)     // "unsupported file type: {originalname}"

  datatype Verdict = Accept | Reject(why: Rejection)

  /** `fileFilter(req, file, cb)` for an original name and a MIME type (absent or empty
      counts as missing). */
  function FileFilter(originalName: string, mimeType: Option<string>): Verdict
  {
    var ext := ToLower(ExtName(originalName));
    if ext !in AllowedExts then Reject(UnsupportedExtension(ext))
    else
      var isImage := IsImageExt(ext);
      var isVideo := IsVideoExt(ext);
      var isAudio := IsAudioExt(ext);
      var mime := if mimeType.Some? then mimeType.value else "";
      if mime == ""
         || (isImage && StartsWith(mime, "image/"))
         || (isVideo && StartsWith(mime, "video/"))
         || (isAudio && StartsWith(mime, "audio/")) then Accept
      else if isImage || isVideo || isAudio then Accept
      else Reject(UnsupportedType(originalName))
  }

  // ---------------------------------------------------------------------------
  // Stored names

  /** `Date.now() + '-' + Math.round(Math.random() * 1E9) + '-' + file.originalname`. */
  function StoredName(timestamp: nat, random: nat, originalName: string): string
  {
    NatToString(timestamp) + "-" + NatToString(random) + "-" + originalName
  }

  /** `parts.length > 2 ? parts.slice(2).join('-') : filename` with `parts = filename.split('-')`. */
  function OriginalName(filename: string): string
  {
    var parts := Split(filename, '-');
    if |parts| > 2 then Join(parts[2..], '-') else filename
  }

  // ---------------------------------------------------------------------------
  // Listing

  datatype MediaType = Video | Audio | Image | Unknown

  /** The type `/api/files` reports for a stored file, tested video, audio, image in turn. */
  function ListedType(filename: string): MediaType
  {
    var ext := ToLower(ExtName(filename));
    if IsVideoExt(ext) then Video
    else if IsAudioExt(ext) then Audio
    else if IsImageExt(ext) then Image
    else Unknown
  }

  /** `type === 'image' ? 5 : 30`, the duration listed before any probe. */
  function DefaultDuration(t: MediaType): (seconds: nat)
    ensures seconds == 5 || seconds == 30
    ensures seconds == 5 <==> t == Image
  {
    if t == Image then 5 else 30
  }
}

/** What the upload rules guarantee. */
module UploadProperties {
  import opened Wrappers
  import opened Strings
  import opened Upload

  // ---------------------------------------------------------------------------
  // Extensions

  /** The allow-list is exactly the image, video and audio extensions, and those three
      groups do not overlap. */
  lemma AllowListIsGroups(ext: string)
    ensures ext in AllowedExts <==> ext in ImageExts + VideoExts + AudioExts
    ensures ext in ImageExts ==> ext !in VideoExts && ext !in AudioExts
    ensures ext in VideoExts ==> ext !in AudioExts
  {
  }

  /** An extension is empty or a dot followed by dot-free, slash-free text that ends the
      name once trailing slashes are dropped. */
  lemma ExtNameShape(p: string)
    ensures ExtName(p) == "" || (ExtName(p)[0] == '.' && '.' !in ExtName(p)[1..])
    ensures '/' !in ExtName(p)
    ensures EndsWith(TrimTrailingSlashes(p), ExtName(p))
  {
    var b := BaseName(p);
    BaseNameEnds(p);
    match LastIndexOf(b, '.')
    case None =>
      EndsWithEmpty(TrimTrailingSlashes(p));
    case Some(d) =>
      if d != 0 && b != ".." {
        TailFromDot(b, d);
        EndsWithTrans(TrimTrailingSlashes(p), b, b[d..]);
      } else {
        EndsWithEmpty(TrimTrailingSlashes(p));
      }
  }

  /** The base name ends the path once trailing slashes are dropped. */
  lemma BaseNameEnds(p: string)
    ensures EndsWith(TrimTrailingSlashes(p), BaseName(p))
  {
    var t := TrimTrailingSlashes(p);
    match LastIndexOf(t, '/')
    case None =>
    case Some(i) =>
  }

  lemma EndsWithEmpty(s: string)
    ensures EndsWith(s, "")
  {
  }

  lemma EndsWithTrans(s: string, t: string, u: string)
    requires EndsWith(s, t) && EndsWith(t, u)
    ensures EndsWith(s, u)
  {
    assert s[|s| - |u|..] == s[|s| - |t|..][|t| - |u|..];
  }

  /** The text from the last dot of a slash-free segment is a dot followed by dot-free,
      slash-free text that ends the segment. */
  lemma TailFromDot(b: string, d: nat)
    requires d < |b| && b[d] == '.' && '.' !in b[d + 1..] && '/' !in b
    ensures b[d..][0] == '.' && '.' !in b[d..][1..]
    ensures '/' !in b[d..]
    ensures EndsWith(b, b[d..])
  {
    var r := b[d..];
    assert r[1..] == b[d + 1..];
    assert forall j :: 0 <= j < |r| ==> r[j] == b[d + j];
  }

  /** The filter accepts a file exactly when its lower-cased extension is on the
      allow-list, and the MIME type the browser sent never changes the verdict. */
  lemma FilterAcceptsIffAllowed(originalName: string, mimeType: Option<string>)
    ensures FileFilter(originalName, mimeType) == Accept <==> ToLower(ExtName(originalName)) in AllowedExts
    ensures FileFilter(originalName, mimeType) == FileFilter(originalName, None)
  {
    AllowListIsGroups(ToLower(ExtName(originalName)));
  }

  /** An extension outside the allow-list is rejected with that extension; the final
      "unsupported type" rejection is never reached. */
  lemma FilterRejections(originalName: string, mimeType: Option<string>)
    ensures FileFilter(originalName, mimeType).Reject? ==>
      FileFilter(originalName, mimeType).why == UnsupportedExtension(ToLower(ExtName(originalName)))
    ensures FileFilter(originalName, mimeType) != Reject(UnsupportedType(originalName))
  {
    AllowListIsGroups(ToLower(ExtName(originalName)));
  }

  lemma ClipDots()
    ensures LastIndexOf("clip.MP4", '/') == None
    ensures LastIndexOf("clip.MP4", '.') == Some(4)
  {
  }

  lemma LowerMp4()
    ensures ToLower(".MP4") == ".mp4"
  {
    var l := ToLower(".MP4");
    assert LowerChar('.') == '.' && LowerChar('M') == 'm' && LowerChar('P') == 'p' && LowerChar('4') == '4';
    assert l[0] == '.' && l[1] == 'm' && l[2] == 'p' && l[3] == '4';
  }

  lemma ExtNameOfClip()
    ensures ToLower(ExtName("clip.MP4")) == ".mp4"
  {
    ClipDots();
    BaseNameOfPlainName("clip.MP4");
    LowerMp4();
  }

  lemma MemoDots()
    ensures LastIndexOf("memo.txt", '/') == None
    ensures LastIndexOf("memo.txt", '.') == Some(4)
  {
  }

  lemma LowerTxt()
    ensures ToLower(".txt") == ".txt"
  {
    var l := ToLower(".txt");
    assert LowerChar('.') == '.' && LowerChar('t') == 't' && LowerChar('x') == 'x';
    assert l[0] == '.' && l[1] == 't' && l[2] == 'x' && l[3] == 't';
  }

  lemma ExtNameOfMemo()
    ensures ToLower(ExtName("memo.txt")) == ".txt"
  {
    MemoDots();
    BaseNameOfPlainName("memo.txt");
    LowerTxt();
  }

  lemma TextIsNotAllowed()
    ensures ".txt" !in AllowedExts
  {
  }

  /** The case of the extension does not matter: `clip.MP4` is accepted like `clip.mp4`,
      whatever MIME type the browser reports. */
  lemma FilterIgnoresCase()
    ensures FileFilter("clip.MP4", Some("application/octet-stream")) == Accept
  {
    ExtNameOfClip();
    AllowListIsGroups(".mp4");
  }

  /** An extension outside the list is rejected even with a video MIME type. */
  lemma FilterRejectsText()
    ensures FileFilter("memo.txt", Some("video/mp4")) == Reject(UnsupportedExtension(".txt"))
  {
    ExtNameOfMemo();
    TextIsNotAllowed();
  }

  // ---------------------------------------------------------------------------
  // Stored names

  /** Splitting `a-b-tail` at dashes, with no dash in `a` or `b`, gives `a`, `b` and the
      fields of `tail`. */
  lemma SplitTwoHeads(a: string, b: string, tail: string)
    requires '-' !in a && '-' !in b
    ensures Split(a + "-" + b + "-" + tail, '-') == [a, b] + Split(tail, '-')
  {
    SplitCons(b, '-', tail);
    assert a + "-" + b + "-" + tail == a + ['-'] + (b + ['-'] + tail);
    SplitCons(a, '-', b + ['-'] + tail);
  }

  lemma DigitsHaveNoDash(timestamp: nat)
    ensures '-' !in NatToString(timestamp) && '/' !in NatToString(timestamp)
  {
    var ts := NatToString(timestamp);
    assert forall i :: 0 <= i < |ts| ==> IsDigit(ts[i]);
  }

  /** The first two dash-separated fields of a stored name are the decimal timestamp
      and random number, which read back as the numbers. */
  lemma StoredNameFields(timestamp: nat, random: nat, originalName: string)
    ensures |Split(StoredName(timestamp, random, originalName), '-')| >= 3
    ensures Split(StoredName(timestamp, random, originalName), '-')[0] == NatToString(timestamp)
    ensures Split(StoredName(timestamp, random, originalName), '-')[1] == NatToString(random)
    ensures Split(StoredName(timestamp, random, originalName), '-')[2..] == Split(originalName, '-')
    ensures DigitsValue(Split(StoredName(timestamp, random, originalName), '-')[0]) == timestamp
    ensures DigitsValue(Split(StoredName(timestamp, random, originalName), '-')[1]) == random
  {
    DigitsHaveNoDash(timestamp);
    DigitsHaveNoDash(random);
    SplitTwoHeads(NatToString(timestamp), NatToString(random), originalName);
    NatToStringRoundTrip(timestamp);
    NatToStringRoundTrip(random);
  }

  /** A name of the form `a-b-tail`, with no dash in `a` or `b`, recovers as `tail`. */
  lemma OriginalNameOfParts(a: string, b: string, tail: string)
    requires '-' !in a && '-' !in b
    ensures OriginalName(a + "-" + b + "-" + tail) == tail
  {
    SplitTwoHeads(a, b, tail);
    var parts := Split(a + "-" + b + "-" + tail, '-');
    assert parts == [a, b] + Split(tail, '-');
    assert parts[2..] == Split(tail, '-');
    JoinSplit(tail, '-');
  }

  /** Recovering the original name from a stored name gives back the original name,
      whatever dashes it contains. */
  lemma StoredNameRoundTrip(timestamp: nat, random: nat, originalName: string)
    ensures OriginalName(StoredName(timestamp, random, originalName)) == originalName
  {
    DigitsHaveNoDash(timestamp);
    DigitsHaveNoDash(random);
    OriginalNameOfParts(NatToString(timestamp), NatToString(random), originalName);
  }

  /** A name with two or more dashes is `a-b-tail` with no dash in `a` or `b`. */
  lemma SecondDash(filename: string) returns (a: string, b: string, tail: string)
    requires CountChar(filename, '-') >= 2
    ensures '-' !in a && '-' !in b && filename == a + "-" + b + "-" + tail
  {
    CountCharZero(filename, '-');
    var i := IndexOf(filename, '-');
    a := filename[..i];
    var rest := filename[i + 1..];
    CountAfterFirst(filename, '-');
    CountCharZero(rest, '-');
    var j := IndexOf(rest, '-');
    b := rest[..j];
    tail := rest[j + 1..];
    CutAt(rest, j);
    CutAt(filename, i);
    DashJoin(a, b, tail);
  }

  lemma DashJoin(a: string, b: string, tail: string)
    ensures a + "-" + b + "-" + tail == a + ['-'] + (b + ['-'] + tail)
  {
  }

  /** A name with fewer than two dashes is returned unchanged; a name with two or more is
      cut after its second dash. */
  lemma OriginalNameCases(filename: string)
    ensures CountChar(filename, '-') < 2 ==> OriginalName(filename) == filename
    ensures CountChar(filename, '-') >= 2 ==>
      exists a, b :: '-' !in a && '-' !in b && filename == a + "-" + b + "-" + OriginalName(filename)
  {
    SplitLength(filename, '-');
    if CountChar(filename, '-') >= 2 {
      var a, b, tail := SecondDash(filename);
      OriginalNameOfParts(a, b, tail);
    }
  }

  // ---------------------------------------------------------------------------
  // Listing

  /** The last position of `c` in `a + b`, when `c` occurs in `b`, is in `b`. */
  lemma {:induction false} LastIndexOfAppend(a: string, b: string, c: char)
    requires c in b
    ensures LastIndexOf(a + b, c) == Some(|a| + LastIndexOf(b, c).value)
  {
    var s := a + b;
    if b[|b| - 1] != c {
      var b' := b[..|b| - 1];
      assert b == b' + [b[|b| - 1]];
      assert c in b';
      assert s[..|s| - 1] == a + b';
      LastIndexOfAppend(a, b', c);
    }
  }

  /** A slash-free name is its own base name. */
  lemma BaseNameOfPlainName(p: string)
    requires '/' !in p
    ensures BaseName(p) == p
  {
    if |p| > 0 {
      assert p[|p| - 1] != '/';
    }
  }

  /** A stored name has no slash when the original name has none. */
  lemma StoredNameHasNoSlash(timestamp: nat, random: nat, originalName: string)
    requires '/' !in originalName
    ensures '/' !in StoredName(timestamp, random, originalName)
  {
    DigitsHaveNoDash(timestamp);
    DigitsHaveNoDash(random);
    var ts := NatToString(timestamp);
    var rn := NatToString(random);
    assert StoredName(timestamp, random, originalName) == ts + "-" + rn + "-" + originalName;
  }

  /** Prefixing a slash-free name with text that does not start with a dot keeps its
      extension. */
  lemma ExtNameOfPrefixed(prefix: string, name: string)
    requires '/' !in prefix + name
    requires |prefix| > 0 && prefix[0] != '.'
    requires ExtName(name) != ""
    ensures ExtName(prefix + name) == ExtName(name)
  {
    hide ExtName;
    var s := prefix + name;
    assert '/' !in name by {
      assert forall i :: 0 <= i < |name| ==> name[i] == s[|prefix| + i];
    }
    ExtNameOfPlainName(name);
    var d := LastIndexOf(name, '.').value;
    LastIndexOfAppend(prefix, name, '.');
    assert s[0] != '.';
    ExtNameAtDot(s, |prefix| + d);
    assert s[|prefix| + d..] == name[d..];
  }

  /** A slash-free name with an extension has it from its last dot, which is not its
      first character. */
  lemma ExtNameOfPlainName(b: string)
    requires '/' !in b && ExtName(b) != ""
    ensures LastIndexOf(b, '.').Some? && LastIndexOf(b, '.').value > 0
    ensures ExtName(b) == b[LastIndexOf(b, '.').value..]
  {
    BaseNameOfPlainName(b);
  }

  /** The extension of a slash-free name whose last dot is past its first character. */
  lemma ExtNameAtDot(b: string, d: nat)
    requires '/' !in b && LastIndexOf(b, '.') == Some(d) && d > 0 && b[0] != '.'
    ensures ExtName(b) == b[d..]
  {
    BaseNameOfPlainName(b);
  }

  /** Prefixing a slash-free name with the stored-name fields keeps its extension. */
  lemma StoredNameKeepsExt(timestamp: nat, random: nat, originalName: string)
    requires '/' !in originalName && ExtName(originalName) != ""
    ensures ExtName(StoredName(timestamp, random, originalName)) == ExtName(originalName)
  {
    var prefix := NatToString(timestamp) + "-" + NatToString(random) + "-";
    assert StoredName(timestamp, random, originalName) == prefix + originalName;
    StoredNameHasNoSlash(timestamp, random, originalName);
    assert prefix[0] == NatToString(timestamp)[0];
    ExtNameOfPrefixed(prefix, originalName);
  }

  /** An accepted upload is listed with the type of its extension group, never as
      unknown, and with a default of 5 seconds exactly when it is an image. */
  lemma AcceptedUploadIsListed(timestamp: nat, random: nat, originalName: string, mimeType: Option<string>)
    ensures '/' !in originalName && FileFilter(originalName, mimeType) == Accept ==>
      && ListedType(StoredName(timestamp, random, originalName)) != Unknown
      && (ListedType(StoredName(timestamp, random, originalName)) == Image
          <==> ToLower(ExtName(originalName)) in ImageExts)
      && (DefaultDuration(ListedType(StoredName(timestamp, random, originalName))) == 5
          <==> ToLower(ExtName(originalName)) in ImageExts)
  {
    if '/' !in originalName && FileFilter(originalName, mimeType) == Accept {
      FilterAcceptsIffAllowed(originalName, mimeType);
      AllowListIsGroups(ToLower(ExtName(originalName)));
      assert ExtName(originalName) != "";
      StoredNameKeepsExt(timestamp, random, originalName);
    }
  }

  /** The listed type is the group the lower-cased extension belongs to, and unknown
      exactly when the extension is off the allow-list. */
  lemma ListedTypeIsGroup(filename: string)
    ensures ListedType(filename) == Video <==> ToLower(ExtName(filename)) in VideoExts
    ensures ListedType(filename) == Audio <==> ToLower(ExtName(filename)) in AudioExts
    ensures ListedType(filename) == Image <==> ToLower(ExtName(filename)) in ImageExts
    ensures ListedType(filename) == Unknown <==> ToLower(ExtName(filename)) !in AllowedExts
  {
    AllowListIsGroups(ToLower(ExtName(filename)));
  }
}
