/** The `.crop WxH` command: validates the request, crops the replied image or
    video around its centre (the image through PIL, the video through ffmpeg),
    sends the result and removes the files it created. */
module Crop {
  import opened Wrappers
  import opened PyText
  import opened PyPath
  import opened TempFiles
  import opened Media

  const TempDir := "temp_crop/"

  // ================================================================ the argument

  /** The length of the longest prefix of ASCII digits. */
  function LeadingDigits(s: string): (n: nat)
    ensures n <= |s| && AllDigits(s[..n])
    ensures n == |s| || !IsDigit(s[n])
  {
    if s == "" || !IsDigit(s[0]) then 0
    else
      var n := 1 + LeadingDigits(s[1..]);
      assert s[..n] == [s[0]] + s[1..][..n - 1];
      n
  }

  predicate IsCropSeparator(c: char) {
    c == 'x' || c == ':'
  }

  /** `re.match(r"(\d+)[x:](\d+)", s)` followed by `int()` of the two groups: the
      match must start at the beginning, and whatever follows the second group is
      ignored. Both groups are greedy, so each takes every digit it can. */
  function ParseCropArg(s: string): (r: Option<(nat, nat)>)
    ensures s == "" || !IsDigit(s[0]) ==> r == None
  {
    var i := LeadingDigits(s);
    if i == 0 || i == |s| || !IsCropSeparator(s[i]) then None
    else
      var rest := s[i + 1..];
      var j := LeadingDigits(rest);
      if j == 0 then None
      else Some((DigitsValue(s[..i]), DigitsValue(rest[..j])))
  }

  /** The regular expression matches `s` with a first group of `i` digits and a
      second group of `j` digits, each as long as it can be. */
  ghost predicate MatchesAt(s: string, i: int, j: int) {
    && 0 < i < |s| && AllDigits(s[..i]) && IsCropSeparator(s[i])
    && 0 < j && i + 1 + j <= |s| && AllDigits(s[i + 1..i + 1 + j])
    && (i + 1 + j == |s| || !IsDigit(s[i + 1 + j]))
  }

  /** The parse succeeds exactly when the expression matches, and then yields
      the values of the two groups. */
  lemma ParseCropArgMeaning(s: string)
    ensures ParseCropArg(s).Some? <==> exists i, j :: MatchesAt(s, i, j)
    ensures forall i, j :: MatchesAt(s, i, j) ==>
      ParseCropArg(s) == Some((DigitsValue(s[..i]), DigitsValue(s[i + 1..i + 1 + j])))
  {
    var i := LeadingDigits(s);
    if ParseCropArg(s).Some? {
      var rest := s[i + 1..];
      var j := LeadingDigits(rest);
      assert rest[..j] == s[i + 1..i + 1 + j];
      assert j == |rest| || rest[j] == s[i + 1 + j];
      assert MatchesAt(s, i, j);
    }
    forall i', j' | MatchesAt(s, i', j')
      ensures ParseCropArg(s) == Some((DigitsValue(s[..i']), DigitsValue(s[i' + 1..i' + 1 + j'])))
    {
      DigitRunIsLeading(s, i');
      var rest := s[i' + 1..];
      assert rest[..j'] == s[i' + 1..i' + 1 + j'];
      DigitRunIsLeading(rest, j');
    }
  }

  /** A run of `n` digits followed by a non-digit or the end is the leading run. */
  lemma DigitRunIsLeading(s: string, n: nat)
    requires n <= |s| && AllDigits(s[..n]) && (n == |s| || !IsDigit(s[n]))
    ensures LeadingDigits(s) == n
  {
    var m := LeadingDigits(s);
    forall k | 0 <= k < n ensures IsDigit(s[k]) {
      assert s[..n][k] == s[k];
    }
    forall k | 0 <= k < m ensures IsDigit(s[k]) {
      assert s[..m][k] == s[k];
    }
  }

  /** What the user types parses back: digits, `x` or `:`, digits, then
      anything that does not start with a digit. Zero sizes are accepted. */
  lemma ParseCropArgOf(w: nat, h: nat, sep: char, tail: string)
    requires IsCropSeparator(sep)
    requires tail == "" || !IsDigit(tail[0])
    ensures ParseCropArg(NatToString(w) + [sep] + NatToString(h) + tail) == Some((w, h))
  {
    ParseCropArgOfDigits(NatToString(w), sep, NatToString(h), tail);
    DigitsValueOfNatToString(w);
    DigitsValueOfNatToString(h);
  }

  /** The same for any two non-empty digit strings. */
  lemma ParseCropArgOfDigits(a: string, sep: char, b: string, tail: string)
    requires a != "" && b != "" && AllDigits(a) && AllDigits(b) && IsCropSeparator(sep)
    requires tail == "" || !IsDigit(tail[0])
    ensures ParseCropArg(a + [sep] + b + tail) == Some((DigitsValue(a), DigitsValue(b)))
  {
    var after := [sep] + (b + tail);
    var s := a + after;
    RegroupFour(a, [sep], b, tail);
    LeadingRun(a, after);
    AfterSeparator(a, sep, b + tail);
    LeadingRun(b, tail);
    ParseCropArgAt(s, |a|, |b|);
  }

  /** The parse, once the two digit runs are known. */
  lemma ParseCropArgAt(s: string, i: nat, j: nat)
    requires 0 < i < |s| && LeadingDigits(s) == i && IsCropSeparator(s[i])
    requires 0 < j && LeadingDigits(s[i + 1..]) == j
    ensures ParseCropArg(s) == Some((DigitsValue(s[..i]), DigitsValue(s[i + 1..][..j])))
  {
  }

  lemma RegroupFour(p: string, q: string, r: string, t: string)
    ensures p + q + r + t == p + (q + (r + t))
  {
  }

  lemma AfterSeparator(a: string, sep: char, r: string)
    ensures (a + ([sep] + r))[|a|] == sep && (a + ([sep] + r))[|a| + 1..] == r
  {
  }

  /** Digits followed by a text that does not start with a digit: the leading
      run is exactly those digits. */
  lemma LeadingRun(a: string, t: string)
    requires AllDigits(a)
    requires t == "" || !IsDigit(t[0])
    ensures LeadingDigits(a + t) == |a| && (a + t)[..|a|] == a
  {
    var s := a + t;
    assert s[..|a|] == a;
    assert |a| == |s| || s[|a|] == t[0];
    DigitRunIsLeading(s, |a|);
  }

  lemma ParseCropArgExample()
    ensures ParseCropArg("1280x720") == Some((1280, 720))
  {
    Numeral1280And720();
    ParseCropArgOf(1280, 720, 'x', "");
    assert "1280" + ['x'] + "720" + "" == "1280x720";
  }

  lemma Numeral1280And720()
    ensures NatToString(1280) == "1280" && NatToString(720) == "720"
  {
    assert NatToString(12) == "12";
    assert NatToString(128) == "128";
    assert NatToString(72) == "72";
  }

  /** A zero size parses; it is rejected only later, by the size check. */
  lemma ParseCropArgZeros()
    ensures ParseCropArg("0:0") == Some((0, 0))
  {
    ParseCropArgOf(0, 0, ':', "");
    assert NatToString(0) + [':'] + NatToString(0) + "" == "0:0";
  }

  /** The match is anchored at the start: a leading space defeats it. */
  lemma ParseCropArgLeadingSpace()
    ensures ParseCropArg(" 1280x720") == None
  {
  }

  // ================================================================ validation

  /** `replied_msg.animation or` a document whose MIME type is `image/gif`. */
  predicate IsAnimation(att: Attachment) {
    att.Animation? || (att.Document? && att.mimeType == Some("image/gif"))
  }

  /** A photo, a video, or a document whose MIME type starts with `image/` or `video/`. */
  predicate IsMedia(att: Attachment) {
    att.Photo? || att.Video?
    || (att.Document? && att.mimeType.Some?
        && (StartsWith(att.mimeType.value, "image/") || StartsWith(att.mimeType.value, "video/")))
  }

  /** The image branch: a photo, or a document whose MIME type starts with `image/`. */
  predicate IsImage(att: Attachment) {
    att.Photo? || (att.Document? && att.mimeType.Some? && StartsWith(att.mimeType.value, "image/"))
  }

  const GifReply := "GIFs are not supported by this tool."
  const NotMediaReply := "Please reply to an image or video to crop it."
  const UsageReply := "<b>Usage:</b> .crop [width]x[height]"
  const BadFormatReply := "Invalid format. Use `.crop [width]x[height]`."

  datatype Verdict =
    | Rejected(reply: string)                          // an early `return await message.reply(...)`
    | Accepted(width: nat, height: nat, image: bool)   // go on to download and crop
    | Unhandled                                        // `mime_type.startswith` on a document without one raises

  /** The checks `crop_handler` makes before downloading anything, in order:
      GIFs, then non-media, then a missing argument, then a malformed one. */
  function Validate(att: Attachment, input: string): (v: Verdict)
    ensures v.Accepted? ==> IsMedia(att) && !IsAnimation(att) && ParseCropArg(input) == Some((v.width, v.height))
    ensures v.Accepted? ==> v.image == IsImage(att)
  {
    if att.Document? && att.mimeType.None? then Unhandled
    else if IsAnimation(att) then Rejected(GifReply)
    else if !IsMedia(att) then Rejected(NotMediaReply)
    else if input == "" then Rejected(UsageReply)
    else match ParseCropArg(input)
      case None => Rejected(BadFormatReply)
      case Some((w, h)) => Accepted(w, h, IsImage(att))
  }

  /** Each outcome of the chain, stated by the conditions that lead to it: a GIF
      is refused whatever the argument, each later check applies only once the
      earlier ones passed, and a request is accepted only when all pass. */
  lemma ValidationOrder(att: Attachment, input: string)
    ensures Validate(att, input) == Unhandled <==> att.Document? && att.mimeType.None?
    ensures IsAnimation(att) ==> Validate(att, input) == Rejected(GifReply)
    ensures Validate(att, input) == Rejected(NotMediaReply) <==>
      !(att.Document? && att.mimeType.None?) && !IsAnimation(att) && !IsMedia(att)
    ensures Validate(att, input) == Rejected(UsageReply) <==>
      IsMedia(att) && !IsAnimation(att) && input == ""
    ensures Validate(att, input) == Rejected(BadFormatReply) <==>
      IsMedia(att) && !IsAnimation(att) && input != "" && ParseCropArg(input).None?
    ensures Validate(att, input).Accepted? <==>
      IsMedia(att) && !IsAnimation(att) && ParseCropArg(input).Some?
  {
    assert GifReply != NotMediaReply && GifReply != UsageReply && GifReply != BadFormatReply;
    assert NotMediaReply != UsageReply && NotMediaReply != BadFormatReply;
    assert UsageReply != BadFormatReply;
    if input == "" {
      assert ParseCropArg(input) == None;
    }
  }

  /** Accepted non-images are videos: a video message or a `video/` document. */
  lemma VideoBranch(att: Attachment, input: string)
    requires Validate(att, input).Accepted? && !Validate(att, input).image
    ensures att.Video? || (att.Document? && StartsWith(att.mimeType.value, "video/"))
  {
  }

  // ================================================================ geometry

  /** The box handed to `img.crop`: left, top, right and bottom edges. Python's
      `/` is true division, so the edges fall on half pixels when a margin is odd. */
  datatype CropBox = CropBox(left: real, top: real, right: real, bottom: real)

  function SizeMessage(w: nat, h: nat): string {
    "Crop dimensions (" + NatToString(w) + "x" + NatToString(h) + ") cannot be larger than the original image."
  }

  /** `sync_crop_image`'s check and arithmetic for an image of `ow` by `oh`
      pixels: an error when the requested size exceeds it in either direction,
      else a box of exactly the requested size centred in the image. */
  function CropRect(ow: nat, oh: nat, w: nat, h: nat): (r: Result<CropBox, string>)
    ensures r.Err? <==> w > ow || h > oh
    ensures r.Err? ==> r.error == SizeMessage(w, h)
    ensures r.Ok? ==> var b := r.value;
      && b.right - b.left == w as real && b.bottom - b.top == h as real
      && 0.0 <= b.left && b.right <= ow as real
      && 0.0 <= b.top && b.bottom <= oh as real
      && b.left == ow as real - b.right && b.top == oh as real - b.bottom
  {
    if w > ow || h > oh then Err(SizeMessage(w, h))
    else
      var left := (ow - w) as real / 2.0;
      var top := (oh - h) as real / 2.0;
      Ok(CropBox(left, top, left + w as real, top + h as real))
  }

  /** The box's centre is the image's centre, on both axes. */
  lemma CropRectCentred(ow: nat, oh: nat, w: nat, h: nat)
    requires w <= ow && h <= oh
    ensures var b := CropRect(ow, oh, w, h).value;
      (b.left + b.right) / 2.0 == ow as real / 2.0 && (b.top + b.bottom) / 2.0 == oh as real / 2.0
  {
  }

  /** An odd margin puts the edges on half pixels; no rounding happens here. */
  lemma CropRectHalfPixel()
    ensures CropRect(101, 50, 100, 50) == Ok(CropBox(0.5, 0.0, 100.5, 50.0))
  {
  }

  // ================================================================ output naming

  /** `f"{base}_cropped{ext}"` with `base, ext` the `splitext` of the input's base name. */
  function CroppedName(input: string): (name: string)
    ensures '/' !in name
    ensures |name| == |Basename(input)| + 8
  {
    var parts := SplitExt(Basename(input));
    InfixKeepsSlashFree(parts.0, "_cropped", parts.1);
    parts.0 + "_cropped" + parts.1
  }

  /** Putting a text without `/` into the middle of one without `/` adds none. */
  lemma InfixKeepsSlashFree(a: string, mid: string, b: string)
    requires '/' !in a + b && '/' !in mid
    ensures '/' !in a + mid + b
  {
    assert forall c :: c in a ==> c in a + b;
    assert forall c :: c in b ==> c in a + b;
  }

  /** `os.path.join(TEMP_DIR, ...)` of the cropped name. Both transforms use this path. */
  function OutputPath(input: string): string {
    Join(TempDir, CroppedName(input))
  }

  /** Joining under a directory that ends in `/` is concatenation, unless the
      name is absolute. */
  lemma JoinUnderDirectory(dir: string, name: string)
    requires dir != "" && dir[|dir| - 1] == '/' && '/' !in name
    ensures Join(dir, name) == dir + name
  {
    if name != "" {
      assert name[0] != '/';
    }
  }

  /** The output path is the temporary directory followed by the input's base
      name with `_cropped` put before its extension. */
  lemma OutputPathShape(input: string)
    ensures OutputPath(input) == TempDir + SplitExt(Basename(input)).0 + "_cropped" + SplitExt(Basename(input)).1
    ensures SplitExt(Basename(input)).0 + SplitExt(Basename(input)).1 == Basename(input)
  {
    JoinUnderDirectory(TempDir, CroppedName(input));
    var parts := SplitExt(Basename(input));
    RegroupFour(TempDir, parts.0, "_cropped", parts.1);
    RegroupThree(parts.0, "_cropped", parts.1);
  }

  lemma RegroupThree(p: string, q: string, r: string)
    ensures p + q + r == p + (q + r)
  {
  }

  /** The output's base name is the cropped name, eight characters longer than
      the input's, so the cropped file never overwrites the original. */
  lemma OutputPathDiffers(input: string)
    ensures Basename(OutputPath(input)) == CroppedName(input)
    ensures OutputPath(input) != input
  {
    JoinUnderDirectory(TempDir, CroppedName(input));
    BasenameAfterSlash(TempDir, CroppedName(input));
    assert |Basename(OutputPath(input))| == |Basename(input)| + 8;
  }

  /** The base name of a directory ending in `/` joined with a plain name is that name. */
  lemma BasenameAfterSlash(dir: string, name: string)
    requires dir != "" && dir[|dir| - 1] == '/' && '/' !in name
    ensures Basename(dir + name) == name
  {
    var p := dir + name;
    assert p[|dir| - 1] == '/';
    assert forall j :: |dir| <= j < |p| ==> p[j] == name[j - |dir|];
    assert RFind(p, '/') == |dir| - 1;
    assert p[|dir|..] == name;
  }

  // ================================================================ the transforms

  /** What a transform did to the media: nothing, `img.crop` with a box, or a
      shell command. */
  datatype Work = Untouched | Cut(box: CropBox) | Shell(command: string)

  /** A transform's result, whether it left a file at the output path, and the
      work it did. */
  datatype Transform = Transform(result: Fallible<string>, wrote: bool, work: Work)

  /** What `os.path.basename(None)` raises: both transforms start with it, so a
      download that returned no path (the empty path here) fails before PIL or
      ffmpeg is reached. */
  const NoPathMessage := "expected str, bytes or os.PathLike object, not NoneType"

  /** `sync_crop_image`: `sizeOf` is the image size `Image.open` reports (or
      what it raised), `saved` what `save` did. Nothing is saved unless the
      requested size fits. */
  function CropImage(input: string, w: nat, h: nat, sizeOf: Fallible<(nat, nat)>, saved: Fallible<()>): (t: Transform)
    ensures input == "" ==> t == Transform(Raised(NoPathMessage), false, Untouched)
    ensures t.wrote <==> t.result.Done?
    ensures t.result.Done? ==> t.result.value == OutputPath(input)
    ensures input != "" && sizeOf.Done? && (w > sizeOf.value.0 || h > sizeOf.value.1) ==>
      t == Transform(Raised(SizeMessage(w, h)), false, Untouched)
    ensures t.work.Cut? <==> input != "" && sizeOf.Done? && w <= sizeOf.value.0 && h <= sizeOf.value.1
    ensures t.work.Cut? ==> CropRect(sizeOf.value.0, sizeOf.value.1, w, h) == Ok(t.work.box)
    ensures t.result.Done? ==>
      t.work.Cut? && t.work.box.right - t.work.box.left == w as real && t.work.box.bottom - t.work.box.top == h as real
  {
    if input == "" then Transform(Raised(NoPathMessage), false, Untouched)
    else match sizeOf
    case Raised(m) => Transform(Raised(m), false, Untouched)
    case Done((ow, oh)) =>
      match CropRect(ow, oh, w, h)
      case Err(m) => Transform(Raised(m), false, Untouched)
      case Ok(box) =>
        if saved.Raised? then Transform(Raised(saved.message), false, Cut(box))
        else Transform(Done(OutputPath(input)), true, Cut(box))
  }

  /** The ffmpeg filter: crop to `w:h` with the offsets that centre the window. */
  function CropFilter(w: nat, h: nat): string {
    "crop=" + CropSize(w, h) + CentreOffsets(w, h)
  }

  function CropSize(w: nat, h: nat): string {
    NatToString(w) + ":" + NatToString(h)
  }

  function CentreOffsets(w: nat, h: nat): string {
    ":(in_w-" + NatToString(w) + ")/2:(in_h-" + NatToString(h) + ")/2"
  }

  /** After `crop=` the filter begins with the same `W:H` syntax the command
      argument accepts. */
  lemma CropFilterReadsBack(w: nat, h: nat)
    ensures StartsWith(CropFilter(w, h), "crop=")
    ensures ParseCropArg(CropFilter(w, h)[5..]) == Some((w, h))
  {
    var size, tail := CropSize(w, h), CentreOffsets(w, h);
    DropPrefix("crop=", size, tail);
    assert ParseCropArg(size + tail) == Some((w, h)) by {
      assert tail[0] == ':';
      ParseCropArgOf(w, h, ':', tail);
    }
  }

  lemma DropPrefix(p: string, x: string, y: string)
    ensures (p + x + y)[..|p|] == p && (p + x + y)[|p|..] == x + y
  {
  }

  /** The shell command `sync_crop_video` runs. */
  function FfmpegCommand(input: string, w: nat, h: nat): string {
    "ffmpeg -i \"" + input + "\" -vf \"" + CropFilter(w, h) + "\" -c:a copy -y \"" + OutputPath(input) + "\""
  }

  /** The command reads the input path, applies the crop filter, whose size reads
      back as the requested one, and writes the output path, quoted last. */
  lemma FfmpegCommandCrops(input: string, w: nat, h: nat)
    ensures var c, filter, out := FfmpegCommand(input, w, h), CropFilter(w, h), OutputPath(input);
      && |c| == |input| + |filter| + |out| + 35
      && c[11..11 + |input|] == input
      && c[|input| + 18..|input| + 18 + |filter|] == filter
      && ParseCropArg(c[|input| + 23..]) == Some((w, h))
      && c[|c| - |out| - 1..|c| - 1] == out
  {
    var c, filter, out := FfmpegCommand(input, w, h), CropFilter(w, h), OutputPath(input);
    var lead, mid, last, quote := "ffmpeg -i \"", "\" -vf \"", "\" -c:a copy -y \"", "\"";
    SevenParts(lead, input, mid, filter, last, out, quote);
    var tail := last + out + quote;
    Middle(lead, input, mid + filter + tail);
    Middle(lead + input + mid, filter, tail);
    Middle(lead + input + mid + filter + last, out, quote);
    SplitFilter(w, h, tail);
    ParseCropArgOf(w, h, ':', CentreOffsets(w, h) + tail);
  }

  lemma SevenParts(a: string, b: string, c: string, d: string, e: string, f: string, g: string)
    ensures a + b + c + d + e + f + g == a + b + c + d + (e + f + g)
    ensures a + b + c + d + e + f + g == a + b + (c + d + (e + f + g))
  {
  }

  /** The middle of three strings, cut back out of their concatenation. */
  lemma Middle(x: string, y: string, z: string)
    ensures |x + y + z| == |x| + |y| + |z|
    ensures (x + y + z)[|x|..|x| + |y|] == y && (x + y + z)[|x|..] == y + z
  {
  }

  /** After `crop=`, the filter and what follows it read as `W:H` and a tail
      that starts with ':'. */
  lemma SplitFilter(w: nat, h: nat, tail: string)
    ensures (CropFilter(w, h) + tail)[5..] == NatToString(w) + [':'] + NatToString(h) + (CentreOffsets(w, h) + tail)
    ensures (CentreOffsets(w, h) + tail)[0] == ':'
  {
    var size, offsets := CropSize(w, h), CentreOffsets(w, h);
    DropPrefix("crop=", size, offsets + tail);
    assert CropFilter(w, h) + tail == "crop=" + size + (offsets + tail);
  }

  /** `sync_crop_video`: `run` is what the shell captured for FfmpegCommand (or
      what spawning it raised), `wroteOutput` whether ffmpeg left a file at the
      output path, which it may do even when it fails. */
  function CropVideo(input: string, w: nat, h: nat, run: Fallible<ProcessResult>, wroteOutput: bool): (t: Transform)
    ensures input == "" ==> t == Transform(Raised(NoPathMessage), false, Untouched)
    ensures t.result.Done? <==> input != "" && run.Done? && run.value.exitCode == 0
    ensures t.result.Done? ==> t.result.value == OutputPath(input)
    ensures input != "" && run.Done? && run.value.exitCode != 0 ==>
      t.result == Raised("FFmpeg crop failed: " + Strip(run.value.stderr))
    ensures t.wrote <==> input != "" && run.Done? && wroteOutput
    ensures input != "" ==> t.work == Shell(FfmpegCommand(input, w, h))
  {
    if input == "" then Transform(Raised(NoPathMessage), false, Untouched)
    else RunCrop(input, w, h, run, wroteOutput)
  }

  /** The rest of `sync_crop_video` once the output path is known: run the
      command and check its exit code. */
  function RunCrop(input: string, w: nat, h: nat, run: Fallible<ProcessResult>, wroteOutput: bool): (t: Transform)
    ensures t.result.Done? <==> run.Done? && run.value.exitCode == 0
    ensures t.result.Done? ==> t.result.value == OutputPath(input)
    ensures run.Done? && run.value.exitCode != 0 ==>
      t.result == Raised("FFmpeg crop failed: " + Strip(run.value.stderr))
    ensures t.wrote <==> run.Done? && wroteOutput
    ensures t.work == Shell(FfmpegCommand(input, w, h))
  {
    var command := Shell(FfmpegCommand(input, w, h));
    match run
    case Raised(m) => Transform(Raised(m), false, command)
    case Done(raw) =>
      var out := RunCommand(raw);
      if out.exitCode != 0 then Transform(Raised("FFmpeg crop failed: " + out.stderr), wroteOutput, command)
      else Transform(Done(OutputPath(input)), wroteOutput, command)
  }

  // ================================================================ the handler

  /** The text the progress message shows when the crop fails. */
  function CropErrorText(message: string): (t: string)
    ensures StartsWith(t, CropErrorPrefix) && |t| >= |CropErrorPrefix| + 7
    ensures Unescape(t[|CropErrorPrefix|..|t| - 7]) == message
  {
    var t := CropErrorPrefix + Escape(message) + "</code>";
    assert t[|CropErrorPrefix|..|t| - 7] == Escape(message);
    UnescapeEscape(message);
    t
  }

  const CropErrorPrefix := "<b>Error:</b> Could not crop media.\n<code>"

  /** "Cropped to: `WxH`", with the parsed integers. */
  function Caption(w: nat, h: nat): string {
    "Cropped to: `" + (NatToString(w) + "x" + NatToString(h) + "`")
  }

  /** The caption's size reads back as the one the crop used. */
  lemma CaptionReadsBack(w: nat, h: nat)
    ensures StartsWith(Caption(w, h), "Cropped to: `")
    ensures ParseCropArg(Caption(w, h)[13..]) == Some((w, h))
  {
    var size := NatToString(w) + "x" + NatToString(h) + "`";
    ParseCropArgOf(w, h, 'x', "`");
    ReadsBackAfter("Cropped to: `", size, (w, h));
  }

  lemma ReadsBackAfter(p: string, x: string, size: (nat, nat))
    requires ParseCropArg(x) == Some(size)
    ensures StartsWith(p + x, p) && ParseCropArg((p + x)[|p|..]) == Some(size)
  {
    assert (p + x)[|p|..] == x;
  }

  /** Everything the handler gets from outside the model. */
  datatype CropEnv = CropEnv(
    download: Fallible<string>,          // bot.download_media(media_object)
    imageSize: Fallible<(nat, nat)>,     // Image.open(...).size
    imageSave: Fallible<()>,             // cropped_img.save(output_path)
    ffmpeg: Fallible<ProcessResult>,     // ffmpeg's captured output
    ffmpegWroteOutput: bool,             // whether ffmpeg left a file at the output path
    delivery: Fallible<()>)              // sending the result and deleting the messages

  datatype CropOutcome =
    | Replied(text: string)                                 // a validation reply
    | Raises                                                // an exception escapes the handler
    | Sent(path: string, caption: string, asPhoto: bool)    // send_photo / send_video
    | Failed(text: string)                                  // the progress message shows the error

  /** The transform the accepted request runs on the downloaded file. */
  function TransformOf(v: Verdict, path: string, env: CropEnv): Transform
    requires v.Accepted?
  {
    if v.image then CropImage(path, v.width, v.height, env.imageSize, env.imageSave)
    else CropVideo(path, v.width, v.height, env.ffmpeg, env.ffmpegWroteOutput)
  }

  /** The handler's reply, once validation has given its verdict. */
  function OutcomeOf(v: Verdict, env: CropEnv): CropOutcome {
    if v.Unhandled? then Raises
    else if v.Rejected? then Replied(v.reply)
    else match env.download
      case Raised(m) => Failed(CropErrorText(m))
      case Done(path) => AfterTransform(v, TransformOf(v, path, env), env.delivery)
  }

  /** The reply once the transform has run: its error, the delivery's error, or
      the cropped file sent with its caption. */
  function AfterTransform(v: Verdict, t: Transform, delivery: Fallible<()>): CropOutcome
    requires v.Accepted?
  {
    match t.result
    case Raised(m) => Failed(CropErrorText(m))
    case Done(out) =>
      if delivery.Raised? then Failed(CropErrorText(delivery.message))
      else Sent(out, Caption(v.width, v.height), v.image)
  }

  /** The `temp_files` list: the download right after it, then the cropped file
      once the transform has returned it. */
  function RegisteredOf(v: Verdict, env: CropEnv): seq<string> {
    if !v.Accepted? || env.download.Raised? then []
    else
      var path := env.download.value;
      RegisteredAfter(path, TransformOf(v, path, env))
  }

  function RegisteredAfter(path: string, t: Transform): seq<string> {
    [path] + (if t.result.Done? then [t.result.value] else [])
  }

  /** The files a request creates: the download (unless the library returned
      no path) and, when the transform left one, the output file. */
  function Created(path: string, wroteOutput: bool): set<string> {
    (if path != "" then {path} else {}) + (if wroteOutput then {OutputPath(path)} else {})
  }

  /** The files the request brings into existence before its cleanup. */
  function WrittenOf(v: Verdict, env: CropEnv): set<string> {
    if !v.Accepted? || env.download.Raised? then {}
    else Created(env.download.value, TransformOf(v, env.download.value, env).wrote)
  }

  /** `crop_handler`: validates, then downloads and registers, transforms,
      registers the result, sends it, and in `finally` removes what it
      registered. Returns the reply, the filesystem afterwards and the
      `temp_files` list. */
  method CropHandler(fs: set<string>, att: Attachment, input: string, env: CropEnv)
    returns (outcome: CropOutcome, fs': set<string>, registered: seq<string>)
    ensures outcome == OutcomeOf(Validate(att, input), env)
    ensures registered == RegisteredOf(Validate(att, input), env)
    ensures fs' == Drain(fs + WrittenOf(Validate(att, input), env), registered)
    ensures forall p :: p in registered && p != "" ==> p !in fs'
    ensures forall p :: p !in registered ==> (p in fs' <==> p in fs + WrittenOf(Validate(att, input), env))
  {
    var v := Validate(att, input);
    outcome, fs', registered := HandleVerdict(fs, v, env);
    CleanupOutcome(fs + WrittenOf(v, env), registered);
  }

  /** The rest of `crop_handler` once validation has given its verdict. */
  method HandleVerdict(fs: set<string>, v: Verdict, env: CropEnv)
    returns (outcome: CropOutcome, fs': set<string>, registered: seq<string>)
    ensures outcome == OutcomeOf(v, env)
    ensures registered == RegisteredOf(v, env)
    ensures fs' == Drain(fs + WrittenOf(v, env), registered)
  {
    if v.Unhandled? {
      return Raises, fs, [];
    }
    if v.Rejected? {
      return Replied(v.reply), fs, [];
    }
    var temp := new TempFileSet(fs);
    outcome := Attempt(temp, v, env);
    temp.Cleanup();
    outcome, fs', registered := outcome, temp.existing, temp.registered;
  }

  /** The `try` block of an accepted request, up to the `finally`. */
  method Attempt(temp: TempFileSet, v: Verdict, env: CropEnv) returns (outcome: CropOutcome)
    requires v.Accepted? && temp.registered == []
    modifies temp
    ensures temp.existing == old(temp.existing) + WrittenOf(v, env)
    ensures temp.registered == RegisteredOf(v, env)
    ensures outcome == OutcomeOf(v, env)
  {
    match env.download {
      case Raised(m) =>
        outcome := Failed(CropErrorText(m));
      case Done(path) =>
        var t := TransformOf(v, path, env);
        outcome := Proceed(temp, path, OutputPath(path), t, v, env.delivery);
        CreatedInSteps(old(temp.existing), path, t.wrote);
    }
  }

  lemma CreatedInSteps(fs: set<string>, path: string, wrote: bool)
    ensures fs + Created(path, wrote)
         == fs + (if path != "" then {path} else {}) + (if wrote then {OutputPath(path)} else {})
  {
  }

  /** The body of the `try` block after the download returned `path`: register
      it, run the transform (whose effect is `t`), register its result and send
      it. The outcome of the transform is a parameter, so that this step depends
      only on what the transform did and not on how. */
  method Proceed(temp: TempFileSet, path: string, output: string, t: Transform, v: Verdict, delivery: Fallible<()>)
    returns (outcome: CropOutcome)
    requires v.Accepted?
    modifies temp
    ensures temp.existing == old(temp.existing) + (if path != "" then {path} else {}) + (if t.wrote then {output} else {})
    ensures temp.registered == old(temp.registered) + RegisteredAfter(path, t)
    ensures outcome == AfterTransform(v, t, delivery)
  {
    if path != "" {
      temp.Write(path);
    }
    temp.Register(path);
    if t.wrote {
      temp.Write(output);
    }
    if t.result.Raised? {
      outcome := Failed(CropErrorText(t.result.message));
    } else {
      temp.Register(t.result.value);
      if delivery.Raised? {
        outcome := Failed(CropErrorText(delivery.message));
      } else {
        outcome := Sent(t.result.value, Caption(v.width, v.height), v.image);
      }
    }
  }

  // ================================================================ consequences

  /** A request refused by validation downloads, writes and removes nothing. */
  lemma NothingBeforeValidation(v: Verdict, env: CropEnv)
    requires !v.Accepted?
    ensures RegisteredOf(v, env) == [] && WrittenOf(v, env) == {}
    ensures OutcomeOf(v, env).Replied? || OutcomeOf(v, env).Raises?
  {
  }

  /** The downloaded file is registered first, whatever happens after, and the
      cropped file is registered exactly when the transform returned it. */
  lemma RegistrationOrder(v: Verdict, env: CropEnv)
    requires v.Accepted? && env.download.Done?
    ensures var reg := RegisteredOf(v, env);
      && |reg| >= 1 && reg[0] == env.download.value
      && (|reg| == 2 <==> TransformOf(v, env.download.value, env).result.Done?)
      && (|reg| == 2 ==> reg[1] == OutputPath(env.download.value))
  {
  }

  /** When ffmpeg fails, only the download is registered, so whatever file ffmpeg
      left at the output path is still there after the cleanup. */
  lemma FailedVideoLeavesOutput(fs: set<string>, v: Verdict, env: CropEnv)
    requires v.Accepted? && !v.image
    requires env.download.Done? && env.download.value != ""
    requires env.ffmpeg.Done? && env.ffmpeg.value.exitCode != 0 && env.ffmpegWroteOutput
    ensures RegisteredOf(v, env) == [env.download.value]
    ensures OutputPath(env.download.value) in Drain(fs + WrittenOf(v, env), RegisteredOf(v, env))
  {
    var path := env.download.value;
    var t := TransformOf(v, path, env);
    assert t == RunCrop(path, v.width, v.height, env.ffmpeg, true);
    assert t.result.Raised? && t.wrote;
    assert RegisteredOf(v, env) == RegisteredAfter(path, t) == [path];
    assert WrittenOf(v, env) == Created(path, true);
    OutputPathDiffers(path);
    CleanupOutcome(fs + WrittenOf(v, env), [path]);
  }

  /** A successful crop removes both the download and the cropped file, and
      leaves every other path as it was. */
  lemma SuccessCleansUp(fs: set<string>, v: Verdict, env: CropEnv)
    requires v.Accepted? && env.download.Done? && env.download.value != ""
    requires TransformOf(v, env.download.value, env).result.Done?
    ensures var after := Drain(fs + WrittenOf(v, env), RegisteredOf(v, env));
      && env.download.value !in after && OutputPath(env.download.value) !in after
      && forall p :: p != env.download.value && p != OutputPath(env.download.value) ==> (p in after <==> p in fs)
  {
    var path := env.download.value;
    var t := TransformOf(v, path, env);
    TransformOutput(v, path, env);
    SuccessfulTransformCleansUp(fs, path, t);
  }

  /** Whatever the branch, a transform that returns a path returns the output path. */
  lemma TransformOutput(v: Verdict, path: string, env: CropEnv)
    requires v.Accepted?
    ensures TransformOf(v, path, env).result.Done? ==> TransformOf(v, path, env).result.value == OutputPath(path)
  {
  }

  /** A video is cropped by the ffmpeg command for the requested size; an image
      that was cropped was cut to a box of exactly that size. */
  lemma TransformWork(v: Verdict, path: string, env: CropEnv)
    requires v.Accepted?
    ensures path == "" ==> TransformOf(v, path, env) == Transform(Raised(NoPathMessage), false, Untouched)
    ensures !v.image && path != "" ==> TransformOf(v, path, env).work == Shell(FfmpegCommand(path, v.width, v.height))
    ensures v.image && TransformOf(v, path, env).result.Done? ==>
      var b := TransformOf(v, path, env).work.box;
      TransformOf(v, path, env).work.Cut? && b.right - b.left == v.width as real && b.bottom - b.top == v.height as real
  {
  }

  /** The same for any transform that returned the output path. */
  lemma SuccessfulTransformCleansUp(fs: set<string>, path: string, t: Transform)
    requires path != "" && t.result == Done(OutputPath(path))
    ensures var after := Drain(fs + Created(path, t.wrote), RegisteredAfter(path, t));
      && path !in after && OutputPath(path) !in after
      && forall p :: p != path && p != OutputPath(path) ==> (p in after <==> p in fs)
  {
    assert RegisteredAfter(path, t) == [path, OutputPath(path)];
    OutputPathShape(path);
    assert OutputPath(path) != "";
    DrainBoth(fs, Created(path, t.wrote), path, OutputPath(path));
  }

  /** Registering two non-empty paths removes both, whichever of them were
      written, and nothing else. */
  lemma DrainBoth(fs: set<string>, written: set<string>, a: string, b: string)
    requires a != "" && b != ""
    requires forall p :: p in written ==> p == a || p == b
    ensures var after := Drain(fs + written, [a, b]);
      && a !in after && b !in after
      && forall p :: p != a && p != b ==> (p in after <==> p in fs)
  {
    CleanupOutcome(fs + written, [a, b]);
  }
}
