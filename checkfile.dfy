/** The `.checkfile` command: given the replied attachment's metadata, the
    ffprobe result and the EXIF tags, it builds an ordered list of report lines,
    then removes the downloaded file. */
module CheckFile {
  import opened Wrappers
  import opened PyText
  import opened PyPath
  import opened TempFiles
  import opened Media

  // ================================================================ format_bytes

  const SizeNames: seq<string> := ["B", "KB", "MB", "GB", "TB"]

  function Pow(b: nat, e: nat): (r: nat)
    ensures b > 0 ==> r > 0
  {
    if e == 0 then 1 else b * Pow(b, e - 1)
  }

  lemma {:induction false} PowMonotone(i: nat, j: nat)
    requires i <= j
    ensures Pow(1024, i) <= Pow(1024, j)
  {
    if i < j {
      PowMonotone(i, j - 1);
    }
  }

  /** `floor(log(size, 1024))` taken exactly: the largest `i` with `1024^i <= size`. */
  function UnitIndex(size: nat): (i: nat)
    requires size >= 1
    ensures Pow(1024, i) <= size < Pow(1024, i + 1)
  {
    if size < 1024 then 0
    else
      var i := 1 + UnitIndex(size / 1024);
      assert 1024 * (size / 1024) <= size < 1024 * (size / 1024) + 1024;
      i
  }

  /** The bounds in UnitIndex's contract single out its result. */
  lemma UnitIndexUnique(size: nat, i: nat)
    requires size >= 1 && Pow(1024, i) <= size < Pow(1024, i + 1)
    ensures i == UnitIndex(size)
  {
    var u := UnitIndex(size);
    if i < u {
      PowMonotone(i + 1, u);
    } else if u < i {
      PowMonotone(u + 1, i);
    }
  }

  /** `repr(x)` of the float `round(x, 2)` for `1 <= x <= 1024`, given as a count of
      hundredths: the whole part, a dot, and the two decimals without trailing zeros,
      keeping at least one. */
  function HundredthsText(n: nat): string {
    var whole, frac := n / 100, n % 100;
    NatToString(whole) + "." + (if frac % 10 == 0 then [DigitChar(frac / 10)]
                                else [DigitChar(frac / 10), DigitChar(frac % 10)])
  }

  /** `round(size / 1024**i, 2)` in hundredths. The quotient is exact in binary,
      so Python rounds it half to even like this. */
  function ScaledHundredths(size: nat, i: nat): nat
    requires size >= 1
  {
    RoundHalfEvenAtLeast(size * 100, Pow(1024, i), 0);
    RoundHalfEven(size * 100, Pow(1024, i))
  }

  datatype SizeFailure =
    | NegativeSize        // math.log raises ValueError
    | UnitOutOfRange      // size_name[i] raises IndexError

  /** `format_bytes(size)`. */
  function FormatBytes(size: int): (r: Result<string, SizeFailure>)
    ensures size == 0 ==> r == Ok("0 B")
    ensures r == Err(NegativeSize) <==> size < 0
    ensures r == Err(UnitOutOfRange) <==> size >= Pow(1024, 5)
  {
    if size == 0 then Ok("0 B")
    else if size < 0 then Err(NegativeSize)
    else
      var i := UnitIndex(size);
      if i >= |SizeNames| then
        PowMonotone(5, i);
        Err(UnitOutOfRange)
      else
        PowMonotone(i + 1, 5);
        Ok(HundredthsText(ScaledHundredths(size, i)) + " " + SizeNames[i])
  }

  /** A positive size below 1024^5 is shown in the unit `i` with 1024^i <= size <
      1024^(i+1), as a value between 1.0 and 1024.0. */
  lemma FormatBytesUnit(size: nat, i: nat)
    requires size >= 1 && i < 5
    requires Pow(1024, i) <= size < Pow(1024, i + 1)
    ensures FormatBytes(size) == Ok(HundredthsText(ScaledHundredths(size, i)) + " " + SizeNames[i])
    ensures 100 <= ScaledHundredths(size, i) <= 102400
  {
    UnitIndexUnique(size, i);
    var p := Pow(1024, i);
    assert Pow(1024, i + 1) == 1024 * p;
    RoundHalfEvenAtLeast(size * 100, p, 100);
    RoundHalfEvenAtMost(size * 100, p, 102400);
  }

  lemma FormatBytesExamples()
    ensures FormatBytes(0) == Ok("0 B")
    ensures FormatBytes(1) == Ok("1.0 B")
    ensures FormatBytes(1024) == Ok("1.0 KB")
    ensures FormatBytes(1536) == Ok("1.5 KB")
  {
    FormatBytesUnit(1, 0);
    FormatBytesUnit(1024, 1);
    FormatBytesUnit(1536, 1);
    RoundHalfEvenUnique(100, 1, 100);
    RoundHalfEvenUnique(102400, 1024, 100);
    RoundHalfEvenUnique(153600, 1024, 150);
    assert HundredthsText(100) == "1.0";
    assert HundredthsText(150) == "1.5";
    assert "1.0" + " " + "B" == "1.0 B";
    assert "1.0" + " " + "KB" == "1.0 KB";
    assert "1.5" + " " + "KB" == "1.5 KB";
  }

  // ================================================================ name and extension

  /** The displayed name: the attachment's `file_name`, else the downloaded
      file's base name, else "N/A". */
  function DisplayName(fileName: Option<string>, downloadPath: string): (r: string)
    ensures r != ""
    ensures fileName.Some? && fileName.value != "" ==> r == fileName.value
    ensures (fileName.None? || fileName.value == "") && Basename(downloadPath) != "" ==> r == Basename(downloadPath)
    ensures (fileName.None? || fileName.value == "") && Basename(downloadPath) == "" ==> r == "N/A"
  {
    var name := if fileName.Some? then fileName.value else "";
    var name := if name == "" && downloadPath != "" then Basename(downloadPath) else name;
    if name == "" then "N/A" else name
  }

  /** The displayed extension: "N/A" without a dot, else the upper-cased
      `splitext` suffix without its dot. */
  function Extension(name: string): string {
    if '.' !in name then "N/A"
    else
      var ext := SplitExt(name).1;
      if ext == "" then "" else Upper(ext[1..])
  }

  /** The three cases of the extension, by where (if anywhere) an extension starts. */
  lemma ExtensionCases(name: string)
    ensures '.' !in name ==> Extension(name) == "N/A"
    ensures forall i :: ExtensionAt(name, i) ==> Extension(name) == Upper(name[i + 1..])
    ensures '.' in name && (forall i :: !ExtensionAt(name, i)) ==> Extension(name) == ""
  {
    SplitExtFindsExtension(name);
    forall i | ExtensionAt(name, i) ensures Extension(name) == Upper(name[i + 1..]) {
      assert name[i..][1..] == name[i + 1..];
    }
  }

  lemma ExtensionWithoutDot()
    ensures Extension("README") == "N/A"
  {
    var p := "README";
    forall i | 0 <= i < |p| ensures p[i] != '.' {
      assert i == 0 || i == 1 || i == 2 || i == 3 || i == 4 || i == 5;
    }
  }

  /** A leading dot does not start an extension. */
  lemma ExtensionOfDotfile()
    ensures Extension(".bashrc") == ""
  {
    assert ".bashrc"[0] == '.';
    ExtensionCases(".bashrc");
    forall i ensures !ExtensionAt(".bashrc", i) {
      if 0 < i < 7 {
        assert ".bashrc"[i] != '.';
      }
    }
  }

  /** Only the last dot counts. */
  lemma ExtensionAfterLastDot()
    ensures Extension("clip.final.mp4") == "MP4"
  {
    var p := "clip.final.mp4";
    assert ExtensionAt(p, 10) by {
      assert p[10] == '.' && p[0] != '.';
      forall j | 10 < j < |p| ensures p[j] != '.' && p[j] != '/' {
        assert j == 11 || j == 12 || j == 13;
      }
      forall j | 0 <= j < 10 ensures p[j] != '/' {
        assert j == 0 || j == 1 || j == 2 || j == 3 || j == 4 || j == 5 || j == 6 || j == 7 || j == 8 || j == 9;
      }
    }
    assert Upper(p[11..]) == "MP4" by {
      assert p[11..] == "mp4";
    }
    ExtensionCases(p);
  }

  // ================================================================ probe data

  /** `format.duration` as ffprobe writes it (a string), with the value `float()`
      gives it. `seconds` is None where the report cannot show it: where
      `float()` raises, and also for "inf" and "nan", which `float()` accepts
      but `int()` of the result then rejects. */
  datatype DurationField = DurationField(raw: string, seconds: Option<real>)

  /** The `format` object; a missing or null `tags` is the empty map. */
  datatype Format = Format(duration: Option<DurationField>, tags: map<string, string>)

  /** One entry of `streams`; each field is None when the key is absent. */
  datatype Stream = Stream(
    codecType: Option<string>,
    width: Option<int>,
    height: Option<int>,
    codecName: Option<string>,
    codecLongName: Option<string>,
    avgFrameRate: Option<string>,
    bitRate: Option<string>,
    sampleRate: Option<string>,
    channels: Option<int>,
    channelLayout: Option<string>)

  /** The parsed ffprobe report: the `format` and `streams` keys, and whether the
      object holds any other key. */
  datatype ProbeData = ProbeData(format: Option<Format>, streams: Option<seq<Stream>>, otherKeys: bool)

  /** `if probe_data:` — a dict is truthy when it has a key. */
  predicate NonEmpty(p: ProbeData) {
    p.format.Some? || p.streams.Some? || p.otherKeys
  }

  function FormatOf(p: ProbeData): Format {
    if p.format.Some? then p.format.value else Format(None, map[])
  }

  function StreamsOf(p: ProbeData): seq<Stream> {
    if p.streams.Some? then p.streams.value else []
  }

  /** `get_probe_data`: the parsed report only when the command could be run,
      exited with 0 and printed something other than whitespace, and the output
      parsed (`parsed` is what `json.loads` gives, None where it raises). */
  function GetProbeData(run: Fallible<ProcessResult>, parsed: Option<ProbeData>): (r: Option<ProbeData>)
    ensures r.Some? <==> run.Done? && run.value.exitCode == 0 && !IsBlank(run.value.stdout) && parsed.Some?
    ensures r.Some? ==> r == parsed
  {
    match run
    case Raised(_) => None
    case Done(raw) =>
      var out := RunCommand(raw);
      if out.exitCode == 0 && out.stdout != "" then parsed else None
  }

  // ================================================================ report lines

  datatype Section = FileInformation | TechnicalDetails | FormatContainer | MediaStream | AudioStream | ExifData

  /** The sub-fields a technical subsection can show, each under its own label. */
  datatype FieldName = Duration | CreationTime | Encoder | Resolution | Codec | Framerate | Bitrate | SampleRate | Channels

  function Label(n: FieldName): string {
    match n
    case Duration => "Duration"
    case CreationTime => "Creation Time"
    case Encoder => "Encoder/Software"
    case Resolution => "Resolution"
    case Codec => "Codec"
    case Framerate => "Framerate"
    case Bitrate => "Bitrate"
    case SampleRate => "Sample Rate"
    case Channels => "Channels"
  }

  /** One element of `info_lines`: a heading, a line of the File Information or
      EXIF part, or a sub-field "    - <label>: <value>" of a technical
      subsection. A framerate with a non-zero denominator is kept as its two
      integers: its text is the repr of the float `round(num / den, 2)`, which
      is not modelled. */
  datatype Line =
    | Heading(section: Section)
    | Entry(text: string)
    | Field(name: FieldName, value: string)
    | Fps(num: int, den: int)

  function HeadingText(s: Section): string {
    match s
    case FileInformation => "<b>File Information:</b>"
    case TechnicalDetails => "\n<b>Technical Details:</b>"
    case FormatContainer => "<b>  Format / Container:</b>"
    case MediaStream => "<b>  Media Stream:</b>"
    case AudioStream => "<b>  Audio Stream:</b>"
    case ExifData => "\n<b>EXIF Data (from Image):</b>"
  }

  /** The text of a line, where the model knows it. */
  function Render(l: Line): Option<string> {
    match l
    case Heading(s) => Some(HeadingText(s))
    case Entry(t) => Some(t)
    case Field(n, v) => Some("    - " + Label(n) + ": " + v)
    case Fps(_, _) => None
  }

  /** The text of a heading names its section: no two sections share one. */
  lemma HeadingTextNamesSection(a: Section, b: Section)
    requires Render(Heading(a)) == Render(Heading(b))
    ensures a == b
  {
    var ta, tb := HeadingText(a), HeadingText(b);
    assert |ta| == |tb| && forall i :: 0 <= i < |ta| ==> ta[i] == tb[i];
  }

  /** The sub-field a line shows, if it is one. */
  function Shows(l: Line): Option<FieldName> {
    match l
    case Field(n, _) => Some(n)
    case Fps(_, _) => Some(Framerate)
    case _ => None
  }

  predicate HasField(ls: seq<Line>, n: FieldName) {
    exists l :: l in ls && Shows(l) == Some(n)
  }

  lemma HasFieldConcat(a: seq<Line>, b: seq<Line>)
    ensures forall n :: HasField(a + b, n) <==> HasField(a, n) || HasField(b, n)
  {
    forall n ensures HasField(a + b, n) <==> HasField(a, n) || HasField(b, n) {
      if HasField(a, n) {
        var l :| l in a && Shows(l) == Some(n);
        assert l in a + b;
      }
      if HasField(b, n) {
        var l :| l in b && Shows(l) == Some(n);
        assert l in a + b;
      }
    }
  }

  lemma HasFieldSingle(l: Line)
    ensures forall n :: HasField([l], n) <==> Shows(l) == Some(n)
  {
    forall n | Shows(l) == Some(n) ensures HasField([l], n) {
      assert l in [l];
    }
  }

  predicate NoHeadings(ls: seq<Line>) {
    forall i :: 0 <= i < |ls| ==> !ls[i].Heading?
  }

  lemma NoHeadingsConcat(a: seq<Line>, b: seq<Line>)
    requires NoHeadings(a) && NoHeadings(b)
    ensures NoHeadings(a + b)
  {
  }

  /** A heading followed by field lines makes a subsection. */
  lemma MakesSubsection(s: Section, fields: seq<Line>)
    requires NoHeadings(fields)
    ensures Subsection([Heading(s)] + fields, s)
  {
    assert ([Heading(s)] + fields)[1..] == fields;
  }

  /** A subsection: its heading followed by field lines only. */
  predicate Subsection(ls: seq<Line>, s: Section) {
    ls != [] && ls[0] == Heading(s) && NoHeadings(ls[1..])
  }

  /** Where a sub-field stands in its subsection. Format / Container lists
      Duration, Creation Time, Encoder; Media Stream lists Resolution, Codec,
      Framerate, Bitrate; Audio Stream lists Codec, Sample Rate, Channels,
      Bitrate. One order fits all three. */
  function FieldRank(n: FieldName): nat {
    match n
    case Duration => 0
    case CreationTime => 1
    case Encoder => 2
    case Resolution => 3
    case Codec => 4
    case Framerate => 5
    case SampleRate => 6
    case Channels => 7
    case Bitrate => 8
  }

  function LineRank(l: Line): int {
    match Shows(l)
    case Some(n) => FieldRank(n)
    case None => -1
  }

  /** Every line shows a sub-field, and the fields come in `FieldRank` order,
      so that none appears twice. */
  predicate FieldsInOrder(ls: seq<Line>) {
    && (forall i :: 0 <= i < |ls| ==> Shows(ls[i]).Some?)
    && (forall i, j :: 0 <= i < j < |ls| ==> LineRank(ls[i]) < LineRank(ls[j]))
  }

  /** Every line's rank lies in [lo, hi). */
  predicate RanksIn(ls: seq<Line>, lo: int, hi: int) {
    forall i :: 0 <= i < |ls| ==> lo <= LineRank(ls[i]) < hi
  }

  /** At most one line, and that one shows field `n`. */
  predicate OnlyField(ls: seq<Line>, n: FieldName) {
    |ls| <= 1 && forall i :: 0 <= i < |ls| ==> Shows(ls[i]) == Some(n)
  }

  lemma OnlyFieldRanked(ls: seq<Line>, n: FieldName)
    requires OnlyField(ls, n)
    ensures FieldsInOrder(ls) && RanksIn(ls, FieldRank(n), FieldRank(n) + 1)
  {
  }

  /** Two ordered runs whose ranks do not overlap make an ordered run. */
  lemma InOrderConcat(a: seq<Line>, b: seq<Line>, lo: int, mid: int, hi: int)
    requires lo <= mid <= hi
    requires FieldsInOrder(a) && RanksIn(a, lo, mid)
    requires FieldsInOrder(b) && RanksIn(b, mid, hi)
    ensures FieldsInOrder(a + b) && RanksIn(a + b, lo, hi)
  {
    var ab := a + b;
    forall i | 0 <= i < |ab| ensures Shows(ab[i]).Some? && lo <= LineRank(ab[i]) < hi {
      if i >= |a| {
        assert ab[i] == b[i - |a|];
      }
    }
    forall i, j | 0 <= i < j < |ab| ensures LineRank(ab[i]) < LineRank(ab[j]) {
      if j < |a| {
      } else if i < |a| {
        assert ab[j] == b[j - |a|];
      } else {
        assert ab[i] == b[i - |a|] && ab[j] == b[j - |a|];
      }
    }
  }

  /** Four single-field runs in rank order make an ordered run. */
  lemma FourInOrder(a: seq<Line>, b: seq<Line>, c: seq<Line>, d: seq<Line>,
                    na: FieldName, nb: FieldName, nc: FieldName, nd: FieldName)
    requires OnlyField(a, na) && OnlyField(b, nb) && OnlyField(c, nc) && OnlyField(d, nd)
    requires FieldRank(na) < FieldRank(nb) < FieldRank(nc) < FieldRank(nd)
    ensures FieldsInOrder(a + b + c + d)
  {
    OnlyFieldRanked(a, na);
    OnlyFieldRanked(b, nb);
    OnlyFieldRanked(c, nc);
    OnlyFieldRanked(d, nd);
    InOrderConcat(a, b, FieldRank(na), FieldRank(nb), FieldRank(nb) + 1);
    InOrderConcat(a + b, c, FieldRank(na), FieldRank(nc), FieldRank(nc) + 1);
    InOrderConcat(a + b + c, d, FieldRank(na), FieldRank(nd), FieldRank(nd) + 1);
  }

  function Code(s: string): string {
    "<code>" + s + "</code>"
  }

  /** What an f-string shows for an optional string: Python prints None as "None". */
  function Shown(o: Option<string>): string {
    if o.Some? then o.value else "None"
  }

  predicate Truthy(o: Option<string>) {
    o.Some? && o.value != ""
  }

  predicate TruthyInt(o: Option<int>) {
    o.Some? && o.value != 0
  }

  datatype CheckError =
    | BadSize(reason: SizeFailure)       // format_bytes raised
    | BadDuration(raw: string)           // float(duration), or int() of it, raised
    | BadBitRate(raw: string)            // int(bit_rate) raised
    | CollaboratorFailed(message: string)  // download or delivery raised

  // ---------------------------------------------------------------- File Information

  /** The name is HTML-escaped; extension and MIME type are shown as they are. */
  function NameLine(name: string): Line {
    Entry("<b>  - Name:</b> " + Code(Escape(name)))
  }

  function ExtensionLine(name: string): Line {
    Entry("<b>  - Extension:</b> " + Code(Extension(name)))
  }

  function MimeLine(mimeType: Option<string>): Line {
    Entry("<b>  - MIME Type:</b> " + Code(if mimeType.Some? then mimeType.value else "N/A"))
  }

  function SizeLine(size: string): Line {
    Entry("<b>  - Size:</b> " + Code(size))
  }

  function FileInfoLines(media: MediaFacts, downloadPath: string): (r: Result<seq<Line>, CheckError>)
    ensures r.Err? <==> FormatBytes(media.fileSize).Err?
    ensures r.Ok? ==> |r.value| == 5 && Subsection(r.value, FileInformation)
    ensures r.Ok? ==> r.value[1] == NameLine(DisplayName(media.fileName, downloadPath))
    ensures r.Ok? ==> r.value[2] == ExtensionLine(DisplayName(media.fileName, downloadPath))
    ensures r.Ok? ==> r.value[3] == MimeLine(media.mimeType)
    ensures r.Ok? ==> FormatBytes(media.fileSize).Ok? && r.value[4] == SizeLine(FormatBytes(media.fileSize).value)
  {
    var name := DisplayName(media.fileName, downloadPath);
    match FormatBytes(media.fileSize)
    case Err(e) => Err(BadSize(e))
    case Ok(size) =>
      var fields := FileInfoFields(name, media.mimeType, size);
      MakesSubsection(FileInformation, fields);
      Ok([Heading(FileInformation)] + fields)
  }

  /** Name, extension, MIME type and size, in that order. */
  function FileInfoFields(name: string, mimeType: Option<string>, size: string): (r: seq<Line>)
    ensures |r| == 4 && NoHeadings(r) && r[0] == NameLine(name)
    ensures r[1] == ExtensionLine(name) && r[2] == MimeLine(mimeType) && r[3] == SizeLine(size)
  {
    [NameLine(name), ExtensionLine(name), MimeLine(mimeType), SizeLine(size)]
  }

  /** The attachment attributes the report reads; `fileName` and `mimeType` are
      None when the attachment type has no such attribute, `fileSize` is 0 then. */
  datatype MediaFacts = MediaFacts(fileName: Option<string>, mimeType: Option<string>, fileSize: int)

  // ---------------------------------------------------------------- Format / Container

  /** `divmod(t, 60)`. */
  function DivMod60(t: int): (r: (int, int))
    ensures r.0 * 60 + r.1 == t && 0 <= r.1 < 60
  {
    (t / 60, t % 60)
  }

  /** `f"{minutes:02d}:{seconds:02d}"` of `divmod(int(duration), 60)`. */
  function DurationText(seconds: real): string {
    var (m, s) := DivMod60(TruncToInt(seconds));
    Pad2(m) + ":" + Pad2(s)
  }

  /** The duration text reads back as minutes and seconds that make up the whole
      seconds of the duration, the seconds below 60 and written with two digits. */
  lemma DurationReadsBack(seconds: real)
    ensures var parts := SplitOn(DurationText(seconds), ':');
      && |parts| == 2
      && |parts[0]| >= 2 && |parts[1]| == 2
      && ParseInt(parts[0]).Some? && ParseInt(parts[1]).Some?
      && ParseInt(parts[0]).value * 60 + ParseInt(parts[1]).value == TruncToInt(seconds)
      && 0 <= ParseInt(parts[1]).value < 60
  {
    var t := TruncToInt(seconds);
    var m, s := t / 60, t % 60;
    var a, b := Pad2(m), Pad2(s);
    assert DurationText(seconds) == a + ":" + b;
    NumeralLacks(a, ':');
    NumeralLacks(b, ':');
    SplitOnTwo(a, b, ':');
    Pad2ReadsBack(m);
    Pad2ReadsBack(s);
  }

  predicate DurationShown(d: Option<DurationField>) {
    d.Some? && d.value.raw != ""
  }

  function DurationEntry(seconds: real): Line {
    Field(Duration, Code(DurationText(seconds)))
  }

  /** The Duration field: shown when the field is present and not empty, and
      an error when its text is not a number. */
  function DurationLines(d: Option<DurationField>): (r: Result<seq<Line>, CheckError>)
    ensures r.Err? <==> DurationShown(d) && d.value.seconds.None?
    ensures r.Ok? ==> NoHeadings(r.value) && OnlyField(r.value, Duration)
    ensures r.Ok? ==> forall n :: HasField(r.value, n) <==> n == Duration && DurationShown(d)
    ensures r.Ok? && DurationShown(d) ==> d.value.seconds.Some? && DurationEntry(d.value.seconds.value) in r.value
  {
    if !DurationShown(d) then Ok([])
    else match d.value.seconds
      case None => Err(BadDuration(d.value.raw))
      case Some(x) => HasFieldSingle(DurationEntry(x)); Ok([DurationEntry(x)])
  }

  /** A tag the format shows: present with a non-empty value. */
  predicate TagShown(tags: map<string, string>, key: string) {
    key in tags && tags[key] != ""
  }

  function CreationTimeEntry(time: string): Line {
    Field(CreationTime, Code(time))
  }

  function EncoderEntry(encoder: string): Line {
    Field(Encoder, Code(Escape(encoder)))
  }

  /** The Creation Time and Encoder/Software fields, each shown when its tag is. */
  function TagLines(tags: map<string, string>): (r: seq<Line>)
    ensures NoHeadings(r) && |r| <= 2
    ensures FieldsInOrder(r) && RanksIn(r, FieldRank(CreationTime), FieldRank(Encoder) + 1)
    ensures forall n :: HasField(r, n) <==>
      (n == CreationTime && TagShown(tags, "creation_time")) || (n == Encoder && TagShown(tags, "encoder"))
    ensures TagShown(tags, "creation_time") ==> CreationTimeEntry(tags["creation_time"]) in r
    ensures TagShown(tags, "encoder") ==> EncoderEntry(tags["encoder"]) in r
  {
    var created :=
      if TagShown(tags, "creation_time")
      then HasFieldSingle(CreationTimeEntry(tags["creation_time"])); [CreationTimeEntry(tags["creation_time"])]
      else [];
    var encoder :=
      if TagShown(tags, "encoder")
      then HasFieldSingle(EncoderEntry(tags["encoder"])); [EncoderEntry(tags["encoder"])]
      else [];
    HasFieldConcat(created, encoder);
    OnlyFieldRanked(created, CreationTime);
    OnlyFieldRanked(encoder, Encoder);
    InOrderConcat(created, encoder, FieldRank(CreationTime), FieldRank(Encoder), FieldRank(Encoder) + 1);
    created + encoder
  }

  /** The sub-fields the Format / Container subsection shows. */
  predicate FormatShows(f: Format, n: FieldName) {
    match n
    case Duration => DurationShown(f.duration)
    case CreationTime => TagShown(f.tags, "creation_time")
    case Encoder => TagShown(f.tags, "encoder")
    case _ => false
  }

  /** The Format / Container subsection: present exactly when there are tags or
      a duration, showing the duration and the two tags where they are shown,
      and an error exactly when a shown duration is not a number. */
  function FormatLines(f: Format): (r: Result<seq<Line>, CheckError>)
    ensures r.Err? <==> DurationShown(f.duration) && f.duration.value.seconds.None?
    ensures r.Ok? ==> (r.value != [] <==> f.tags != map[] || DurationShown(f.duration))
    ensures r.Ok? && r.value != [] ==> Subsection(r.value, FormatContainer) && FieldsInOrder(r.value[1..])
    ensures r.Ok? ==> forall n :: HasField(r.value, n) <==> FormatShows(f, n)
    ensures r.Ok? && DurationShown(f.duration) ==>
      f.duration.value.seconds.Some? && DurationEntry(f.duration.value.seconds.value) in r.value
    ensures r.Ok? && TagShown(f.tags, "creation_time") ==> CreationTimeEntry(f.tags["creation_time"]) in r.value
    ensures r.Ok? && TagShown(f.tags, "encoder") ==> EncoderEntry(f.tags["encoder"]) in r.value
  {
    if f.tags == map[] && !DurationShown(f.duration) then Ok([])
    else match DurationLines(f.duration)
      case Err(e) => Err(e)
      case Ok(dl) =>
        FormatParts(f, dl);
        Ok([Heading(FormatContainer)] + dl + TagLines(f.tags))
  }

  lemma FormatParts(f: Format, dl: seq<Line>)
    requires NoHeadings(dl) && OnlyField(dl, Duration)
    requires forall n :: HasField(dl, n) <==> n == Duration && DurationShown(f.duration)
    ensures var r := [Heading(FormatContainer)] + dl + TagLines(f.tags);
      Subsection(r, FormatContainer) && FieldsInOrder(r[1..]) && forall n :: HasField(r, n) <==> FormatShows(f, n)
  {
    var tags := TagLines(f.tags);
    FormatInOrder(dl, tags);
    NoHeadingsConcat(dl, tags);
    MakesSubsection(FormatContainer, dl + tags);
    assert [Heading(FormatContainer)] + dl + tags == [Heading(FormatContainer)] + (dl + tags);
    HasFieldSingle(Heading(FormatContainer));
    HasFieldConcat(dl, tags);
    HasFieldConcat([Heading(FormatContainer)], dl + tags);
  }

  /** The Duration line comes before the tag lines. */
  lemma FormatInOrder(dl: seq<Line>, tags: seq<Line>)
    requires OnlyField(dl, Duration)
    requires FieldsInOrder(tags) && RanksIn(tags, FieldRank(CreationTime), FieldRank(Encoder) + 1)
    ensures FieldsInOrder(([Heading(FormatContainer)] + dl + tags)[1..])
  {
    OnlyFieldRanked(dl, Duration);
    InOrderConcat(dl, tags, FieldRank(Duration), FieldRank(CreationTime), FieldRank(Encoder) + 1);
    assert ([Heading(FormatContainer)] + dl + tags)[1..] == dl + tags;
  }

  // ---------------------------------------------------------------- streams

  /** `next((s for s in streams if s.get("codec_type") == kind), None)`, as an index. */
  function FirstOfType(streams: seq<Stream>, kind: string): (r: Option<nat>)
    ensures r.Some? ==> r.value < |streams| && streams[r.value].codecType == Some(kind)
    ensures r.Some? ==> forall j :: 0 <= j < r.value ==> streams[j].codecType != Some(kind)
    ensures r.None? ==> forall j :: 0 <= j < |streams| ==> streams[j].codecType != Some(kind)
  {
    if streams == [] then None
    else if streams[0].codecType == Some(kind) then Some(0)
    else match FirstOfType(streams[1..], kind)
      case None => None
      case Some(i) => Some(i + 1)
  }

  const ZeroFps := Field(Framerate, Code("0 FPS"))

  /** The framerate line: omitted when `avg_frame_rate` is absent or "0/0", or does
      not split on '/' into exactly two integers; "0 FPS" for a zero denominator. */
  function FramerateLine(avg: Option<string>): (r: Option<Line>)
    ensures r.Some? ==> !r.value.Heading? && Shows(r.value) == Some(Framerate)
  {
    if avg.None? || avg.value == "0/0" then None
    else
      var parts := SplitOn(avg.value, '/');
      if |parts| != 2 then None
      else
        var num, den := ParseInt(parts[0]), ParseInt(parts[1]);
        if num.None? || den.None? then None
        else if den.value == 0 then Some(ZeroFps)
        else Some(Fps(num.value, den.value))
  }

  /** A line is emitted exactly when the field is present, is not "0/0", holds
      exactly one '/', and both halves are integers. */
  lemma FramerateEmitted(avg: Option<string>)
    ensures FramerateLine(avg).Some? <==>
      && avg.Some? && avg.value != "0/0"
      && multiset(avg.value)['/'] == 1
      && ParseInt(SplitOn(avg.value, '/')[0]).Some?
      && |SplitOn(avg.value, '/')| == 2
      && ParseInt(SplitOn(avg.value, '/')[1]).Some?
  {
    if avg.Some? {
      SplitOnCount(avg.value, '/');
    }
  }

  /** Two numerals around a '/' split back into those numerals. */
  lemma RatioSplits(num: int, den: int)
    ensures SplitOn(IntToString(num) + "/" + IntToString(den), '/') == [IntToString(num), IntToString(den)]
  {
    var a, b := IntToString(num), IntToString(den);
    NumeralLacks(a, '/');
    NumeralLacks(b, '/');
    SplitOnTwo(a, b, '/');
    assert a + "/" + b == a + ['/'] + b;
  }

  /** Only the zero pair prints as "0/0". */
  lemma RatioNotZeroZero(num: int, den: int)
    requires num != 0 || den != 0
    ensures IntToString(num) + "/" + IntToString(den) != "0/0"
  {
    var z := IntToString(0);
    assert z == "0";
    RatioSplits(num, den);
    RatioSplits(0, 0);
    IntToStringInjective(num, 0);
    IntToStringInjective(den, 0);
  }

  /** "num/den" written by ffprobe is read back; a zero denominator shows 0 FPS. */
  lemma FramerateOfRatio(num: int, den: int)
    requires num != 0 || den != 0
    ensures FramerateLine(Some(IntToString(num) + "/" + IntToString(den)))
         == Some(if den == 0 then ZeroFps else Fps(num, den))
  {
    RatioSplits(num, den);
    RatioNotZeroZero(num, den);
    ParseIntOfIntToString(num);
    ParseIntOfIntToString(den);
  }

  /** kb/s shown for a bit rate: `round(bits / 1000)`. */
  function Kbps(bits: int): (r: int)
    ensures -1000 <= 2 * (bits - 1000 * r) <= 1000
    ensures (2 * (bits - 1000 * r) == 1000 || 2 * (bits - 1000 * r) == -1000) ==> r % 2 == 0
  {
    RoundHalfEven(bits, 1000)
  }

  lemma KbpsExamples()
    ensures Kbps(1500) == 2 && Kbps(2500) == 2 && Kbps(128000) == 128 && Kbps(499) == 0
  {
    RoundHalfEvenUnique(1500, 1000, 2);
    RoundHalfEvenUnique(2500, 1000, 2);
    RoundHalfEvenUnique(128000, 1000, 128);
    RoundHalfEvenUnique(499, 1000, 0);
  }

  function BitrateEntry(bits: int): Line {
    Field(Bitrate, Code(IntToString(Kbps(bits)) + " kb/s"))
  }

  /** The Bitrate field: shown when `bit_rate` is truthy, and an error when it is
      not an integer. */
  function BitrateLines(raw: Option<string>): (r: Result<seq<Line>, CheckError>)
    ensures r.Err? <==> Truthy(raw) && ParseInt(raw.value).None?
    ensures r.Ok? ==> NoHeadings(r.value) && OnlyField(r.value, Bitrate)
    ensures r.Ok? ==> forall n :: HasField(r.value, n) <==> n == Bitrate && Truthy(raw)
    ensures r.Ok? && Truthy(raw) ==> ParseInt(raw.value).Some? && BitrateEntry(ParseInt(raw.value).value) in r.value
  {
    if !Truthy(raw) then Ok([])
    else match ParseInt(raw.value)
      case None => Err(BadBitRate(raw.value))
      case Some(bits) => HasFieldSingle(BitrateEntry(bits)); Ok([BitrateEntry(bits)])
  }

  /** The codec's long name with its short name, "None" when that is absent. */
  function CodecEntry(longName: string, name: Option<string>): Line {
    Field(Codec, Code(longName) + " (" + Code(Shown(name)) + ")")
  }

  function CodecLines(s: Stream): (r: seq<Line>)
    ensures NoHeadings(r) && OnlyField(r, Codec)
    ensures forall n :: HasField(r, n) <==> n == Codec && Truthy(s.codecLongName)
    ensures Truthy(s.codecLongName) ==> CodecEntry(s.codecLongName.value, s.codecName) in r
  {
    if Truthy(s.codecLongName)
    then HasFieldSingle(CodecEntry(s.codecLongName.value, s.codecName)); [CodecEntry(s.codecLongName.value, s.codecName)]
    else []
  }

  function ResolutionEntry(width: int, height: int): Line {
    Field(Resolution, Code(IntToString(width) + "x" + IntToString(height)))
  }

  function ResolutionLines(s: Stream): (r: seq<Line>)
    ensures NoHeadings(r) && OnlyField(r, Resolution)
    ensures forall n :: HasField(r, n) <==> n == Resolution && TruthyInt(s.width) && TruthyInt(s.height)
    ensures TruthyInt(s.width) && TruthyInt(s.height) ==> ResolutionEntry(s.width.value, s.height.value) in r
  {
    if TruthyInt(s.width) && TruthyInt(s.height)
    then HasFieldSingle(ResolutionEntry(s.width.value, s.height.value)); [ResolutionEntry(s.width.value, s.height.value)]
    else []
  }

  function FramerateLines(avg: Option<string>): (r: seq<Line>)
    ensures NoHeadings(r) && OnlyField(r, Framerate)
    ensures forall n :: HasField(r, n) <==> n == Framerate && FramerateLine(avg).Some?
    ensures FramerateLine(avg).Some? ==> FramerateLine(avg).value in r
  {
    match FramerateLine(avg)
    case None => []
    case Some(l) => HasFieldSingle(l); [l]
  }

  function SampleRateEntry(rate: string): Line {
    Field(SampleRate, Code(rate + " Hz"))
  }

  function SampleRateLines(s: Stream): (r: seq<Line>)
    ensures NoHeadings(r) && OnlyField(r, SampleRate)
    ensures forall n :: HasField(r, n) <==> n == SampleRate && Truthy(s.sampleRate)
    ensures Truthy(s.sampleRate) ==> SampleRateEntry(s.sampleRate.value) in r
  {
    if Truthy(s.sampleRate)
    then HasFieldSingle(SampleRateEntry(s.sampleRate.value)); [SampleRateEntry(s.sampleRate.value)]
    else []
  }

  /** The channel count with the layout, "N/A" when the stream has none. */
  function ChannelsEntry(channels: int, layout: Option<string>): Line {
    Field(Channels, Code(IntToString(channels)) + " (" + (if layout.Some? then layout.value else "N/A") + ")")
  }

  function ChannelsLines(s: Stream): (r: seq<Line>)
    ensures NoHeadings(r) && OnlyField(r, Channels)
    ensures forall n :: HasField(r, n) <==> n == Channels && TruthyInt(s.channels)
    ensures TruthyInt(s.channels) ==> ChannelsEntry(s.channels.value, s.channelLayout) in r
  {
    if TruthyInt(s.channels)
    then HasFieldSingle(ChannelsEntry(s.channels.value, s.channelLayout)); [ChannelsEntry(s.channels.value, s.channelLayout)]
    else []
  }

  /** A heading over four runs of sub-field lines is a subsection that shows the
      fields of the four runs. */
  lemma FourParts(s: Section, a: seq<Line>, b: seq<Line>, c: seq<Line>, d: seq<Line>)
    requires NoHeadings(a) && NoHeadings(b) && NoHeadings(c) && NoHeadings(d)
    ensures Subsection([Heading(s)] + (a + b + c + d), s)
    ensures forall n :: HasField([Heading(s)] + (a + b + c + d), n) <==>
      HasField(a, n) || HasField(b, n) || HasField(c, n) || HasField(d, n)
  {
    NoHeadingsConcat(a, b);
    NoHeadingsConcat(a + b, c);
    NoHeadingsConcat(a + b + c, d);
    MakesSubsection(s, a + b + c + d);
    HasFieldConcat(a, b);
    HasFieldConcat(a + b, c);
    HasFieldConcat(a + b + c, d);
    HasFieldSingle(Heading(s));
    HasFieldConcat([Heading(s)], a + b + c + d);
  }

  /** The sub-fields the Media Stream subsection shows. */
  predicate VideoShows(s: Stream, n: FieldName) {
    match n
    case Resolution => TruthyInt(s.width) && TruthyInt(s.height)
    case Codec => Truthy(s.codecLongName)
    case Framerate => FramerateLine(s.avgFrameRate).Some?
    case Bitrate => Truthy(s.bitRate)
    case _ => false
  }

  /** The Media Stream subsection for the chosen video stream: resolution, codec,
      framerate and bit rate, each where it is shown, and an error exactly when
      a shown bit rate is not an integer. */
  function VideoLines(s: Stream): (r: Result<seq<Line>, CheckError>)
    ensures r.Err? <==> Truthy(s.bitRate) && ParseInt(s.bitRate.value).None?
    ensures r.Ok? ==> Subsection(r.value, MediaStream) && FieldsInOrder(r.value[1..])
    ensures r.Ok? ==> forall n :: HasField(r.value, n) <==> VideoShows(s, n)
    ensures r.Ok? && TruthyInt(s.width) && TruthyInt(s.height) ==> ResolutionEntry(s.width.value, s.height.value) in r.value
    ensures r.Ok? && Truthy(s.codecLongName) ==> CodecEntry(s.codecLongName.value, s.codecName) in r.value
    ensures r.Ok? && FramerateLine(s.avgFrameRate).Some? ==> FramerateLine(s.avgFrameRate).value in r.value
    ensures r.Ok? && Truthy(s.bitRate) ==>
      ParseInt(s.bitRate.value).Some? && BitrateEntry(ParseInt(s.bitRate.value).value) in r.value
  {
    match BitrateLines(s.bitRate)
    case Err(e) => Err(e)
    case Ok(br) =>
      VideoParts(s, br);
      Ok([Heading(MediaStream)] + (ResolutionLines(s) + CodecLines(s) + FramerateLines(s.avgFrameRate) + br))
  }

  lemma VideoParts(s: Stream, br: seq<Line>)
    requires NoHeadings(br) && OnlyField(br, Bitrate)
    requires forall n :: HasField(br, n) <==> n == Bitrate && Truthy(s.bitRate)
    ensures var r := [Heading(MediaStream)] + (ResolutionLines(s) + CodecLines(s) + FramerateLines(s.avgFrameRate) + br);
      Subsection(r, MediaStream) && FieldsInOrder(r[1..]) && forall n :: HasField(r, n) <==> VideoShows(s, n)
  {
    var a, b, c := ResolutionLines(s), CodecLines(s), FramerateLines(s.avgFrameRate);
    FourParts(MediaStream, a, b, c, br);
    FourInOrder(a, b, c, br, Resolution, Codec, Framerate, Bitrate);
    assert ([Heading(MediaStream)] + (a + b + c + br))[1..] == a + b + c + br;
  }

  /** The sub-fields the Audio Stream subsection shows. */
  predicate AudioShows(s: Stream, n: FieldName) {
    match n
    case Codec => Truthy(s.codecLongName)
    case SampleRate => Truthy(s.sampleRate)
    case Channels => TruthyInt(s.channels)
    case Bitrate => Truthy(s.bitRate)
    case _ => false
  }

  /** The Audio Stream subsection for the chosen audio stream: codec, sample
      rate, channels and bit rate, each where it is shown, and an error exactly
      when a shown bit rate is not an integer. */
  function AudioLines(s: Stream): (r: Result<seq<Line>, CheckError>)
    ensures r.Err? <==> Truthy(s.bitRate) && ParseInt(s.bitRate.value).None?
    ensures r.Ok? ==> Subsection(r.value, AudioStream) && FieldsInOrder(r.value[1..])
    ensures r.Ok? ==> forall n :: HasField(r.value, n) <==> AudioShows(s, n)
    ensures r.Ok? && Truthy(s.codecLongName) ==> CodecEntry(s.codecLongName.value, s.codecName) in r.value
    ensures r.Ok? && Truthy(s.sampleRate) ==> SampleRateEntry(s.sampleRate.value) in r.value
    ensures r.Ok? && TruthyInt(s.channels) ==> ChannelsEntry(s.channels.value, s.channelLayout) in r.value
    ensures r.Ok? && Truthy(s.bitRate) ==>
      ParseInt(s.bitRate.value).Some? && BitrateEntry(ParseInt(s.bitRate.value).value) in r.value
  {
    match BitrateLines(s.bitRate)
    case Err(e) => Err(e)
    case Ok(br) =>
      AudioParts(s, br);
      Ok([Heading(AudioStream)] + (CodecLines(s) + SampleRateLines(s) + ChannelsLines(s) + br))
  }

  lemma AudioParts(s: Stream, br: seq<Line>)
    requires NoHeadings(br) && OnlyField(br, Bitrate)
    requires forall n :: HasField(br, n) <==> n == Bitrate && Truthy(s.bitRate)
    ensures var r := [Heading(AudioStream)] + (CodecLines(s) + SampleRateLines(s) + ChannelsLines(s) + br);
      Subsection(r, AudioStream) && FieldsInOrder(r[1..]) && forall n :: HasField(r, n) <==> AudioShows(s, n)
  {
    var a, b, c := CodecLines(s), SampleRateLines(s), ChannelsLines(s);
    FourParts(AudioStream, a, b, c, br);
    FourInOrder(a, b, c, br, Codec, SampleRate, Channels, Bitrate);
    assert ([Heading(AudioStream)] + (a + b + c + br))[1..] == a + b + c + br;
  }

  function OptionalSection(i: Option<nat>, streams: seq<Stream>, video: bool): (r: Result<seq<Line>, CheckError>)
    requires i.Some? ==> i.value < |streams|
    ensures r.Ok? && i.None? ==> r.value == []
    ensures r.Ok? && i.Some? ==> Subsection(r.value, if video then MediaStream else AudioStream)
  {
    if i.None? then Ok([])
    else if video then VideoLines(streams[i.value])
    else AudioLines(streams[i.value])
  }

  /** The only heading of a subsection is its own. */
  lemma SubsectionHeadings(ls: seq<Line>, s: Section)
    requires Subsection(ls, s)
    ensures forall h :: Heading(h) in ls <==> h == s
  {
    forall i | 1 <= i < |ls| ensures !ls[i].Heading? {
      assert ls[1..][i - 1] == ls[i];
    }
  }

  /** The headings of an optional subsection: its own when present, none otherwise. */
  lemma OptionalHeadings(ls: seq<Line>, s: Section)
    requires ls == [] || Subsection(ls, s)
    ensures forall h :: Heading(h) in ls <==> ls != [] && h == s
  {
    if ls != [] {
      SubsectionHeadings(ls, s);
    }
  }

  /** The headings of the Technical Details section, given its three optional
      subsections. */
  lemma TechnicalHeadings(fl: seq<Line>, vl: seq<Line>, al: seq<Line>)
    requires fl == [] || Subsection(fl, FormatContainer)
    requires vl == [] || Subsection(vl, MediaStream)
    requires al == [] || Subsection(al, AudioStream)
    ensures var t := [Heading(TechnicalDetails)] + (fl + vl + al);
      && t[0] == Heading(TechnicalDetails) && t[1..] == fl + vl + al
      && Heading(TechnicalDetails) !in fl + vl + al
      && (Heading(FormatContainer) in t <==> fl != [])
      && (Heading(MediaStream) in t <==> vl != [])
      && (Heading(AudioStream) in t <==> al != [])
      && Heading(FileInformation) !in t && Heading(ExifData) !in t
  {
    OptionalHeadings(fl, FormatContainer);
    OptionalHeadings(vl, MediaStream);
    OptionalHeadings(al, AudioStream);
    var t := [Heading(TechnicalDetails)] + (fl + vl + al);
    assert t[1..] == fl + vl + al;
  }

  /** The Technical Details section of a non-empty probe report: its heading,
      then a Format / Container subsection when there are tags or a duration, a
      Media Stream subsection when a video stream exists and an Audio Stream
      subsection when an audio stream exists. */
  function TechnicalLines(p: ProbeData): (r: Result<seq<Line>, CheckError>)
    ensures r.Ok? ==> r.value != [] && r.value[0] == Heading(TechnicalDetails)
    ensures r.Ok? ==> Heading(TechnicalDetails) !in r.value[1..]
    ensures r.Ok? ==> (Heading(FormatContainer) in r.value <==> FormatOf(p).tags != map[] || DurationShown(FormatOf(p).duration))
    ensures r.Ok? ==> (Heading(MediaStream) in r.value <==> FirstOfType(StreamsOf(p), "video").Some?)
    ensures r.Ok? ==> (Heading(AudioStream) in r.value <==> FirstOfType(StreamsOf(p), "audio").Some?)
    ensures r.Ok? ==> Heading(FileInformation) !in r.value && Heading(ExifData) !in r.value
  {
    var streams := StreamsOf(p);
    match FormatLines(FormatOf(p))
    case Err(e) => Err(e)
    case Ok(fl) =>
      match OptionalSection(FirstOfType(streams, "video"), streams, true)
      case Err(e) => Err(e)
      case Ok(vl) =>
        match OptionalSection(FirstOfType(streams, "audio"), streams, false)
        case Err(e) => Err(e)
        case Ok(al) =>
          TechnicalHeadings(fl, vl, al);
          Ok([Heading(TechnicalDetails)] + (fl + vl + al))
  }

  /** The Technical Details lines are the heading, the Format / Container lines,
      the Media Stream lines of the first video stream (if any) and the Audio
      Stream lines of the first audio stream (if any), in that order; they fail
      exactly when one of those three parts fails. */
  lemma TechnicalContents(p: ProbeData)
    ensures var streams, f := StreamsOf(p), FormatLines(FormatOf(p));
      var v, a := FirstOfType(streams, "video"), FirstOfType(streams, "audio");
      var video := if v.Some? then VideoLines(streams[v.value]) else Ok([]);
      var audio := if a.Some? then AudioLines(streams[a.value]) else Ok([]);
      && (TechnicalLines(p).Err? <==> f.Err? || video.Err? || audio.Err?)
      && (TechnicalLines(p).Ok? ==>
            TechnicalLines(p).value == [Heading(TechnicalDetails)] + (f.value + video.value + audio.value))
  {
  }

  // ================================================================ EXIF

  /** A Python dict of strings: its items in insertion order, keys distinct. */
  type Dict = seq<(string, string)>

  predicate DistinctKeys(d: Dict) {
    forall i, j :: 0 <= i < j < |d| ==> d[i].0 != d[j].0
  }

  function KeyIndex(d: Dict, k: string): (r: Option<nat>)
    ensures r.Some? ==> r.value < |d| && d[r.value].0 == k
    ensures r.None? ==> forall i :: 0 <= i < |d| ==> d[i].0 != k
  {
    if d == [] then None
    else if d[|d| - 1].0 == k then Some(|d| - 1)
    else KeyIndex(d[..|d| - 1], k)
  }

  /** `d[k] = v`: replaces the value in place for a known key, appends otherwise. */
  function Insert(d: Dict, k: string, v: string): Dict {
    match KeyIndex(d, k)
    case Some(i) => d[i := (k, v)]
    case None => d + [(k, v)]
  }

  /** The dict that assigning `pairs` one after another produces. */
  function FromPairs(pairs: seq<(string, string)>): Dict {
    if pairs == [] then []
    else
      var last := pairs[|pairs| - 1];
      Insert(FromPairs(pairs[..|pairs| - 1]), last.0, last.1)
  }

  /** The value assigned last to `k`, if any. */
  function LastValue(pairs: seq<(string, string)>, k: string): Option<string> {
    if pairs == [] then None
    else if pairs[|pairs| - 1].0 == k then Some(pairs[|pairs| - 1].1)
    else LastValue(pairs[..|pairs| - 1], k)
  }

  /** `d.get(k)`. */
  function Get(d: Dict, k: string): Option<string> {
    match KeyIndex(d, k)
    case Some(i) => Some(d[i].1)
    case None => None
  }

  /** The dict has each assigned key once, and holds for it the value assigned last. */
  lemma {:induction false} FromPairsIsDict(pairs: seq<(string, string)>)
    ensures DistinctKeys(FromPairs(pairs))
    ensures forall k :: Get(FromPairs(pairs), k) == LastValue(pairs, k)
  {
    if pairs != [] {
      var init := pairs[..|pairs| - 1];
      var (k0, v0) := pairs[|pairs| - 1];
      FromPairsIsDict(init);
      forall k ensures Get(FromPairs(pairs), k) == LastValue(pairs, k) {
        GetAfterInsert(FromPairs(init), k0, v0, k);
      }
      GetAfterInsert(FromPairs(init), k0, v0, k0);
    }
  }

  /** With distinct keys, a key is found where it is. */
  lemma KeyIndexIs(d: Dict, k: string, j: nat)
    requires DistinctKeys(d) && j < |d| && d[j].0 == k
    ensures KeyIndex(d, k) == Some(j)
  {
  }

  /** `d[k0] = v0` keeps the keys distinct, maps `k0` to `v0` and leaves every
      other key as it was. */
  lemma GetAfterInsert(d: Dict, k0: string, v0: string, k: string)
    requires DistinctKeys(d)
    ensures DistinctKeys(Insert(d, k0, v0))
    ensures Get(Insert(d, k0, v0), k) == if k == k0 then Some(v0) else Get(d, k)
  {
    var d' := Insert(d, k0, v0);
    var at := KeyIndex(d, k0);
    var n := if at.Some? then at.value else |d|;
    assert |d'| == (if at.Some? then |d| else |d| + 1);
    assert d'[n] == (k0, v0);
    assert forall j :: 0 <= j < |d| && j != n ==> d'[j] == d[j];
    assert DistinctKeys(d');
    KeyIndexIs(d', k0, n);
    if k != k0 {
      match KeyIndex(d, k)
      case Some(j) => KeyIndexIs(d', k, j);
      case None =>
    }
  }

  /** `get_exif_data`'s loop: `exif_data[str(tag)] = str(value)` for each tag in turn. */
  method CollectExif(pairs: seq<(string, string)>) returns (d: Dict)
    ensures d == FromPairs(pairs)
  {
    d := [];
    for i := 0 to |pairs|
      invariant d == FromPairs(pairs[..i])
    {
      assert pairs[..i + 1][..i] == pairs[..i];
      d := Insert(d, pairs[i].0, pairs[i].1);
    }
    assert pairs[..|pairs|] == pairs;
  }

  /** `get_exif_data`: `tags` is what the image yields once each tag id is named
      and each value made a string, or None when it has no EXIF block or cannot
      be opened (both give the empty dict). */
  method GetExifData(tags: Option<seq<(string, string)>>) returns (d: Dict)
    ensures d == (if tags.None? then [] else FromPairs(tags.value))
    ensures DistinctKeys(d)
    ensures forall k :: Get(d, k) == if tags.None? then None else LastValue(tags.value, k)
  {
    if tags.None? {
      return [];
    }
    d := CollectExif(tags.value);
    FromPairsIsDict(tags.value);
  }

  /** An EXIF tag is listed when its value is shorter than 70 characters and not
      whitespace-only. */
  predicate KeepExifValue(v: string) {
    |v| < 70 && Strip(v) != ""
  }

  /** The items of `d` that get a line, in dict order. */
  function Kept(d: Dict): (r: Dict)
    ensures |r| <= |d|
  {
    if d == [] then []
    else Kept(d[..|d| - 1]) + (if KeepExifValue(d[|d| - 1].1) then [d[|d| - 1]] else [])
  }

  /** An item is kept exactly when it is in the dict and its value passes the filter. */
  lemma {:induction false} KeptMembers(d: Dict)
    ensures forall e :: e in Kept(d) <==> e in d && KeepExifValue(e.1)
  {
    if d != [] {
      KeptMembers(d[..|d| - 1]);
      assert d == d[..|d| - 1] + [d[|d| - 1]];
    }
  }

  /** Filtering keeps the dict's order: it distributes over concatenation. */
  lemma {:induction false} KeptAppend(a: Dict, b: Dict)
    ensures Kept(a + b) == Kept(a) + Kept(b)
  {
    if b != [] {
      KeptAppend(a, b[..|b| - 1]);
      assert (a + b)[..|a + b| - 1] == a + b[..|b| - 1];
    } else {
      assert a + b == a;
    }
  }

  /** The filter in Python's own terms: a value is kept exactly when it has fewer
      than 70 characters and a character that is not whitespace. */
  lemma KeepExifValueMeaning(v: string)
    ensures KeepExifValue(v) <==> |v| < 70 && !IsBlank(v)
  {
    StripEmptyIffBlank(v);
  }

  lemma KeepExifValueExamples()
    ensures KeepExifValue("Canon EOS 5D")
    ensures !KeepExifValue("")
    ensures !KeepExifValue(" \t ")
    ensures KeepExifValue(seq(69, _ => 'x'))
    ensures !KeepExifValue(seq(70, _ => 'x'))
  {
    KeepExifValueMeaning("Canon EOS 5D");
    KeepExifValueMeaning(" \t ");
    KeepExifValueMeaning(seq(69, _ => 'x'));
    assert !IsSpace("Canon EOS 5D"[0]);
    assert !IsSpace(seq(69, _ => 'x')[0]);
  }

  function ExifLine(e: (string, string)): Line {
    Entry("<b>  - " + e.0 + ":</b> " + Code(Escape(e.1)))
  }

  /** One line per kept item, in order. */
  function ExifEntryLines(d: Dict): (r: seq<Line>)
    ensures NoHeadings(r) && |r| == |Kept(d)|
  {
    if d == [] then []
    else
      var init, e := d[..|d| - 1], d[|d| - 1];
      ExifEntryLines(init) + (if KeepExifValue(e.1) then [ExifLine(e)] else [])
  }

  /** The i-th EXIF line shows the i-th kept item. */
  lemma {:induction false} ExifEntryLinesShowKept(d: Dict)
    ensures forall i :: 0 <= i < |Kept(d)| ==> ExifEntryLines(d)[i] == ExifLine(Kept(d)[i])
  {
    if d != [] {
      ExifEntryLinesShowKept(d[..|d| - 1]);
    }
  }

  lemma ExifEntryLinesStep(d: Dict, i: nat)
    requires i < |d|
    ensures ExifEntryLines(d[..i + 1])
         == ExifEntryLines(d[..i]) + (if KeepExifValue(d[i].1) then [ExifLine(d[i])] else [])
  {
    assert d[..i + 1][..i] == d[..i];
  }

  /** The EXIF section: its heading whenever the dict is non-empty, even if no
      item passes the filter. */
  function ExifLines(d: Dict): (r: seq<Line>)
    ensures r == [] <==> d == []
    ensures r != [] ==> Subsection(r, ExifData) && |r| == |Kept(d)| + 1
  {
    if d == [] then [] else [Heading(ExifData)] + ExifEntryLines(d)
  }

  // ================================================================ the report

  /** `info_lines` once the report is complete, or the error that aborted it. */
  function Report(media: MediaFacts, downloadPath: string, probe: Option<ProbeData>, exif: Dict): Result<seq<Line>, CheckError> {
    match FileInfoLines(media, downloadPath)
    case Err(e) => Err(e)
    case Ok(info) =>
      var tech := if probe.Some? && NonEmpty(probe.value) then TechnicalLines(probe.value) else Ok([]);
      match tech
      case Err(e) => Err(e)
      case Ok(t) => Ok(info + t + ExifLines(exif))
  }

  predicate HasStreamOfType(streams: seq<Stream>, kind: string) {
    exists i :: 0 <= i < |streams| && streams[i].codecType == Some(kind)
  }

  /** The first video (or audio) stream exists exactly when some stream has that type. */
  lemma FirstOfTypeExists(streams: seq<Stream>, kind: string)
    ensures FirstOfType(streams, kind).Some? <==> HasStreamOfType(streams, kind)
  {
    if FirstOfType(streams, kind).Some? {
      assert streams[FirstOfType(streams, kind).value].codecType == Some(kind);
    }
  }

  /** A complete report is the File Information section, the technical part (when
      the probe gave a non-empty report) and the EXIF section, in that order. */
  lemma ReportParts(media: MediaFacts, downloadPath: string, probe: Option<ProbeData>, exif: Dict)
    requires Report(media, downloadPath, probe, exif).Ok?
    ensures FileInfoLines(media, downloadPath).Ok?
    ensures probe.Some? && NonEmpty(probe.value) ==> TechnicalLines(probe.value).Ok?
    ensures Report(media, downloadPath, probe, exif).value
         == FileInfoLines(media, downloadPath).value
          + (if probe.Some? && NonEmpty(probe.value) then TechnicalLines(probe.value).value else [])
          + ExifLines(exif)
  {
  }

  /** A complete report starts with the File Information section, whose first
      entry names the file. */
  lemma ReportLayout(media: MediaFacts, downloadPath: string, probe: Option<ProbeData>, exif: Dict)
    requires Report(media, downloadPath, probe, exif).Ok?
    ensures var lines := Report(media, downloadPath, probe, exif).value;
      && |lines| >= 5 && lines[..5] == FileInfoLines(media, downloadPath).value
      && lines[0] == Heading(FileInformation)
      && lines[1] == NameLine(DisplayName(media.fileName, downloadPath))
  {
    var info := FileInfoLines(media, downloadPath).value;
    var shown := probe.Some? && NonEmpty(probe.value);
    var t := if shown then TechnicalLines(probe.value).value else [];
    var x := ExifLines(exif);
    ReportParts(media, downloadPath, probe, exif);
    OuterParts(info, t, x);
  }

  /** The first two lines of a complete report, as the message shows them: the
      title and the escaped name. */
  lemma ReportOpens(media: MediaFacts, downloadPath: string, probe: Option<ProbeData>, exif: Dict)
    requires Report(media, downloadPath, probe, exif).Ok?
    ensures var lines := Report(media, downloadPath, probe, exif).value;
      && |lines| >= 2
      && Render(lines[0]) == Some("<b>File Information:</b>")
      && Render(lines[1]) == Some("<b>  - Name:</b> " + Code(Escape(DisplayName(media.fileName, downloadPath))))
  {
    ReportLayout(media, downloadPath, probe, exif);
  }

  /** A complete report ends with the EXIF section. */
  lemma ReportEndsWithExif(media: MediaFacts, downloadPath: string, probe: Option<ProbeData>, exif: Dict)
    requires Report(media, downloadPath, probe, exif).Ok?
    ensures var lines := Report(media, downloadPath, probe, exif).value;
      |lines| >= |ExifLines(exif)| && lines[|lines| - |ExifLines(exif)|..] == ExifLines(exif)
  {
    var info := FileInfoLines(media, downloadPath).value;
    var shown := probe.Some? && NonEmpty(probe.value);
    var t := if shown then TechnicalLines(probe.value).value else [];
    var x := ExifLines(exif);
    ReportParts(media, downloadPath, probe, exif);
    OuterParts(info, t, x);
  }

  lemma OuterParts(a: seq<Line>, b: seq<Line>, c: seq<Line>)
    ensures (a + b + c)[..|a|] == a && (a + b + c)[|a + b + c| - |c|..] == c
    ensures forall i :: 0 <= i < |a| ==> (a + b + c)[i] == a[i]
  {
  }

  /** A complete report has the EXIF section exactly when the image had EXIF tags. */
  lemma ReportExifSection(media: MediaFacts, downloadPath: string, probe: Option<ProbeData>, exif: Dict)
    requires Report(media, downloadPath, probe, exif).Ok?
    ensures Heading(ExifData) in Report(media, downloadPath, probe, exif).value <==> exif != []
  {
    var info := FileInfoLines(media, downloadPath).value;
    var shown := probe.Some? && NonEmpty(probe.value);
    var t := if shown then TechnicalLines(probe.value).value else [];
    var x := ExifLines(exif);
    ReportParts(media, downloadPath, probe, exif);
    SubsectionHeadings(info, FileInformation);
    OptionalHeadings(x, ExifData);
  }

  /** Between File Information and the EXIF section, the report's other headings
      are those of the middle part. */
  lemma MiddleHeadings(info: seq<Line>, t: seq<Line>, x: seq<Line>)
    requires Subsection(info, FileInformation) && (x == [] || Subsection(x, ExifData))
    ensures forall h :: h != FileInformation && h != ExifData ==> (Heading(h) in info + t + x <==> Heading(h) in t)
  {
    SubsectionHeadings(info, FileInformation);
    OptionalHeadings(x, ExifData);
  }

  /** Which sections a complete report holds: Technical Details exactly when the
      probe gave a non-empty report, Format / Container when that report has
      format tags or a duration to show. */
  lemma ReportSections(media: MediaFacts, downloadPath: string, probe: Option<ProbeData>, exif: Dict)
    requires Report(media, downloadPath, probe, exif).Ok?
    ensures var lines := Report(media, downloadPath, probe, exif).value;
      var shown := probe.Some? && NonEmpty(probe.value);
      && (Heading(TechnicalDetails) in lines <==> shown)
      && (Heading(FormatContainer) in lines <==>
            shown && (FormatOf(probe.value).tags != map[] || DurationShown(FormatOf(probe.value).duration)))
  {
    var info := FileInfoLines(media, downloadPath).value;
    var shown := probe.Some? && NonEmpty(probe.value);
    var t := if shown then TechnicalLines(probe.value).value else [];
    var x := ExifLines(exif);
    ReportParts(media, downloadPath, probe, exif);
    MiddleHeadings(info, t, x);
  }

  /** The Media Stream and Audio Stream sections appear exactly when the probe
      report has a stream of that type. */
  lemma ReportStreamSections(media: MediaFacts, downloadPath: string, probe: Option<ProbeData>, exif: Dict)
    requires Report(media, downloadPath, probe, exif).Ok?
    ensures var lines := Report(media, downloadPath, probe, exif).value;
      var shown := probe.Some? && NonEmpty(probe.value);
      && (Heading(MediaStream) in lines <==> shown && HasStreamOfType(StreamsOf(probe.value), "video"))
      && (Heading(AudioStream) in lines <==> shown && HasStreamOfType(StreamsOf(probe.value), "audio"))
  {
    var info := FileInfoLines(media, downloadPath).value;
    var shown := probe.Some? && NonEmpty(probe.value);
    var t := if shown then TechnicalLines(probe.value).value else [];
    var x := ExifLines(exif);
    ReportParts(media, downloadPath, probe, exif);
    MiddleHeadings(info, t, x);
    if shown {
      FirstOfTypeExists(StreamsOf(probe.value), "video");
      FirstOfTypeExists(StreamsOf(probe.value), "audio");
    }
  }

  /** The EXIF part of `checkfile_handler`: the heading when the dict is non-empty,
      then the loop over the tags. */
  method AppendExif(lines: seq<Line>, exif: Dict) returns (out: seq<Line>)
    ensures out == lines + ExifLines(exif)
  {
    out := lines;
    if exif != [] {
      var head := out + [Heading(ExifData)];
      out := AppendExifEntries(head, exif);
      ExifLinesAfter(lines, exif);
    }
  }

  lemma ExifLinesAfter(lines: seq<Line>, exif: Dict)
    requires exif != []
    ensures lines + [Heading(ExifData)] + ExifEntryLines(exif) == lines + ExifLines(exif)
  {
  }

  lemma AppendGrows(lines: seq<Line>, before: seq<Line>, step: seq<Line>, after: seq<Line>)
    requires after == before + step
    ensures (lines + before) + step == lines + after
  {
  }

  /** The loop itself: one line appended per tag whose value passes the filter. */
  method AppendExifEntries(lines: seq<Line>, exif: Dict) returns (out: seq<Line>)
    ensures out == lines + ExifEntryLines(exif)
  {
    out := lines;
    for i := 0 to |exif|
      invariant out == lines + ExifEntryLines(exif[..i])
    {
      ExifEntryLinesStep(exif, i);
      var line := if KeepExifValue(exif[i].1) then [ExifLine(exif[i])] else [];
      AppendGrows(lines, ExifEntryLines(exif[..i]), line, ExifEntryLines(exif[..i + 1]));
      if KeepExifValue(exif[i].1) {
        out := out + [ExifLine(exif[i])];
      }
    }
    assert exif[..|exif|] == exif;
  }

  /** `checkfile_handler`'s report: appends to `info_lines` section by section. */
  method BuildReport(media: MediaFacts, downloadPath: string, probe: Option<ProbeData>, exif: Dict)
    returns (r: Result<seq<Line>, CheckError>)
    ensures r == Report(media, downloadPath, probe, exif)
  {
    var lines := [Heading(FileInformation)];
    var name := DisplayName(media.fileName, downloadPath);
    lines := lines + [NameLine(name)];
    lines := lines + [ExtensionLine(name)];
    lines := lines + [MimeLine(media.mimeType)];
    var size := FormatBytes(media.fileSize);
    if size.Err? {
      return Err(BadSize(size.error));
    }
    lines := lines + [SizeLine(size.value)];
    assert lines == [Heading(FileInformation), NameLine(name), ExtensionLine(name), MimeLine(media.mimeType), SizeLine(size.value)];
    assert FileInfoLines(media, downloadPath).value == lines;
    var technical := [];
    if probe.Some? && NonEmpty(probe.value) {
      var tech := TechnicalLines(probe.value);
      if tech.Err? {
        return Err(tech.error);
      }
      technical := tech.value;
    }
    lines := lines + technical;
    lines := AppendExif(lines, exif);
    r := Ok(lines);
  }

  // ================================================================ the handler

  /** Everything the handler gets from outside the model. */
  datatype CheckEnv = CheckEnv(
    download: Fallible<string>,                 // bot.download_media(...) into the temp directory
    probeRun: Fallible<ProcessResult>,          // ffprobe's captured output
    probeJson: Option<ProbeData>,               // json.loads of that output, None where it raises
    exifTags: Option<seq<(string, string)>>,    // the image's named EXIF tags, None without EXIF
    delivery: Fallible<()>)                     // sending the report and deleting the messages

  datatype CheckOutcome =
    | AskForMedia                   // "Please reply to any media file to check it."
    | Reported(lines: seq<Line>)    // the report was sent
    | CheckFailed(error: CheckError)  // the progress message now shows the error

  predicate HasMedia(att: Attachment) {
    !att.NoReply? && !att.NoMedia?
  }

  /** The handler's reply. */
  function CheckOutcomeOf(att: Attachment, media: MediaFacts, env: CheckEnv): CheckOutcome {
    if !HasMedia(att) then AskForMedia
    else match env.download
      case Raised(m) => CheckFailed(CollaboratorFailed(m))
      case Done(path) => ReportOutcome(media, path, env)
  }

  /** The reply once the file is at `path`: the report, or the error that
      stopped it or its delivery. */
  function ReportOutcome(media: MediaFacts, path: string, env: CheckEnv): CheckOutcome {
    var exif := if env.exifTags.None? then [] else FromPairs(env.exifTags.value);
    match Report(media, path, GetProbeData(env.probeRun, env.probeJson), exif)
    case Err(e) => CheckFailed(e)
    case Ok(lines) =>
      if env.delivery.Raised? then CheckFailed(CollaboratorFailed(env.delivery.message)) else Reported(lines)
  }

  /** The paths the handler registers: the downloaded file, right after the download. */
  function CheckRegistered(att: Attachment, env: CheckEnv): seq<string> {
    if HasMedia(att) && env.download.Done? then [env.download.value] else []
  }

  /** `checkfile_handler`: validates, downloads and registers, reports, and in
      `finally` removes what it registered. Returns the reply, the filesystem
      afterwards and the `temp_files` list. */
  method CheckFileHandler(fs: set<string>, att: Attachment, media: MediaFacts, env: CheckEnv)
    returns (outcome: CheckOutcome, fs': set<string>, registered: seq<string>)
    ensures outcome == CheckOutcomeOf(att, media, env)
    ensures registered == CheckRegistered(att, env)
    ensures fs' == Drain(fs + Removable(registered), registered)
    ensures forall p :: p in registered && p != "" ==> p !in fs'
    ensures forall p :: p !in registered ==> (p in fs' <==> p in fs)
  {
    if !HasMedia(att) {
      outcome, fs', registered := AskForMedia, fs, [];
      return;
    }
    var temp := new TempFileSet(fs);
    outcome := CheckAttempt(temp, att, media, env);
    ghost var created := temp.existing;
    temp.Cleanup();
    CleanupOutcome(created, temp.registered);
    outcome, fs', registered := outcome, temp.existing, temp.registered;
  }

  /** The `try` block of `checkfile_handler` for a reply to media. */
  method CheckAttempt(temp: TempFileSet, att: Attachment, media: MediaFacts, env: CheckEnv)
    returns (outcome: CheckOutcome)
    requires HasMedia(att) && temp.registered == []
    modifies temp
    ensures temp.registered == CheckRegistered(att, env)
    ensures temp.existing == old(temp.existing) + Removable(temp.registered)
    ensures outcome == CheckOutcomeOf(att, media, env)
  {
    match env.download {
      case Raised(m) =>
        outcome := CheckFailed(CollaboratorFailed(m));
      case Done(path) =>
        if path != "" {
          temp.Write(path);
        }
        temp.Register(path);
        outcome := Reply(media, path, env);
    }
  }

  /** Probing, collecting the EXIF tags, building the report and sending it. */
  method Reply(media: MediaFacts, path: string, env: CheckEnv) returns (outcome: CheckOutcome)
    ensures outcome == ReportOutcome(media, path, env)
  {
    var probe := GetProbeData(env.probeRun, env.probeJson);
    var exif := GetExifData(env.exifTags);
    var report := BuildReport(media, path, probe, exif);
    if report.Err? {
      outcome := CheckFailed(report.error);
    } else if env.delivery.Raised? {
      outcome := CheckFailed(CollaboratorFailed(env.delivery.message));
    } else {
      outcome := Reported(report.value);
    }
  }
}
