# PlainUBScripts: `.checkfile` and `.crop`, modelled in Dafny

This project models two command handlers of a Telegram userbot.

- **`.checkfile`** (`tools/checkfile.py`) takes the media a message replies to. It downloads the file and builds a report:
  - File Information: name, extension, MIME type and size.
  - Technical Details from ffprobe: container, first video stream, first audio stream.
  - The image's EXIF tags.

  It then sends the report and removes the downloaded file.
- **`.crop WxH`** (`tools/crop.py`) validates the request and downloads the media. It crops the centre:
  - of an image through PIL;
  - of a video through an ffmpeg `crop` filter.

  It then sends the result with a caption and removes the files it created.

Both handlers keep a `temp_files` list. A `finally` block drains it, removing every registered path that is non-empty and still exists.

The project has seven modules:

| file | module | contents |
|---|---|---|
| `wrappers.dfy` | `Wrappers` | `Option`, `Result`, and `Fallible` (a collaborator's value or the message of what it raised) |
| `pytext.dfy` | `PyText` | The Python string behaviour the handlers rely on (see below) |
| `pypath.dfy` | `PyPath` | `os.path.basename`, `splitext` and `join` (POSIX) |
| `tempfiles.dfy` | `TempFiles` | The registry as a class: a set of existing paths, a `temp_files` sequence, and the cleanup loop, proved to compute the function `Drain` |
| `media.dfy` | `Media` | The replied attachment, and `run_command`'s stripped result |
| `checkfile.dfy` | `CheckFile` | `format_bytes`, the report lines, `get_probe_data`, `get_exif_data`, `checkfile_handler` |
| `crop.dfy` | `Crop` | The argument parse, the validation chain, the crop box, output naming, the two transforms, `crop_handler` |

The Python string behaviour in `PyText` covers:
- `str.isspace`/`strip`, ASCII `upper` and `split`
- `int()` of a string, `str()` of an int, `:02d`
- `html.escape` and its inverse
- `round()` half to even, and `int()` of a float

Collaborators are inputs to the model: Telegram, the subprocess runner, PIL and `json.loads`. Each handler gets:
- a record of what each collaborator returns or raises (`CheckEnv`, `CropEnv`);
- the set of paths that exist.

Each handler is a method. It returns:
- the reply;
- the filesystem after cleanup;
- the `temp_files` list.

A pure function of the inputs (`CheckFile.CheckOutcomeOf`, `Crop.OutcomeOf`, `Crop.RegisteredOf`, `Crop.WrittenOf`) gives each of these. The methods are proved to compute them, and lemmas state their properties.

Four behaviours of the code that are easy to misread; the model follows the code:
- **Crop box.** It uses true division, `(ow - w) / 2`. The edges fall on half pixels when a margin is odd, instead of flooring (`Crop.CropRectHalfPixel`).
- **Registering the cropped file.** It is registered only once the transform has returned it, not before the transform runs. A failed ffmpeg run that left a file behind therefore leaves that file on disk (`Crop.FailedVideoLeavesOutput`).
- **Errors during cleanup.** The `finally` loop does not catch them. Its `os.path.exists` guard keeps `os.remove` from being called on a missing path. That is what `TempFileSet.Cleanup` relies on.
- **Order of the validation checks.** `is_media` is computed first. A document without a MIME type makes `.startswith` raise before any reply is sent (the `Unhandled` verdict).

## Model

| member | source | states |
|---|---|---|
| `CheckFile.UnitIndex` | tools/checkfile.py:24 | The unit index is the exponent `i` with 1024^i <= size < 1024^(i+1), i.e. floor(log_1024 size). |
| `CheckFile.UnitIndexUnique` | tools/checkfile.py:24 | That exponent is unique: any `i` bracketing the size is the one chosen. |
| `CheckFile.FormatBytes` | tools/checkfile.py:22-26 | Zero is "0 B". A negative size fails, as `math.log` does. A size of 1024^5 or more fails, as indexing past "TB" does. Otherwise there is a text. |
| `CheckFile.FormatBytesUnit` | tools/checkfile.py:24-26 | In range, the text is the size in unit `i`, rounded half to even to hundredths and printed like a float repr, followed by the unit name. The value shown lies between 1.00 and 1024.00. |
| `CheckFile.FormatBytesExamples` | tools/checkfile.py:22-26 | Examples: 0 gives "0 B", 1 gives "1.0 B", 1024 gives "1.0 KB", 1536 gives "1.5 KB". |
| `CheckFile.DisplayName` | tools/checkfile.py:71-75 | The shown name is never empty. It is the attachment's `file_name` when that is non-empty. Failing that, it is the download's base name when that is non-empty. Otherwise it is "N/A". |
| `CheckFile.ExtensionCases` | tools/checkfile.py:77 | No dot gives "N/A". Where `splitext` finds an extension, the suffix after its dot is shown upper-cased. Where there is a dot but no extension (a dotfile), the text is empty. |
| `CheckFile.ExtensionWithoutDot` | tools/checkfile.py:77 | "README" shows "N/A". |
| `CheckFile.ExtensionOfDotfile` | tools/checkfile.py:77 | ".bashrc" shows an empty extension. |
| `CheckFile.ExtensionAfterLastDot` | tools/checkfile.py:77 | "clip.final.mp4" shows "MP4", taken from the last dot only. |
| `PyPath.SplitExtFindsExtension` | tools/checkfile.py:77 | `splitext` finds an extension exactly when some dot can start one. That is a last dot in the last component, preceded there by a character that is not a dot. It then splits at that dot. |
| `PyPath.Basename` | tools/crop.py:20 | The base name has no `/`. It is a suffix of the path, and whatever precedes it ends in `/`. |
| `PyPath.SplitExt` | tools/crop.py:20 | Stem and extension concatenate back to the input. The extension is empty, or it is a dot followed by text with no dot and no `/`. |
| `Media.RunCommand` | tools/checkfile.py:17-20 | The exit code passes through unchanged. Each output stream is empty exactly when the raw stream was whitespace only. |
| `CheckFile.GetProbeData` | tools/checkfile.py:28-34 | The parsed report is returned exactly when the command ran, exited 0, printed non-whitespace, and `json.loads` succeeded. In every other case the result is None. |
| `CheckFile.FileInfoLines` | tools/checkfile.py:69-82 | Fails exactly when `format_bytes` fails. Otherwise it gives five lines: the File Information heading, the escaped display name, the extension of that name, the MIME type ("N/A" when absent) and the `format_bytes` text of the size, in that order. |
| `CheckFile.DurationReadsBack` | tools/checkfile.py:91-94 | The MM:SS text splits on ':' into two numerals. Minutes*60 + seconds gives back the truncated duration. Seconds are below 60, and each part has at least two digits. |
| `CheckFile.DurationText` | tools/checkfile.py:93-94 | Defines the MM:SS text of the truncated seconds. `DurationReadsBack` states its meaning. |
| `CheckFile.DurationLines` | tools/checkfile.py:91-94 | Fails exactly when there is a truthy duration that cannot be shown. Otherwise the Duration field is shown exactly when the duration is truthy, with the MM:SS text of its value, in at most one line and no heading. |
| `CheckFile.TagLines` | tools/checkfile.py:95-96 | Creation Time is shown exactly when that tag is present and non-empty, with its value. Encoder/Software likewise, with its value escaped. At most these two lines, Creation Time first, and no heading. |
| `CheckFile.FormatLines` | tools/checkfile.py:88-96 | Fails exactly when a truthy duration cannot be shown. Otherwise the Format / Container subsection is present exactly when there are format tags or a truthy duration; it is then its heading followed by sub-field lines only, in the order Duration, Creation Time, Encoder/Software, none twice. It shows each of them exactly when that field is truthy, with its value. |
| `CheckFile.FirstOfType` | tools/checkfile.py:98-100 | Picks the first stream of that codec type. No earlier stream has the type. None means no stream has it. |
| `CheckFile.FirstOfTypeExists` | tools/checkfile.py:99-100 | A first stream of a type exists exactly when some stream has that type. |
| `CheckFile.FramerateLine` | tools/checkfile.py:106-110 | The framerate line, when there is one, is a Framerate field and not a heading. `FramerateEmitted` and `FramerateOfRatio` state when it is emitted and what it holds. |
| `CheckFile.FramerateEmitted` | tools/checkfile.py:106-110 | A framerate line is emitted exactly when `avg_frame_rate` is present and not "0/0", splits on '/' into exactly two parts, and both parts parse with `int()`. |
| `CheckFile.FramerateOfRatio` | tools/checkfile.py:106-110 | For a ratio written by `str()`, other than 0/0, a zero denominator shows "0 FPS". Any other denominator shows `round(num/den, 2)` of those integers. |
| `CheckFile.RatioNotZeroZero` | tools/checkfile.py:106 | Only 0 and 0 are written "0/0". |
| `CheckFile.Kbps` | tools/checkfile.py:111-118 | kb/s is the integer nearest bits/1000, ties to even. |
| `CheckFile.KbpsExamples` | tools/checkfile.py:111 | 1500 and 2500 both give 2, 128000 gives 128, 499 gives 0. |
| `CheckFile.BitrateLines` | tools/checkfile.py:111-118 | Fails exactly when `bit_rate` is truthy but not an integer. Otherwise the Bitrate field is shown exactly when `bit_rate` is truthy, with the kb/s of the parsed integer, in at most one line and no heading. |
| `CheckFile.CodecLines` | tools/checkfile.py:105 | The Codec field is shown exactly when `codec_long_name` is truthy, with the long name and the short name ("None" when absent), in at most one line. The audio section uses the same line (tools/checkfile.py:115). |
| `CheckFile.ResolutionLines` | tools/checkfile.py:104 | The Resolution field is shown exactly when both width and height are truthy, as "WxH", in at most one line. |
| `CheckFile.FramerateLines` | tools/checkfile.py:106-110 | The Framerate field is shown exactly when a framerate line is emitted, and it is that line alone. |
| `CheckFile.SampleRateLines` | tools/checkfile.py:116 | The Sample Rate field is shown exactly when `sample_rate` is truthy, with " Hz" after it, in at most one line. |
| `CheckFile.ChannelsLines` | tools/checkfile.py:117 | The Channels field is shown exactly when `channels` is truthy, with the layout, or "N/A" without one, in at most one line. |
| `CheckFile.VideoLines` | tools/checkfile.py:102-111 | Fails exactly when `bit_rate` is truthy but not an integer. Otherwise the Media Stream section is its heading followed by sub-field lines only, in the order Resolution, Codec, Framerate, Bitrate, none twice. It shows each exactly when its field is truthy (for Framerate, when a framerate line is emitted), with its value, and no other field. |
| `CheckFile.AudioLines` | tools/checkfile.py:113-118 | Fails exactly when `bit_rate` is truthy but not an integer. Otherwise the Audio Stream section is its heading followed by sub-field lines only, in the order Codec, Sample Rate, Channels, Bitrate, none twice. It shows each exactly when its field is truthy, with its value, and no other field. |
| `CheckFile.OptionalSection` | tools/checkfile.py:102-113 | With no stream of the type the section is empty. Otherwise it is that stream's subsection (which stream: `TechnicalContents`). |
| `CheckFile.TechnicalHeadings` | tools/checkfile.py:86-118 | Gluing the subsections under the Technical Details heading gives one heading per present subsection, and no other heading. |
| `CheckFile.TechnicalLines` | tools/checkfile.py:85-118 | Starts with Technical Details. Format / Container appears exactly when there are tags or a duration. Media Stream appears exactly when a video stream exists. Audio Stream appears exactly when an audio stream exists. |
| `CheckFile.FormatInOrder` | tools/checkfile.py:91-96 | The Duration line comes before the Creation Time and Encoder/Software lines. |
| `CheckFile.FourInOrder` | tools/checkfile.py:102-118 | Four single-field runs in the order the stream sections list them make an ordered run. |
| `CheckFile.TechnicalContents` | tools/checkfile.py:86-118 | The Technical Details lines are the heading, then the `FormatLines` lines, then the `VideoLines` lines of the first video stream, then the `AudioLines` lines of the first audio stream, each part empty when absent. They fail exactly when one of these parts fails. |
| `CheckFile.FromPairsIsDict` | tools/checkfile.py:41-47 | Assigning the pairs one after another gives each key once, holding the value assigned to it last. |
| `CheckFile.GetAfterInsert` | tools/checkfile.py:47 | `d[k] = v` keeps keys distinct, makes `d.get(k)` return v, and leaves every other key's value unchanged. |
| `CheckFile.CollectExif` | tools/checkfile.py:41-48 | The loop builds exactly the dict that the assignments produce. |
| `CheckFile.GetExifData` | tools/checkfile.py:36-49 | No EXIF, or an image that cannot be opened, gives the empty dict. Otherwise the dict has distinct keys, and each key maps to the value assigned to it last. |
| `CheckFile.KeptMembers` | tools/checkfile.py:123-124 | An item is listed exactly when it is in the dict and its value is shorter than 70 characters and not blank. |
| `CheckFile.KeptAppend` | tools/checkfile.py:123-124 | The filter distributes over concatenation, so dict order is kept. |
| `CheckFile.KeepExifValueMeaning` | tools/checkfile.py:124 | The filter is `len < 70` and not whitespace only. |
| `CheckFile.KeepExifValue` | tools/checkfile.py:124 | Defines the filter on an EXIF value. `KeepExifValueMeaning` states it. |
| `CheckFile.Kept` | tools/checkfile.py:123-124 | The kept items are never more than the dict's. `KeptMembers` and `KeptAppend` state which items, and in what order. |
| `CheckFile.ExifEntryLines` | tools/checkfile.py:123-125 | One line per kept item, and no heading. |
| `CheckFile.KeepExifValueExamples` | tools/checkfile.py:124 | Examples: 69 characters are kept and 70 are not; empty and blank values are dropped. |
| `CheckFile.ExifEntryLinesShowKept` | tools/checkfile.py:123-125 | The i-th EXIF line shows the i-th kept item. |
| `CheckFile.ExifLines` | tools/checkfile.py:121-125 | The EXIF section is absent exactly when the dict is empty. Otherwise it is a heading and one entry per kept item. |
| `CheckFile.AppendExifEntries` | tools/checkfile.py:123-125 | The loop appends exactly the lines of the kept items, in dict order. |
| `CheckFile.AppendExif` | tools/checkfile.py:120-125 | Appends exactly the EXIF section to the lines built so far. |
| `CheckFile.BuildReport` | tools/checkfile.py:69-125 | The appending code builds exactly the lines `Report` gives, including its error cases. |
| `CheckFile.Report` | tools/checkfile.py:69-125 | Defines the report as File Information, the technical part and EXIF. The lemmas below state its layout and sections. |
| `CheckFile.ReportOpens` | tools/checkfile.py:69-79 | A complete report's message opens with the "File Information" title and the escaped name. |
| `CheckFile.HeadingTextNamesSection` | tools/checkfile.py:69-122 | No two sections share a heading text, so a heading's text names its section. |
| `CheckFile.ReportParts` | tools/checkfile.py:69-125 | A complete report is File Information, then the technical part when the probe gave a non-empty dict, then EXIF. |
| `CheckFile.ReportLayout` | tools/checkfile.py:69-82 | A complete report starts with the five File Information lines, the first entry naming the file. |
| `CheckFile.ReportEndsWithExif` | tools/checkfile.py:120-125 | A complete report ends with the EXIF section. |
| `CheckFile.ReportExifSection` | tools/checkfile.py:121-122 | The EXIF heading appears exactly when the image had EXIF tags. |
| `CheckFile.ReportSections` | tools/checkfile.py:85-90 | Technical Details appears exactly when the probe gave a non-empty dict. Format / Container appears exactly when, in addition, there are tags or a duration. |
| `CheckFile.ReportStreamSections` | tools/checkfile.py:98-114 | Media Stream and Audio Stream each appear exactly when the probe report has a stream of that type. |
| `CheckFile.ReportOutcome` | tools/checkfile.py:84-131 | Defines the reply once the file is downloaded: the report's error, the delivery's error, or the report. |
| `CheckFile.CheckOutcomeOf` | tools/checkfile.py:54-131 | Defines the reply for an attachment: a request for media, the download's error, or `ReportOutcome`. |
| `CheckFile.Reply` | tools/checkfile.py:84-131 | The probe, the EXIF tags, the report and its delivery give exactly the reply `ReportOutcome` gives. |
| `CheckFile.CheckAttempt` | tools/checkfile.py:62-133 | The `try` block registers just the download and creates no other file. Its reply is the one `CheckOutcomeOf` gives. |
| `CheckFile.CheckFileHandler` | tools/checkfile.py:52-136 | A message without media is answered first. After the `finally` no registered non-empty path exists, and every path never registered is as it was. |
| `TempFiles.DrainRemovesRegistered` | tools/checkfile.py:134-136 | Draining in order removes exactly the registered non-empty paths, whatever their order and repetitions. |
| `TempFiles.CleanupOutcome` | tools/checkfile.py:134-136 | After cleanup no registered non-empty path exists. Every unregistered path is unchanged. |
| `TempFiles.Drain` | tools/checkfile.py:134-136 | Defines the filesystem after the loop removes, in order, each registered non-empty path that still exists. `DrainRemovesRegistered` states the result. |
| `TempFiles.Removable` | tools/checkfile.py:136 | A path is removable exactly when it is registered and non-empty (`if f`). |
| `TempFiles.TempFileSet.Write` | tools/checkfile.py:64 | A collaborator writing a file adds just that path, and registers nothing. |
| `TempFiles.TempFileSet.Register` | tools/checkfile.py:65 | `temp_files.append` adds the path at the end and touches no file. |
| `TempFiles.TempFileSet.Remove` | tools/checkfile.py:136 | `os.remove` of an existing path removes just that path. |
| `TempFiles.TempFileSet.Cleanup` | tools/checkfile.py:134-136 | The `finally` loop leaves the filesystem minus the removable registered paths, and never removes a missing path. |
| `Crop.ParseCropArg` | tools/crop.py:64-78 | No parse without a leading digit. `ParseCropArgMeaning` states the whole match. |
| `Crop.LeadingDigits` | tools/crop.py:64 | The longest run of leading ASCII digits, which is what a greedy `\d+` takes. |
| `Crop.ParseCropArgMeaning` | tools/crop.py:64-78 | The parse succeeds exactly when `(\d+)[x:](\d+)` matches at the start. It then returns the values of the two greedy groups. |
| `Crop.ParseCropArgOf` | tools/crop.py:64-78 | "W", a separator, "H" and any tail not starting with a digit parse back to (W, H). |
| `Crop.ParseCropArgExample` | tools/crop.py:50-64 | "1280x720" gives (1280, 720). |
| `Crop.ParseCropArgZeros` | tools/crop.py:64 | "0:0" gives (0, 0): zero sizes get through validation. |
| `Crop.ParseCropArgLeadingSpace` | tools/crop.py:64 | A leading space makes the prefix-anchored match fail. |
| `Crop.IsAnimation` | tools/crop.py:54 | Defines `is_animation`: an animation, or a document of type `image/gif`. |
| `Crop.IsMedia` | tools/crop.py:53 | Defines `is_media`: a photo, a video, or a document whose MIME type starts with `image/` or `video/`. |
| `Crop.IsImage` | tools/crop.py:82 | Defines `is_image`: a photo, or a document whose MIME type starts with `image/`. |
| `Crop.Validate` | tools/crop.py:52-66 | Acceptance needs media that is not an animation and an argument that parses to the accepted size. An accepted request goes down the image branch exactly when the media is an image. |
| `Crop.ValidationOrder` | tools/crop.py:53-66 | Each verdict is stated by the condition that leads to it. A document without a MIME type raises. Otherwise a GIF is refused, then non-media, then a missing argument, then a malformed one. Acceptance means every check passed. |
| `Crop.VideoBranch` | tools/crop.py:82-87 | An accepted request that is not an image is a video or a `video/` document. |
| `Crop.CropRect` | tools/crop.py:23-29 | Fails exactly when the request exceeds the image on either axis, with the source's message. Otherwise the box has exactly the requested size, lies within the image and has equal margins on both sides. |
| `Crop.CropRectCentred` | tools/crop.py:26-29 | The box's centre is the image's centre. |
| `Crop.CropRectHalfPixel` | tools/crop.py:26-27 | An odd margin puts the edges on half pixels (true division, no flooring). |
| `Crop.OutputPath` | tools/crop.py:20-21 | Defines the output path under the temp directory. `OutputPathShape` and `OutputPathDiffers` state its form. |
| `Crop.CroppedName` | tools/crop.py:20-21 | The output name has no `/`, and is the input's base name lengthened by "_cropped". |
| `Crop.OutputPathShape` | tools/crop.py:20-21 | The output path is the temp directory, the stem, "_cropped" and the extension. Stem and extension rebuild the base name. |
| `Crop.OutputPathDiffers` | tools/crop.py:20-21 | The output's base name is the cropped name, and the output never overwrites the input. |
| `Crop.CropImage` | tools/crop.py:19-33 | A download that returned no path raises `os.path.basename`'s TypeError, touching nothing. Otherwise a file is saved exactly when the image transform succeeds, and then at the output path. An oversized request raises the size error, saves nothing and crops nothing. The image is cut exactly when the size fits, with `CropRect`'s box, so a saved crop has exactly the requested size. |
| `Crop.CropFilter` | tools/crop.py:38 | Defines the filter text. `CropFilterReadsBack` states what it holds. |
| `Crop.FfmpegCommand` | tools/crop.py:39 | Defines the ffmpeg command line. `FfmpegCommandCrops` states what it holds. |
| `Crop.FfmpegCommandCrops` | tools/crop.py:36-39 | The command quotes the input path, then the whole crop filter, whose size reads back as (W, H), and ends with the quoted output path. Its length is theirs plus 35 fixed characters. |
| `Crop.CropFilterReadsBack` | tools/crop.py:38 | After "crop=" the filter starts with "W:H", which the argument parser reads back as (W, H). |
| `Crop.CropVideo` | tools/crop.py:35-42 | A download that returned no path raises `os.path.basename`'s TypeError, and ffmpeg never runs. Otherwise it succeeds exactly when ffmpeg ran and exited 0, returning the output path. On a non-zero exit it raises "FFmpeg crop failed: " followed by the stripped stderr. Whether a file was left behind is independent of the exit code. The command run is `FfmpegCommand` for the requested size. |
| `Crop.RunCrop` | tools/crop.py:39-42 | Running the command: success exactly on exit 0, with the output path; otherwise the "FFmpeg crop failed: " error with the stripped stderr. The command is `FfmpegCommand`. |
| `Crop.CropErrorText` | tools/crop.py:104-106 | The error text is the fixed prefix, the escaped message and "</code>". Unescaping the middle gives back the message. |
| `Crop.Caption` | tools/crop.py:93 | Defines the caption. `CaptionReadsBack` states what it holds. |
| `Crop.CaptionReadsBack` | tools/crop.py:93 | The caption's size reads back as the parsed (W, H). |
| `Crop.Attempt` | tools/crop.py:72-106 | The `try` block creates the download and, when the transform writes one, the output (`WrittenOf`). It registers the paths `RegisteredOf` gives, and replies with the outcome `OutcomeOf` gives. |
| `Crop.OutcomeOf` | tools/crop.py:56-106 | Defines the handler's outcome: an escaping exception, a validation reply, the download's error, the transform's error, the delivery's error, or the cropped file with its caption. |
| `Crop.RegisteredOf` | tools/crop.py:75-89 | Defines `temp_files`: the download, then the output once the transform returned it. `RegistrationOrder` states it. |
| `Crop.WrittenOf` | tools/crop.py:74-87 | Defines the files the request creates: the download unless its path is empty, and the output when the transform left one. |
| `Crop.Proceed` | tools/crop.py:75-102 | After the download: register it, run the transform, register its result only when it returned, then send. |
| `Crop.HandleVerdict` | tools/crop.py:56-110 | Reply, `temp_files` and the final filesystem are as specified; the final filesystem is the drained one. |
| `Crop.CropHandler` | tools/crop.py:45-110 | The whole handler: validation, then the verdict's handling. After the `finally` no registered non-empty path exists, and every path never registered exists exactly when it did before or the request created it. |
| `Crop.NothingBeforeValidation` | tools/crop.py:56-66 | A request that fails validation registers and writes nothing, and only replies or raises. |
| `Crop.RegistrationOrder` | tools/crop.py:75-89 | The download is registered first. The output is registered second, and only when the transform returned. |
| `Crop.FailedVideoLeavesOutput` | tools/crop.py:85-110 | When ffmpeg fails after writing its output for a downloaded path, the output is never registered and survives the cleanup. |
| `Crop.TransformWork` | tools/crop.py:84-87 | With no download path either transform raises the TypeError and does nothing. Otherwise a video is cropped by `FfmpegCommand` for the requested size. A successful image crop cut a box of exactly the requested size. |
| `Crop.SuccessCleansUp` | tools/crop.py:89-110 | After a successful transform, neither the download nor the output remains, and nothing else changes. |
| `PyText.RoundHalfEvenUnique` | tools/checkfile.py:111 | Half-even rounding is the only integer within half a unit of the quotient that is even on a tie. |
| `PyText.ParseIntOfIntToString` | tools/checkfile.py:108 | `int(str(n)) == n` for every integer. |
| `PyText.Pad2ReadsBack` | tools/checkfile.py:94 | `int(f"{n:02d}") == n`. |
| `PyText.UnescapeEscape` | tools/checkfile.py:79 | `html.unescape(html.escape(s)) == s`. |
| `PyText.Escape` | tools/checkfile.py:79 | The escaped text contains no `<`, `>`, `"` or `'`. |
| `PyText.StripEmptyIffBlank` | tools/checkfile.py:124 | `s.strip()` is empty exactly when `s` is whitespace only. |
| `PyText.SplitOnCount` | tools/checkfile.py:108 | `split('/')` gives one more part than there are separators. |
| `PyText.TruncToInt` | tools/checkfile.py:93 | `int()` of a float truncates toward zero. |

## Left out

- The tail of `format_bytes` (`FormatBytes`):
  - `math.log` is idealised as the exact integer logarithm. The floating-point logarithm can misplace sizes at or just below a power of 1024.
  - The hundredths are rounded on the exact quotient. For sizes below 2^53 the quotient is exact as a float, and the repr is the shortest decimal.
- `CheckFile.FramerateLine`: for a non-zero denominator the line keeps the two integers, not the text of the float `round(num / den, 2)`. Reproducing that text would need IEEE double rounding.
- `CheckFile.Kbps`: rounds the exact quotient half to even. Python rounds the float `bits / 1000`, which agrees except where the float conversion itself moves a value across a half.
- `PyText.ParseInt` accepts ASCII digits only. Python's `int()` also accepts other Unicode decimal digits, and `\d` in the crop pattern matches them too.
- `PyText.Upper` upper-cases ASCII letters only. Unicode case mapping is not modelled.
- The join of the report lines with `"\n"`, and the HTML the chat client renders, are not modelled. The report is its ordered list of lines.
- The messaging layer has no model beyond its results. That covers the progress-message edits, `del_in` timers, message deletion, reply parameters and the chat ids.
- The ffprobe JSON is given as typed fields after `json.loads`. A field of an unexpected JSON type, which would raise in the Python code, is not modelled.
- The text of a Python exception (`str(e)`) is an input string. The exception is the TypeError of `os.path.basename(None)` when `download_media` returns no path (the empty path in the model); that text is a constant.
- `CheckFile.FramerateEmitted`: `num / den` is a float division, and a quotient beyond the float range (about 1.8e308) raises OverflowError, which the bare `except` turns into a dropped line. The model emits the line. ffprobe writes framerates as ratios of 32-bit integers, which stay far inside that range.
- `CheckFile.FramerateOfRatio`: for the same reason, a ratio whose quotient exceeds the float range shows no line in Python, where the lemma gives `Fps(num, den)`.
- `CheckFile.BitrateLines`: `round(int(bit_rate) / 1000)` raises OverflowError for bit rates above about 1.8e311, which makes the whole report fail. The model shows a Bitrate field. ffprobe writes bit rates as 64-bit integers.
- `CheckFile.VideoLines`: inherits the bit-rate overflow gap of `BitrateLines` in its error condition.
- `CheckFile.AudioLines`: inherits the same bit-rate overflow gap.
- `PyText.ParseIntOfIntToString`: since Python 3.10.7, `int()` of a string and `str()` of an int refuse more than 4300 digits with ValueError. The model has no digit limit, so `int(str(n)) == n` holds here for integers of every length.
- `Crop.ParseCropArg`: `int()` of the two groups (tools/crop.py:77-78) refuses more than 4300 digits since Python 3.10.7. The model's digit values have no limit. The argument comes from a Telegram text message, which holds at most 4096 characters, so the refusal cannot be reached.
- `PyText.ParseInt`: has no digit limit either. The conditions that rely on it, such as both halves of a framerate parsing with `int()`, ignore the 4300-digit refusal. ffprobe's values are far shorter.
- The ffprobe command line (tools/checkfile.py:30) is not modelled: `GetProbeData` starts from the captured result of running it.
- `CheckFile.DurationLines`: "inf" and "nan" durations, which `float()` accepts and `int()` then rejects, are given as an unshowable duration. The model does not tell them apart from text `float()` rejects.
- `checkfile_handler`'s error text is not modelled character by character. The reply keeps the error as a value.
- `getattr(media_object, 'file_size', 0)` is an integer input. An attribute that exists but holds None is not modelled.
- A `mime_type` attribute that exists but holds None, which the Python code would print as "None", is modelled as absent ("N/A").
- PIL itself has no model: decoding, the mode conversion to RGB and the pixel data. `img.crop` with fractional edges rounds them inside PIL, and only the box handed over is modelled.
- Subprocess execution, encoding errors in decoding the output, and concurrency (`asyncio.to_thread`) are reduced to a captured result.
- `os.remove` failing on an existing path (permissions) is left out. The model's `Remove` requires the path to exist, which the loop's guard ensures.
- `fun/ascii.py` is not part of this model.
