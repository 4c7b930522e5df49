/** What both command handlers receive from the messaging layer and from the
    subprocess runner. */
module Media {
  import opened Wrappers
  import opened PyText

  /** The replied-to message, resolved once into the kind of attachment it
      carries. A document keeps its MIME type, which the library may leave unset. */
  datatype Attachment =
    | NoReply                                // the command does not reply to a message
    | NoMedia                                // the replied message carries no media
    | Photo
    | Video
    | Animation
    | Document(mimeType: Option<string>)
    | Audio
    | Voice
    | Sticker
    | OtherMedia                             // media without a downloadable object (a poll, a location, ...)

  /** What `asyncio.create_subprocess_shell(...).communicate()` captured, decoded as text. */
  datatype ProcessResult = ProcessResult(stdout: string, stderr: string, exitCode: int)

  /** `run_command`'s result: both streams stripped of surrounding whitespace,
      the exit code passed through uninterpreted. */
  function RunCommand(raw: ProcessResult): (r: ProcessResult)
    ensures r.exitCode == raw.exitCode
    ensures (r.stdout == "") == IsBlank(raw.stdout)
    ensures (r.stderr == "") == IsBlank(raw.stderr)
  {
    StripEmptyIffBlank(raw.stdout);
    StripEmptyIffBlank(raw.stderr);
    ProcessResult(Strip(raw.stdout), Strip(raw.stderr), raw.exitCode)
  }
}
