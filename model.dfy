/**
 * The values the export script passes between its stages: the rows of
 * the message query, the same rows with a local timestamp, the copy
 * actions of the renderer, and the conditions that end the run.
 */
module Model {
  import opened Wrappers

  /** `./output.html`, the transcript written by the renderer. */
  const OUTPUT_FILENAME: string := "./output.html"
  /** `./attachments`, the directory attachment copies go to. */
  const ATTACHMENTS_DIR: string := "./attachments"
  const HTML_HEAD: string := "<html>\n<head>\n<meta charset=\"utf-8\"/>\n</head>\n<body>\n"
  const HTML_TAIL: string := "</body>\n</html>"

  /**
   * The calendar fields of a local `datetime` that the script reads
   * (seconds are whole; the microsecond part is not kept).
   */
  datatype Stamp = Stamp(year: int, month: int, day: int, hour: int, minute: int, second: int)

  /**
   * One row of the message query: `message.text` (NULL is `None`),
   * `message.handle_id`, `message.date` in nanoseconds since
   * 2001-01-01 UTC, `message.is_from_me`, and `attachment.filename`
   * (`None` for a message the LEFT JOIN found no attachment for).
   */
  datatype RawMessage = RawMessage(
    text: Option<string>,
    handle: int,
    nanoseconds: int,
    isFromMe: bool,
    attachment: Option<string>)

  /** A row after `prepare_messages`: the nanosecond count replaced by the local time. */
  datatype Message = Message(
    text: Option<string>,
    handle: int,
    stamp: Stamp,
    isFromMe: bool,
    attachment: Option<string>)

  /** One `shutil.copyfile(source, dest)` call. */
  datatype Copy = Copy(source: string, dest: string)

  /** Why a run stops: each `exit(...)` and each exception the script does not catch. */
  datatype Failure =
    | NotAnInteger(answer: string)     // `int()` raised ValueError
    | NotAnOption(selection: int)      // chat number outside 1..number of chats
    | InvalidMonth(month: int)         // month outside 1..12
    | NoChat                           // IndexError: no chat contains the user
    | AttachmentsDirExists             // `os.makedirs` raised FileExistsError
    | MissingAttachment(path: string)  // `shutil.copyfile` raised FileNotFoundError
    | UnknownHandle(handle: int)       // `other_names[handle]` raised KeyError
}
