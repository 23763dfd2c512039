# imessage_to_html, modelled in Dafny

`imessage_to_html.py` exports one iMessage conversation from the
Messages database (`chat.db`) to an HTML transcript, `./output.html`,
and copies the attachments of the conversation to `./attachments`. It
runs once, from top to bottom:

1. It looks up the user.
2. It lets the owner pick one of the chats that contain the user.
3. It asks for an optional year, an optional month, a UTC offset, the
   owner's name and a name for every member of the chat.
4. It converts each message's timestamp to local time and keeps only the
   messages of the chosen year and month.
5. It writes one paragraph per message, with a day header wherever the
   day of the month changes.

This project models the decision and assembly code that sits between the
database queries and the file writes. Query results, the typed answers
and the state of the file system are inputs. Each `exit(...)` and each of the
exceptions listed in `Failure` (IndexError for no chat, FileExistsError
for `./attachments`, FileNotFoundError for a missing attachment, KeyError
for an unnamed handle) becomes a `Failure` value. The
modules follow the stages of the script:

| file | module | what it holds |
|---|---|---|
| `wrappers.dfy` | `Wrappers` | `Option` and `Result` |
| `model.dfy` | `Model` | the output constants, the rows of the message query before (`RawMessage`) and after (`Message`) the local time is attached, the `Stamp` fields the script reads, a `Copy` action, and the `Failure` reasons that end a run |
| `pytext.dfy` | `PyText` | the standard-library text helpers, written out: `html.escape(s, quote=True)`, `str(n)`, `str.strip()`, base-10 `int(s)` with the narrower set of whitespace it skips, and POSIX `os.path.splitext` |
| `queries.dfy` | `Queries` | `unpack_column`, the chat choice of `get_chat_id`, and the name map of `get_other_names` |
| `answers.dfy` | `Answers` | `get_int`, `get_year`, `get_month`, `get_utc_offset` |
| `prepare.dfy` | `Prepare` | `prepare_messages` |
| `render.dfy` | `Render` | the loop of `write_messages` as methods over a fragment stream, and the function `Run` they are proved against |
| `render_properties.dfy` | `RenderProperties`, `RenderScenario` | what a whole pass of `write_messages` produces; a worked two-message conversation |

The loops of the script are methods with loops: `UnpackColumn`,
`OtherNames`, `PrepareMessages` and `WriteMessages`. Each method is
proved equal to a function of its inputs, or states its result outright.

- A `file.write` is one element of a `seq<string>` of fragments.
- A `shutil.copyfile` is one `Copy(source, dest)` action.

`Run` is the function behind `WriteMessages`. It is defined from the
last message back and gives the blocks written, the copies made, the
final `last_day` / `attachment_id`, and the failure, if any. The
properties about a whole pass are proved about `Run`.

Where the written code and the intended design part ways, the model
follows the code:

- Handle 0 is shown under the owner's name.
- A missing attachment file ends the run with FileNotFoundError. The
  intended design asks for an inline "not found" notice instead.
- The placeholder test looks only at the first character of the text.
  The design speaks of text that is solely the placeholder.
- No chat at all ends in IndexError.
- The day header compares only the day of the month.
- A name is asked for every member of the chat, whether or not they
  wrote anything.

## Model

| member | source | states |
|---|---|---|
| Queries.UnpackColumn | imessage_to_html.py:17-21 | the result has one element per row, and element i is field 0 of row i |
| Queries.SelectChat | imessage_to_html.py:49-74 | one chat: it is returned without reading the answer; several: success exactly when the answer parses as an integer s with 1 <= s <= number of chats, the result is chat s - 1, unparsable text exits naming the text, an out-of-range number exits naming the number; none: IndexError; a result is always one of the chats |
| Queries.SelectChatByNumber | imessage_to_html.py:63-71 | typing `str(s)` selects chat s - 1 when 1 <= s <= number of chats and exits with that number otherwise |
| Queries.OtherNames | imessage_to_html.py:138-143 | one prompt per member, in query order, naming the member's user id; the keys of the map are exactly the members' handles; each handle is bound to the answer given for its last occurrence |
| Queries.HandlesOfMembers | imessage_to_html.py:139-142 | a handle is a key exactly when some member row has it |
| Answers.GetInt | imessage_to_html.py:100-107 | blank answer with blanks allowed: None; otherwise the value `int()` gives, or an exit naming the answer exactly when `int()` raises |
| Answers.GetIntOfBlank | imessage_to_html.py:102-107 | a blank answer is None when allowed and an exit otherwise |
| Answers.GetIntOfSeparator | imessage_to_html.py:100-107 | an answer starting with U+001C is not blank to `strip()` and not an integer to `int()`, so the run exits naming it, whether or not blanks are allowed |
| Answers.GetIntOfNumber | imessage_to_html.py:104-105 | typing `str(n)` yields n |
| Answers.GetYear | imessage_to_html.py:110-111 | success exactly for a blank answer or an integer; a blank answer gives None (every year); an integer answer is returned as typed; any other answer exits naming the text |
| Answers.GetMonth | imessage_to_html.py:114-118 | success exactly for a blank answer or an integer in 0..12; blank gives None; an integer in 0..12 is returned as typed; unparsable text exits naming the text; an integer outside 0..12 exits naming that integer |
| Answers.GetMonthOfNumber | imessage_to_html.py:114-118 | a typed month m is accepted exactly when 0 <= m <= 12, so 0 passes unchecked; other values exit naming m |
| Answers.GetUtcOffset | imessage_to_html.py:121-122 | success exactly when the answer is an integer, which is returned; a blank answer exits |
| Prepare.PrepareMessages | imessage_to_html.py:146-158 | the result equals `Prepared` of the rows, the year, the month and the offset |
| Prepare.PreparedIsFilteredSubsequence | imessage_to_html.py:146-158 | the output is the input at strictly increasing positions; text, handle, is_from_me and attachment are unchanged, and the stamp is the local time; a position is kept exactly when its local time passes both filters |
| Prepare.KeptIndicesIncrease | imessage_to_html.py:148-157 | kept positions lie in the input and strictly increase |
| Prepare.KeptIndicesExact | imessage_to_html.py:153-156 | a row is kept exactly when its local stamp matches the year that is set and the month that is set |
| Prepare.PreparedAtKept | imessage_to_html.py:149-157 | output row k is input row at the k-th kept position with its local time |
| Prepare.PreparedMatchesFilters | imessage_to_html.py:153-156 | every kept row has the chosen year when one is set and the chosen month when one is set |
| Prepare.MonthZeroKeepsNothing | imessage_to_html.py:155-156 | with month 0, which `get_month` lets through, no row with a real month (1..12) is kept |
| Render.WriteMessages | imessage_to_html.py:161-194 | the fragments written, the copies made and the failure are those of `Render`: nothing when the attachments directory exists, else the head, the blocks of `Run`, and the tail or the partial block of the message that raised |
| Render.WriteMessage | imessage_to_html.py:170-193 | one loop body performs the step `StepMessage` defines: a whole block with its copies and the new `last_day` / `attachment_id`, or the fragments written before the exception and the exception |
| Render.WriteOpening | imessage_to_html.py:171-176 | a day header with the date text exactly when the day differs from `last_day`, then the opening with the alignment; `last_day` becomes the message's day |
| Render.CopyAttachment | imessage_to_html.py:177-184 | a missing source raises before anything is written or copied; otherwise a non-plugin attachment is copied to `./attachments/<attachment_id><ext>`, linked by its escaped path, and the counter goes up by one; nothing else touches the counter |
| Render.WriteText | imessage_to_html.py:185-186 | the escaped text is written exactly when it is non-empty and either its first character is not U+FFFC or the row has no attachment |
| Render.WriteSignature | imessage_to_html.py:187-193 | the escaped owner's name when is_from_me or handle 0, else the escaped bound name, then the time text; an unbound handle raises KeyError before either is written |
| Render.StepOfMissingAttachment | imessage_to_html.py:171-181 | unfolding of `StepMessage`: a message whose attachment source is missing leaves its header and opening and raises FileNotFoundError |
| Render.StepOfUnknownHandle | imessage_to_html.py:171-190 | unfolding of `StepMessage`: a correspondent's message whose handle has no name leaves header, opening, link and text, keeps its copy, and raises KeyError |
| Render.StepOfDelivered | imessage_to_html.py:170-193 | unfolding of `StepMessage`: a message that raises nothing writes its whole block and moves `last_day` to its day and the counter past its copy |
| Render.RunStep | imessage_to_html.py:169-193 | unfolding of `Run`: the pass over one more message is one step after the pass before it |
| Render.RunKeepsAbort | imessage_to_html.py:169-193 | once a message raised, later messages change nothing |
| RenderProperties.StepFailure | imessage_to_html.py:177-190 | a step raises exactly when its message would raise in any state, and raises that exception |
| RenderProperties.RunSucceedsIffClean | imessage_to_html.py:169-193 | the pass ends without exception exactly when no message raises |
| RenderProperties.RunOfCleanState | imessage_to_html.py:167-184 | after a pass without exception, `last_day` is the day of the last message, `attachment_id` the number of copied attachments, one block per message |
| RenderProperties.RunOfCleanBlocks | imessage_to_html.py:169-193 | block i is written in the state the messages before i leave |
| RenderProperties.RunOfCleanCopies | imessage_to_html.py:177-184 | the k-th copy takes the k-th copied attachment to `./attachments/k<ext>` |
| RenderProperties.RunOfClean | imessage_to_html.py:167-193 | the three statements above together |
| RenderProperties.BlockAt | imessage_to_html.py:169-193 | in a pass without exception, message i writes a whole block, in the state the messages before i leave |
| RenderProperties.DayHeaderAt | imessage_to_html.py:167-174 | message i gets a header exactly when it is the first or its day of the month differs from message i - 1's; the header shows its own date |
| RenderProperties.DayHeadersOfClean | imessage_to_html.py:167-174 | message i gets a header exactly when it is the first or its day of the month differs from message i - 1's; the header shows its own date |
| RenderProperties.AttachmentAt | imessage_to_html.py:168-184 | message i links an attachment exactly when it copies one, to the file numbered by the copies before it, and the count goes up by one exactly then |
| RenderProperties.AttachmentNumbering | imessage_to_html.py:168-184 | message i links an attachment exactly when it copies one (present and not a plugin payload), numbered by the copies before it; the count goes up by one for it and stays for every other message |
| RenderProperties.BlockContentsAt | imessage_to_html.py:175-191 | block i satisfies `MessageContents` for message i: left alignment exactly for the owner's messages, otherwise right; text shown escaped exactly under the placeholder rule; the sender name is the escaped owner's name for is_from_me or handle 0, the escaped bound name otherwise |
| RenderProperties.BlockContentsOfClean | imessage_to_html.py:175-191 | every block satisfies `MessageContents`: left alignment exactly for the owner's messages; text shown escaped exactly under the placeholder rule; the sender name is the escaped owner's name for is_from_me or handle 0, the escaped bound name otherwise |
| RenderProperties.DestPathInjective | imessage_to_html.py:180 | two destination names agree only for the same number and the same extension |
| RenderProperties.DistinctDestinations | imessage_to_html.py:177-184 | no two copies of a pass go to the same file |
| RenderProperties.RunStopsAtFirstFailure | imessage_to_html.py:169-193 | when message j is the first that raises, the pass raises its exception after exactly the j blocks before it |
| RenderProperties.RenderSucceedsIff | imessage_to_html.py:161-194 | the run ends normally exactly when the attachments directory was absent and no message raises, and then the file is head, one block per message, tail |
| RenderScenario.PhotoExtension | imessage_to_html.py:178 | `os.path.splitext("photo.jpg")[-1]` is `.jpg` |
| RenderScenario.PhotoConversationTranscript | imessage_to_html.py:161-194 | "hi" from the owner then a photo from the correspondent: no failure, two blocks, one copy to `./attachments/0.jpg` |
| RenderScenario.PhotoConversationBlocks | imessage_to_html.py:169-193 | in that conversation only the first block has a header; "hi" is shown on the left, the photo's placeholder text is hidden, the photo is on the right under the correspondent's escaped name |
| PyText.EscapeIsMarkupFree | imessage_to_html.py:182-191 | escaped text holds no raw `<`, `>`, `"` or `'` |
| PyText.UnescapeEscape | imessage_to_html.py:182-191 | escaping loses nothing: reading the entities back gives the original text |
| PyText.EscapePlain | imessage_to_html.py:186 | text without `&<>"'` is written unchanged |
| PyText.PyIntOfBlank | imessage_to_html.py:102-105 | text that `strip()` empties is never an integer to `int()` |
| PyText.PyIntOfSeparator | imessage_to_html.py:102-105 | `strip()` drops a leading U+001C, while `int()` refuses it |
| PyText.PyIntOfIntToString | imessage_to_html.py:104-105 | `int(str(n)) == n` |
| PyText.NatToStringValue | imessage_to_html.py:180 | `str(n)` of a non-negative number is a non-empty digit run with value n |
| PyText.NatToStringInjective | imessage_to_html.py:180 | distinct counter values print differently |
| PyText.SplitextParts | imessage_to_html.py:178 | root + extension is the path; the extension is empty or a `.` followed by no further `.` or `/` |
| PyText.ExtensionOfFileName | imessage_to_html.py:178 | a name with no `/` whose last `.` is at position k: the extension is everything from k on, or empty when everything before k is dots (a leading `.` starts no extension) |

## Left out

- The SQLite queries (`get_handle_ids`, `retrieve_messages` and the queries inside `get_chat_id` and `get_other_names`) are foreign I/O. Their results are inputs: the list of chat ids, the member rows, the message rows.
- `get_handle_ids` is left out as a whole. It is a query plus an `exit` for an unknown user id.
- `input()` is not modelled. Each answer is a parameter. The prompts and the listing of chat options with padded numbers (imessage_to_html.py:50-62) are console output and are left out. `OtherNames` returns the user ids it would name in its prompts.
- The wording of the `exit(...)` messages is left out. Each `Failure` carries the value the message names.
- `main` and `prevent_overwrite` are left out. This includes the order of the prompts and the rule that the month is asked only when a year was given (imessage_to_html.py:205). `PrepareMessages` accepts any combination of filters.
- The timestamp conversion (imessage_to_html.py:150-152) is left out. Its float division, `timedelta` arithmetic and calendar rules become the parameter `localTime(nanoseconds, utcOffset)`. The microseconds of the stamp are not kept, since the script never prints them.
- `strftime` (imessage_to_html.py:172, 192) is left out. It is library formatting; the date and time texts are the parameters `dateText` and `timeText`.
- The file system is left out and given as parameters: `path.expanduser`, whether a copy's source exists, and whether `./attachments` exists. `os.makedirs` and `shutil.copyfile` failures other than those two (permissions, a full disk) are not modelled.
- Open-file buffering is not modelled. The output file is the concatenation of the fragments written. When a message raises, the fragments written up to that point stay in the file, as the `with` block leaves them.
- `print('Processing...')` and `print('Done.')` are console output and are left out.
- PyText.PyInt: only ASCII digits are read. Python's `int()` also accepts digits of other scripts, such as Arabic-Indic digits, and such an answer is an error in the model.
- PyText.PyInt: the limit on digits of Python 3.11 and later is not modelled. There `int()` raises ValueError for a literal of more than `sys.int_info.default_max_str_digits` (4300) digits; the model reads a literal of any length, as Python before 3.11 does.
- Answers.GetInt, Answers.GetYear, Answers.GetMonth, Answers.GetUtcOffset, Answers.GetIntOfNumber, Answers.GetMonthOfNumber, Queries.SelectChat, Queries.SelectChatByNumber and PyText.PyIntOfIntToString use that `int()`. Under the limit, an answer of more than 4300 digits exits as not an integer (for `SelectChat`, instead of as an unavailable option), and `str(n)` itself raises for such an n.
- Other exceptions the script does not catch are not modelled: OverflowError from `timedelta` for an out-of-range offset or timestamp (imessage_to_html.py:150-152), EOFError from `input()` at end of input, the TypeError of `', '.join` when a chat member has a NULL `handle.id` (imessage_to_html.py:62), and `os.makedirs` / `shutil.copyfile` errors other than the two in `Failure`.
- Queries.UnpackColumn: requires every row to have a first field. Each query selects at least one column, so the IndexError of an empty row cannot arise.
- RenderProperties.RunOfClean, DayHeadersOfClean, AttachmentNumbering, BlockContentsOfClean and DistinctDestinations describe passes in which no message raises. A pass that raises is described only up to the first failing message (`RunStopsAtFirstFailure`) and by `WriteMessage` for the partial block.
