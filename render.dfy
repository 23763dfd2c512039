/**
 * `write_messages`: one pass over the prepared rows that writes the HTML
 * transcript and copies the attachments. The pass keeps the day of the
 * last header written and the number of attachments copied so far.
 *
 * The outside world is a parameter (`Env`): the two `strftime` formats,
 * `path.expanduser`, whether a copy finds its source file, and whether
 * the attachments directory is already there. Each `file.write` is one
 * element of the fragment stream; each `shutil.copyfile` is a `Copy`.
 */
module Render {
  import opened Wrappers
  import opened PyText
  import opened Model

  /** The extension of the placeholder files Messages keeps for app plugins; never copied. */
  const PLUGIN_PAYLOAD_EXT: string := ".pluginPayloadAttachment"

  /** U+FFFC OBJECT REPLACEMENT CHARACTER (65532): the text of a message that is only an attachment. */
  const PLACEHOLDER: char := 65532 as char

  datatype Env = Env(
    dateText: Stamp -> string,     // stamp.strftime('%A, %B %d, %Y')
    timeText: Stamp -> string,     // stamp.strftime('%I:%M:%S %p')
    expandUser: string -> string,  // path.expanduser
    fileExists: string -> bool,    // whether shutil.copyfile finds its source
    attachmentsDirExists: bool)    // whether os.makedirs finds ./attachments already there

  /** `last_day` and `attachment_id`. */
  datatype RenderState = RenderState(lastDay: Option<int>, attachmentId: nat)

  /**
   * What the pass writes for one message: the day header's date text if
   * one is written, the alignment, the escaped link target if an
   * attachment was copied, the escaped text if shown, the escaped sender
   * name and the time text.
   */
  datatype Block = Block(
    header: Option<string>,
    align: string,
    link: Option<string>,
    text: Option<string>,
    name: string,
    time: string)

  // ---------------------------------------------------------------------
  // The per-message rules
  // ---------------------------------------------------------------------

  /** `'left' if is_from_me else 'right'`. */
  function Alignment(isFromMe: bool): (align: string) {
    if isFromMe then "left" else "right"
  }

  /** The attachment is copied unless it is a plugin payload. */
  predicate CopiesAttachment(m: Message) {
    m.attachment.Some? && Extension(m.attachment.value) != PLUGIN_PAYLOAD_EXT
  }

  /** `text and (ord(text[0]) != 65532 or attachment is None)`. */
  predicate ShowsText(m: Message) {
    m.text.Some? && |m.text.value| > 0 && (m.text.value[0] != PLACEHOLDER || m.attachment.None?)
  }

  /** `is_from_me or handle == 0`: the row is shown under the owner's name. */
  predicate ByOwner(m: Message) {
    m.isFromMe || m.handle == 0
  }

  /** `path.join(ATTACHMENTS_DIR, str(attachment_id) + ext)`. */
  function DestPath(id: nat, ext: string): (dest: string) {
    ATTACHMENTS_DIR + "/" + NatToString(id) + ext
  }

  /** The attachment is to be copied but its source file is not there. */
  predicate MissingSource(m: Message, env: Env) {
    CopiesAttachment(m) && !env.fileExists(env.expandUser(m.attachment.value))
  }

  /** The exception a message raises, whatever state the pass is in. */
  function MessageFailure(m: Message, otherNames: map<int, string>, env: Env): (failure: Option<Failure>) {
    if MissingSource(m, env) then
      Some(MissingAttachment(env.expandUser(m.attachment.value)))
    else if !ByOwner(m) && m.handle !in otherNames then
      Some(UnknownHandle(m.handle))
    else
      None
  }

  // ---------------------------------------------------------------------
  // The fragments written
  // ---------------------------------------------------------------------

  function DayHeader(date: string): (line: string) { "<h2>" + date + "</h2>\n" }
  function Opening(align: string): (line: string) { "<p style=\"text-align:" + align + "\">\n" }
  function LinkLine(target: string): (line: string) { "<a href=\"" + target + "\">Attachment</a><br>\n" }
  function TextLine(text: string): (line: string) { text + "<br>\n" }
  function NameLine(name: string): (line: string) { "<small>" + name + "</small><br>\n" }
  function TimeLine(time: string): (line: string) { "<small>" + time + "</small><br>\n</p>" }

  function HeaderLines(date: Option<string>): (lines: seq<string>) {
    if date.Some? then [DayHeader(date.value)] else []
  }
  function LinkLines(target: Option<string>): (lines: seq<string>) {
    if target.Some? then [LinkLine(target.value)] else []
  }
  function TextLines(text: Option<string>): (lines: seq<string>) {
    if text.Some? then [TextLine(text.value)] else []
  }

  function BlockFragments(b: Block): (fragments: seq<string>) {
    HeaderLines(b.header) + [Opening(b.align)] + LinkLines(b.link)
      + TextLines(b.text) + [NameLine(b.name), TimeLine(b.time)]
  }

  function AllFragments(blocks: seq<Block>): (fragments: seq<string>)
    decreases |blocks|
  {
    if blocks == [] then []
    else AllFragments(blocks[..|blocks| - 1]) + BlockFragments(blocks[|blocks| - 1])
  }

  // ---------------------------------------------------------------------
  // The pass, one message at a time
  // ---------------------------------------------------------------------

  /** A message either writes its whole block, or raises after writing `partial`. */
  datatype Step =
    | Emitted(block: Block, copies: seq<Copy>, next: RenderState)
    | Aborted(partial: seq<string>, copies: seq<Copy>, failure: Failure)

  /** The day header's date text: written when the day differs from `last_day`. */
  function HeaderOf(lastDay: Option<int>, m: Message, env: Env): (date: Option<string>) {
    if lastDay != Some(m.stamp.day) then Some(env.dateText(m.stamp)) else None
  }

  /** The copy made for the message: its attachment, copied under the next number. */
  function CopiesOf(attachmentId: nat, m: Message, env: Env): (copies: seq<Copy>) {
    if CopiesAttachment(m) then
      [Copy(env.expandUser(m.attachment.value), DestPath(attachmentId, Extension(m.attachment.value)))]
    else []
  }

  /** The escaped link target written for a copied attachment. */
  function LinkOf(attachmentId: nat, m: Message): (target: Option<string>) {
    if CopiesAttachment(m) then Some(Escape(DestPath(attachmentId, Extension(m.attachment.value)))) else None
  }

  /** The escaped text written, if any. */
  function ShownText(m: Message): (shown: Option<string>) {
    if ShowsText(m) then Some(Escape(m.text.value)) else None
  }

  /** The name shown under the message. */
  function SenderName(m: Message, myName: string, otherNames: map<int, string>): (name: string)
    requires ByOwner(m) || m.handle in otherNames
  {
    if ByOwner(m) then myName else otherNames[m.handle]
  }

  /** The block of a message that raises nothing, in state `st`. */
  function DeliveredBlock(st: RenderState, m: Message, myName: string, otherNames: map<int, string>, env: Env): (block: Block)
    requires ByOwner(m) || m.handle in otherNames
  {
    Block(HeaderOf(st.lastDay, m, env), Alignment(m.isFromMe), LinkOf(st.attachmentId, m), ShownText(m),
          Escape(SenderName(m, myName, otherNames)), env.timeText(m.stamp))
  }

  function StepMessage(st: RenderState, m: Message, myName: string,
                       otherNames: map<int, string>, env: Env): (step: Step)
  {
    var lead := HeaderLines(HeaderOf(st.lastDay, m, env)) + [Opening(Alignment(m.isFromMe))];
    if MissingSource(m, env) then
      Aborted(lead, [], MissingAttachment(env.expandUser(m.attachment.value)))
    else if !ByOwner(m) && m.handle !in otherNames then
      Aborted(lead + LinkLines(LinkOf(st.attachmentId, m)) + TextLines(ShownText(m)), CopiesOf(st.attachmentId, m, env),
              UnknownHandle(m.handle))
    else
      Emitted(DeliveredBlock(st, m, myName, otherNames, env),
              CopiesOf(st.attachmentId, m, env),
              RenderState(Some(m.stamp.day), st.attachmentId + |CopiesOf(st.attachmentId, m, env)|))
  }

  datatype Abort = Abort(partial: seq<string>, failure: Failure)

  /** The blocks written, the copies made and the state reached; `abort` once a message raised. */
  datatype Pass = Pass(blocks: seq<Block>, copies: seq<Copy>, state: RenderState, abort: Option<Abort>)

  /** The pass over `messages` (defined from the last message back). */
  function Run(messages: seq<Message>, myName: string, otherNames: map<int, string>, env: Env): (pass: Pass)
    decreases |messages|
  {
    if messages == [] then Pass([], [], RenderState(None, 0), None)
    else
      var p := Run(messages[..|messages| - 1], myName, otherNames, env);
      if p.abort.Some? then p
      else
        match StepMessage(p.state, messages[|messages| - 1], myName, otherNames, env)
        case Emitted(b, c, next) => Pass(p.blocks + [b], p.copies + c, next, None)
        case Aborted(partial, c, f) => Pass(p.blocks, p.copies + c, p.state, Some(Abort(partial, f)))
  }

  /** What is left behind: the fragments in the output file, the copies made, and why the run stopped. */
  datatype Transcript = Transcript(fragments: seq<string>, copies: seq<Copy>, failure: Option<Failure>)

  /**
   * The whole of `write_messages`: `os.makedirs` first (nothing is written
   * if the directory is there), then the head, the blocks, and the tail
   * unless a message raised; the `with` block keeps what was written.
   */
  function Render(messages: seq<Message>, myName: string, otherNames: map<int, string>, env: Env): (transcript: Transcript) {
    if env.attachmentsDirExists then Transcript([], [], Some(AttachmentsDirExists))
    else
      var p := Run(messages, myName, otherNames, env);
      match p.abort
      case None => Transcript([HTML_HEAD] + AllFragments(p.blocks) + [HTML_TAIL], p.copies, None)
      case Some(a) => Transcript([HTML_HEAD] + AllFragments(p.blocks) + a.partial, p.copies, Some(a.failure))
  }

  // ---------------------------------------------------------------------
  // The loop of write_messages
  // ---------------------------------------------------------------------

  method WriteMessages(messages: seq<Message>, myName: string, otherNames: map<int, string>, env: Env)
    returns (t: Transcript)
    ensures t == Render(messages, myName, otherNames, env)
  {
    if env.attachmentsDirExists {
      return Transcript([], [], Some(AttachmentsDirExists));
    }
    var file := [HTML_HEAD];
    var copies: seq<Copy> := [];
    var lastDay: Option<int> := None;
    var attachmentId: nat := 0;
    ghost var blocks: seq<Block> := [];
    for i := 0 to |messages|
      invariant Run(messages[..i], myName, otherNames, env)
                == Pass(blocks, copies, RenderState(lastDay, attachmentId), None)
      invariant file == [HTML_HEAD] + AllFragments(blocks)
    {
      RunStep(messages, i, myName, otherNames, env);
      ghost var step := StepMessage(RenderState(lastDay, attachmentId), messages[i], myName, otherNames, env);
      ghost var before := file;
      var failure;
      file, copies, lastDay, attachmentId, failure :=
        WriteMessage(file, copies, lastDay, attachmentId, messages[i], myName, otherNames, env);
      if failure.Some? {
        assert step.Aborted? && file == before + step.partial;
        RunKeepsAbort(messages, i + 1, myName, otherNames, env);
        return Transcript(file, copies, failure);
      }
      assert step.Emitted? && file == before + BlockFragments(step.block);
      AllFragmentsAppend(blocks, step.block);
      Assoc([HTML_HEAD], AllFragments(blocks), BlockFragments(step.block));
      blocks := blocks + [step.block];
    }
    assert messages[..|messages|] == messages;
    file := file + [HTML_TAIL];
    t := Transcript(file, copies, None);
  }

  /**
   * The body of the loop of `write_messages` for one message: the writes
   * to the file, the copy, and the updates of `last_day` and
   * `attachment_id`; `failure` is the exception the message raises.
   */
  method WriteMessage(file: seq<string>, copies: seq<Copy>, lastDay: Option<int>, attachmentId: nat,
                      m: Message, myName: string, otherNames: map<int, string>, env: Env)
    returns (file': seq<string>, copies': seq<Copy>, lastDay': Option<int>, attachmentId': nat,
             failure: Option<Failure>)
    ensures Performs(StepMessage(RenderState(lastDay, attachmentId), m, myName, otherNames, env),
                     file, copies, file', copies', RenderState(lastDay', attachmentId'), failure)
  {
    ghost var st := RenderState(lastDay, attachmentId);
    file', lastDay' := WriteOpening(file, lastDay, m, env);
    var missing;
    file', copies', attachmentId', missing := CopyAttachment(file', copies, attachmentId, m, env);
    if missing.Some? {
      failure := missing;
      PerformsMissingAttachment(st, m, myName, otherNames, env, file, copies, file', copies', lastDay', attachmentId');
      return;
    }
    file' := WriteText(file', m);
    var unknown;
    file', unknown := WriteSignature(file', m, myName, otherNames, env);
    if unknown.Some? {
      failure := unknown;
      PerformsUnknownHandle(st, m, myName, otherNames, env, file, copies, file', copies', lastDay', attachmentId');
      return;
    }
    failure := None;
    PerformsDelivered(st, m, myName, otherNames, env, file, copies, file', copies', lastDay', attachmentId');
  }

  /** The day header, when the day differs from `last_day`, and the opening of the paragraph. */
  method WriteOpening(file: seq<string>, lastDay: Option<int>, m: Message, env: Env)
    returns (file': seq<string>, lastDay': Option<int>)
    ensures file' == file + HeaderLines(HeaderOf(lastDay, m, env)) + [Opening(Alignment(m.isFromMe))]
    ensures lastDay' == Some(m.stamp.day)
  {
    file', lastDay' := file, lastDay;
    if Some(m.stamp.day) != lastDay' {
      var dateStr := env.dateText(m.stamp);
      file' := file' + [DayHeader(dateStr)];
      lastDay' := Some(m.stamp.day);
    }
    var align := if m.isFromMe then "left" else "right";
    file' := file' + [Opening(align)];
  }

  /**
   * The sender's name and the time; a correspondent whose handle has no
   * name raises KeyError (`unknown`) before anything is written.
   */
  method WriteSignature(file: seq<string>, m: Message, myName: string, otherNames: map<int, string>, env: Env)
    returns (file': seq<string>, unknown: Option<Failure>)
    ensures !ByOwner(m) && m.handle !in otherNames ==>
              unknown == Some(UnknownHandle(m.handle)) && file' == file
    ensures ByOwner(m) || m.handle in otherNames ==>
              && unknown.None?
              && file' == file + [NameLine(Escape(SenderName(m, myName, otherNames))), TimeLine(env.timeText(m.stamp))]
  {
    file', unknown := file, None;
    var name: string;
    if m.isFromMe || m.handle == 0 {
      name := myName;
    } else {
      if m.handle !in otherNames {
        unknown := Some(UnknownHandle(m.handle));
        return;
      }
      name := otherNames[m.handle];
    }
    file' := file' + [NameLine(Escape(name))];
    var stampStr := env.timeText(m.stamp);
    file' := file' + [TimeLine(stampStr)];
  }

  /**
   * The text of a message, escaped, unless it is empty or it is the
   * placeholder character standing in for an attachment.
   */
  method WriteText(file: seq<string>, m: Message) returns (file': seq<string>)
    ensures file' == file + TextLines(ShownText(m))
  {
    file' := file;
    var text := m.text;
    if text.Some? && |text.value| > 0 && (text.value[0] != PLACEHOLDER || m.attachment.None?) {
      file' := file' + [TextLine(Escape(text.value))];
    }
  }

  /**
   * The attachment step of the loop: an attachment that is not a plugin payload
   * is copied to the next numbered name and linked; `missing` is the
   * FileNotFoundError of a source that is not there.
   */
  method CopyAttachment(file: seq<string>, copies: seq<Copy>, attachmentId: nat, m: Message, env: Env)
    returns (file': seq<string>, copies': seq<Copy>, attachmentId': nat, missing: Option<Failure>)
    ensures MissingSource(m, env) ==>
              missing == Some(MissingAttachment(env.expandUser(m.attachment.value)))
              && file' == file && copies' == copies
    ensures !MissingSource(m, env) ==>
              && missing.None?
              && file' == file + LinkLines(LinkOf(attachmentId, m))
              && copies' == copies + CopiesOf(attachmentId, m, env)
              && attachmentId' == attachmentId + |CopiesOf(attachmentId, m, env)|
  {
    file', copies', attachmentId', missing := file, copies, attachmentId, None;
    var attachment := m.attachment;
    if attachment.Some? {
      var ext := Extension(attachment.value);
      if ext != PLUGIN_PAYLOAD_EXT {
        var dstPath := DestPath(attachmentId', ext);
        var source := env.expandUser(attachment.value);
        if !env.fileExists(source) {
          missing := Some(MissingAttachment(source));
          return;
        }
        copies' := copies' + [Copy(source, dstPath)];
        var escaped := Escape(dstPath);
        file' := file' + [LinkLine(escaped)];
        attachmentId' := attachmentId' + 1;
      }
    }
  }

  lemma StepOfMissingAttachment(st: RenderState, m: Message, myName: string,
                                otherNames: map<int, string>, env: Env)
    requires MissingSource(m, env)
    ensures StepMessage(st, m, myName, otherNames, env)
            == Aborted(HeaderLines(HeaderOf(st.lastDay, m, env)) + [Opening(Alignment(m.isFromMe))], [],
                       MissingAttachment(env.expandUser(m.attachment.value)))
  {
  }

  lemma StepOfUnknownHandle(st: RenderState, m: Message, myName: string,
                            otherNames: map<int, string>, env: Env)
    requires !MissingSource(m, env)
    requires !ByOwner(m) && m.handle !in otherNames
    ensures StepMessage(st, m, myName, otherNames, env)
            == Aborted(HeaderLines(HeaderOf(st.lastDay, m, env)) + [Opening(Alignment(m.isFromMe))]
                         + LinkLines(LinkOf(st.attachmentId, m)) + TextLines(ShownText(m)),
                       CopiesOf(st.attachmentId, m, env), UnknownHandle(m.handle))
  {
  }

  lemma StepOfDelivered(st: RenderState, m: Message, myName: string,
                        otherNames: map<int, string>, env: Env)
    requires MessageFailure(m, otherNames, env).None?
    ensures StepMessage(st, m, myName, otherNames, env)
            == Emitted(DeliveredBlock(st, m, myName, otherNames, env),
                       CopiesOf(st.attachmentId, m, env),
                       RenderState(Some(m.stamp.day), st.attachmentId + |CopiesOf(st.attachmentId, m, env)|))
  {
  }

  /** The writes `file'`, the copies `copies'`, the state `next` and the outcome `failure` are those of `step`. */
  predicate Performs(step: Step, file: seq<string>, copies: seq<Copy>,
                     file': seq<string>, copies': seq<Copy>, next: RenderState, failure: Option<Failure>)
  {
    match step
    case Emitted(b, c, n) =>
      failure.None? && file' == file + BlockFragments(b) && copies' == copies + c && next == n
    case Aborted(partial, c, f) =>
      failure == Some(f) && file' == file + partial && copies' == copies + c
  }

  lemma PerformsMissingAttachment(st: RenderState, m: Message, myName: string, otherNames: map<int, string>,
                                  env: Env, file: seq<string>, copies: seq<Copy>,
                                  file': seq<string>, copies': seq<Copy>, lastDay': Option<int>, attachmentId': nat)
    requires MissingSource(m, env)
    requires file' == file + HeaderLines(HeaderOf(st.lastDay, m, env)) + [Opening(Alignment(m.isFromMe))]
    requires copies' == copies
    ensures Performs(StepMessage(st, m, myName, otherNames, env), file, copies, file', copies',
                     RenderState(lastDay', attachmentId'), Some(MissingAttachment(env.expandUser(m.attachment.value))))
  {
    StepOfMissingAttachment(st, m, myName, otherNames, env);
  }

  lemma PerformsUnknownHandle(st: RenderState, m: Message, myName: string, otherNames: map<int, string>,
                              env: Env, file: seq<string>, copies: seq<Copy>,
                              file': seq<string>, copies': seq<Copy>, lastDay': Option<int>, attachmentId': nat)
    requires !MissingSource(m, env)
    requires !ByOwner(m) && m.handle !in otherNames
    requires file' == file + HeaderLines(HeaderOf(st.lastDay, m, env)) + [Opening(Alignment(m.isFromMe))]
                       + LinkLines(LinkOf(st.attachmentId, m)) + TextLines(ShownText(m))
    requires copies' == copies + CopiesOf(st.attachmentId, m, env)
    ensures Performs(StepMessage(st, m, myName, otherNames, env), file, copies, file', copies',
                     RenderState(lastDay', attachmentId'), Some(UnknownHandle(m.handle)))
  {
    StepOfUnknownHandle(st, m, myName, otherNames, env);
  }

  lemma PerformsDelivered(st: RenderState, m: Message, myName: string, otherNames: map<int, string>,
                          env: Env, file: seq<string>, copies: seq<Copy>,
                          file': seq<string>, copies': seq<Copy>, lastDay': Option<int>, attachmentId': nat)
    requires MessageFailure(m, otherNames, env).None?
    requires file' == file + HeaderLines(HeaderOf(st.lastDay, m, env)) + [Opening(Alignment(m.isFromMe))]
                       + LinkLines(LinkOf(st.attachmentId, m)) + TextLines(ShownText(m))
                       + [NameLine(Escape(SenderName(m, myName, otherNames))), TimeLine(env.timeText(m.stamp))]
    requires copies' == copies + CopiesOf(st.attachmentId, m, env)
    requires lastDay' == Some(m.stamp.day)
    requires attachmentId' == st.attachmentId + |CopiesOf(st.attachmentId, m, env)|
    ensures Performs(StepMessage(st, m, myName, otherNames, env), file, copies, file', copies',
                     RenderState(lastDay', attachmentId'), None)
  {
    StepOfDelivered(st, m, myName, otherNames, env);
    BlockAssoc(file, HeaderLines(HeaderOf(st.lastDay, m, env)), Opening(Alignment(m.isFromMe)),
               LinkLines(LinkOf(st.attachmentId, m)), TextLines(ShownText(m)),
               NameLine(Escape(SenderName(m, myName, otherNames))), TimeLine(env.timeText(m.stamp)));
  }

  /** One more message: the pass over `messages[..i + 1]` is one step after the pass over `messages[..i]`. */
  lemma RunStep(messages: seq<Message>, i: nat, myName: string, otherNames: map<int, string>, env: Env)
    requires i < |messages|
    requires Run(messages[..i], myName, otherNames, env).abort.None?
    ensures var p := Run(messages[..i], myName, otherNames, env);
            Run(messages[..i + 1], myName, otherNames, env) ==
              match StepMessage(p.state, messages[i], myName, otherNames, env)
              case Emitted(b, c, next) => Pass(p.blocks + [b], p.copies + c, next, None)
              case Aborted(partial, c, f) => Pass(p.blocks, p.copies + c, p.state, Some(Abort(partial, f)))
  {
    assert messages[..i + 1][..i] == messages[..i];
    assert messages[..i + 1][i] == messages[i];
  }

  lemma Assoc(a: seq<string>, b: seq<string>, c: seq<string>)
    ensures a + b + c == a + (b + c)
  {
  }

  lemma BlockAssoc(before: seq<string>, h: seq<string>, o: string, l: seq<string>, t: seq<string>,
                   n: string, ti: string)
    ensures before + (h + [o] + l + t + [n, ti]) == before + h + [o] + l + t + [n, ti]
  {
  }

  lemma AllFragmentsAppend(blocks: seq<Block>, b: Block)
    ensures AllFragments(blocks + [b]) == AllFragments(blocks) + BlockFragments(b)
  {
    assert (blocks + [b])[..|blocks|] == blocks;
  }

  /** A message after one that raised changes nothing. */
  lemma RunAfterAbort(messages: seq<Message>, j: nat, p: Pass, myName: string,
                      otherNames: map<int, string>, env: Env)
    requires j < |messages|
    requires Run(messages[..j], myName, otherNames, env) == p && p.abort.Some?
    ensures Run(messages[..j + 1], myName, otherNames, env) == p
  {
    assert messages[..j + 1][..j] == messages[..j];
  }

  /** Once a message has raised, the later messages change nothing. */
  lemma {:induction false} RunKeepsAbort(messages: seq<Message>, k: nat, myName: string,
                                          otherNames: map<int, string>, env: Env)
    requires k <= |messages|
    requires Run(messages[..k], myName, otherNames, env).abort.Some?
    ensures Run(messages, myName, otherNames, env) == Run(messages[..k], myName, otherNames, env)
    decreases |messages| - k
  {
    if k < |messages| {
      RunAfterAbort(messages, k, Run(messages[..k], myName, otherNames, env), myName, otherNames, env);
      RunKeepsAbort(messages, k + 1, myName, otherNames, env);
    } else {
      assert messages[..k] == messages;
    }
  }
}
