/**
 * What the pass of `write_messages` produces, stated for the whole input
 * rather than step by step: the pass raises exactly when some message
 * raises, and stops at the first such message; the blocks of a pass
 * that raises nothing carry a day header exactly where the day changes,
 * and the attachments are copied to `0<ext>`, `1<ext>`, ... in order,
 * under distinct names.
 */
module RenderProperties {
  import opened Wrappers
  import opened PyText
  import opened Model
  import opened Render

  /** `last_day` once the messages `ms` are written: the day of the last of them. */
  function LastDay(ms: seq<Message>): (day: Option<int>) {
    if ms == [] then None else Some(ms[|ms| - 1].stamp.day)
  }

  /** The attachment file names the pass copies, in order (defined from the last message back). */
  function CopiedAttachments(ms: seq<Message>): (attachments: seq<string>)
    decreases |ms|
  {
    if ms == [] then []
    else
      var m := ms[|ms| - 1];
      CopiedAttachments(ms[..|ms| - 1]) + (if CopiesAttachment(m) then [m.attachment.value] else [])
  }

  /** No message of `ms` raises. */
  predicate Clean(ms: seq<Message>, otherNames: map<int, string>, env: Env) {
    forall i :: 0 <= i < |ms| ==> MessageFailure(ms[i], otherNames, env).None?
  }

  /** `last_day` and `attachment_id` when the pass reaches message `i`. */
  function StateBefore(ms: seq<Message>, i: nat): (st: RenderState)
    requires i <= |ms|
  {
    RenderState(LastDay(ms[..i]), |CopiedAttachments(ms[..i])|)
  }

  lemma StateBeforeOfPrefix(ms: seq<Message>, n: nat, i: nat)
    requires i <= n <= |ms|
    ensures StateBefore(ms[..n], i) == StateBefore(ms, i)
  {
    assert ms[..n][..i] == ms[..i];
  }

  /** A step raises exactly when its message raises, and raises that. */
  lemma StepFailure(st: RenderState, m: Message, myName: string, otherNames: map<int, string>, env: Env)
    ensures StepMessage(st, m, myName, otherNames, env).Aborted? <==> MessageFailure(m, otherNames, env).Some?
    ensures StepMessage(st, m, myName, otherNames, env).Aborted? ==>
              StepMessage(st, m, myName, otherNames, env).failure == MessageFailure(m, otherNames, env).value
  {
  }

  /** `ms` is clean exactly when all but its last message are and its last message is. */
  lemma CleanOfPrefix(ms: seq<Message>, otherNames: map<int, string>, env: Env)
    requires ms != []
    ensures Clean(ms, otherNames, env) <==>
              Clean(ms[..|ms| - 1], otherNames, env) && MessageFailure(ms[|ms| - 1], otherNames, env).None?
  {
    var n := |ms| - 1;
    assert forall i :: 0 <= i < n ==> ms[..n][i] == ms[i];
  }

  /** After a pass that raised nothing, the next message decides whether it raises. */
  lemma RunAbortsAtLast(ms: seq<Message>, myName: string, otherNames: map<int, string>, env: Env)
    requires ms != []
    ensures var p0 := Run(ms[..|ms| - 1], myName, otherNames, env);
            Run(ms, myName, otherNames, env).abort.None? <==>
              p0.abort.None? && MessageFailure(ms[|ms| - 1], otherNames, env).None?
  {
    var p0 := Run(ms[..|ms| - 1], myName, otherNames, env);
    StepFailure(p0.state, ms[|ms| - 1], myName, otherNames, env);
  }

  /** The pass ends with no exception exactly when no message raises. */
  lemma {:induction false} RunSucceedsIffClean(ms: seq<Message>, myName: string,
                                               otherNames: map<int, string>, env: Env)
    ensures Run(ms, myName, otherNames, env).abort.None? <==> Clean(ms, otherNames, env)
    decreases |ms|
  {
    if ms != [] {
      RunSucceedsIffClean(ms[..|ms| - 1], myName, otherNames, env);
      CleanOfPrefix(ms, otherNames, env);
      RunAbortsAtLast(ms, myName, otherNames, env);
    }
  }

  /** One more message that raises nothing, after a pass that raised nothing. */
  lemma CleanStep(ms: seq<Message>, myName: string, otherNames: map<int, string>, env: Env)
    requires ms != []
    requires Run(ms[..|ms| - 1], myName, otherNames, env).abort.None?
    requires MessageFailure(ms[|ms| - 1], otherNames, env).None?
    ensures var p0 := Run(ms[..|ms| - 1], myName, otherNames, env);
            var m := ms[|ms| - 1];
            var c := CopiesOf(p0.state.attachmentId, m, env);
            Run(ms, myName, otherNames, env)
              == Pass(p0.blocks + [DeliveredBlock(p0.state, m, myName, otherNames, env)], p0.copies + c,
                      RenderState(Some(m.stamp.day), p0.state.attachmentId + |c|), None)
  {
    var p0 := Run(ms[..|ms| - 1], myName, otherNames, env);
    StepOfDelivered(p0.state, ms[|ms| - 1], myName, otherNames, env);
  }

  /** A pass in which no message raises: one block per message, the state reached, the number of copies. */
  lemma {:induction false} RunOfCleanState(ms: seq<Message>, myName: string, otherNames: map<int, string>,
                                           env: Env)
    requires Clean(ms, otherNames, env)
    ensures var p := Run(ms, myName, otherNames, env);
            && p.abort.None?
            && p.state == RenderState(LastDay(ms), |CopiedAttachments(ms)|)
            && |p.blocks| == |ms|
            && |p.copies| == |CopiedAttachments(ms)|
    decreases |ms|
  {
    if ms != [] {
      var n := |ms| - 1;
      assert forall i :: 0 <= i < n ==> ms[..n][i] == ms[i];
      RunOfCleanState(ms[..n], myName, otherNames, env);
      CleanStep(ms, myName, otherNames, env);
    }
  }

  /** In a pass in which no message raises, message `i` is written in the state left by the messages before it. */
  lemma {:induction false} RunOfCleanBlocks(ms: seq<Message>, myName: string, otherNames: map<int, string>,
                                            env: Env)
    requires Clean(ms, otherNames, env)
    ensures |Run(ms, myName, otherNames, env).blocks| == |ms|
    ensures forall i :: 0 <= i < |ms| ==>
              Run(ms, myName, otherNames, env).blocks[i]
                == DeliveredBlock(StateBefore(ms, i), ms[i], myName, otherNames, env)
    decreases |ms|
  {
    if ms != [] {
      var n := |ms| - 1;
      var init := ms[..n];
      assert forall i :: 0 <= i < n ==> init[i] == ms[i];
      RunOfCleanBlocks(init, myName, otherNames, env);
      RunOfCleanState(init, myName, otherNames, env);
      CleanStep(ms, myName, otherNames, env);
      var p0 := Run(init, myName, otherNames, env);
      BlocksExtend(ms, p0.blocks, p0.state, myName, otherNames, env);
    }
  }

  /** The block written for one more message keeps block `i` as the block of message `i`. */
  lemma BlocksExtend(ms: seq<Message>, blocks: seq<Block>, st: RenderState, myName: string,
                     otherNames: map<int, string>, env: Env)
    requires Clean(ms, otherNames, env) && ms != []
    requires |blocks| == |ms| - 1
    requires forall i :: 0 <= i < |blocks| ==>
               blocks[i] == DeliveredBlock(StateBefore(ms[..|ms| - 1], i), ms[..|ms| - 1][i], myName, otherNames, env)
    requires st == RenderState(LastDay(ms[..|ms| - 1]), |CopiedAttachments(ms[..|ms| - 1])|)
    ensures var all := blocks + [DeliveredBlock(st, ms[|ms| - 1], myName, otherNames, env)];
            |all| == |ms| &&
            forall i :: 0 <= i < |ms| ==> all[i] == DeliveredBlock(StateBefore(ms, i), ms[i], myName, otherNames, env)
  {
    var n := |ms| - 1;
    var all := blocks + [DeliveredBlock(st, ms[n], myName, otherNames, env)];
    forall i | 0 <= i < |ms|
      ensures all[i] == DeliveredBlock(StateBefore(ms, i), ms[i], myName, otherNames, env)
    {
      if i < n {
        StateBeforeOfPrefix(ms, n, i);
        assert ms[..n][i] == ms[i];
        assert all[i] == blocks[i];
      } else {
        assert StateBefore(ms, n) == st;
      }
    }
  }

  /** In a pass in which no message raises, the k-th copied attachment goes to `./attachments/k<ext>`. */
  lemma {:induction false} RunOfCleanCopies(ms: seq<Message>, myName: string, otherNames: map<int, string>,
                                            env: Env)
    requires Clean(ms, otherNames, env)
    ensures var p := Run(ms, myName, otherNames, env);
            var atts := CopiedAttachments(ms);
            && |p.copies| == |atts|
            && forall k :: 0 <= k < |atts| ==>
                 p.copies[k] == Copy(env.expandUser(atts[k]), DestPath(k, Extension(atts[k])))
    decreases |ms|
  {
    if ms != [] {
      var n := |ms| - 1;
      var init := ms[..n];
      assert forall i :: 0 <= i < n ==> init[i] == ms[i];
      RunOfCleanCopies(init, myName, otherNames, env);
      RunOfCleanState(init, myName, otherNames, env);
      CleanStep(ms, myName, otherNames, env);
      var p0 := Run(init, myName, otherNames, env);
      var atts0 := CopiedAttachments(init);
      assert CopiedAttachments(ms)
        == atts0 + (if CopiesAttachment(ms[n]) then [ms[n].attachment.value] else []);
      CopiesExtend(p0.copies, atts0, ms[n], env);
    }
  }

  /** The copy made for one more message keeps the k-th copy at `./attachments/k<ext>`. */
  lemma CopiesExtend(copies: seq<Copy>, atts: seq<string>, m: Message, env: Env)
    requires |copies| == |atts|
    requires forall k :: 0 <= k < |atts| ==>
               copies[k] == Copy(env.expandUser(atts[k]), DestPath(k, Extension(atts[k])))
    ensures var copies' := copies + CopiesOf(|atts|, m, env);
            var atts' := atts + (if CopiesAttachment(m) then [m.attachment.value] else []);
            && |copies'| == |atts'|
            && forall k :: 0 <= k < |atts'| ==>
                 copies'[k] == Copy(env.expandUser(atts'[k]), DestPath(k, Extension(atts'[k])))
  {
  }

  /**
   * A pass in which no message raises writes one block per message; the
   * block of message `i` is written in the state left by the messages
   * before it; the copies are the copied attachments, the k-th of them
   * to `./attachments/k<ext>`; `last_day` ends as the day of the last
   * message and `attachment_id` as the number of copies.
   */
  lemma RunOfClean(ms: seq<Message>, myName: string, otherNames: map<int, string>, env: Env)
    requires Clean(ms, otherNames, env)
    ensures var p := Run(ms, myName, otherNames, env);
            var atts := CopiedAttachments(ms);
            && p.abort.None?
            && p.state == RenderState(LastDay(ms), |atts|)
            && |p.blocks| == |ms|
            && (forall i :: 0 <= i < |ms| ==>
                  p.blocks[i] == DeliveredBlock(StateBefore(ms, i), ms[i], myName, otherNames, env))
            && |p.copies| == |atts|
            && (forall k :: 0 <= k < |atts| ==>
                  p.copies[k] == Copy(env.expandUser(atts[k]), DestPath(k, Extension(atts[k]))))
  {
    RunOfCleanState(ms, myName, otherNames, env);
    RunOfCleanBlocks(ms, myName, otherNames, env);
    RunOfCleanCopies(ms, myName, otherNames, env);
  }

  /** In a pass that raises nothing, the block of message `i` is written in the state the messages before it leave. */
  lemma BlockAt(ms: seq<Message>, i: nat, myName: string, otherNames: map<int, string>, env: Env)
    requires Clean(ms, otherNames, env) && i < |ms|
    ensures |Run(ms, myName, otherNames, env).blocks| == |ms|
    ensures MessageFailure(ms[i], otherNames, env).None?
    ensures Run(ms, myName, otherNames, env).blocks[i]
              == DeliveredBlock(StateBefore(ms, i), ms[i], myName, otherNames, env)
  {
    RunOfCleanBlocks(ms, myName, otherNames, env);
  }

  /** The day header of message `i` in a pass that raises nothing. */
  lemma DayHeaderAt(ms: seq<Message>, i: nat, myName: string, otherNames: map<int, string>, env: Env)
    requires Clean(ms, otherNames, env) && i < |ms|
    ensures |Run(ms, myName, otherNames, env).blocks| == |ms|
    ensures Run(ms, myName, otherNames, env).blocks[i].header.Some? <==>
                  i == 0 || ms[i - 1].stamp.day != ms[i].stamp.day
    ensures Run(ms, myName, otherNames, env).blocks[i].header.Some? ==>
              Run(ms, myName, otherNames, env).blocks[i].header.value == env.dateText(ms[i].stamp)
  {
    BlockAt(ms, i, myName, otherNames, env);
    if i > 0 {
      assert ms[..i][i - 1] == ms[i - 1];
    }
  }

  /**
   * In a pass that raises nothing, message `i` gets a day header exactly
   * when it is the first message or its day of the month differs from
   * the previous message's; the header shows the date of message `i`.
   */
  lemma DayHeadersOfClean(ms: seq<Message>, myName: string, otherNames: map<int, string>, env: Env)
    requires Clean(ms, otherNames, env)
    ensures |Run(ms, myName, otherNames, env).blocks| == |ms|
    ensures forall i :: 0 <= i < |ms| ==>
              && (Run(ms, myName, otherNames, env).blocks[i].header.Some? <==>
                        i == 0 || ms[i - 1].stamp.day != ms[i].stamp.day)
              && (Run(ms, myName, otherNames, env).blocks[i].header.Some? ==>
                    Run(ms, myName, otherNames, env).blocks[i].header.value == env.dateText(ms[i].stamp))
  {
    RunOfCleanState(ms, myName, otherNames, env);
    forall i | 0 <= i < |ms|
      ensures Run(ms, myName, otherNames, env).blocks[i].header.Some? <==>
                    i == 0 || ms[i - 1].stamp.day != ms[i].stamp.day
      ensures Run(ms, myName, otherNames, env).blocks[i].header.Some? ==>
                Run(ms, myName, otherNames, env).blocks[i].header.value == env.dateText(ms[i].stamp)
    {
      DayHeaderAt(ms, i, myName, otherNames, env);
    }
  }

  /** The attachment link of message `i` in a pass that raises nothing, and the count after it. */
  lemma AttachmentAt(ms: seq<Message>, i: nat, myName: string, otherNames: map<int, string>, env: Env)
    requires Clean(ms, otherNames, env) && i < |ms|
    ensures |Run(ms, myName, otherNames, env).blocks| == |ms|
    ensures Run(ms, myName, otherNames, env).blocks[i].link.Some? <==> CopiesAttachment(ms[i])
    ensures Run(ms, myName, otherNames, env).blocks[i].link.Some? ==>
              Run(ms, myName, otherNames, env).blocks[i].link.value
                == Escape(DestPath(|CopiedAttachments(ms[..i])|, Extension(ms[i].attachment.value)))
    ensures |CopiedAttachments(ms[..i + 1])|
              == |CopiedAttachments(ms[..i])| + (if CopiesAttachment(ms[i]) then 1 else 0)
  {
    BlockAt(ms, i, myName, otherNames, env);
    assert ms[..i + 1][..i] == ms[..i];
    assert ms[..i + 1][i] == ms[i];
  }

  /**
   * In a pass that raises nothing, message `i` links its attachment
   * exactly when it copies one, and the copy is numbered by the copies
   * made before it; the count goes up by one for such a message and
   * stays for every other one (no attachment, or a plugin payload).
   */
  lemma AttachmentNumbering(ms: seq<Message>, myName: string, otherNames: map<int, string>, env: Env)
    requires Clean(ms, otherNames, env)
    ensures |Run(ms, myName, otherNames, env).blocks| == |ms|
    ensures forall i :: 0 <= i < |ms| ==>
              && (Run(ms, myName, otherNames, env).blocks[i].link.Some? <==> CopiesAttachment(ms[i]))
              && (Run(ms, myName, otherNames, env).blocks[i].link.Some? ==>
                    Run(ms, myName, otherNames, env).blocks[i].link.value
                      == Escape(DestPath(|CopiedAttachments(ms[..i])|, Extension(ms[i].attachment.value))))
              && |CopiedAttachments(ms[..i + 1])|
                   == |CopiedAttachments(ms[..i])| + (if CopiesAttachment(ms[i]) then 1 else 0)
  {
    RunOfCleanState(ms, myName, otherNames, env);
    forall i | 0 <= i < |ms|
      ensures Run(ms, myName, otherNames, env).blocks[i].link.Some? <==> CopiesAttachment(ms[i])
      ensures Run(ms, myName, otherNames, env).blocks[i].link.Some? ==>
                Run(ms, myName, otherNames, env).blocks[i].link.value
                  == Escape(DestPath(|CopiedAttachments(ms[..i])|, Extension(ms[i].attachment.value)))
      ensures |CopiedAttachments(ms[..i + 1])|
                == |CopiedAttachments(ms[..i])| + (if CopiesAttachment(ms[i]) then 1 else 0)
    {
      AttachmentAt(ms, i, myName, otherNames, env);
    }
  }

  /** Alignment, text and signature of message `i` in a pass that raises nothing. */
  lemma BlockContentsAt(ms: seq<Message>, i: nat, myName: string, otherNames: map<int, string>, env: Env)
    requires Clean(ms, otherNames, env) && i < |ms|
    ensures |Run(ms, myName, otherNames, env).blocks| == |ms|
    ensures MessageContents(Run(ms, myName, otherNames, env).blocks[i], ms[i], myName, otherNames)
  {
    BlockAt(ms, i, myName, otherNames, env);
  }

  /**
   * What a block shows of its message: aligned left exactly when the
   * owner sent it; its text, escaped, exactly when the text is non-empty
   * and either does not start with the placeholder or the row has no
   * attachment; signed with the escaped owner's name when the owner sent
   * it or its handle is 0, and with the escaped name bound to its handle
   * otherwise.
   */
  predicate MessageContents(b: Block, m: Message, myName: string, otherNames: map<int, string>) {
    && (b.align == "left" <==> m.isFromMe)
    && (b.align == "left" || b.align == "right")
    && (b.text.Some? <==>
          m.text.Some? && |m.text.value| > 0 && (m.text.value[0] != PLACEHOLDER || m.attachment.None?))
    && (b.text.Some? ==> m.text.Some? && b.text.value == Escape(m.text.value))
    && (m.isFromMe || m.handle == 0 ==> b.name == Escape(myName))
    && (!m.isFromMe && m.handle != 0 ==> m.handle in otherNames && b.name == Escape(otherNames[m.handle]))
  }

  /** In a pass that raises nothing, every block shows its message as `MessageContents` says. */
  lemma BlockContentsOfClean(ms: seq<Message>, myName: string, otherNames: map<int, string>, env: Env)
    requires Clean(ms, otherNames, env)
    ensures |Run(ms, myName, otherNames, env).blocks| == |ms|
    ensures forall i :: 0 <= i < |ms| ==>
              MessageContents(Run(ms, myName, otherNames, env).blocks[i], ms[i], myName, otherNames)
  {
    RunOfCleanState(ms, myName, otherNames, env);
    forall i | 0 <= i < |ms|
      ensures MessageContents(Run(ms, myName, otherNames, env).blocks[i], ms[i], myName, otherNames)
    {
      BlockContentsAt(ms, i, myName, otherNames, env);
    }
  }

  /** Two destination names are equal only for the same number and the same extension. */
  lemma DestPathInjective(i: nat, j: nat, e1: string, e2: string)
    requires e1 == [] || e1[0] == '.'
    requires e2 == [] || e2[0] == '.'
    requires DestPath(i, e1) == DestPath(j, e2)
    ensures i == j && e1 == e2
  {
    var prefix := ATTACHMENTS_DIR + "/";
    var a, b := NatToString(i), NatToString(j);
    assert DestPath(i, e1) == prefix + (a + e1);
    assert DestPath(j, e2) == prefix + (b + e2);
    assert (prefix + (a + e1))[|prefix|..] == a + e1;
    assert (prefix + (b + e2))[|prefix|..] == b + e2;
    DigitsThenExtension(a, e1, b, e2, i, j);
    NatToStringInjective(i, j);
  }

  /** The number of decimal digits `s` starts with. */
  function LeadingDigits(s: string): (count: nat)
    decreases |s|
  {
    if s == [] || !IsDigit(s[0]) then 0 else 1 + LeadingDigits(s[1..])
  }

  /** Digits followed by nothing or by a `.`: the digits are exactly the leading ones. */
  lemma {:induction false} LeadingDigitsOfName(a: string, e: string)
    requires AllDigits(a)
    requires e == [] || e[0] == '.'
    ensures LeadingDigits(a + e) == |a|
    decreases |a|
  {
    if a != [] {
      assert (a + e)[0] == a[0];
      assert (a + e)[1..] == a[1..] + e;
      LeadingDigitsOfName(a[1..], e);
    } else {
      assert a + e == e;
    }
  }

  lemma DigitsThenExtension(a: string, e1: string, b: string, e2: string, i: nat, j: nat)
    requires a == NatToString(i) && b == NatToString(j)
    requires e1 == [] || e1[0] == '.'
    requires e2 == [] || e2[0] == '.'
    requires a + e1 == b + e2
    ensures a == b && e1 == e2
  {
    NatToStringValue(i);
    NatToStringValue(j);
    LeadingDigitsOfName(a, e1);
    LeadingDigitsOfName(b, e2);
    assert a == (a + e1)[..|a|] && b == (b + e2)[..|b|];
    assert e1 == (a + e1)[|a|..] && e2 == (b + e2)[|b|..];
  }

  /** In a pass that raises nothing, no two copies go to the same file. */
  lemma DistinctDestinations(ms: seq<Message>, myName: string, otherNames: map<int, string>, env: Env)
    requires Clean(ms, otherNames, env)
    ensures var c := Run(ms, myName, otherNames, env).copies;
            forall k, l :: 0 <= k < l < |c| ==> c[k].dest != c[l].dest
  {
    RunOfClean(ms, myName, otherNames, env);
    var c := Run(ms, myName, otherNames, env).copies;
    var atts := CopiedAttachments(ms);
    forall k, l | 0 <= k < l < |c| ensures c[k].dest != c[l].dest {
      SplitextParts(atts[k]);
      SplitextParts(atts[l]);
      if c[k].dest == c[l].dest {
        DestPathInjective(k, l, Extension(atts[k]), Extension(atts[l]));
      }
    }
  }

  /**
   * When message `j` is the first to raise, the pass raises its
   * exception, after writing the blocks of the messages before it and
   * nothing else as whole blocks.
   */
  lemma RunStopsAtFirstFailure(ms: seq<Message>, j: nat, myName: string,
                               otherNames: map<int, string>, env: Env)
    requires j < |ms|
    requires Clean(ms[..j], otherNames, env)
    requires MessageFailure(ms[j], otherNames, env).Some?
    ensures var p := Run(ms, myName, otherNames, env);
            && p.abort.Some?
            && p.abort.value.failure == MessageFailure(ms[j], otherNames, env).value
            && p.blocks == Run(ms[..j], myName, otherNames, env).blocks
            && |p.blocks| == j
  {
    RunOfClean(ms[..j], myName, otherNames, env);
    RunStep(ms, j, myName, otherNames, env);
    StepFailure(Run(ms[..j], myName, otherNames, env).state, ms[j], myName, otherNames, env);
    RunKeepsAbort(ms, j + 1, myName, otherNames, env);
  }

  /**
   * The transcript is complete (head, one block per message, tail) and
   * the run ends normally exactly when the attachments directory was not
   * there and no message raises.
   */
  lemma RenderSucceedsIff(ms: seq<Message>, myName: string, otherNames: map<int, string>, env: Env)
    ensures var t := Render.Render(ms, myName, otherNames, env);
            t.failure.None? <==> !env.attachmentsDirExists && Clean(ms, otherNames, env)
    ensures var t := Render.Render(ms, myName, otherNames, env);
            var p := Run(ms, myName, otherNames, env);
            t.failure.None? ==>
              && t.fragments == [HTML_HEAD] + AllFragments(p.blocks) + [HTML_TAIL]
              && |p.blocks| == |ms|
  {
    RunSucceedsIffClean(ms, myName, otherNames, env);
    if !env.attachmentsDirExists && Clean(ms, otherNames, env) {
      RunOfClean(ms, myName, otherNames, env);
    }
  }
}

/**
 * A two-message conversation on one day: the owner says "hi", the
 * correspondent sends `photo.jpg` with the placeholder as its text.
 */
module RenderScenario {
  import opened Wrappers
  import opened PyText
  import opened Model
  import opened Render
  import opened RenderProperties

  lemma PhotoExtension()
    ensures Extension("photo.jpg") == ".jpg"
  {
    var p := "photo.jpg";
    assert p[5] == '.' && p[..5][0] == 'p';
    RFindAbsent(p, '/');
    RFindLast(p, '.', 5);
    ExtensionOfFileName(p, 5);
    assert p[5..] == ".jpg";
  }

  lemma FirstCopyName()
    ensures DestPath(0, ".jpg") == "./attachments/0.jpg"
  {
    assert NatToString(0) == "0";
  }

  function Hi(handle: int, stamp: Stamp): (m: Message) {
    Message(Some("hi"), handle, stamp, true, None)
  }

  function Photo(handle: int, stamp: Stamp): (m: Message) {
    Message(Some([PLACEHOLDER]), handle, stamp, false, Some("photo.jpg"))
  }

  lemma PhotoConversationClean(stamp: Stamp, friend: string, handle: int, env: Env)
    requires handle != 0
    requires env.fileExists(env.expandUser("photo.jpg"))
    ensures Clean([Hi(handle, stamp), Photo(handle, stamp)], map[handle := friend], env)
    ensures CopiedAttachments([Hi(handle, stamp), Photo(handle, stamp)]) == ["photo.jpg"]
  {
    var ms := [Hi(handle, stamp), Photo(handle, stamp)];
    PhotoExtension();
    assert CopiesAttachment(Photo(handle, stamp)) && !CopiesAttachment(Hi(handle, stamp));
    assert ms[..1] == [Hi(handle, stamp)];
    assert [Hi(handle, stamp)][..0] == [];
    assert CopiedAttachments([Hi(handle, stamp)]) == [];
    assert CopiedAttachments(ms) == CopiedAttachments(ms[..1]) + ["photo.jpg"];
  }

  /**
   * The transcript is complete, holds two blocks, and copies the photo
   * once, to `./attachments/0.jpg`.
   */
  lemma PhotoConversationTranscript(stamp: Stamp, owner: string, friend: string, handle: int, env: Env)
    requires handle != 0
    requires !env.attachmentsDirExists
    requires env.fileExists(env.expandUser("photo.jpg"))
    ensures var ms := [Hi(handle, stamp), Photo(handle, stamp)];
            var t := Render.Render(ms, owner, map[handle := friend], env);
            && t.failure.None?
            && |Run(ms, owner, map[handle := friend], env).blocks| == 2
            && t.copies == [Copy(env.expandUser("photo.jpg"), "./attachments/0.jpg")]
  {
    var ms := [Hi(handle, stamp), Photo(handle, stamp)];
    var names := map[handle := friend];
    PhotoConversationClean(stamp, friend, handle, env);
    PhotoExtension();
    FirstCopyName();
    RenderSucceedsIff(ms, owner, names, env);
    RunOfCleanCopies(ms, owner, names, env);
    var p := Run(ms, owner, names, env);
    assert |p.copies| == 1;
    assert p.copies[0] == Copy(env.expandUser("photo.jpg"), "./attachments/0.jpg");
  }

  /**
   * Only the first block has a day header; the owner's "hi" is shown on
   * the left, the correspondent's block on the right without the
   * placeholder and under the correspondent's escaped name.
   */
  lemma PhotoConversationBlocks(stamp: Stamp, owner: string, friend: string, handle: int, env: Env)
    requires handle != 0
    requires env.fileExists(env.expandUser("photo.jpg"))
    ensures var p := Run([Hi(handle, stamp), Photo(handle, stamp)], owner, map[handle := friend], env);
            && |p.blocks| == 2
            && p.blocks[0].header.Some? && p.blocks[1].header.None?
            && p.blocks[0].text == Some("hi") && p.blocks[1].text.None?
            && p.blocks[0].align == "left" && p.blocks[1].align == "right"
            && p.blocks[1].name == Escape(friend)
  {
    var ms := [Hi(handle, stamp), Photo(handle, stamp)];
    var names := map[handle := friend];
    PhotoConversationClean(stamp, friend, handle, env);
    DayHeaderAt(ms, 0, owner, names, env);
    DayHeaderAt(ms, 1, owner, names, env);
    BlockContentsAt(ms, 0, owner, names, env);
    BlockContentsAt(ms, 1, owner, names, env);
    EscapePlain("hi");
  }
}
