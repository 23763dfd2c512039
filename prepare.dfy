/**
 * `prepare_messages`: each query row gets its local time, and only the
 * rows in the chosen year and month are kept, in their original order.
 *
 * The conversion `datetime(2001, 1, 1, tzinfo=timezone.utc) +
 * timedelta(hours=utc_offset) + timedelta(seconds=nanoseconds / 1e9)`
 * is the parameter `localTime(nanoseconds, utcOffset)`.
 */
module Prepare {
  import opened Wrappers
  import opened Model

  /** The row as `prepared.append` stores it: same fields, local time instead of nanoseconds. */
  function Localize(m: RawMessage, utcOffset: int, localTime: (int, int) -> Stamp): (localized: Message) {
    Message(m.text, m.handle, localTime(m.nanoseconds, utcOffset), m.isFromMe, m.attachment)
  }

  /** The two `continue` tests: a set filter must match the local stamp. */
  predicate Keep(stamp: Stamp, year: Option<int>, month: Option<int>) {
    (year.None? || stamp.year == year.value) && (month.None? || stamp.month == month.value)
  }

  /** What `prepare_messages` returns for the rows `raw` (defined from the last row back). */
  function Prepared(raw: seq<RawMessage>, year: Option<int>, month: Option<int>,
                    utcOffset: int, localTime: (int, int) -> Stamp): (prepared: seq<Message>)
    decreases |raw|
  {
    if raw == [] then []
    else
      var m := Localize(raw[|raw| - 1], utcOffset, localTime);
      Prepared(raw[..|raw| - 1], year, month, utcOffset, localTime)
        + (if Keep(m.stamp, year, month) then [m] else [])
  }

  /** The positions in `raw` of the rows that are kept, in increasing order. */
  function KeptIndices(raw: seq<RawMessage>, year: Option<int>, month: Option<int>,
                       utcOffset: int, localTime: (int, int) -> Stamp): (kept: seq<nat>)
    decreases |raw|
  {
    if raw == [] then []
    else
      var i := |raw| - 1;
      KeptIndices(raw[..i], year, month, utcOffset, localTime)
        + (if Keep(localTime(raw[i].nanoseconds, utcOffset), year, month) then [i] else [])
  }

  method PrepareMessages(messages: seq<RawMessage>, year: Option<int>, month: Option<int>,
                         utcOffset: int, localTime: (int, int) -> Stamp)
    returns (prepared: seq<Message>)
    ensures prepared == Prepared(messages, year, month, utcOffset, localTime)
  {
    prepared := [];
    for i := 0 to |messages|
      invariant prepared == Prepared(messages[..i], year, month, utcOffset, localTime)
    {
      assert messages[..i + 1][..i] == messages[..i];
      var RawMessage(text, handle, nanoseconds, isFromMe, attachmentFilename) := messages[i];
      var stamp := localTime(nanoseconds, utcOffset);
      if year.Some? && stamp.year != year.value {
        continue;
      }
      if month.Some? && stamp.month != month.value {
        continue;
      }
      prepared := prepared + [Message(text, handle, stamp, isFromMe, attachmentFilename)];
    }
    assert messages[..|messages|] == messages;
  }

  /** The kept positions lie in `raw` and increase strictly. */
  lemma {:induction false} KeptIndicesIncrease(
    raw: seq<RawMessage>, year: Option<int>, month: Option<int>,
    utcOffset: int, localTime: (int, int) -> Stamp)
    ensures forall k :: 0 <= k < |KeptIndices(raw, year, month, utcOffset, localTime)| ==>
              KeptIndices(raw, year, month, utcOffset, localTime)[k] < |raw|
    ensures forall k, l :: 0 <= k < l < |KeptIndices(raw, year, month, utcOffset, localTime)| ==>
              KeptIndices(raw, year, month, utcOffset, localTime)[k]
                < KeptIndices(raw, year, month, utcOffset, localTime)[l]
    decreases |raw|
  {
    if raw != [] {
      var n := |raw| - 1;
      KeptIndicesIncrease(raw[..n], year, month, utcOffset, localTime);
    }
  }

  /** A position is kept exactly when its local time passes both filters. */
  lemma {:induction false} KeptIndicesExact(
    raw: seq<RawMessage>, year: Option<int>, month: Option<int>,
    utcOffset: int, localTime: (int, int) -> Stamp)
    ensures forall i :: 0 <= i < |raw| ==>
              (i in KeptIndices(raw, year, month, utcOffset, localTime) <==>
                 Keep(localTime(raw[i].nanoseconds, utcOffset), year, month))
    decreases |raw|
  {
    if raw != [] {
      var n := |raw| - 1;
      var init := raw[..n];
      KeptIndicesExact(init, year, month, utcOffset, localTime);
      KeptIndicesIncrease(init, year, month, utcOffset, localTime);
      assert forall i :: 0 <= i < n ==> init[i] == raw[i];
    }
  }

  /** The k-th row of the output is the row at the k-th kept position, with its local time. */
  lemma {:induction false} PreparedAtKept(
    raw: seq<RawMessage>, year: Option<int>, month: Option<int>,
    utcOffset: int, localTime: (int, int) -> Stamp)
    ensures |KeptIndices(raw, year, month, utcOffset, localTime)| == |Prepared(raw, year, month, utcOffset, localTime)|
    ensures forall k :: 0 <= k < |KeptIndices(raw, year, month, utcOffset, localTime)| ==>
              && KeptIndices(raw, year, month, utcOffset, localTime)[k] < |raw|
              && Prepared(raw, year, month, utcOffset, localTime)[k]
                   == Localize(raw[KeptIndices(raw, year, month, utcOffset, localTime)[k]], utcOffset, localTime)
    decreases |raw|
  {
    if raw != [] {
      var n := |raw| - 1;
      var init := raw[..n];
      PreparedAtKept(init, year, month, utcOffset, localTime);
      assert forall i :: 0 <= i < n ==> init[i] == raw[i];
    }
  }

  /**
   * The output is the subsequence of the input at the kept positions:
   * positions strictly increase, each kept row keeps its text, handle,
   * sender flag and attachment and gets its local time, and a position
   * is kept exactly when its local time passes both filters.
   */
  lemma PreparedIsFilteredSubsequence(
    raw: seq<RawMessage>, year: Option<int>, month: Option<int>,
    utcOffset: int, localTime: (int, int) -> Stamp)
    ensures var out := Prepared(raw, year, month, utcOffset, localTime);
            var idx := KeptIndices(raw, year, month, utcOffset, localTime);
            && |idx| == |out|
            && (forall k :: 0 <= k < |idx| ==> idx[k] < |raw|)
            && (forall k, l :: 0 <= k < l < |idx| ==> idx[k] < idx[l])
            && (forall k :: 0 <= k < |idx| ==>
                  && out[k].text == raw[idx[k]].text
                  && out[k].handle == raw[idx[k]].handle
                  && out[k].isFromMe == raw[idx[k]].isFromMe
                  && out[k].attachment == raw[idx[k]].attachment
                  && out[k].stamp == localTime(raw[idx[k]].nanoseconds, utcOffset))
            && (forall i :: 0 <= i < |raw| ==>
                  (i in idx <==> Keep(localTime(raw[i].nanoseconds, utcOffset), year, month)))
  {
    KeptIndicesIncrease(raw, year, month, utcOffset, localTime);
    KeptIndicesExact(raw, year, month, utcOffset, localTime);
    PreparedAtKept(raw, year, month, utcOffset, localTime);
  }

  /** Every kept row lies in the chosen year and month. */
  lemma PreparedMatchesFilters(
    raw: seq<RawMessage>, year: Option<int>, month: Option<int>,
    utcOffset: int, localTime: (int, int) -> Stamp)
    ensures forall k :: 0 <= k < |Prepared(raw, year, month, utcOffset, localTime)| ==>
              (year.Some? ==> Prepared(raw, year, month, utcOffset, localTime)[k].stamp.year == year.value)
              && (month.Some? ==> Prepared(raw, year, month, utcOffset, localTime)[k].stamp.month == month.value)
  {
    PreparedAtKept(raw, year, month, utcOffset, localTime);
    KeptIndicesExact(raw, year, month, utcOffset, localTime);
    var idx := KeptIndices(raw, year, month, utcOffset, localTime);
    forall k | 0 <= k < |idx| ensures idx[k] in idx {
    }
  }

  /**
   * The month 0 that `get_month` lets through is compared with real
   * months, which run from 1 to 12: no row survives.
   */
  lemma {:induction false} MonthZeroKeepsNothing(
    raw: seq<RawMessage>, year: Option<int>, utcOffset: int, localTime: (int, int) -> Stamp)
    requires forall i :: 0 <= i < |raw| ==> 1 <= localTime(raw[i].nanoseconds, utcOffset).month <= 12
    ensures Prepared(raw, year, Some(0), utcOffset, localTime) == []
    decreases |raw|
  {
    if raw != [] {
      var n := |raw| - 1;
      assert forall i :: 0 <= i < n ==> raw[..n][i] == raw[i];
      MonthZeroKeepsNothing(raw[..n], year, utcOffset, localTime);
    }
  }
}
