/**
 * What the script does with the results of its database queries:
 * projecting rows to their first column, choosing one chat among the
 * chats of the user, and binding a display name to every chat member.
 * The query results and the user's answers are parameters.
 */
module Queries {
  import opened Wrappers
  import opened PyText
  import opened Model

  /** `unpack_column`: the first field of every row, in row order. */
  method UnpackColumn<T>(results: seq<seq<T>>) returns (unpacked: seq<T>)
    requires forall i :: 0 <= i < |results| ==> |results[i]| > 0
    ensures |unpacked| == |results|
    ensures forall i :: 0 <= i < |results| ==> unpacked[i] == results[i][0]
  {
    unpacked := [];
    for i := 0 to |results|
      invariant |unpacked| == i
      invariant forall k :: 0 <= k < i ==> unpacked[k] == results[k][0]
    {
      unpacked := unpacked + [results[i][0]];
    }
  }

  /**
   * The choice `get_chat_id` makes from the distinct chat ids of the
   * user. Several chats: the answer must read as an integer s with
   * 1 <= s <= |chatIds|, and chat s - 1 is chosen. One chat: it is taken
   * and the answer is never asked for. No chat: `chat_ids[0]` raises
   * IndexError.
   */
  function SelectChat(chatIds: seq<int>, answer: string): (r: Result<int, Failure>)
    ensures |chatIds| == 0 ==> r == Failure(NoChat)
    ensures |chatIds| == 1 ==> r == Success(chatIds[0])
    ensures |chatIds| > 1 ==>
      (r.Success? <==> PyInt(answer).Some? && 1 <= PyInt(answer).value <= |chatIds|)
    ensures |chatIds| > 1 && r.Success? ==> r.value == chatIds[PyInt(answer).value - 1]
    ensures |chatIds| > 1 && PyInt(answer).None? ==> r == Failure(NotAnInteger(answer))
    ensures |chatIds| > 1 && PyInt(answer).Some? && !(1 <= PyInt(answer).value <= |chatIds|) ==>
              r == Failure(NotAnOption(PyInt(answer).value))
    ensures r.Success? ==> r.value in chatIds
  {
    if |chatIds| > 1 then
      match PyInt(answer)
      case None => Failure(NotAnInteger(answer))
      case Some(selection) =>
        if selection < 1 || selection > |chatIds| then Failure(NotAnOption(selection))
        else Success(chatIds[selection - 1])
    else if |chatIds| == 1 then
      Success(chatIds[0])
    else
      Failure(NoChat)
  }

  /** Typing the number `s` (as `str(s)` prints it) picks chat `s` when there is one, and exits otherwise. */
  lemma SelectChatByNumber(chatIds: seq<int>, s: int)
    requires |chatIds| > 1
    ensures SelectChat(chatIds, IntToString(s)) ==
      if 1 <= s <= |chatIds| then Success(chatIds[s - 1]) else Failure(NotAnOption(s))
  {
    PyIntOfIntToString(s);
  }

  /**
   * `get_other_names`: one prompt per chat member, in query order, and
   * `names[handle_id] = name` for each; a handle listed twice keeps its
   * last answer. `answers[j]` is the answer given to the j-th prompt.
   */
  method OtherNames(members: seq<(int, string)>, answers: seq<string>)
    returns (names: map<int, string>, asked: seq<string>)
    requires |answers| == |members|
    ensures |asked| == |members|
    ensures forall j :: 0 <= j < |members| ==> asked[j] == members[j].1
    ensures names.Keys == Handles(members)
    ensures forall j :: 0 <= j < |members| && NotRebound(members, j, |members|) ==>
      members[j].0 in names && names[members[j].0] == answers[j]
  {
    names := map[];
    asked := [];
    for i := 0 to |members|
      invariant |asked| == i
      invariant forall j :: 0 <= j < i ==> asked[j] == members[j].1
      invariant names.Keys == Handles(members[..i])
      invariant forall j :: 0 <= j < i && NotRebound(members, j, i) ==>
        members[j].0 in names && names[members[j].0] == answers[j]
    {
      var (handleId, userId) := members[i];
      asked := asked + [userId];
      var name := answers[i];
      names := names[handleId := name];
      assert members[..i + 1][..i] == members[..i];
    }
    assert members[..|members|] == members;
  }

  /** The handles of `members` (defined from the last member back). */
  function Handles(members: seq<(int, string)>): (handles: set<int>)
    decreases |members|
  {
    if members == [] then {} else Handles(members[..|members| - 1]) + {members[|members| - 1].0}
  }

  /** A handle is in `Handles(members)` exactly when some member has it. */
  lemma {:induction false} HandlesOfMembers(members: seq<(int, string)>, h: int)
    ensures h in Handles(members) <==> exists j :: 0 <= j < |members| && members[j].0 == h
    decreases |members|
  {
    if members != [] {
      var n := |members| - 1;
      HandlesOfMembers(members[..n], h);
      assert forall j :: 0 <= j < n ==> members[..n][j] == members[j];
    }
  }

  /** No member at a position in `j + 1 .. end - 1` has the handle of member `j`. */
  predicate NotRebound(members: seq<(int, string)>, j: int, end: int)
    requires 0 <= j < |members| && end <= |members|
  {
    forall k :: j < k < end ==> members[k].0 != members[j].0
  }
}
