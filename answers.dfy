/**
 * The checks the script applies to the user's typed answers:
 * `get_int`, and the three prompts built on it (year, month, UTC
 * offset). The answer is a parameter; a failure stands for `exit(...)`.
 */
module Answers {
  import opened Wrappers
  import opened PyText
  import opened Model

  /**
   * `get_int(message, none_ok)`: a blank answer is `None` when blanks
   * are allowed; anything else goes through `int()`, whose ValueError
   * ends the run.
   */
  function GetInt(answer: string, noneOk: bool): (r: Result<Option<int>, Failure>)
    ensures noneOk && Strip(answer) == [] ==> r == Success(None)
    ensures !(noneOk && Strip(answer) == []) ==> (r.Success? <==> PyInt(answer).Some?)
    ensures r.Success? && r.value.None? ==> noneOk && Strip(answer) == []
    ensures r.Success? && r.value.Some? ==> PyInt(answer) == r.value
    ensures r.Failure? ==> r.error == NotAnInteger(answer) && PyInt(answer).None?
  {
    if Strip(answer) == [] && noneOk then Success(None)
    else match PyInt(answer)
      case Some(n) => Success(Some(n))
      case None => Failure(NotAnInteger(answer))
  }

  /** Blank answers: `None` if allowed, an exit otherwise. */
  lemma GetIntOfBlank(answer: string, noneOk: bool)
    requires Strip(answer) == []
    ensures GetInt(answer, noneOk) == if noneOk then Success(None) else Failure(NotAnInteger(answer))
  {
    PyIntOfBlank(answer);
  }

  /**
   * An answer that starts with U+001C is not blank to `str.strip()` and not
   * an integer to `int()`: the run exits naming it.
   */
  lemma GetIntOfSeparator(noneOk: bool)
    ensures GetInt([28 as char, '7'], noneOk) == Failure(NotAnInteger([28 as char, '7']))
  {
    PyIntOfSeparator();
  }

  /** Typing `str(n)` yields `n`, whether or not blanks are allowed. */
  lemma GetIntOfNumber(n: int, noneOk: bool)
    ensures GetInt(IntToString(n), noneOk) == Success(Some(n))
  {
    PyIntOfIntToString(n);
    PyIntOfBlank(IntToString(n));
  }

  /** `get_year`: an optional year; a blank answer means every year. */
  function GetYear(answer: string): (r: Result<Option<int>, Failure>)
    ensures r.Success? <==> Strip(answer) == [] || PyInt(answer).Some?
    ensures Strip(answer) == [] ==> r == Success(None)
    ensures PyInt(answer).Some? ==> r == Success(PyInt(answer))
    ensures r.Failure? ==> r.error == NotAnInteger(answer)
  {
    PyIntOfBlank(answer);
    GetInt(answer, true)
  }

  /**
   * `get_month`: an optional month; `if month and (month < 1 or month >
   * 12)` lets `None` and `0` (both falsy) through unchecked.
   */
  function GetMonth(answer: string): (r: Result<Option<int>, Failure>)
    ensures r.Success? <==> Strip(answer) == [] || (PyInt(answer).Some? && 0 <= PyInt(answer).value <= 12)
    ensures Strip(answer) == [] ==> r == Success(None)
    ensures PyInt(answer).Some? && 0 <= PyInt(answer).value <= 12 ==> r == Success(PyInt(answer))
    ensures Strip(answer) != [] && PyInt(answer).None? ==> r == Failure(NotAnInteger(answer))
    ensures PyInt(answer).Some? && !(0 <= PyInt(answer).value <= 12) ==>
              r == Failure(InvalidMonth(PyInt(answer).value))
  {
    PyIntOfBlank(answer);
    match GetInt(answer, true)
    case Failure(e) => Failure(e)
    case Success(month) =>
      if month.Some? && month.value != 0 && (month.value < 1 || month.value > 12) then
        Failure(InvalidMonth(month.value))
      else
        Success(month)
  }

  /** A typed month `m` is accepted exactly when 0 <= m <= 12; otherwise the run exits naming it. */
  lemma GetMonthOfNumber(m: int)
    ensures GetMonth(IntToString(m)) ==
      if 0 <= m <= 12 then Success(Some(m)) else Failure(InvalidMonth(m))
  {
    GetIntOfNumber(m, true);
  }

  /** `get_utc_offset`: a whole number of hours; a blank answer is not accepted. */
  function GetUtcOffset(answer: string): (r: Result<int, Failure>)
    ensures r.Success? <==> PyInt(answer).Some?
    ensures r.Success? ==> PyInt(answer) == Some(r.value)
    ensures r.Failure? ==> r.error == NotAnInteger(answer)
  {
    match GetInt(answer, false)
    case Failure(e) => Failure(e)
    case Success(offset) =>
      // with blanks not allowed, GetInt never answers None
      if offset.Some? then Success(offset.value) else Failure(NotAnInteger(answer))
  }
}
