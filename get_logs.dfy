/**
  The `get_logs` tool (src/tidewave/tools/get_logs.py): the last `tail`
  lines of the application's log file, optionally only those a
  case-insensitive regular expression finds a match in.

  The log file is given as whether it exists and its lines (each with its
  line ending). Compiling the expression is a parameter: it yields the
  search predicate, or the `re.error` message.
*/
module GetLogs {
  import opened Wrappers
  import Text

  /** `re.search` of a compiled expression: whether it matches somewhere. */
  type Search = string -> bool

  /** The lines a search keeps, in order: `filter(regex.search, f)`. */
  function Matching(lines: seq<string>, search: Search): (r: seq<string>)
    ensures |r| <= |lines|
    ensures forall k :: 0 <= k < |r| ==> search(r[k])
  {
    if |lines| == 0 then []
    else if search(lines[|lines| - 1]) then Matching(lines[..|lines| - 1], search) + [lines[|lines| - 1]]
    else Matching(lines[..|lines| - 1], search)
  }

  /** Every line that matches is kept; the kept lines are a subsequence. */
  lemma {:induction false} MatchingKeepsAll(lines: seq<string>, search: Search)
    ensures forall k :: 0 <= k < |lines| && search(lines[k]) ==> lines[k] in Matching(lines, search)
    ensures forall x :: x in Matching(lines, search) ==> x in lines && search(x)
  {
    if |lines| > 0 {
      var init := lines[..|lines| - 1];
      MatchingKeepsAll(init, search);
      assert forall k :: 0 <= k < |init| ==> lines[k] == init[k];
    }
  }

  /** The last `n` elements of `s` (all of them when there are fewer). */
  function LastN(s: seq<string>, n: nat): (r: seq<string>)
    ensures |r| == if |s| < n then |s| else n
    ensures r == s[|s| - |r|..]
  {
    if |s| <= n then s else s[|s| - n..]
  }

  /** `deque(maxlen=n).append(x)`: the window of the last `n` grows by one,
      dropping its oldest element once it is full. */
  lemma LastNAppend(s: seq<string>, x: string, n: nat)
    requires n > 0
    ensures LastN(s + [x], n) ==
      (if |LastN(s, n)| == n then LastN(s, n)[1..] + [x] else LastN(s, n) + [x])
  {
    var w := LastN(s, n);
    if |w| == n {
      assert (s + [x])[|s| + 1 - n..] == s[|s| - n + 1..] + [x];
    }
  }

  /** The lines the loop reads into the window: all of them, or those the
      search finds a match in. */
  function Kept(lines: seq<string>, search: Option<Search>): seq<string>
  {
    if search.Some? then Matching(lines, search.value) else lines
  }

  lemma KeptStep(lines: seq<string>, i: nat, search: Option<Search>)
    requires i < |lines|
    ensures Kept(lines[..i + 1], search) ==
      if search.None? || search.value(lines[i]) then Kept(lines[..i], search) + [lines[i]] else Kept(lines[..i], search)
  {
    assert lines[..i + 1][..i] == lines[..i];
    assert lines[..i + 1] == lines[..i] + [lines[i]];
  }

  const TailError: string := "Tail parameter must be a positive integer"

  function InvalidRegexMessage(grep: string, error: string): string
  {
    "Invalid regular expression '" + grep + "': " + error
  }

  /** `get_logs` as a value. `grep` None and "" are both falsy. Failures are
      the messages of the ValueError the tool raises. A missing log file
      gives the empty text whatever the arguments; an existing one gives a
      non-empty answer, or one of the two ValueErrors. A successful answer
      for an existing log is the stripped text of the last `tail` lines kept
      (those the pattern finds a match in, or all of them without a
      pattern), or, when that text is blank, the "No log entries found"
      message, naming the pattern when there is one. */
  function LogsOf(logExists: bool, lines: seq<string>, tail: int, grep: Option<string>,
                  compile: string -> Result<Search, string>): (r: Result<string, string>)
    ensures !logExists ==> r == Success("")
    ensures logExists && r.Success? ==> r.value != ""
    ensures logExists && r.Success? ==>
      var pattern := grep.GetOr("");
      && tail > 0 && (pattern != "" ==> compile(pattern).Success?)
      && var text := Text.Strip(Text.Concat(LastN(
           Kept(lines, if pattern != "" then Some(compile(pattern).value) else None), tail)));
         r.value == if text != "" then text
                    else if pattern != "" then "No log entries found matching pattern '" + pattern + "'"
                    else "No log entries found"
    ensures r.Failure? ==>
      (tail <= 0 && r.error == TailError)
      || (tail > 0 && grep.Some? && compile(grep.value).Failure?
          && r.error == InvalidRegexMessage(grep.value, compile(grep.value).error))
  {
    if !logExists then Success("")
    else if tail <= 0 then Failure(TailError)
    else
      var pattern := grep.GetOr("");
      if pattern != "" && compile(pattern).Failure? then
        Failure(InvalidRegexMessage(pattern, compile(pattern).error))
      else
        var kept := if pattern != "" then Matching(lines, compile(pattern).value) else lines;
        var result := Text.Strip(Text.Concat(LastN(kept, tail)));
        if result != "" then Success(result)
        else if pattern != "" then Success("No log entries found matching pattern '" + pattern + "'")
        else Success("No log entries found")
  }

  /** `get_logs`: reads the file line by line into a bounded window. */
  method GetLogs(logExists: bool, lines: seq<string>, tail: int, grep: Option<string>,
                 compile: string -> Result<Search, string>) returns (r: Result<string, string>)
    ensures r == LogsOf(logExists, lines, tail, grep, compile)
  {
    if !logExists {
      return Success("");
    }
    if tail <= 0 {
      return Failure(TailError);
    }
    var pattern := grep.GetOr("");
    var search: Option<Search> := None;
    if pattern != "" {
      var compiled := compile(pattern);
      if compiled.Failure? {
        return Failure(InvalidRegexMessage(pattern, compiled.error));
      }
      search := Some(compiled.value);
    }
    var window: seq<string> := [];
    for i := 0 to |lines|
      invariant window == LastN(Kept(lines[..i], search), tail)
    {
      KeptStep(lines, i, search);
      if search.None? || search.value(lines[i]) {
        LastNAppend(Kept(lines[..i], search), lines[i], tail);
        if |window| == tail {
          window := window[1..] + [lines[i]];
        } else {
          window := window + [lines[i]];
        }
      }
    }
    assert lines[..|lines|] == lines;
    assert window == LastN(if pattern != "" then Matching(lines, compile(pattern).value) else lines, tail);
    var result := Text.Strip(Text.Concat(window));
    if result == "" {
      if pattern != "" {
        return Success("No log entries found matching pattern '" + pattern + "'");
      }
      return Success("No log entries found");
    }
    return Success(result);
  }

  /** The output is the stripped concatenation of the last `tail` kept lines:
      a suffix of the kept lines, no longer than `tail`, all of which match. */
  lemma LogsWindow(lines: seq<string>, tail: nat, search: Search)
    requires tail > 0
    ensures var kept := Matching(lines, search);
      var w := LastN(kept, tail);
      && |w| <= tail
      && w == kept[|kept| - |w|..]
      && (|kept| >= tail ==> |w| == tail)
      && forall x :: x in w ==> search(x) && x in lines
  {
    MatchingKeepsAll(lines, search);
    LastNWithin(Matching(lines, search), tail);
  }

  /** Every element of the window is an element of the sequence. */
  lemma LastNWithin(s: seq<string>, n: nat)
    ensures forall x :: x in LastN(s, n) ==> x in s
  {
    var w := LastN(s, n);
    forall x | x in w
      ensures x in s
    {
      var k :| 0 <= k < |w| && w[k] == x;
      assert s[|s| - |w| + k] == x;
    }
  }

  /** A missing log file gives the empty string whatever the arguments;
      otherwise a successful reply is never empty. */
  lemma LogsNeverEmptyOnSuccess(logExists: bool, lines: seq<string>, tail: int, grep: Option<string>,
                                compile: string -> Result<Search, string>)
    ensures !logExists ==> LogsOf(logExists, lines, tail, grep, compile) == Success("")
    ensures logExists && LogsOf(logExists, lines, tail, grep, compile).Success? ==>
      LogsOf(logExists, lines, tail, grep, compile).value != ""
    ensures logExists && LogsOf(logExists, lines, tail, grep, compile).Failure? <==>
      logExists && (tail <= 0 || (grep.Some? && grep.value != "" && compile(grep.value).Failure?))
  {
  }
}
