/**
 * The code playground: running code either through a caller-supplied
 * runner or by a simulation that collects the single-line
 * `console.log(...)` calls with a quoted argument, and resetting and
 * editing the code.
 */
module CodePlayground {
  import opened Wrappers
  import opened JsStrings

  // ---------------------------------------------------------------
  // The console.log pattern, one match at the start of a string
  // ---------------------------------------------------------------

  const LogCall: string := "console.log"

  predicate IsQuote(c: char) {
    c == '\'' || c == '"' || c == '`'
  }

  /** The end of the whitespace run `\s*` that starts at index `i` of `s`. */
  function WsEnd(s: string, i: nat): (j: nat)
    requires i <= |s|
    ensures i <= j <= |s|
    ensures forall k :: i <= k < j ==> IsJsSpace(s[k])
    ensures j < |s| ==> !IsJsSpace(s[j])
    decreases |s| - i
  {
    if i < |s| && IsJsSpace(s[i]) then WsEnd(s, i + 1) else i
  }

  /** The closing part `\1\s*\)` at index `i` of `s`, for the opening quote `q`. */
  predicate CloseAt(s: string, q: char, i: nat) {
    i < |s| && s[i] == q && WsEnd(s, i + 1) < |s| && s[WsEnd(s, i + 1)] == ')'
  }

  /** Where the closing part that starts at `i` ends. */
  function CloseEnd(s: string, q: char, i: nat): (j: nat)
    requires CloseAt(s, q, i)
    ensures i + 2 <= j <= |s|
  {
    WsEnd(s, i + 1) + 1
  }

  /**
   * The lazy `(.*?)`: the first index from `k` on at which the closing part
   * matches, taking only characters other than line terminators before it.
   */
  function InnerEnd(s: string, q: char, k: nat): (r: Option<nat>)
    requires k <= |s|
    ensures r.Some? ==> k <= r.value < |s| && CloseAt(s, q, r.value)
    decreases |s| - k
  {
    if CloseAt(s, q, k) then Some(k)
    else if k == |s| || IsLineTerminator(s[k]) then None
    else InnerEnd(s, q, k + 1)
  }

  /** The quoted argument that opens at index `c` and the call's closing part: the match end and the inner text. */
  function QuotedAt(s: string, c: nat): (r: Option<(nat, string)>)
    requires c < |s|
    ensures r.Some? ==> c + 3 <= r.value.0 <= |s|
  {
    match InnerEnd(s, s[c], c + 1)
    case Some(e) => Some((CloseEnd(s, s[c], e), s[c + 1..e]))
    case None => None
  }

  /** `console\.log\s*\(\s*(['"`])(.*?)\1\s*\)` anchored at the start of `s`: the match length and the second group. */
  function MatchHere(s: string): (r: Option<(nat, string)>)
    ensures r.Some? ==> 15 <= r.value.0 <= |s|
  {
    if !StartsWith(s, LogCall) then None
    else
      var a := WsEnd(s, 11);
      if a < |s| && s[a] == '(' then
        var c := WsEnd(s, a + 1);
        if c < |s| && IsQuote(s[c]) then
          QuotedAt(s, c)
        else None
      else None
  }

  /** `code.match(pattern)` with the global flag: each leftmost match as (matched text, inner text), scanning on after it. */
  function Matches(s: string): (ms: seq<(string, string)>)
    ensures forall i :: 0 <= i < |ms| ==> |ms[i].0| >= 15
    ensures 15 * |ms| <= |s|
    decreases |s|
  {
    if s == [] then []
    else match MatchHere(s)
      case Some((len, inner)) => [(s[..len], inner)] + Matches(s[len..])
      case None => Matches(s[1..])
  }

  /** `match.match(pattern)` without the global flag: the inner text of the first match, if any. */
  function FirstMatch(s: string): (r: Option<string>)
    ensures r.Some? ==> forall i :: 0 <= i < |r.value| ==> !IsLineTerminator(r.value[i])
    decreases |s|
  {
    if s == [] then None
    else match MatchHere(s)
      case Some((_, inner)) =>
        MatchIsOneLine(s);
        Some(inner)
      case None => FirstMatch(s[1..])
  }

  const NoOutputMessage: string := "\U{2705} Code executed successfully! (No output)"
  const DefaultRunMessage: string := "Code executed successfully!"
  const GenericError: string := "An error occurred"

  /** The line each matched call contributes: `content ? `> ${content[2]}` : ''`. */
  function Contribution(matched: string): string {
    match FirstMatch(matched)
    case Some(inner) => "> " + inner
    case None => ""
  }

  /**
   * The simulated run of `code`: without a runner, the calls' inner texts,
   * each after "> ", one per line in source order, or the no-output
   * message when no call is found.
   */
  function SimulatedOutput(code: string): (output: string)
    ensures Matches(code) == [] ==> output == NoOutputMessage
    ensures Matches(code) != [] ==> output == Join(PrintedLines(Matches(code)), "\n")
  {
    var ms := Matches(code);
    if ms == [] then NoOutputMessage
    else
      ContributionsOfMatches(code);
      assert seq(|ms|, i requires 0 <= i < |ms| => Contribution(ms[i].0)) == PrintedLines(ms);
      Join(seq(|ms|, i requires 0 <= i < |ms| => Contribution(ms[i].0)), "\n")
  }

  /** The printed lines: each call's inner text after "> ". */
  function PrintedLines(ms: seq<(string, string)>): (lines: seq<string>)
    ensures |lines| == |ms|
    ensures forall i :: 0 <= i < |ms| ==> lines[i] == "> " + ms[i].1
  {
    seq(|ms|, i requires 0 <= i < |ms| => "> " + ms[i].1)
  }

  // ---------------------------------------------------------------
  // Matching again inside a match finds the same call
  // ---------------------------------------------------------------

  /** A whitespace run that ends inside a prefix ends at the same index in the prefix, and conversely. */
  lemma {:induction false} WsEndPrefix(s: string, n: nat, i: nat)
    requires i <= n <= |s|
    ensures WsEnd(s, i) < n ==> WsEnd(s[..n], i) == WsEnd(s, i)
    ensures WsEnd(s[..n], i) < n ==> WsEnd(s, i) == WsEnd(s[..n], i)
    decreases n - i
  {
    if i < n {
      assert s[..n][i] == s[i];
      WsEndPrefix(s, n, i + 1);
    }
  }

  /** The closing part is found in a prefix exactly where it is found, within the prefix, in the whole string. */
  lemma CloseAtPrefix(s: string, q: char, n: nat, i: nat)
    requires i < n <= |s|
    ensures CloseAt(s[..n], q, i) ==> CloseAt(s, q, i) && CloseEnd(s, q, i) == CloseEnd(s[..n], q, i)
    ensures CloseAt(s, q, i) && CloseEnd(s, q, i) <= n ==> CloseAt(s[..n], q, i) && CloseEnd(s[..n], q, i) == CloseEnd(s, q, i)
  {
    assert s[..n][i] == s[i];
    WsEndPrefix(s, n, i + 1);
    if WsEnd(s, i + 1) < n {
      assert s[..n][WsEnd(s, i + 1)] == s[WsEnd(s, i + 1)];
    }
  }

  /** The lazy inner search ends at the same index in a prefix that still holds the closing part. */
  lemma {:induction false} InnerEndPrefix(s: string, q: char, k: nat, e: nat, n: nat)
    requires k <= e < |s| && n <= |s|
    requires InnerEnd(s, q, k) == Some(e)
    requires CloseEnd(s, q, e) <= n
    ensures k <= n
    ensures InnerEnd(s[..n], q, k) == Some(e)
    decreases e - k
  {
    CloseAtPrefix(s, q, n, k);
    if k < e {
      assert s[..n][k] == s[k];
      InnerEndPrefix(s, q, k + 1, e, n);
    }
  }

  /** A quoted argument whose closing part lies inside a prefix is found there too, with the same end and inner text. */
  lemma QuotedAtPrefix(s: string, c: nat, n: nat)
    requires c < n <= |s| && QuotedAt(s, c).Some? && QuotedAt(s, c).value.0 <= n
    ensures QuotedAt(s[..n], c) == QuotedAt(s, c)
  {
    var q := s[c];
    var e := InnerEnd(s, q, c + 1).value;
    assert s[..n][c] == q;
    InnerEndPrefix(s, q, c + 1, e, n);
    CloseAtPrefix(s, q, n, e);
    SliceOfPrefix(s, n, c + 1, e);
  }

  /** A match is also a match of its own matched text. */
  lemma MatchHerePrefix(s: string)
    requires MatchHere(s).Some?
    ensures MatchHere(s[..MatchHere(s).value.0]) == MatchHere(s)
  {
    var len := MatchHere(s).value.0;
    var t := s[..len];
    var a := WsEnd(s, 11);
    var c := WsEnd(s, a + 1);
    assert MatchHere(s) == QuotedAt(s, c);
    StartsWithPrefix(s, LogCall, len);
    assert WsEnd(t, 11) == a && t[a] == '(' by {
      WsEndPrefix(s, len, 11);
    }
    assert WsEnd(t, a + 1) == c && t[c] == s[c] by {
      WsEndPrefix(s, len, a + 1);
    }
    QuotedAtPrefix(s, c, len);
    assert MatchHere(t) == QuotedAt(t, c);
  }

  lemma StartsWithPrefix(s: string, p: string, n: nat)
    requires StartsWith(s, p) && |p| <= n <= |s|
    ensures StartsWith(s[..n], p)
  {
    assert s[..n][..|p|] == s[..|p|];
  }

  lemma SliceOfPrefix(s: string, n: nat, i: nat, j: nat)
    requires i <= j <= n <= |s|
    ensures s[..n][i..j] == s[i..j]
  {
  }

  /** Matching a matched call again, without the global flag, recovers its inner text. */
  lemma FirstMatchOfMatch(s: string)
    requires MatchHere(s).Some?
    ensures FirstMatch(s[..MatchHere(s).value.0]) == Some(MatchHere(s).value.1)
  {
    MatchHerePrefix(s);
  }

  /** Every globally matched call carries its own inner text, so the `''` fallback never applies. */
  lemma {:induction false} ContributionsOfMatches(s: string)
    ensures forall i :: 0 <= i < |Matches(s)| ==> Contribution(Matches(s)[i].0) == "> " + Matches(s)[i].1
    decreases |s|
  {
    if s != [] {
      match MatchHere(s)
      case Some((len, inner)) =>
        FirstMatchOfMatch(s);
        ContributionsOfMatches(s[len..]);
      case None =>
        ContributionsOfMatches(s[1..]);
    }
  }

  /** An inner text is a single line: the lazy search never crosses a line terminator. */
  lemma {:induction false} InnerIsOneLine(s: string, q: char, k: nat)
    requires k <= |s| && InnerEnd(s, q, k).Some?
    ensures forall i :: k <= i < InnerEnd(s, q, k).value ==> !IsLineTerminator(s[i])
    decreases |s| - k
  {
    if !CloseAt(s, q, k) {
      InnerIsOneLine(s, q, k + 1);
    }
  }

  /** The inner text of a matched call holds no line terminator. */
  lemma MatchIsOneLine(s: string)
    requires MatchHere(s).Some?
    ensures forall i :: 0 <= i < |MatchHere(s).value.1| ==> !IsLineTerminator(MatchHere(s).value.1[i])
  {
    var a := WsEnd(s, 11);
    var c := WsEnd(s, a + 1);
    assert MatchHere(s) == QuotedAt(s, c);
    QuotedIsOneLine(s, c);
  }

  lemma QuotedIsOneLine(s: string, c: nat)
    requires c < |s| && QuotedAt(s, c).Some?
    ensures forall i :: 0 <= i < |QuotedAt(s, c).value.1| ==> !IsLineTerminator(QuotedAt(s, c).value.1[i])
  {
    InnerIsOneLine(s, s[c], c + 1);
  }

  // ---------------------------------------------------------------
  // The component state
  // ---------------------------------------------------------------

  /** What the `onRun` callback does with the code: returns a string or nothing, or throws. */
  datatype RunReply = Returned(value: Option<string>) | ThrewError(message: string) | ThrewOther

  /** The number of line-number rows: `code.split('\n').length`. */
  function LineNumberCount(code: string): (n: nat)
    ensures n == Count(code, '\n') + 1
  {
    SplitLength(code, '\n');
    |Split(code, '\n')|
  }

  class Playground {
    const initialCode: string
    const editable: bool
    var code: string
    var output: Option<string>
    var error: Option<string>
    var isRunning: bool

    constructor(initialCode: string, editable: bool)
      ensures this.initialCode == initialCode && this.editable == editable
      ensures code == initialCode && output == None && error == None && !isRunning
    {
      this.initialCode := initialCode;
      this.editable := editable;
      code := initialCode;
      output := None;
      error := None;
      isRunning := false;
    }

    /**
     * `handleRun`: the error is cleared, the runner's result (or its
     * default) or the simulated output becomes the output; a throwing
     * runner sets the error and leaves the output; running always ends.
     */
    method HandleRun(onRun: Option<string -> RunReply>)
      modifies this
      ensures code == old(code) && !isRunning
      ensures onRun.None? ==> output == Some(SimulatedOutput(code)) && error == None
      ensures onRun.Some? && onRun.value(code).Returned? ==>
        output == Some(Or(onRun.value(code).value, DefaultRunMessage)) && error == None
      ensures onRun.Some? && onRun.value(code).ThrewError? ==>
        output == old(output) && error == Some(onRun.value(code).message)
      ensures onRun.Some? && onRun.value(code).ThrewOther? ==>
        output == old(output) && error == Some(GenericError)
    {
      isRunning := true;
      error := None;
      if onRun.Some? {
        var reply := onRun.value(code);
        match reply
        case Returned(value) =>
          output := Some(Or(value, DefaultRunMessage));
        case ThrewError(message) =>
          error := Some(message);
        case ThrewOther =>
          error := Some(GenericError);
      } else {
        output := Some(SimulatedOutput(code));
      }
      isRunning := false;
    }

    /** `handleReset`: the initial code back, output and error cleared. */
    method HandleReset()
      modifies this
      ensures code == initialCode && output == None && error == None
      ensures isRunning == old(isRunning)
    {
      code := initialCode;
      output := None;
      error := None;
    }

    /** A change in the editor takes effect only when the playground is editable. */
    method Edit(value: string)
      modifies this
      ensures code == (if editable then value else old(code))
      ensures output == old(output) && error == old(error) && isRunning == old(isRunning)
    {
      if editable {
        code := value;
      }
    }
  }

  // ---------------------------------------------------------------
  // Examples
  // ---------------------------------------------------------------

  /** `console.log('test output')` is one call whose inner text is "test output". */
  lemma TestOutputMatch(code: string)
    requires code == "console.log('test output')"
    ensures MatchHere(code) == Some((|code|, "test output"))
  {
    assert StartsWith(code, LogCall) by { assert code[..11] == LogCall; }
    assert WsEnd(code, 11) == 11;
    assert WsEnd(code, 12) == 12;
    TestOutputQuoted(code);
  }

  lemma TestOutputQuoted(code: string)
    requires code == "console.log('test output')"
    ensures QuotedAt(code, 12) == Some((|code|, "test output"))
  {
    assert CloseAt(code, '\'', 24) by { assert WsEnd(code, 25) == 25; }
    forall k | 13 <= k < 24
      ensures !CloseAt(code, '\'', k) && !IsLineTerminator(code[k])
    {
    }
    InnerSkips(code, '\'', 13, 24);
    assert code[13..24] == "test output";
  }

  /** Running `console.log('test output')` without a runner prints "> test output". */
  lemma TestOutputExample(code: string)
    requires code == "console.log('test output')"
    ensures SimulatedOutput(code) == "> test output"
  {
    TestOutputMatch(code);
    assert code[..26] == code;
    assert Matches(code[26..]) == [];
    assert Matches(code) == [(code, "test output")];
    var lines := PrintedLines(Matches(code));
    assert lines[0] == "> " + "test output" == "> test output";
    assert lines == ["> test output"];
  }

  /** The lazy search passes positions where no closing part starts and no line ends. */
  lemma {:induction false} InnerSkips(s: string, q: char, k: nat, e: nat)
    requires k <= e <= |s|
    requires forall j :: k <= j < e ==> !CloseAt(s, q, j) && !IsLineTerminator(s[j])
    ensures InnerEnd(s, q, k) == InnerEnd(s, q, e)
    decreases e - k
  {
    if k < e {
      InnerSkips(s, q, k + 1, e);
    }
  }

  /** Code without the text "console.log" prints the no-output message. */
  lemma NoCallExample(code: string)
    requires !Contains(code, LogCall)
    ensures SimulatedOutput(code) == NoOutputMessage
  {
    NoCallNoMatches(code);
  }

  lemma {:induction false} NoCallNoMatches(s: string)
    requires !Contains(s, LogCall)
    ensures Matches(s) == []
    decreases |s|
  {
    if s != [] {
      assert !StartsWith(s, LogCall);
      NoCallNoMatches(s[1..]);
    }
  }
}
