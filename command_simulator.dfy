/**
 * The slash-command simulator: prefix autocomplete over the available
 * commands, lookup of a command's canned output, and the terminal state
 * (input line, latest output, history) that executing a command updates.
 */
module CommandSimulator {
  import opened Wrappers
  import opened JsStrings

  datatype HistoryEntry = HistoryEntry(command: string, output: string)

  const DefaultCommands: seq<string> := ["/plan", "/tdd", "/e2e", "/code-review"]

  const DefaultOutputs: map<string, string> := map[
    "/plan" := "\U{1F3AF} Planning mode activated! What would you like to build today?",
    "/tdd" := "\U{1F9EA} TDD Guide activated! Let's write tests first, then code!",
    "/e2e" := "\U{1F3AD} E2E Runner activated! Ready to test your user journeys!",
    "/code-review" := "\U{1F50D} Code Review mode! Let me analyze your code..."
  ]

  const UnknownPrefix: string := "\U{2753} Unknown command: "

  /** The commands whose lower-case form starts with the lower-cased input, in their order. */
  function MatchingCommands(commands: seq<string>, input: string): (r: seq<string>)
    ensures |r| <= |commands|
    ensures forall c :: c in r <==> c in commands && StartsWith(Lower(c), Lower(input))
  {
    if commands == [] then []
    else
      var rest := MatchingCommands(commands[1..], input);
      assert forall c :: c in commands <==> c == commands[0] || c in commands[1..];
      if StartsWith(Lower(commands[0]), Lower(input)) then [commands[0]] + rest else rest
  }

  /** The autocomplete list: nothing unless the input starts with '/'. */
  function Suggestions(input: string, commands: seq<string>): (r: seq<string>)
    ensures !StartsWith(input, "/") ==> r == []
    ensures StartsWith(input, "/") ==> r == MatchingCommands(commands, input)
  {
    if !StartsWith(input, "/") then [] else MatchingCommands(commands, input)
  }

  /** The filter keeps the commands' order: filtering a concatenation concatenates the filtered parts. */
  lemma {:induction false} MatchingCommandsAppend(a: seq<string>, b: seq<string>, input: string)
    ensures MatchingCommands(a + b, input) == MatchingCommands(a, input) + MatchingCommands(b, input)
  {
    if a == [] {
      assert a + b == b;
    } else {
      assert (a + b)[1..] == a[1..] + b;
      MatchingCommandsAppend(a[1..], b, input);
    }
  }

  /**
   * `commandOutputs[trimmed] || '❓ Unknown command: ' + trimmed`: a command
   * with a non-empty canned output gets it; any other gets the
   * unknown-command message naming it, so the output is never empty.
   */
  function CommandOutput(outputs: map<string, string>, trimmed: string): (output: string)
    ensures trimmed in outputs && outputs[trimmed] != "" ==> output == outputs[trimmed]
    ensures !(trimmed in outputs && outputs[trimmed] != "") ==> output == UnknownPrefix + trimmed
    ensures output != ""
  {
    Or(if trimmed in outputs then Some(outputs[trimmed]) else None, UnknownPrefix + trimmed)
  }

  class Simulator {
    const availableCommands: seq<string>
    const commandOutputs: map<string, string>
    var inputValue: string
    var output: Option<string>
    var history: seq<HistoryEntry>
    /** The arguments `onCommandExecute` has received, oldest first. */
    var executed: seq<string>

    /**
     * The latest output exists exactly when something was executed, and
     * it is the last history entry's; the callback saw every command of
     * the history, in order.
     */
    predicate Valid()
      reads this
    {
      && (output.Some? <==> |history| > 0)
      && (output.Some? ==> output.value == history[|history| - 1].output)
      && |executed| == |history|
      && (forall i :: 0 <= i < |history| ==> executed[i] == history[i].command)
    }

    constructor(availableCommands: seq<string>, commandOutputs: map<string, string>)
      ensures this.availableCommands == availableCommands && this.commandOutputs == commandOutputs
      ensures inputValue == "" && output == None && history == [] && executed == []
      ensures Valid()
    {
      this.availableCommands := availableCommands;
      this.commandOutputs := commandOutputs;
      inputValue := "";
      output := None;
      history := [];
      executed := [];
    }

    function CurrentSuggestions(): seq<string>
      reads this
    {
      Suggestions(inputValue, availableCommands)
    }

    /** The list is rendered only when there are suggestions and the input is non-empty. */
    function SuggestionsShown(): bool
      reads this
    {
      |CurrentSuggestions()| > 0 && inputValue != ""
    }

    /** The stand-alone output block: `output && history.length === 0`. */
    function StandaloneOutputShown(): bool
      reads this
    {
      Truthy(output) && |history| == 0
    }

    /** `executeCommand`: one history entry appended, the output set, the input cleared, the callback told. */
    method ExecuteCommand(command: string)
      requires Valid()
      modifies this
      ensures Valid()
      ensures var trimmed := Trim(command);
        && history == old(history) + [HistoryEntry(trimmed, CommandOutput(commandOutputs, trimmed))]
        && output == Some(CommandOutput(commandOutputs, trimmed))
        && executed == old(executed) + [trimmed]
      ensures inputValue == ""
    {
      var trimmed := Trim(command);
      var commandOutput := CommandOutput(commandOutputs, trimmed);
      var entry := HistoryEntry(trimmed, commandOutput);
      AppendKeepsLog(history, executed, entry);
      var newHistory, newExecuted := history + [entry], executed + [trimmed];
      output := Some(commandOutput);
      history := newHistory;
      inputValue := "";
      executed := newExecuted;
    }

    /** Typing into the input line. */
    method SetInput(value: string)
      modifies this
      ensures inputValue == value
      ensures output == old(output) && history == old(history) && executed == old(executed)
    {
      inputValue := value;
    }

    /** `handleKeyDown`: Enter executes a non-blank input line; anything else changes nothing. */
    method HandleKeyDown(key: string)
      requires Valid()
      modifies this
      ensures Valid()
      ensures key == "Enter" && Trim(old(inputValue)) != "" ==>
        && history == old(history) + [HistoryEntry(Trim(old(inputValue)), CommandOutput(commandOutputs, Trim(old(inputValue))))]
        && executed == old(executed) + [Trim(old(inputValue))]
        && inputValue == ""
      ensures !(key == "Enter" && Trim(old(inputValue)) != "") ==>
        && inputValue == old(inputValue) && output == old(output)
        && history == old(history) && executed == old(executed)
    {
      if key == "Enter" && Trim(inputValue) != "" {
        ExecuteCommand(inputValue);
      }
    }

    /** `handleSuggestionClick`: the input line becomes the command, which is not executed. */
    method HandleSuggestionClick(command: string)
      requires Valid()
      modifies this
      ensures Valid()
      ensures inputValue == command
      ensures output == old(output) && history == old(history) && executed == old(executed)
    {
      inputValue := command;
    }
  }

  /** Appending an entry and its command keeps history and callback log in step. */
  lemma AppendKeepsLog(history: seq<HistoryEntry>, executed: seq<string>, entry: HistoryEntry)
    requires |executed| == |history|
    requires forall i :: 0 <= i < |history| ==> executed[i] == history[i].command
    ensures |executed + [entry.command]| == |history + [entry]|
    ensures forall i :: 0 <= i < |history + [entry]| ==> (executed + [entry.command])[i] == (history + [entry])[i].command
    ensures (history + [entry])[|history|] == entry
  {
  }

  /** In a consistent terminal the stand-alone output block never appears: output and history start together. */
  lemma StandaloneOutputNeverShown(output: Option<string>, history: seq<HistoryEntry>)
    requires output.Some? <==> |history| > 0
    ensures !(Truthy(output) && |history| == 0)
  {
  }

  /** A single command is kept exactly when it matches. */
  lemma MatchingSingle(c: string, input: string)
    ensures MatchingCommands([c], input) == if StartsWith(Lower(c), Lower(input)) then [c] else []
  {
    assert [c][1..] == [];
  }

  lemma SlashTExample(input: string)
    requires input == "/t"
    ensures Suggestions(input, DefaultCommands) == ["/tdd"]
  {
    assert StartsWith(input, "/") by { assert input[..1] == "/"; }
    var l := Lower(input);
    assert l == "/t";
    assert !StartsWith(Lower("/plan"), l) by { assert Lower("/plan")[1] == 'p'; }
    assert StartsWith(Lower("/tdd"), l) by { assert Lower("/tdd")[..2] == l; }
    assert !StartsWith(Lower("/e2e"), l) by { assert Lower("/e2e")[1] == 'e'; }
    assert !StartsWith(Lower("/code-review"), l) by { assert Lower("/code-review")[1] == 'c'; }
    MatchingSingle("/plan", input);
    MatchingSingle("/tdd", input);
    MatchingSingle("/e2e", input);
    MatchingSingle("/code-review", input);
    assert DefaultCommands == ["/plan"] + ["/tdd"] + ["/e2e"] + ["/code-review"];
    MatchingCommandsAppend(["/plan"] + ["/tdd"] + ["/e2e"], ["/code-review"], input);
    MatchingCommandsAppend(["/plan"] + ["/tdd"], ["/e2e"], input);
    MatchingCommandsAppend(["/plan"], ["/tdd"], input);
  }

  /**
   * With the default commands, "/t" suggests only "/tdd", and a padded
   * "/plan" runs trimmed and is reported trimmed.
   */
  method TerminalScenario() returns (suggested: seq<string>, entry: HistoryEntry, calls: seq<string>)
    ensures suggested == ["/tdd"]
    ensures entry == HistoryEntry("/plan", DefaultOutputs["/plan"])
    ensures calls == ["/plan"]
  {
    var sim := new Simulator(DefaultCommands, DefaultOutputs);
    sim.SetInput("/t");
    SlashTExample(sim.inputValue);
    suggested := sim.CurrentSuggestions();
    sim.SetInput("  /plan ");
    PlanTrims(sim.inputValue);
    sim.HandleKeyDown("Enter");
    PlanOutput();
    entry := sim.history[0];
    calls := sim.executed;
  }

  /** An unknown command is named in the reply; a blank line and other keys execute nothing. */
  method UnknownCommandScenario() returns (entry: HistoryEntry, historyAfterBlank: nat, inputAfterTab: string)
    ensures entry == HistoryEntry("/deploy", UnknownPrefix + "/deploy")
    ensures historyAfterBlank == 1
    ensures inputAfterTab == "/x"
  {
    var sim := new Simulator(DefaultCommands, DefaultOutputs);
    sim.ExecuteCommand("/deploy");
    DeployTrims("/deploy");
    DeployOutput();
    entry := sim.history[0];
    sim.SetInput(" ");
    BlankTrims(sim.inputValue);
    sim.HandleKeyDown("Enter");
    historyAfterBlank := |sim.history|;
    sim.SetInput("/x");
    sim.HandleKeyDown("Tab");
    inputAfterTab := sim.inputValue;
  }

  lemma BlankTrims(s: string)
    requires s == " "
    ensures Trim(s) == ""
  {
    TrimEmptyIff(s);
  }

  lemma PlanOutput()
    ensures CommandOutput(DefaultOutputs, "/plan") == DefaultOutputs["/plan"]
  {
    assert DefaultOutputs["/plan"] != "";
  }

  lemma DeployOutput()
    ensures CommandOutput(DefaultOutputs, "/deploy") == UnknownPrefix + "/deploy"
  {
    assert "/deploy" !in DefaultOutputs;
  }

  lemma PlanTrims(s: string)
    requires s == "  /plan "
    ensures Trim(s) == "/plan"
  {
    var t := "/plan ";
    assert s[1..][1..] == t;
    assert IsJsSpace(s[0]) && IsJsSpace(s[1..][0]) && !IsJsSpace(t[0]);
    assert TrimStart(s) == TrimStart(s[1..]) == TrimStart(t) == t;
    assert IsJsSpace(t[|t| - 1]) && t[..|t| - 1] == "/plan";
    assert !IsJsSpace("/plan"[4]);
  }

  lemma DeployTrims(s: string)
    requires s == "/deploy"
    ensures Trim(s) == "/deploy"
  {
    assert !IsJsSpace(s[0]) && !IsJsSpace(s[|s| - 1]);
    assert TrimStart(s) == s;
  }
}
