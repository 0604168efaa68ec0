/** `CharacterTrainer::CLIBase`: an ordered table of (pattern, description,
    handler) bindings, and the read loop that runs, for each line, the
    handler of the first binding whose pattern matches it. */
module CliBase {
  import opened Wrappers
  import opened Regex

  /** One `on` registration. `arity` is the block's arity: a block that
      declares the input parameter has arity 1, one that does not has 0. */
  datatype Binding<H> = Binding(command: Pattern, description: string, handler: H, arity: nat)

  /** `on`: the new binding goes at the end; the earlier ones stay as they are. */
  function On<H>(commands: seq<Binding<H>>, command: Pattern, description: string, handler: H, arity: nat): (r: seq<Binding<H>>)
    ensures |r| == |commands| + 1
    ensures r[..|commands|] == commands
    ensures r[|commands|] == Binding(command, description, handler, arity)
  {
    commands + [Binding(command, description, handler, arity)]
  }

  /** Position of the first binding, in registration order, whose pattern
      matches the line; None when no pattern does. */
  function FirstMatch<H>(commands: seq<Binding<H>>, line: Line): (r: Option<nat>)
    ensures r.Some? ==> r.value < |commands| && Matches(commands[r.value].command, line)
    ensures r.Some? ==> forall j :: 0 <= j < r.value ==> !Matches(commands[j].command, line)
    ensures r.None? <==> forall j :: 0 <= j < |commands| ==> !Matches(commands[j].command, line)
  {
    if |commands| == 0 then None
    else if Matches(commands[0].command, line) then Some(0)
    else
      match FirstMatch(commands[1..], line)
      case None => None
      case Some(k) => Some(k + 1)
  }

  /** What one turn of the loop does with one read. */
  datatype Action<H> =
    | Exit                                               // end of input: the process exits
    | Ignore                                             // no pattern matched: the line is dropped
    | Invoke(position: nat, handler: H, arg: Option<Line>) // run this handler, with or without the line

  /** One turn of `readline_loop`: nil input exits; otherwise the first
      matching binding's handler runs, given the raw line exactly when its
      arity is positive, and nothing runs when no pattern matches. */
  function Dispatch<H>(commands: seq<Binding<H>>, input: Option<Line>): (r: Action<H>)
    ensures input.None? <==> r.Exit?
    ensures input.Some? ==> (r.Ignore? <==> FirstMatch(commands, input.value).None?)
    ensures r.Invoke? ==> input.Some? && FirstMatch(commands, input.value) == Some(r.position)
    ensures r.Invoke? ==> r.position < |commands| && r.handler == commands[r.position].handler
    ensures r.Invoke? && r.position < |commands| && commands[r.position].arity > 0 ==> r.arg == input
    ensures r.Invoke? && r.position < |commands| && commands[r.position].arity == 0 ==> r.arg.None?
  {
    match input
    case None => Exit
    case Some(line) =>
      match FirstMatch(commands, line)
      case None => Ignore
      case Some(k) =>
        var b := commands[k];
        Invoke(k, b.handler, if b.arity > 0 then Some(line) else None)
  }

  /** `readline_loop` over a sequence of reads: the action each read is
      dispatched to, stopping right after the first end of input. The prompt
      and the blocks are taken to return here; a raise, which ends the loop,
      is modelled on the trainer's own table by `Cli.Run`. */
  function ReadlineLoop<H>(commands: seq<Binding<H>>, inputs: seq<Option<Line>>): (trace: seq<Action<H>>)
    ensures |trace| <= |inputs|
    ensures forall i :: 0 <= i < |trace| ==> trace[i] == Dispatch(commands, inputs[i])
    ensures forall i :: 0 <= i < |trace| - 1 ==> inputs[i].Some?
    ensures |trace| < |inputs| ==> |trace| > 0 && inputs[|trace| - 1].None?
    ensures (forall i :: 0 <= i < |inputs| ==> inputs[i].Some?) ==> |trace| == |inputs|
  {
    if |inputs| == 0 then []
    else if inputs[0].None? then
      assert Dispatch(commands, inputs[0]) == Exit;
      [Exit]
    else
      var rest := ReadlineLoop(commands, inputs[1..]);
      var trace := [Dispatch(commands, inputs[0])] + rest;
      ConsIndex(Dispatch(commands, inputs[0]), rest);
      TailIndex(inputs);
      trace
  }

  lemma TailIndex<T>(s: seq<T>)
    requires |s| > 0
    ensures forall i :: 1 <= i < |s| ==> s[1..][i - 1] == s[i]
  {
  }

  lemma ConsIndex<T>(x: T, rest: seq<T>)
    ensures forall i :: 1 <= i < |[x] + rest| ==> ([x] + rest)[i] == rest[i - 1]
  {
  }

  /** Registering a binding does not change which binding a line already
      matched goes to. */
  lemma OnKeepsEarlierChoice<H>(commands: seq<Binding<H>>, command: Pattern, description: string, handler: H, arity: nat, line: Line)
    requires FirstMatch(commands, line).Some?
    ensures FirstMatch(On(commands, command, description, handler, arity), line) == FirstMatch(commands, line)
  {
    var r := On(commands, command, description, handler, arity);
    var k := FirstMatch(commands, line).value;
    assert r[k] == commands[k];
    assert forall j :: 0 <= j < k ==> r[j] == commands[j];
    FirstMatchUnique(r, line, k);
  }

  /** A line no earlier binding matched goes to the new binding if its
      pattern matches, and stays unmatched otherwise. */
  lemma OnCatchesUnmatched<H>(commands: seq<Binding<H>>, command: Pattern, description: string, handler: H, arity: nat, line: Line)
    requires FirstMatch(commands, line).None?
    ensures FirstMatch(On(commands, command, description, handler, arity), line) ==
      (if Matches(command, line) then Some(|commands|) else None)
  {
    var r := On(commands, command, description, handler, arity);
    assert forall j :: 0 <= j < |commands| ==> r[j] == commands[j];
    if Matches(command, line) {
      FirstMatchUnique(r, line, |commands|);
    }
  }

  /** The first-match position is determined by the patterns alone. */
  lemma FirstMatchUnique<H>(commands: seq<Binding<H>>, line: Line, k: nat)
    requires k < |commands| && Matches(commands[k].command, line)
    requires forall j :: 0 <= j < k ==> !Matches(commands[j].command, line)
    ensures FirstMatch(commands, line) == Some(k)
  {
  }

  /** A binding whose pattern repeats an earlier binding's pattern is never chosen. */
  lemma Shadowed<H>(commands: seq<Binding<H>>, i: nat, j: nat, line: Line)
    requires i < j < |commands|
    requires commands[i].command == commands[j].command
    ensures FirstMatch(commands, line) != Some(j)
  {
  }
}
