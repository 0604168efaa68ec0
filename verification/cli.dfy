/** `CharacterTrainer::CLI`: the trainer's command table, the parsing of
    the `note`, `goto`, `optional` and answer lines, and one turn of the
    read loop run against the session. */
module Cli {
  import opened Wrappers
  import opened Text
  import opened Regex
  import opened CliBase
  import Cards
  import Session

  /** The handlers of the table. Both `/^hsk/` bindings run `Hsk`. */
  datatype Command =
    | Back | Skip | Cedict | Hsk | Chise | Pry | His | Inspect
    | Note | Goto | Optional | Answer | Help | Stats | Display

  /** The handlers whose block takes the input line. */
  predicate TakesLine(c: Command) {
    c.Note? || c.Goto? || c.Optional? || c.Answer?
  }

  function Prefix(text: string): Pattern {
    Pattern([AtStart(text)])
  }

  /** The `on` registrations of the class body, in their order. */
  const Bindings: seq<Binding<Command>> := [
    Binding(Prefix("back"), "Go a card back", Back, 0),
    Binding(Prefix("skip"), "Skip this card/character", Skip, 0),
    Binding(Prefix("cedict"), "Show combinations", Cedict, 0),
    Binding(Prefix("hsk"), "Show HSK vocab", Hsk, 0),
    Binding(Prefix("chise"), "Show character composition", Chise, 0),
    Binding(Prefix("hsk"), "Show HSK vocab", Hsk, 0),
    Binding(Prefix("pry"), "Open a pry console", Pry, 0),
    Binding(Prefix("his"), "Show history", His, 0),
    Binding(Prefix("inspect"), "Show detailed card info", Inspect, 0),
    Binding(Prefix("note "), "Show the card's translations", Note, 1),
    Binding(Prefix("goto "), "Skip to a specific character", Goto, 1),
    Binding(Prefix("optional "), "Mark certain pinyin as optional to remember", Optional, 1),
    Binding(Pattern([AnyDigit]), "pinyin answer", Answer, 1),
    Binding(Pattern([AtStart("h"), Anywhere("help"), Anywhere("?")]), "Show help", Help, 0),
    Binding(Pattern([AtStart("s"), Anywhere("stats")]), "Show deck statistics", Stats, 0),
    Binding(Pattern([AtStart("d"), Anywhere("display")]), "Show the card's translations", Display, 0)
  ]

  /** Exactly the blocks of `note`, `goto`, `optional` and the answer take the line. */
  lemma BindingArities()
    ensures forall k :: 0 <= k < |Bindings| ==> (Bindings[k].arity > 0 <==> TakesLine(Bindings[k].handler))
  {
  }

  /** `input.gsub(/^note /,'').strip` and `input.gsub(/^goto /,'').strip`:
      the stripped rest of the line after the command word. */
  function Argument(line: Line, command: string): (r: string)
    ensures Trimmed(r)
    ensures HasPrefix(line, command) ==> r == Strip(line[|command|..])
    ensures !HasPrefix(line, command) ==> r == Strip(line)
  {
    Strip(RemovePrefix(line, command))
  }

  /** The comma-separated pieces of `s`, each stripped. */
  function Tokens(s: string): (r: seq<string>)
    ensures |r| == |Split(s, ',')|
    ensures forall i :: 0 <= i < |r| ==> r[i] == Strip(Split(s, ',')[i])
    ensures forall i :: 0 <= i < |r| ==> Trimmed(r[i]) && ',' !in r[i]
  {
    var pieces := Split(s, ',');
    forall i | 0 <= i < |pieces|
      ensures ',' !in Strip(pieces[i])
    {
      StripKeepsOut(pieces[i], ',');
    }
    StripEach(pieces)
  }

  /** `input.split(',').map(&:strip)`: the answer line's tokens. */
  function AnswerTokens(line: Line): (r: seq<string>)
    ensures |r| == |Split(line, ',')|
    ensures forall i :: 0 <= i < |r| ==> r[i] == Strip(Split(line, ',')[i])
    ensures forall i :: 0 <= i < |r| ==> Trimmed(r[i]) && ',' !in r[i]
  {
    Tokens(line)
  }

  /** `input.gsub(/^optional /,'').split(',').map(&:strip)`. */
  function OptionalTokens(line: Line): (r: seq<string>)
    ensures forall i :: 0 <= i < |r| ==> Trimmed(r[i]) && ',' !in r[i]
    ensures HasPrefix(line, "optional ") ==>
      |r| == |Split(line[9..], ',')| && forall i :: 0 <= i < |r| ==> r[i] == Strip(Split(line[9..], ',')[i])
    ensures !HasPrefix(line, "optional ") ==>
      |r| == |Split(line, ',')| && forall i :: 0 <= i < |r| ==> r[i] == Strip(Split(line, ',')[i])
  {
    Tokens(RemovePrefix(line, "optional "))
  }

  /** Joining stripped, comma-free tokens with commas and parsing the
      result gives the tokens back. */
  lemma TokensOfJoin(tokens: seq<string>)
    requires |tokens| >= 1 && tokens[|tokens| - 1] != ""
    requires forall i :: 0 <= i < |tokens| ==> Trimmed(tokens[i]) && ',' !in tokens[i]
    ensures Tokens(Join(tokens, ',')) == tokens
  {
    SplitJoin(tokens, ',');
    StripEachOfTrimmed(tokens);
  }

  /** The environment of one turn: the clock and the random draw. */
  datatype Env = Env(now: Session.Time, sampler: Session.Sampler)

  /** What one turn leaves behind: the process exits, the session goes on
      in a new state, or a handler raised. */
  datatype Outcome = Exited | Continued(app: Session.App) | Raised(failure: Session.Failure)

  function FromResult(r: Result<Session.App, Session.Failure>): Outcome {
    match r
    case Success(app) => Continued(app)
    case Failure(f) => Raised(f)
  }

  /** The block of each binding, run against the session. The reporting
      handlers (`cedict`, `hsk`, `chise`, `his`, `inspect`, help, `stats`)
      only print, so they leave the session as it is; `pry` opens an
      interactive console, whose effects are outside the model, and is
      taken to leave the session as it is too. */
  function Perform(app: Session.App, eng: Session.Engine, dict: Cards.Dictionary, env: Env, cmd: Command, arg: Option<Line>): (o: Outcome)
    requires Session.ValidSampler(env.sampler)
    requires TakesLine(cmd) <==> arg.Some?
    ensures !o.Exited?
    ensures o.Raised? ==> cmd.Note? || cmd.Optional? || cmd.Answer? || cmd.Display?
    ensures o.Continued? && !cmd.Answer? ==> o.app.lastCorrect == app.lastCorrect
    ensures cmd.Back? || cmd.Skip? || cmd.Goto? ==> o.Continued? && o.app.deck == app.deck && o.app.effects == app.effects
    ensures cmd.Skip? || cmd.Goto? ==> o.app.previous == app.current
    ensures o.Continued? && (cmd.Note? || cmd.Optional?) ==> o.app.effects == app.effects + [Session.Saved(o.app.deck)]
    ensures o.Continued? && cmd.Answer? ==> |o.app.effects| == |app.effects| + 2
  {
    match cmd
    case Back => Continued(Session.Back(app))
    case Skip => Continued(Session.NextCard(app, eng, env.now, env.sampler))
    case Note => FromResult(Session.AddNote(app, Argument(arg.value, "note ")))
    case Goto => Continued(Session.Goto(app, Argument(arg.value, "goto ")))
    case Optional => FromResult(Session.MarkOptional(app, OptionalTokens(arg.value)))
    case Answer => FromResult(Session.CheckInput(app, eng, dict, env.now, env.sampler, AnswerTokens(arg.value)))
    case Display => FromResult(Session.DisplayCard(app, dict))
    case Cedict | Hsk | Chise | Pry | His | Inspect | Help | Stats => Continued(app)
  }

  /** One turn of the loop: end of input exits, an unmatched line leaves the
      session unchanged, and otherwise the first matching binding's block runs. */
  function Step(app: Session.App, eng: Session.Engine, dict: Cards.Dictionary, env: Env, input: Option<Line>): (o: Outcome)
    requires Session.ValidSampler(env.sampler)
    ensures input.None? <==> o.Exited?
    ensures input.Some? && FirstMatch(Bindings, input.value).None? ==> o == Continued(app)
    ensures input.Some? && FirstMatch(Bindings, input.value).Some? ==>
      var k := FirstMatch(Bindings, input.value).value;
      o == Perform(app, eng, dict, env, Bindings[k].handler, if TakesLine(Bindings[k].handler) then input else None)
  {
    BindingArities();
    match Dispatch(Bindings, input)
    case Exit => Exited
    case Ignore => Continued(app)
    case Invoke(_, cmd, arg) => Perform(app, eng, dict, env, cmd, arg)
  }

  /** The second `/^hsk/` binding (position 5) is never chosen: the first
      one (position 3) has the same pattern and comes earlier. */
  lemma SecondHskUnreachable(line: Line)
    ensures FirstMatch(Bindings, line) != Some(5)
  {
    Shadowed(Bindings, 3, 5, line);
  }

  /** A pattern made of one `^text` branch with non-empty text. */
  predicate PrefixOnly(p: Pattern) {
    |p.branches| == 1 && p.branches[0].AtStart? && |p.branches[0].text| > 0
  }

  /** The first characters of the first twelve bindings' prefixes. */
  const PrefixHeads := "bschchphingo"

  /** The first twelve bindings are plain prefix patterns, whose prefixes
      start with the characters of `PrefixHeads`. */
  lemma PrefixBindings()
    ensures forall j :: 0 <= j < 12 ==>
      PrefixOnly(Bindings[j].command) && Bindings[j].command.branches[0].text[0] == PrefixHeads[j]
  {
  }

  /** A line starting with `p` matches none of the bindings `lo` to `hi`
      when none of their prefixes starts with the same character. */
  lemma NoPrefixAmong(line: Line, p: string, lo: nat, hi: nat)
    requires HasPrefix(line, p) && |p| > 0 && lo <= hi <= 12
    requires p[0] !in PrefixHeads[lo..hi]
    ensures forall j :: lo <= j < hi ==> !Matches(Bindings[j].command, line)
  {
    PrefixBindings();
    forall j | lo <= j < hi
      ensures !Matches(Bindings[j].command, line)
    {
      assert PrefixHeads[j] == PrefixHeads[lo..hi][j - lo];
      StartsDiffer(line, p, Bindings[j].command.branches[0].text, 0);
    }
  }

  /** Every line starting with `note ` reaches the note handler with the
      whole line, ahead of the answer binding even when it holds a digit. */
  lemma NoteLinesGoToNote(line: Line)
    requires HasPrefix(line, "note ")
    ensures Dispatch(Bindings, Some(line)) == Invoke(9, Note, Some(line))
  {
    NoPrefixAmong(line, "note ", 0, 9);
    assert BranchMatches(Bindings[9].command.branches[0], line);
    FirstMatchUnique(Bindings, line, 9);
  }

  /** Every line starting with `goto ` reaches the goto handler. */
  lemma GotoLinesGoToGoto(line: Line)
    requires HasPrefix(line, "goto ")
    ensures Dispatch(Bindings, Some(line)) == Invoke(10, Goto, Some(line))
  {
    NoPrefixAmong(line, "goto ", 0, 10);
    assert BranchMatches(Bindings[10].command.branches[0], line);
    FirstMatchUnique(Bindings, line, 10);
  }

  /** Every line starting with `optional ` reaches the optional handler. */
  lemma OptionalLinesGoToOptional(line: Line)
    requires HasPrefix(line, "optional ")
    ensures Dispatch(Bindings, Some(line)) == Invoke(11, Optional, Some(line))
  {
    NoPrefixAmong(line, "optional ", 0, 11);
    assert BranchMatches(Bindings[11].command.branches[0], line);
    FirstMatchUnique(Bindings, line, 11);
  }

  /** `stats 1` holds a digit, so the answer binding takes it before the
      stats binding is reached. */
  lemma StatsWithDigitIsAnAnswer()
    ensures Dispatch(Bindings, Some("stats 1")) == Invoke(12, Answer, Some("stats 1"))
  {
    StatsLineDispatch();
  }

  lemma StatsLineDispatch()
    ensures FirstMatch(Bindings, "stats 1") == Some(12)
  {
    var line: Line := "stats 1";
    NoPrefixAmong(line, "s", 0, 1);
    assert !Matches(Bindings[1].command, line) by {
      StartsDiffer(line, "st", "skip", 1);
    }
    NoPrefixAmong(line, "s", 2, 12);
    assert IsDigit(line[6]);
    assert BranchMatches(Bindings[12].command.branches[0], line);
    FirstMatchUnique(Bindings, line, 12);
  }

  /** `back` runs the back handler, without the line. */
  lemma BackLine(app: Session.App, eng: Session.Engine, dict: Cards.Dictionary, env: Env)
    requires Session.ValidSampler(env.sampler)
    ensures Step(app, eng, dict, env, Some("back")) == Continued(Session.Back(app))
  {
    var line: Line := "back";
    assert BranchMatches(Bindings[0].command.branches[0], line);
    FirstMatchUnique(Bindings, line, 0);
  }

  /** `1a,2b` goes to the answer binding. */
  lemma AnswerLineDispatch()
    ensures FirstMatch(Bindings, "1a,2b") == Some(12)
  {
    var line: Line := "1a,2b";
    NoPrefixAmong(line, "1", 0, 12);
    assert IsDigit(line[0]);
    assert BranchMatches(Bindings[12].command.branches[0], line);
    FirstMatchUnique(Bindings, line, 12);
  }

  /** Spaces around the commas are dropped: `ma3 , ma1` is the answer
      `ma3`, `ma1`. */
  lemma PaddedAnswerTokens()
    ensures AnswerTokens("ma3 , ma1") == ["ma3", "ma1"]
  {
    PaddedFields();
    PaddedStrips();
  }

  lemma PaddedFields()
    ensures Split("ma3 , ma1", ',') == ["ma3 ", " ma1"]
  {
    assert Join(["ma3 ", " ma1"], ',') == "ma3 , ma1";
    SplitJoin(["ma3 ", " ma1"], ',');
  }

  lemma PaddedStrips()
    ensures Strip("ma3 ") == "ma3" && Strip(" ma1") == "ma1"
  {
    StripAfter();
    StripBefore();
  }

  lemma StripAfter()
    ensures Strip("ma3 ") == "ma3"
  {
    assert "" + "ma3" + " " == "ma3 ";
    StripUnpads("", "ma3", " ");
  }

  lemma StripBefore()
    ensures Strip(" ma1") == "ma1"
  {
    assert " " + "ma1" + "" == " ma1";
    StripUnpads(" ", "ma1", "");
  }

  /** Every line starting with `back` goes back a card. */
  lemma StepBacks(app: Session.App, eng: Session.Engine, dict: Cards.Dictionary, env: Env, line: Line)
    requires Session.ValidSampler(env.sampler)
    requires HasPrefix(line, "back")
    ensures Step(app, eng, dict, env, Some(line)) == Continued(Session.Back(app))
  {
    assert BranchMatches(Bindings[0].command.branches[0], line);
    FirstMatchUnique(Bindings, line, 0);
    assert Bindings[0].handler == Back;
  }

  /** Every line starting with `skip` moves on to the next card. */
  lemma StepSkips(app: Session.App, eng: Session.Engine, dict: Cards.Dictionary, env: Env, line: Line)
    requires Session.ValidSampler(env.sampler)
    requires HasPrefix(line, "skip")
    ensures Step(app, eng, dict, env, Some(line)) == Continued(Session.NextCard(app, eng, env.now, env.sampler))
  {
    NoPrefixAmong(line, "skip", 0, 1);
    assert BranchMatches(Bindings[1].command.branches[0], line);
    FirstMatchUnique(Bindings, line, 1);
    assert Bindings[1].handler == Skip;
  }

  /** A line starting with `optional ` appends the stripped comma-separated
      pieces of its remainder to the optional list. */
  lemma StepOptionals(app: Session.App, eng: Session.Engine, dict: Cards.Dictionary, env: Env, line: Line)
    requires Session.ValidSampler(env.sampler)
    requires HasPrefix(line, "optional ")
    ensures Step(app, eng, dict, env, Some(line)) == FromResult(Session.MarkOptional(app, Tokens(line[9..])))
  {
    StepOptionalsDispatch(app, eng, dict, env, line);
    PerformOptional(app, eng, dict, env, line);
    OptionalTokensOfPrefixed(line);
  }

  lemma PerformOptional(app: Session.App, eng: Session.Engine, dict: Cards.Dictionary, env: Env, line: Line)
    requires Session.ValidSampler(env.sampler)
    ensures Perform(app, eng, dict, env, Optional, Some(line)) == FromResult(Session.MarkOptional(app, OptionalTokens(line)))
  {
  }

  lemma OptionalTokensOfPrefixed(line: Line)
    requires HasPrefix(line, "optional ")
    ensures OptionalTokens(line) == Tokens(line[9..])
  {
    assert RemovePrefix(line, "optional ") == line[9..];
  }

  lemma StepOptionalsDispatch(app: Session.App, eng: Session.Engine, dict: Cards.Dictionary, env: Env, line: Line)
    requires Session.ValidSampler(env.sampler)
    requires HasPrefix(line, "optional ")
    ensures Step(app, eng, dict, env, Some(line)) == Perform(app, eng, dict, env, Optional, Some(line))
  {
    OptionalLinesGoToOptional(line);
    assert Bindings[11].handler == Optional;
  }

  /** A line the answer binding takes runs the answer block with the line. */
  lemma StepAnswers(app: Session.App, eng: Session.Engine, dict: Cards.Dictionary, env: Env, line: Line)
    requires Session.ValidSampler(env.sampler)
    requires FirstMatch(Bindings, line) == Some(12)
    ensures Step(app, eng, dict, env, Some(line)) == Perform(app, eng, dict, env, Answer, Some(line))
  {
    assert Bindings[12].handler == Answer;
  }

  lemma AnswerTokensExample()
    ensures AnswerTokens("1a,2b") == ["1a", "2b"]
  {
    assert Join(["1a", "2b"], ',') == "1a,2b";
    TokensOfJoin(["1a", "2b"]);
  }

  /** `1a,2b` is an answer made of the tokens `1a` and `2b`. */
  lemma AnswerLine(app: Session.App, eng: Session.Engine, dict: Cards.Dictionary, env: Env)
    requires Session.ValidSampler(env.sampler)
    ensures Step(app, eng, dict, env, Some("1a,2b")) == Perform(app, eng, dict, env, Answer, Some("1a,2b"))
    ensures AnswerTokens("1a,2b") == ["1a", "2b"]
  {
    var line: Line := "1a,2b";
    AnswerLineDispatch();
    StepAnswers(app, eng, dict, env, line);
    AnswerTokensExample();
  }

  /** A line starting with `note ` appends its stripped remainder as a note. */
  lemma StepNotes(app: Session.App, eng: Session.Engine, dict: Cards.Dictionary, env: Env, line: Line)
    requires Session.ValidSampler(env.sampler)
    requires HasPrefix(line, "note ")
    ensures Step(app, eng, dict, env, Some(line)) == FromResult(Session.AddNote(app, Strip(line[5..])))
  {
    NoteLinesGoToNote(line);
    assert Bindings[9].handler == Note;
    assert Step(app, eng, dict, env, Some(line)) == Perform(app, eng, dict, env, Note, Some(line));
  }

  /** A line starting with `goto ` jumps to the first card whose character
      is the stripped remainder of the line. */
  lemma StepGotos(app: Session.App, eng: Session.Engine, dict: Cards.Dictionary, env: Env, line: Line)
    requires Session.ValidSampler(env.sampler)
    requires HasPrefix(line, "goto ")
    ensures Step(app, eng, dict, env, Some(line)) == Continued(Session.Goto(app, line[5..]))
  {
    GotoLinesGoToGoto(line);
    assert Bindings[10].handler == Goto;
    assert Step(app, eng, dict, env, Some(line)) == Perform(app, eng, dict, env, Goto, Some(line));
    StripIdempotent(line[5..]);
  }

  lemma NoteTextExample()
    ensures Strip("note hello"[5..]) == "hello"
  {
    assert "note hello"[5..] == "hello";
    StripOfTrimmed("hello");
  }

  /** `note hello` appends the note `hello`. */
  lemma NoteLine(app: Session.App, eng: Session.Engine, dict: Cards.Dictionary, env: Env)
    requires Session.ValidSampler(env.sampler)
    ensures Step(app, eng, dict, env, Some("note hello")) == FromResult(Session.AddNote(app, "hello"))
  {
    var line: Line := "note hello";
    StepNotes(app, eng, dict, env, line);
    NoteTextExample();
  }

  /** `bogus` matches no pattern and changes nothing. */
  lemma UnknownLine(app: Session.App, eng: Session.Engine, dict: Cards.Dictionary, env: Env)
    requires Session.ValidSampler(env.sampler)
    ensures Step(app, eng, dict, env, Some("bogus")) == Continued(app)
  {
    UnknownLineMatchesNothing();
  }

  /** `bogus` starts with `b` but not with `back`, and holds no digit,
      `help`, `?`, `stats` or `display`. */
  lemma UnknownLineMatchesNothing()
    ensures FirstMatch(Bindings, "bogus").None?
  {
    var line: Line := "bogus";
    assert !Matches(Bindings[0].command, line) by {
      StartsDiffer(line, "bo", "back", 1);
    }
    NoPrefixAmong(line, "b", 1, 12);
    BogusMatchesNoLaterBinding();
  }

  lemma BogusMatchesNoLaterBinding()
    ensures forall j :: 12 <= j < |Bindings| ==> !Matches(Bindings[j].command, "bogus")
  {
    var line: Line := "bogus";
    BogusLacks();
    assert line[..1] == "b";
    StartsDiffer(line, "b", "h", 0);
    StartsDiffer(line, "b", "s", 0);
    StartsDiffer(line, "b", "d", 0);
    forall j, k | 12 <= j < |Bindings| && 0 <= k < |Bindings[j].command.branches|
      ensures !BranchMatches(Bindings[j].command.branches[k], line)
    {
    }
  }

  /** `bogus` holds no digit, `help`, `?`, `stats` or `display`. */
  lemma BogusLacks()
    ensures !Contains("bogus", "help") && !Contains("bogus", "?")
    ensures !Contains("bogus", "stats") && !Contains("bogus", "display")
    ensures forall i :: 0 <= i < |"bogus"| ==> !IsDigit("bogus"[i])
  {
    MissingCharNotContained("bogus", "help", 0);
    MissingCharNotContained("bogus", "?", 0);
    MissingCharNotContained("bogus", "stats", 1);
    MissingCharNotContained("bogus", "display", 0);
  }

  /** End of input exits without running a handler. */
  lemma EndOfInput(app: Session.App, eng: Session.Engine, dict: Cards.Dictionary, env: Env)
    requires Session.ValidSampler(env.sampler)
    ensures Step(app, eng, dict, env, None) == Exited
  {
  }

  /** One pass of `loop do ... end`: the prompt is computed before the line
      is read, so when it raises nothing is read and no handler runs. */
  function Turn(app: Session.App, eng: Session.Engine, dict: Cards.Dictionary, env: Env, input: Option<Line>): (o: Outcome)
    requires Session.ValidSampler(env.sampler)
    ensures Session.Prompt(app, eng, dict, env.now).Failure? ==> o == Raised(Session.Prompt(app, eng, dict, env.now).error)
    ensures Session.Prompt(app, eng, dict, env.now).Success? ==> o == Step(app, eng, dict, env, input)
  {
    match Session.Prompt(app, eng, dict, env.now)
    case Failure(f) => Raised(f)
    case Success(_) => Step(app, eng, dict, env, input)
  }

  /** `goto` to a character no card has is accepted, but the turn after it
      raises while computing the prompt, whatever is typed next, end of
      input included. */
  lemma GotoMissingThenRaises(app: Session.App, eng: Session.Engine, dict: Cards.Dictionary, env: Env, line: Line, env': Env, next: Option<Line>)
    requires Session.ValidSampler(env.sampler) && Session.ValidSampler(env'.sampler)
    requires HasPrefix(line, "goto ")
    requires forall i :: 0 <= i < |app.deck| ==> app.deck[i].data.character != Strip(line[5..])
    ensures Session.Prompt(app, eng, dict, env.now).Success? ==> Turn(app, eng, dict, env, Some(line)) == Continued(Session.Goto(app, line[5..]))
    ensures Turn(Session.Goto(app, line[5..]), eng, dict, env', next) == Raised(Session.NoCurrentCard)
  {
    StepGotos(app, eng, dict, env, line);
    Session.GotoMissingBreaksPrompt(app, line[5..], eng, dict, env'.now);
  }

  /** `readline_loop` on the trainer's table, one environment per read.
      Turns run until end of input exits or a prompt or block raises; the
      raise ends the loop and the program, since `loop do` rescues only
      `StopIteration`. When the reads run out first, the session is still
      running in the state they left. */
  function Run(app: Session.App, eng: Session.Engine, dict: Cards.Dictionary, envs: seq<Env>, inputs: seq<Option<Line>>): (o: Outcome)
    requires |envs| == |inputs|
    requires forall i :: 0 <= i < |envs| ==> Session.ValidSampler(envs[i].sampler)
    ensures o.Exited? ==> exists i :: 0 <= i < |inputs| && inputs[i].None?
    ensures o.Continued? ==> forall i :: 0 <= i < |inputs| ==> inputs[i].Some?
  {
    RunFrom(app, eng, dict, envs, inputs, 0)
  }

  /** The run from read `from` on. */
  function RunFrom(app: Session.App, eng: Session.Engine, dict: Cards.Dictionary, envs: seq<Env>, inputs: seq<Option<Line>>, from: nat): (o: Outcome)
    requires |envs| == |inputs| && from <= |inputs|
    requires forall i :: 0 <= i < |envs| ==> Session.ValidSampler(envs[i].sampler)
    ensures o.Exited? ==> exists i :: from <= i < |inputs| && inputs[i].None?
    ensures o.Continued? ==> forall i :: from <= i < |inputs| ==> inputs[i].Some?
    decreases |inputs| - from, 1
  {
    if from == |inputs| then Continued(app)
    else
      TurnReads(app, eng, dict, envs[from], inputs[from]);
      Resume(Turn(app, eng, dict, envs[from], inputs[from]), eng, dict, envs, inputs, from + 1)
  }

  /** The rest of a run after the turn on read `next - 1` ended with `t`:
      it goes on only when that turn left the session running. */
  function Resume(t: Outcome, eng: Session.Engine, dict: Cards.Dictionary, envs: seq<Env>, inputs: seq<Option<Line>>, next: nat): (o: Outcome)
    requires |envs| == |inputs| && 0 < next <= |inputs|
    requires forall i :: 0 <= i < |envs| ==> Session.ValidSampler(envs[i].sampler)
    requires t.Exited? ==> inputs[next - 1].None?
    requires t.Continued? ==> inputs[next - 1].Some?
    ensures !t.Continued? ==> o == t
    ensures o.Exited? ==> exists i :: next - 1 <= i < |inputs| && inputs[i].None?
    ensures o.Continued? ==> forall i :: next - 1 <= i < |inputs| ==> inputs[i].Some?
    decreases |inputs| - next, 2
  {
    if t.Continued? then RunFrom(t.app, eng, dict, envs, inputs, next) else t
  }

  /** A turn exits only on end of input and goes on only after a line. */
  lemma TurnReads(app: Session.App, eng: Session.Engine, dict: Cards.Dictionary, env: Env, input: Option<Line>)
    requires Session.ValidSampler(env.sampler)
    ensures Turn(app, eng, dict, env, input).Exited? ==> input.None?
    ensures Turn(app, eng, dict, env, input).Continued? ==> input.Some?
  {
  }

  /** A run whose first prompt raises raises before reading anything; one
      whose first prompt succeeds exits when the first read is nil. */
  lemma RunFirstPrompt(app: Session.App, eng: Session.Engine, dict: Cards.Dictionary, envs: seq<Env>, inputs: seq<Option<Line>>)
    requires |envs| == |inputs| > 0
    requires forall i :: 0 <= i < |envs| ==> Session.ValidSampler(envs[i].sampler)
    ensures Session.Prompt(app, eng, dict, envs[0].now).Failure? ==>
      Run(app, eng, dict, envs, inputs) == Raised(Session.Prompt(app, eng, dict, envs[0].now).error)
    ensures Session.Prompt(app, eng, dict, envs[0].now).Success? && inputs[0].None? ==>
      Run(app, eng, dict, envs, inputs) == Exited
  {
  }

  /** A turn that raises ends the run, whatever is read after it. */
  lemma RunStopsAtRaise(app: Session.App, eng: Session.Engine, dict: Cards.Dictionary, envs: seq<Env>, inputs: seq<Option<Line>>, k: nat)
    requires |envs| == |inputs| && k < |inputs|
    requires forall i :: 0 <= i < |envs| ==> Session.ValidSampler(envs[i].sampler)
    requires Turn(app, eng, dict, envs[k], inputs[k]).Raised?
    ensures RunFrom(app, eng, dict, envs, inputs, k) == Turn(app, eng, dict, envs[k], inputs[k])
  {
  }

  /** A turn that leaves the session running hands its state to the next read. */
  lemma RunGoesOn(app: Session.App, eng: Session.Engine, dict: Cards.Dictionary, envs: seq<Env>, inputs: seq<Option<Line>>, k: nat)
    requires |envs| == |inputs| && k < |inputs|
    requires forall i :: 0 <= i < |envs| ==> Session.ValidSampler(envs[i].sampler)
    requires Turn(app, eng, dict, envs[k], inputs[k]).Continued?
    ensures RunFrom(app, eng, dict, envs, inputs, k) == RunFrom(Turn(app, eng, dict, envs[k], inputs[k]).app, eng, dict, envs, inputs, k + 1)
  {
  }

  /** After `goto` to a character no card has, the run raises at the next
      prompt and reads nothing more. */
  lemma GotoMissingEndsRun(app: Session.App, eng: Session.Engine, dict: Cards.Dictionary, envs: seq<Env>, line: Line, rest: seq<Option<Line>>)
    requires |envs| == 1 + |rest| && |rest| > 0
    requires forall i :: 0 <= i < |envs| ==> Session.ValidSampler(envs[i].sampler)
    requires Session.Prompt(app, eng, dict, envs[0].now).Success?
    requires HasPrefix(line, "goto ")
    requires forall i :: 0 <= i < |app.deck| ==> app.deck[i].data.character != Strip(line[5..])
    ensures Run(app, eng, dict, envs, [Some(line)] + rest) == Raised(Session.NoCurrentCard)
  {
    var inputs := [Some(line)] + rest;
    assert inputs[0] == Some(line) && inputs[1] == rest[0];
    GotoMissingThenRaises(app, eng, dict, envs[0], line, envs[1], rest[0]);
    RunGoesOn(app, eng, dict, envs, inputs, 0);
    RunStopsAtRaise(Session.Goto(app, line[5..]), eng, dict, envs, inputs, 1);
  }
}
