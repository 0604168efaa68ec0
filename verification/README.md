# character_trainer, modelled in Dafny

`character_trainer` is a command-line flash-card trainer for Chinese characters. The user sees a character and types its pinyin readings, separated by commas. The trainer checks the answer against the readings CEDICT lists for the character. The result is passed to a spaced-repetition engine, and the trainer moves to the next due card. Other commands go back a card, jump to a character, add a note or mark readings as optional.

This project models the core of that program:

- `Cards` (cards.dfy): the `Card` record, its canonical readings (`pinyins`), the answer check (`check!`) and the edits made by notes and optional marks.
- `Session` (session.dfy): the `App` session machine over the deck, the current card, the previous card and the last verdict. It covers `next_card!`, `back!`, `goto!`, `rate!`, `check_input!`, `add_note!`, `mark_as_optional!`, `display_card!`, `expected_pinyins_count` and `prompt`.
- `CliBase` (cli_base.dfy): the generic dispatcher, meaning ordered `on` registration and one turn of `readline_loop`.
- `Cli` (cli.dfy): the trainer's 16-entry binding table, the parsing of `note`, `goto`, `optional` and answer lines, one turn of the loop run against the session, and the whole loop (`Cli.Run`), which ends at the first raise.
- `Regex` (regex.dfy): the table's regular expressions, as string predicates.
- `Text` (text.dfy) and `Ordering` (ordering.dfy): the Ruby `String` and `Array` operations the core relies on. These are `strip`, `split(',')`, `downcase`, anchored `gsub`, `uniq` and `sort`.
- `Wrappers` (wrappers.dfy): `Option`, which stands for `nil`, and `Result`, which stands for an operation that raises.

The scheduling engine (`Engine::Deck`, `Engine::Card#rate`) is a parameter whose functions are left uninterpreted: the `Engine` datatype. The clock is an abstract `Time`. The random draw of `sample(10)` is a `Sampler` oracle, constrained to return `min(10, n)` elements taken from distinct positions of the pool. Saving the deck and showing a card are recorded in an effect log (`Saved`, `Displayed`) inside the session.

Where the code and its design notes disagree, the model follows the code:

- `check!` compares the typed tokens exactly. Only the canonical side is lower-cased, so `Ma3` never matches `ma3` (`Cards.CapitalisedTokenRejected`). The answer check is not case-insensitive.
- A character with no CEDICT entry makes `pinyins` raise (`nil.map`), so `check!`, `expected_pinyins_count` and `prompt` raise as well. `display_card!` raises on the same character for a different reason: `cedicts` is nil, and `nil.each` raises. The model returns `None` or `Failure(NotInDictionary)`. It does not treat such a character as having an empty reading set.
- `goto` to a character no card has is accepted and sets the current card to nil. The next prompt then raises, which ends the program (`Cli.GotoMissingThenRaises`, `Cli.GotoMissingEndsRun`).
- The `/^note /` binding is registered with the description "Show the card's translations", the same text as the display binding. The table keeps that text.

## Model

| member | source | states |
|---|---|---|
| Text.Strip | lib/character_trainer.rb:205 | the stripped string has no leading or trailing Ruby whitespace and is no longer than the input |
| Text.StripShape | lib/character_trainer.rb:205 | the input is the stripped string with runs of whitespace added before and after it |
| Text.StripUnpads | lib/character_trainer.rb:205 | stripping whitespace padding from a trimmed string gives that string back |
| Text.StripOfTrimmed | lib/character_trainer.rb:209 | a string with no outer whitespace is left unchanged by `strip` |
| Text.StripIdempotent | lib/character_trainer.rb:113 | stripping twice equals stripping once, so `goto!` stripping an already stripped target changes nothing |
| Text.StripKeepsOut | lib/character_trainer.rb:213 | `strip` never introduces a character, so stripped comma-separated pieces hold no comma |
| Text.SkipSpaceOver | lib/character_trainer.rb:205 | the leading whitespace run ends exactly at the first non-space character |
| Text.SkipSpaceBackOver | lib/character_trainer.rb:205 | the trailing whitespace run starts right after the last non-space character |
| Text.RemovePrefix | lib/character_trainer.rb:205 | `gsub(/^note /,'')` removes the prefix when the line starts with it, and otherwise returns the line unchanged |
| Text.SplitAll | lib/character_trainer.rb:217 | splitting at every comma yields comma-free fields that join back to the input |
| Text.DropTrailingEmpty | lib/character_trainer.rb:217 | only trailing empty fields are dropped, and what is left ends in a non-empty field |
| Text.Split | lib/character_trainer.rb:217 | `split(',')` is the full field list minus its trailing empty fields |
| Text.SplitAllField | lib/character_trainer.rb:213 | a comma-free field followed by a comma splits off as the first field |
| Text.SplitAllJoin | lib/character_trainer.rb:213 | splitting comma-joined comma-free fields gives the fields back |
| Text.SplitAllNoSep | lib/character_trainer.rb:213 | a string without a comma splits into itself |
| Text.SplitJoin | lib/character_trainer.rb:217 | `split(',')` inverts joining with commas when the last field is non-empty |
| Text.StripEach | lib/character_trainer.rb:217 | `map(&:strip)` strips each element in place |
| Text.StripEachOfTrimmed | lib/character_trainer.rb:217 | mapping `strip` over trimmed strings changes nothing |
| Text.Lower | lib/character_trainer.rb:42 | `downcase` keeps the length, maps each upper-case letter to its lower-case letter and leaves other characters alone |
| Text.LowerOfLower | lib/character_trainer.rb:42 | a string without upper-case letters is its own `downcase` |
| Ordering.LexLeq | lib/character_trainer.rb:42 | Ruby's `String#<=>`, as `sort` uses it: code point by code point, a proper prefix first |
| Ordering.LexLeqTotal | lib/character_trainer.rb:42 | Ruby's string order compares any two strings |
| Ordering.LexLeqReflexive | lib/character_trainer.rb:42 | every string is ordered before or equal to itself |
| Ordering.LexLeqAntisymmetric | lib/character_trainer.rb:42 | two strings each ordered before the other are equal |
| Ordering.LexLeqTransitive | lib/character_trainer.rb:42 | the string order is transitive |
| Ordering.Insert | lib/character_trainer.rb:42 | insertion adds exactly one occurrence of the element |
| Ordering.InsertSorted | lib/character_trainer.rb:42 | inserting into a sorted list keeps it sorted |
| Ordering.InsertDistinct | lib/character_trainer.rb:42 | inserting a new element into a duplicate-free list keeps it duplicate-free |
| Ordering.NotInTail | lib/character_trainer.rb:42 | the head of a duplicate-free list does not recur in its tail |
| Ordering.Sort | lib/character_trainer.rb:42 | `sort` returns a sorted permutation of its input |
| Ordering.SortKeepsDistinct | lib/character_trainer.rb:42 | sorting a duplicate-free list keeps it duplicate-free |
| Ordering.Uniq | lib/character_trainer.rb:42 | `uniq` has no duplicates and the same elements as its input |
| Ordering.SortedDistinctIsStrict | lib/character_trainer.rb:42 | a sorted duplicate-free list is strictly increasing |
| Ordering.StrictlySortedUnique | lib/character_trainer.rb:42 | two strictly increasing lists with the same elements are equal, so `uniq.sort` is determined by its element set |
| Ordering.DistinctCardinality | lib/character_trainer.rb:138-140 | a duplicate-free list has as many elements as its set, so `count` of `pinyins - optional` is the set size |
| Cards.LoweredPinyins | lib/character_trainer.rb:42 | `map {\|_,_,py\| py}.map(&:downcase)` lower-cases the pinyin field of each row, one for one |
| Cards.Pinyins | lib/character_trainer.rb:41-43 | defined exactly for characters with a CEDICT entry; strictly sorted, so without duplicates; all lower-case; its elements are exactly the lower-cased pinyin fields of the character's rows |
| Cards.PinyinsIsTheSortedSet | lib/character_trainer.rb:41-43 | any strictly sorted list of exactly the lower-cased readings is `pinyins` |
| Cards.PinyinsNonEmpty | lib/character_trainer.rb:11 | in a table grouped by headword every entry yields at least one reading |
| Cards.AllIncluded | lib/character_trainer.rb:37 | the first `all?` holds iff every typed token is a canonical reading |
| Cards.AllCovered | lib/character_trainer.rb:38 | the second `all?` holds iff every canonical reading is typed or optional |
| Cards.ElemsCovered | lib/character_trainer.rb:38 | element-wise coverage is inclusion of the reading set in the union of typed and optional sets |
| Cards.CheckAnswer | lib/character_trainer.rb:36-39 | accepted iff typed ⊆ canonical ⊆ typed ∪ optional, as sets |
| Cards.Check | lib/character_trainer.rb:36-39 | raises exactly when the character has no CEDICT entry; otherwise the verdict is the set condition of `Cards.CheckAnswer` against the card's `pinyins` and `optional` |
| Cards.CheckRejectsExtra | lib/character_trainer.rb:37 | a typed token that is not a canonical reading makes the answer wrong, whatever is optional |
| Cards.CheckMonotoneInOptional | lib/character_trainer.rb:38 | enlarging the optional list never turns an accepted answer into a rejected one |
| Cards.FullAnswerAccepted | lib/character_trainer.rb:36-39 | typing all canonical readings is always accepted |
| Cards.CheckWithoutOptionalIsSetEquality | lib/character_trainer.rb:36-39 | with nothing optional, an answer is accepted iff its token set equals the reading set |
| Cards.CapitalisedTokenRejected | lib/character_trainer.rb:36-42 | a typed token with an upper-case letter is never accepted, because only the canonical side is lower-cased |
| Cards.Without | lib/character_trainer.rb:139 | array difference keeps exactly the elements not in the subtrahend and keeps a duplicate-free list duplicate-free |
| Cards.ExpectedPinyinsCount | lib/character_trainer.rb:138-140 | raises exactly when the character has no CEDICT entry; otherwise it is the size of the set of readings minus the optional ones |
| Cards.Notes | lib/character_trainer.rb:32-34 | the `notes` reader: a nil field reads as an empty list |
| Cards.Optional | lib/character_trainer.rb:28-30 | the `optional` reader: a nil field reads as an empty list |
| Cards.Apply | lib/character_trainer.rb:28-34 | appending a note or optional readings to a card changes only that list (a nil list reads as empty), keeping character and index |
| Cards.MarkOptionalKeepsAccepted | lib/character_trainer.rb:102-105 | marking readings optional keeps every accepted answer accepted |
| Cards.MarkAllOptionalExpectsNothing | lib/character_trainer.rb:138-140 | after marking every reading optional the expected count is zero |
| Session.Load | lib/character_trainer.rb:54-64 | a fresh session holds the loaded deck, no current or previous card, no verdict and no effects |
| Session.ArgMinByIndex | lib/character_trainer.rb:127 | `min` by index picks an element of least index, the first such one |
| Session.NextNewCard | lib/character_trainer.rb:126-128 | nil exactly when there are no new cards; otherwise a new card that was drawn in the sample, with no sampled card of smaller index |
| Session.SmallPoolPicksLowestIndex | lib/character_trainer.rb:126-128 | with at most ten new cards the sample is the whole pool, so the chosen card has the least index of all new cards |
| Session.SubMultisetOfSameSize | lib/character_trainer.rb:127 | a draw as large as the pool is the whole pool |
| Session.ChooseNext | lib/character_trainer.rb:91-95 | the first expired card when one exists; only otherwise a new card, nil when there is none |
| Session.NextCard | lib/character_trainer.rb:91-95 | the old current card becomes the previous one, the next card is `ChooseNext`, and nothing else changes |
| Session.Launch | lib/character_trainer.rb:159-164 | start-up loads the deck and shows the first due card when there is one; otherwise a new card, and nil only when there are no new cards either; there is no previous card and no verdict |
| Session.Back | lib/character_trainer.rb:107-110 | current and previous are swapped, and nothing else changes |
| Session.BackTwice | lib/character_trainer.rb:107-110 | going back twice restores the session |
| Session.NextThenBack | lib/character_trainer.rb:91-110 | `back!` after `next_card!` shows the card from before again |
| Session.Detect | lib/character_trainer.rb:113 | `detect` returns the first card in deck order with the character, and nil iff no card has it |
| Session.Goto | lib/character_trainer.rb:112-114 | the old current card becomes the previous one; the new one is a deck card whose character is the stripped argument, or nil iff no card has it; nothing else changes |
| Session.GotoThenBack | lib/character_trainer.rb:107-114 | `back!` after `goto!` returns to the card shown before the jump |
| Session.Rate | lib/character_trainer.rb:70-75 | the rated card is on show, the deck is the engine's `update_card(current, rated)`, and that deck is saved |
| Session.RateReplaces | lib/character_trainer.rb:70-75 | with an engine whose `update_card` swaps cards in place, the rated card takes the current card's positions in the deck, every other card stays, and a current card from the deck is replaced by its rated version |
| Session.CheckInput | lib/character_trainer.rb:77-89 | raises with no current card, with no CEDICT entry for it, and, iff the rated card's character has no entry, at the display step; otherwise it rates 3 or 0 by the verdict, saves, displays the rated card, moves on with that card as previous, and records the verdict; with an engine whose `update_card` swaps cards in place, the deck the next card is drawn from is the old deck with the rated card in place of the current one |
| Session.CheckInputSucceeds | lib/character_trainer.rb:77-89 | with an engine whose rating keeps the card's data, answering a card that has a CEDICT entry never raises |
| Session.CheckInputVerdict | lib/character_trainer.rb:77-89 | the verdict is true and the rating is 3 iff `check!` accepts the answer; otherwise the verdict is false and the rating 0 |
| Session.EditRec | lib/character_trainer.rb:97-105 | an edit reaches a record iff it carries the edited character, and the schedule is untouched |
| Session.EditDeck | lib/character_trainer.rb:97-105 | every deck record is edited through the shared card data |
| Session.EditCurrent | lib/character_trainer.rb:97-105 | raises iff there is no current card; otherwise it edits every record of the current character, leaves the others and saves the deck |
| Session.AddNote | lib/character_trainer.rb:97-100 | raises iff there is no current card; otherwise the note is appended to the notes of every record of that character (current, previous and deck); records of other characters, schedules, optional lists and the verdict are unchanged, and the deck is saved |
| Session.MarkOptional | lib/character_trainer.rb:102-105 | raises iff there is no current card; otherwise the tokens are appended unchanged to the optional list of every record of that character (current, previous and deck); records of other characters, schedules, notes and the verdict are unchanged, and the deck is saved |
| Session.RecordsOfEdit | lib/character_trainer.rb:97-105 | an edit maps every reachable record through `EditRec` |
| Session.EditKeepsCoherent | lib/character_trainer.rb:97-105 | after a note or optional edit, records of one character still agree, as copies of one shared object do |
| Session.DisplayCard | lib/character_trainer.rb:116-124 | raises exactly with no current card or no CEDICT entry; otherwise it logs the display and changes nothing else |
| Session.ExpectedCount | lib/character_trainer.rb:138-140 | raises exactly with no current card or no CEDICT entry; otherwise it counts the current card's readings that are not optional |
| Session.Prompt | lib/character_trainer.rb:134-136 | raises exactly with no current card or no CEDICT entry; otherwise it shows the due count, the character and the expected count only when above one, in blue before any answer, then green after a right answer and red after a wrong one |
| Session.PromptShowsVerdict | lib/character_trainer.rb:134-136 | after an answer the prompt is green iff `check!` accepted it |
| Session.GotoMissingBreaksPrompt | lib/character_trainer.rb:134-136 | after `goto!` to an absent character the prompt raises |
| Regex.BranchMatches | lib/character_trainer/cli_base.rb:18 | `^text` matches a line starting with text, `text` a line containing it, and `[0-9]` a line holding an ASCII digit |
| Regex.Matches | lib/character_trainer/cli_base.rb:18 | `command === input` for an alternation: some branch matches |
| Regex.StartsDiffer | lib/character_trainer.rb:166-214 | a line starting with one prefix cannot start with a prefix that differs from it at some position |
| Regex.ContainsHasChars | lib/character_trainer.rb:220-232 | every character of a contained substring occurs in the line |
| Regex.MissingCharNotContained | lib/character_trainer.rb:220-232 | a line lacking one of a string's characters does not contain that string, so `/help/` cannot match it |
| CliBase.On | lib/character_trainer/cli_base.rb:9-11 | `on` appends exactly one binding at the end and keeps the earlier ones in order |
| CliBase.FirstMatch | lib/character_trainer/cli_base.rb:17-25 | the position found matches and no earlier binding matches; none is found iff no binding matches |
| CliBase.Dispatch | lib/character_trainer/cli_base.rb:15-25 | nil input exits; otherwise the first matching binding's handler is invoked, with the line iff its arity is positive; an unmatched line invokes nothing |
| CliBase.ReadlineLoop | lib/character_trainer/cli_base.rb:13-28 | the dispatch of each read, in order, stopping right after the first nil input, for prompts and blocks that return |
| Cli.Run | lib/character_trainer/cli_base.rb:13-28 | the loop on the trainer's table: exits only on a nil read, is still running only if every read was a line, and raises at the first read when the first prompt raises |
| Cli.RunFrom | lib/character_trainer/cli_base.rb:13-28 | the loop from a given read on: exits only on a later nil read, and is still running only if every later read was a line |
| Cli.Resume | lib/character_trainer/cli_base.rb:14-27 | after a turn, the loop goes on only if the session is still running; an exit or a raise is the loop's outcome |
| Cli.TurnReads | lib/character_trainer/cli_base.rb:15-16 | a turn exits only on a nil read and goes on only after a line |
| Cli.RunFirstPrompt | lib/character_trainer/cli_base.rb:15-16 | a raising first prompt is the run's outcome before anything is read; after a good prompt, a nil first read exits |
| Cli.RunStopsAtRaise | lib/character_trainer/cli_base.rb:14-16 | a turn that raises ends the run, whatever is read after it |
| Cli.RunGoesOn | lib/character_trainer/cli_base.rb:14-27 | a turn that leaves the session running hands its state to the next read |
| Cli.GotoMissingEndsRun | lib/character_trainer.rb:112-114 | after `goto` to an absent character the run raises at the next prompt and reads nothing more |
| CliBase.OnKeepsEarlierChoice | lib/character_trainer/cli_base.rb:9-25 | registering another binding does not change where an already matched line goes |
| CliBase.OnCatchesUnmatched | lib/character_trainer/cli_base.rb:9-25 | a line nothing matched goes to the new binding iff its pattern matches |
| CliBase.FirstMatchUnique | lib/character_trainer/cli_base.rb:17-25 | a matching binding with no matching predecessor is the one chosen |
| CliBase.Shadowed | lib/character_trainer/cli_base.rb:17-25 | a binding that repeats an earlier binding's pattern is never chosen |
| Cli.Bindings | lib/character_trainer.rb:166-232 | the sixteen `on` registrations in class-body order, with their patterns, descriptions, handlers and block arities |
| Cli.BindingArities | lib/character_trainer.rb:166-232 | exactly the `note`, `goto`, `optional` and answer blocks take the input line |
| Cli.Argument | lib/character_trainer.rb:204-210 | the argument of a `note ` or `goto ` line is the stripped text after the command word; a line without the prefix is only stripped |
| Cli.Tokens | lib/character_trainer.rb:217 | one token per `split(',')` field, token i being field i stripped, so each is trimmed and comma-free |
| Cli.AnswerTokens | lib/character_trainer.rb:216-218 | the answer is the line's `split(',')` fields, each stripped |
| Cli.OptionalTokens | lib/character_trainer.rb:212-214 | after `optional `, the rest of the line is split on commas and each piece stripped; a line without the prefix is split whole |
| Cli.PaddedAnswerTokens | lib/character_trainer.rb:216-218 | spaces around commas are dropped: `ma3 , ma1` is the answer `ma3`, `ma1` |
| Cli.TokensOfJoin | lib/character_trainer.rb:217 | parsing comma-joined trimmed tokens gives the tokens back |
| Cli.Perform | lib/character_trainer.rb:166-232 | no handler ends the process; only `note`, `optional`, the answer and `display` can raise; only the answer changes the verdict; `back`, `skip` and `goto` keep the deck and write nothing; `skip` and `goto` make the shown card the previous one; `note` and `optional` save once and an answer logs a save and a display |
| Cli.Step | lib/character_trainer/cli_base.rb:15-25 | end of input exits, an unmatched line leaves the session as it is, and otherwise the first matching binding's block runs, with the line iff it takes one |
| Cli.Turn | lib/character_trainer/cli_base.rb:15 | when the prompt raises, the turn raises before anything is read |
| Cli.SecondHskUnreachable | lib/character_trainer.rb:178-188 | the second `/^hsk/` binding is never selected |
| Cli.PrefixBindings | lib/character_trainer.rb:166-214 | the first twelve bindings are single non-empty `^prefix` patterns |
| Cli.NoPrefixAmong | lib/character_trainer.rb:166-214 | a line whose first character starts none of a range of prefixes matches none of those bindings |
| Cli.NoteLinesGoToNote | lib/character_trainer.rb:204-218 | every `note ` line goes to the note handler with the line, even when it holds a digit |
| Cli.GotoLinesGoToGoto | lib/character_trainer.rb:208-210 | every `goto ` line goes to the goto handler with the line |
| Cli.OptionalLinesGoToOptional | lib/character_trainer.rb:212-218 | every `optional ` line goes to the optional handler with the line, even when it holds a digit |
| Cli.StatsWithDigitIsAnAnswer | lib/character_trainer.rb:216-228 | `stats 1` is taken by the answer binding, not by the stats binding |
| Cli.StatsLineDispatch | lib/character_trainer.rb:166-218 | the first binding matching `stats 1` is the answer binding |
| Cli.StepBacks | lib/character_trainer.rb:166-168 | every line starting with `back` runs `back!` |
| Cli.StepSkips | lib/character_trainer.rb:170-172 | every line starting with `skip` runs `next_card!` |
| Cli.StepOptionals | lib/character_trainer.rb:212-214 | a line starting with `optional ` marks the stripped comma-separated pieces of its remainder optional |
| Cli.BackLine | lib/character_trainer.rb:166-168 | `back` runs `back!` |
| Cli.AnswerLineDispatch | lib/character_trainer.rb:166-218 | the first binding matching `1a,2b` is the answer binding |
| Cli.StepAnswers | lib/character_trainer.rb:216-218 | a line the answer binding takes runs `check_input!` with that line |
| Cli.AnswerTokensExample | lib/character_trainer.rb:217 | `1a,2b` parses into the tokens `1a` and `2b` |
| Cli.AnswerLine | lib/character_trainer.rb:216-218 | `1a,2b` runs `check_input!` with the tokens `1a` and `2b` |
| Cli.StepNotes | lib/character_trainer.rb:204-206 | a `note ` line appends its stripped remainder as a note |
| Cli.StepGotos | lib/character_trainer.rb:208-210 | a `goto ` line jumps to the card named by the rest of the line |
| Cli.NoteTextExample | lib/character_trainer.rb:205 | the text of `note hello` is `hello` |
| Cli.NoteLine | lib/character_trainer.rb:204-206 | `note hello` appends the note `hello` |
| Cli.UnknownLine | lib/character_trainer/cli_base.rb:17-27 | a line no pattern matches leaves the session unchanged |
| Cli.UnknownLineMatchesNothing | lib/character_trainer.rb:166-232 | `bogus` matches none of the sixteen patterns |
| Cli.EndOfInput | lib/character_trainer/cli_base.rb:16 | end of input exits without running a handler |
| Cli.GotoMissingThenRaises | lib/character_trainer.rb:112-114 | a `goto` to an absent character is accepted, and the following turn raises at the prompt whatever is read |

## Left out

- Terminal I/O is not modelled. That covers Readline reading and history, `exit`, `puts`/`print`/`p`, and the text and Rainbow colouring of the prompt. The prompt is modelled as its content (`Session.Prompt`), and `exit` as the `Exited` outcome.
- `load!` and `save!` read and write YAML in `~/.character_trainer`. That is file I/O: a load is the given deck, and a save is a `Saved` entry in the effect log.
- `Engine::Deck` and `Engine::Card` come from an external library. That covers `rate`, `update_card`, `expired_cards`, `new_cards`, `factor`, `interval`, `data_points` and `expired_for_seconds`. They are uninterpreted functions of the `Engine` parameter, and `Time.now` is an abstract `Time` value.
- `sample(10)` is random. It is a `Sampler` oracle that returns `min(10, n)` elements from distinct positions of the pool.
- Loading the Analects library, HSK and CHISE is foreign data. CEDICT is a map from character to rows.
- The `cedict`, `hsk`, `chise`, `his`, `inspect`, help and `stats` handlers only print. They leave the session unchanged, and the exceptions some of them raise on a nil current card are not modelled.
- `stats` uses float percentages and clock offsets, and is not modelled. Its call at start-up is left out of `Session.Launch`.
- The `pry` command opens an interactive console whenever it is typed. What is done in that console is not modelled: the command leaves the session as it is.
- `display_card!` formats its output (brackets, glosses split on `/`). That text is not modelled: the display is a `Displayed` entry carrying the card.
- Text.Lower: `downcase` is modelled for ASCII letters only. Ruby's full Unicode case mapping is not modelled, because pinyin fields with tone numbers are ASCII.
- Regex.BranchMatches: `^` is modelled as the start of the line, because a line read by Readline holds no newline (the `Line` subtype).
- Session.EditRec: the note and optional lists are one mutable object, shared by every engine record of the card. The model applies an edit to every record carrying the same character, which assumes the deck holds one card per character.
- Session.NextCard: `binding.pry` in `next_card!` and `back!` opens the interactive console when the new current card is nil. The model keeps the nil card instead.
- Cards.Notes: the `notes` and `optional` readers also write `[]` into a nil field the first time they read it (`self.optional=[]`). The model's readers do not change the card. The difference shows only in the saved YAML, where a list that was read but never appended to is written as `[]` rather than nil. A nil field loads back as nil, and the reader then turns it into `[]`, so both read as an empty list.
- Session.Rate: `update_card` belongs to the external engine, so `Rate` promises only the deck the engine returns. That the rated card replaces the current one is proved for engines that swap cards in place (`Session.ReplacesCard`, `Session.RateReplaces`).
- CliBase.ReadlineLoop: the generic loop assumes that prompts and blocks return. A raise, which ends `readline_loop` and the program, is modelled on the trainer's table by `Cli.Turn` and `Cli.Run`.
- Session.CheckInput: when the display step raises after `rate!` has already saved the deck, the outcome is only the failure. The save that happened before the raise is not in the effect log.
