/** `CharacterTrainer::App`: the review session. It holds the deck, the
    card on show, the card shown before it and the outcome of the last
    answer, and moves between cards on answers and navigation commands.
    The scheduling engine (`Engine::Deck`, `Engine::Card#rate`) is not part
    of this model: it enters as the `Engine` parameter, whose functions are
    left uninterpreted. */
module Session {
  import opened Wrappers
  import opened Text
  import opened Cards

  /** A moment in time (`Time.now`); only the engine interprets it. */
  type Time

  /** The engine's scheduling state of one card: due time, interval,
      strength factor, rating history. */
  type Schedule(==, !new)

  /** An `Engine::Card`: the trainer's `Card` as `data`, plus its schedule. */
  datatype Rec = Rec(data: Card, schedule: Schedule)

  /** The deck, in the order the engine iterates it (and `detect` searches it). */
  type Deck = seq<Rec>

  /** The engine operations the session calls, left uninterpreted:
      `card.rate(n)`, `deck.update_card(old, new)`,
      `deck.expired_cards(time)` (due cards, soonest first) and
      `deck.new_cards` (cards never rated). */
  datatype Engine = Engine(
    rate: (Rec, int) -> Rec,
    updateCard: (Deck, Rec, Rec) -> Deck,
    expiredCards: (Deck, Time) -> seq<Rec>,
    newCards: Deck -> seq<Rec>)

  /** The rating of an accepted answer. */
  const Good: int := 3
  /** The rating of a rejected answer. */
  const Fail: int := 0
  /** How many new cards `next_new_card` draws with `sample`. */
  const SampleSize: nat := 10

  /** What `pool.sample(10)` can return: `min(10, pool.size)` elements
      drawn from distinct positions of `pool`, in any order. */
  ghost predicate IsSample(sample: seq<Rec>, pool: seq<Rec>) {
    && |sample| == (if |pool| < SampleSize then |pool| else SampleSize)
    && multiset(sample) <= multiset(pool)
  }

  /** The random draw of `sample(10)`, made by the environment. */
  type Sampler = seq<Rec> -> seq<Rec>

  ghost predicate ValidSampler(sampler: Sampler) {
    forall pool :: IsSample(sampler(pool), pool)
  }

  /** Observable side effects, in the order they happen: `save!` writing
      the deck, and `display_card!` showing a card's entries. */
  datatype Effect = Saved(deck: Deck) | Displayed(card: Card)

  /** The session record. `current` and `previous` are nil until set;
      `lastCorrect` is nil until the first answer. */
  datatype App = App(
    deck: Deck,
    current: Option<Rec>,
    previous: Option<Rec>,
    lastCorrect: Option<bool>,
    effects: seq<Effect>)

  /** Why an operation raises: the current card is nil, or its character
      has no CEDICT entry. */
  datatype Failure = NoCurrentCard | NotInDictionary

  /** `App.new` followed by `load!`: the loaded deck and nothing else. */
  function Load(deck: Deck): (s: App)
    ensures s.deck == deck && s.current.None? && s.previous.None? && s.lastCorrect.None? && s.effects == []
  {
    App(deck, None, None, None, [])
  }

  /** Position of the card `sample.min {|a, b| a.data.index <=> b.data.index}`
      returns: the least index, and of several with it the first. */
  function ArgMinByIndex(s: seq<Rec>): (k: nat)
    requires |s| > 0
    ensures k < |s|
    ensures forall j :: 0 <= j < |s| ==> s[k].data.index <= s[j].data.index
    ensures forall j :: 0 <= j < k ==> s[j].data.index > s[k].data.index
  {
    if |s| == 1 then 0
    else
      var k := ArgMinByIndex(s[..|s| - 1]);
      if s[|s| - 1].data.index < s[k].data.index then |s| - 1 else k
  }

  /** `next_new_card`: the lowest-index card of a sample of the new cards;
      nil exactly when there are no new cards. */
  function NextNewCard(eng: Engine, deck: Deck, sampler: Sampler): (r: Option<Rec>)
    requires ValidSampler(sampler)
    ensures r.None? <==> |eng.newCards(deck)| == 0
    ensures r.Some? ==> r.value in eng.newCards(deck) && r.value in sampler(eng.newCards(deck))
    ensures r.Some? ==> forall x :: x in sampler(eng.newCards(deck)) ==> r.value.data.index <= x.data.index
  {
    var pool := eng.newCards(deck);
    var sample := sampler(pool);
    assert IsSample(sample, pool);
    if |sample| == 0 then None
    else
      var k := ArgMinByIndex(sample);
      assert sample[k] in multiset(pool);
      Some(sample[k])
  }

  /** With at most ten new cards the sample is all of them, so the new card
      chosen is one of least index among all new cards. */
  lemma SmallPoolPicksLowestIndex(eng: Engine, deck: Deck, sampler: Sampler)
    requires ValidSampler(sampler)
    requires 0 < |eng.newCards(deck)| <= SampleSize
    ensures forall x :: x in eng.newCards(deck) ==> NextNewCard(eng, deck, sampler).value.data.index <= x.data.index
  {
    var pool := eng.newCards(deck);
    var sample := sampler(pool);
    assert IsSample(sample, pool);
    SubMultisetOfSameSize(multiset(sample), multiset(pool));
    forall x | x in pool
      ensures x in sample
    {
      assert x in multiset(pool);
    }
  }

  lemma SubMultisetOfSameSize(a: multiset<Rec>, b: multiset<Rec>)
    requires a <= b && |a| == |b|
    ensures a == b
  {
    var d := b - a;
    assert b == a + d;
    assert |d| == 0;
  }

  /** `expired_cards.first || next_new_card`: the first due card when there
      is one, and only otherwise a new card. */
  function ChooseNext(eng: Engine, deck: Deck, now: Time, sampler: Sampler): (r: Option<Rec>)
    requires ValidSampler(sampler)
    ensures |eng.expiredCards(deck, now)| > 0 ==> r == Some(eng.expiredCards(deck, now)[0])
    ensures |eng.expiredCards(deck, now)| == 0 ==> (r.None? <==> |eng.newCards(deck)| == 0)
    ensures |eng.expiredCards(deck, now)| == 0 && r.Some? ==>
      r.value in eng.newCards(deck) && forall x :: x in sampler(eng.newCards(deck)) ==> r.value.data.index <= x.data.index
  {
    var expired := eng.expiredCards(deck, now);
    if |expired| > 0 then Some(expired[0]) else NextNewCard(eng, deck, sampler)
  }

  /** `next_card!`: the card on show becomes the previous one and the next
      card is chosen; the deck and the answer flag are untouched. A nil
      choice is kept (the source then opens a debugger). */
  function NextCard(s: App, eng: Engine, now: Time, sampler: Sampler): (r: App)
    requires ValidSampler(sampler)
    ensures r.previous == s.current
    ensures r.current == ChooseNext(eng, s.deck, now, sampler)
    ensures r.deck == s.deck && r.lastCorrect == s.lastCorrect && r.effects == s.effects
  {
    s.(previous := s.current, current := ChooseNext(eng, s.deck, now, sampler))
  }

  /** `CLI#initialize`: load the deck, then `next_card!`. */
  function Launch(deck: Deck, eng: Engine, now: Time, sampler: Sampler): (s: App)
    requires ValidSampler(sampler)
    ensures s.deck == deck && s.previous.None? && s.lastCorrect.None? && s.effects == []
    ensures s.current == ChooseNext(eng, deck, now, sampler)
    ensures |eng.expiredCards(deck, now)| > 0 ==> s.current == Some(eng.expiredCards(deck, now)[0])
    ensures |eng.expiredCards(deck, now)| == 0 ==> (s.current.None? <==> |eng.newCards(deck)| == 0)
  {
    NextCard(Load(deck), eng, now, sampler)
  }

  /** `back!`: current and previous trade places. */
  function Back(s: App): (r: App)
    ensures r.current == s.previous && r.previous == s.current
    ensures r.deck == s.deck && r.lastCorrect == s.lastCorrect && r.effects == s.effects
  {
    s.(previous := s.current, current := s.previous)
  }

  /** Going back twice restores the original session. */
  lemma BackTwice(s: App)
    ensures Back(Back(s)) == s
  {
  }

  /** After moving on with `next_card!`, `back!` shows the card from before. */
  lemma NextThenBack(s: App, eng: Engine, now: Time, sampler: Sampler)
    requires ValidSampler(sampler)
    ensures Back(NextCard(s, eng, now, sampler)).current == s.current
    ensures Back(NextCard(s, eng, now, sampler)).previous == ChooseNext(eng, s.deck, now, sampler)
  {
  }

  /** `deck.detect {|card| card.data.char == character}`: the first card in
      deck order with that character, nil when there is none. */
  function Detect(deck: Deck, character: string): (r: Option<Rec>)
    ensures r.None? <==> forall i :: 0 <= i < |deck| ==> deck[i].data.character != character
    ensures r.Some? ==> exists k :: (0 <= k < |deck| && deck[k] == r.value && r.value.data.character == character &&
      forall j :: 0 <= j < k ==> deck[j].data.character != character)
  {
    if |deck| == 0 then None
    else if deck[0].data.character == character then
      Some(deck[0])
    else
      var r := Detect(deck[1..], character);
      assert forall i :: 1 <= i < |deck| ==> deck[i] == deck[1..][i - 1];
      if r.Some? then
        var k :| 0 <= k < |deck[1..]| && deck[1..][k] == r.value && r.value.data.character == character &&
          forall j :: 0 <= j < k ==> deck[1..][j].data.character != character;
        assert deck[k + 1] == r.value;
        assert forall j :: 0 <= j < k + 1 ==> deck[j].data.character != character by {
          forall j | 0 <= j < k + 1 ensures deck[j].data.character != character {
            if j > 0 {
              assert deck[j] == deck[1..][j - 1];
            }
          }
        }
        r
      else
        r
  }

  /** `goto!`: the current card becomes the previous one, and the first card
      whose character is the stripped argument is shown; nil when the deck
      has no such card. */
  function Goto(s: App, target: string): (r: App)
    ensures r.previous == s.current
    ensures r.current == Detect(s.deck, Strip(target))
    ensures r.current.Some? ==> r.current.value in s.deck && r.current.value.data.character == Strip(target)
    ensures r.current.None? <==> forall i :: 0 <= i < |s.deck| ==> s.deck[i].data.character != Strip(target)
    ensures r.deck == s.deck && r.lastCorrect == s.lastCorrect && r.effects == s.effects
  {
    s.(previous := s.current, current := Detect(s.deck, Strip(target)))
  }

  /** `goto!` followed by `back!` returns to the card shown before the jump. */
  lemma GotoThenBack(s: App, target: string)
    ensures Back(Goto(s, target)).current == s.current
  {
  }

  /** `rate!`: the engine rates the current card, the rated card replaces
      it in the deck and on show, and the deck is saved. */
  function Rate(s: App, eng: Engine, rating: int): (r: App)
    requires s.current.Some?
    ensures r.current == Some(eng.rate(s.current.value, rating))
    ensures r.deck == eng.updateCard(s.deck, s.current.value, eng.rate(s.current.value, rating))
    ensures r.effects == s.effects + [Saved(r.deck)]
    ensures r.previous == s.previous && r.lastCorrect == s.lastCorrect
  {
    var rated := eng.rate(s.current.value, rating);
    var deck := eng.updateCard(s.deck, s.current.value, rated);
    s.(deck := deck, current := Some(rated), effects := s.effects + [Saved(deck)])
  }

  /** An engine whose `update_card(old, new)` puts `new` in place of every
      record equal to `old` and leaves the rest of the deck as it was. */
  ghost predicate ReplacesCard(eng: Engine) {
    forall d: Deck, o: Rec, n: Rec :: ReplacedIn(eng.updateCard(d, o, n), d, o, n)
  }

  /** `d'` is `d` with `n` in place of every record equal to `o`. */
  ghost predicate ReplacedIn(d': Deck, d: Deck, o: Rec, n: Rec) {
    |d'| == |d| && forall i :: 0 <= i < |d| ==> d'[i] == (if d[i] == o then n else d[i])
  }

  /** With such an engine, `rate!` leaves the rated card where the current
      card was in the deck and every other card untouched; a current card
      taken from the deck is thereby replaced by its rated version. */
  lemma RateReplaces(s: App, eng: Engine, rating: int)
    requires ReplacesCard(eng) && s.current.Some?
    ensures ReplacedIn(Rate(s, eng, rating).deck, s.deck, s.current.value, eng.rate(s.current.value, rating))
    ensures s.current.value in s.deck ==> eng.rate(s.current.value, rating) in Rate(s, eng, rating).deck
  {
  }

  /** `check_input!`: judge the answer against the current card, rate it 3
      if accepted and 0 if not (saving the deck), show the rated card, move
      on, and record the verdict. Raises when there is no current card, when
      its character has no CEDICT entry, and when the rated card's character
      has none (`display_card!` then fails on `nil.each`). */
  function CheckInput(s: App, eng: Engine, dict: Dictionary, now: Time, sampler: Sampler, input: seq<string>): (r: Result<App, Failure>)
    requires ValidSampler(sampler)
    ensures s.current.None? ==> r == Failure(NoCurrentCard)
    ensures s.current.Some? && s.current.value.data.character !in dict ==> r == Failure(NotInDictionary)
    ensures s.current.Some? && s.current.value.data.character in dict ==>
      var ok := Check(dict, s.current.value.data, input).value;
      var rated := eng.rate(s.current.value, if ok then Good else Fail);
      (r.Success? <==> rated.data.character in dict) &&
      (r.Failure? ==> r.error == NotInDictionary)
    ensures r.Success? ==>
      var ok := Check(dict, s.current.value.data, input).value;
      var rated := eng.rate(s.current.value, if ok then Good else Fail);
      var deck := eng.updateCard(s.deck, s.current.value, rated);
      && r.value.lastCorrect == Some(ok)
      && r.value.deck == deck
      && r.value.effects == s.effects + [Saved(deck), Displayed(rated.data)]
      && r.value.previous == Some(rated)
      && r.value.current == ChooseNext(eng, deck, now, sampler)
    ensures r.Success? && ReplacesCard(eng) ==>
      var ok := Check(dict, s.current.value.data, input).value;
      ReplacedIn(r.value.deck, s.deck, s.current.value, eng.rate(s.current.value, if ok then Good else Fail))
  {
    match s.current
    case None => Failure(NoCurrentCard)
    case Some(card) =>
      match Check(dict, card.data, input)
      case None => Failure(NotInDictionary)
      case Some(ok) =>
        var rated := Rate(s, eng, if ok then Good else Fail);
        match DisplayCard(rated, dict)
        case Failure(f) => Failure(f)
        case Success(shown) => Success(NextCard(shown, eng, now, sampler).(lastCorrect := Some(ok)))
  }

  /** An engine whose rating keeps the card's data, as `Engine::Card#rate`
      is meant to: only the schedule changes. */
  ghost predicate KeepsCardData(eng: Engine) {
    forall r: Rec, n: int :: eng.rate(r, n).data == r.data
  }

  /** With such an engine, an answer to a card with a CEDICT entry never
      raises. */
  lemma CheckInputSucceeds(s: App, eng: Engine, dict: Dictionary, now: Time, sampler: Sampler, input: seq<string>)
    requires ValidSampler(sampler) && KeepsCardData(eng)
    requires s.current.Some? && s.current.value.data.character in dict
    ensures CheckInput(s, eng, dict, now, sampler, input).Success?
  {
    var ok := Check(dict, s.current.value.data, input).value;
    assert eng.rate(s.current.value, if ok then Good else Fail).data == s.current.value.data;
  }

  /** An answer is scored 3 and flagged correct exactly when `check!` accepts it. */
  lemma CheckInputVerdict(s: App, eng: Engine, dict: Dictionary, now: Time, sampler: Sampler, input: seq<string>)
    requires ValidSampler(sampler)
    ensures CheckInput(s, eng, dict, now, sampler, input).Success? ==>
      var r := CheckInput(s, eng, dict, now, sampler, input).value;
      (r.lastCorrect == Some(true) <==> CheckAnswer(input, Pinyins(dict, s.current.value.data.character).value, Optional(s.current.value.data)))
      && (r.lastCorrect == Some(true) ==> r.previous == Some(eng.rate(s.current.value, Good)))
      && (r.lastCorrect == Some(false) ==> r.previous == Some(eng.rate(s.current.value, Fail)))
  {
  }

  /** The record as the edit leaves it: the card data is one object shared by
      every record of that character, so every such record sees the edit. */
  function EditRec(r: Rec, character: string, e: Edit): (r': Rec)
    ensures r'.schedule == r.schedule && r'.data.character == r.data.character
    ensures r.data.character == character ==> r'.data == Apply(r.data, e)
    ensures r.data.character != character ==> r' == r
  {
    if r.data.character == character then r.(data := Apply(r.data, e)) else r
  }

  function EditDeck(deck: Deck, character: string, e: Edit): (d: Deck)
    ensures |d| == |deck|
    ensures forall i :: 0 <= i < |deck| ==> d[i] == EditRec(deck[i], character, e)
  {
    seq(|deck|, i requires 0 <= i < |deck| => EditRec(deck[i], character, e))
  }

  function EditOption(r: Option<Rec>, character: string, e: Edit): Option<Rec> {
    match r
    case None => None
    case Some(x) => Some(EditRec(x, character, e))
  }

  /** Edit the current card's data, then `save!`. */
  function EditCurrent(s: App, e: Edit): (r: Result<App, Failure>)
    ensures r.Failure? <==> s.current.None?
    ensures r.Failure? ==> r.error == NoCurrentCard
    ensures r.Success? ==> r.value.current == Some(EditRec(s.current.value, s.current.value.data.character, e))
    ensures r.Success? ==> (|r.value.deck| == |s.deck| &&
      forall i :: 0 <= i < |s.deck| ==> r.value.deck[i] == EditRec(s.deck[i], s.current.value.data.character, e))
    ensures r.Success? ==> r.value.previous == EditOption(s.previous, s.current.value.data.character, e)
    ensures r.Success? ==> r.value.lastCorrect == s.lastCorrect && r.value.effects == s.effects + [Saved(r.value.deck)]
  {
    match s.current
    case None => Failure(NoCurrentCard)
    case Some(card) =>
      var character := card.data.character;
      var deck := EditDeck(s.deck, character, e);
      Success(App(deck, EditOption(s.current, character, e), EditOption(s.previous, character, e), s.lastCorrect, s.effects + [Saved(deck)]))
  }

  /** `add_note!`: the note is appended to the current card's notes (in the
      deck as well), and the deck is saved. */
  function AddNote(s: App, note: string): (r: Result<App, Failure>)
    ensures r.Failure? <==> s.current.None?
    ensures r.Success? ==> r.value.current.Some?
    ensures r.Success? ==> r.value.current == Some(EditRec(s.current.value, s.current.value.data.character, AppendNote(note)))
    ensures r.Success? ==> Notes(r.value.current.value.data) == Notes(s.current.value.data) + [note]
    ensures r.Success? ==> Optional(r.value.current.value.data) == Optional(s.current.value.data)
    ensures r.Success? ==> |r.value.deck| == |s.deck| && forall i :: 0 <= i < |s.deck| ==>
      (s.deck[i].data.character == s.current.value.data.character ==> Notes(r.value.deck[i].data) == Notes(s.deck[i].data) + [note]) &&
      (s.deck[i].data.character != s.current.value.data.character ==> r.value.deck[i] == s.deck[i])
    ensures r.Success? ==> forall i :: 0 <= i < |s.deck| ==> r.value.deck[i] == EditRec(s.deck[i], s.current.value.data.character, AppendNote(note))
    ensures r.Success? ==> r.value.previous == EditOption(s.previous, s.current.value.data.character, AppendNote(note))
    ensures r.Success? ==> r.value.lastCorrect == s.lastCorrect && r.value.effects == s.effects + [Saved(r.value.deck)]
  {
    EditCurrent(s, AppendNote(note))
  }

  /** `mark_as_optional!`: the tokens are appended, unchanged, to the current
      card's optional list (in the deck as well), and the deck is saved. */
  function MarkOptional(s: App, tokens: seq<string>): (r: Result<App, Failure>)
    ensures r.Failure? <==> s.current.None?
    ensures r.Success? ==> r.value.current.Some?
    ensures r.Success? ==> r.value.current == Some(EditRec(s.current.value, s.current.value.data.character, AppendOptional(tokens)))
    ensures r.Success? ==> Optional(r.value.current.value.data) == Optional(s.current.value.data) + tokens
    ensures r.Success? ==> Notes(r.value.current.value.data) == Notes(s.current.value.data)
    ensures r.Success? ==> |r.value.deck| == |s.deck| && forall i :: 0 <= i < |s.deck| ==>
      (s.deck[i].data.character == s.current.value.data.character ==> Optional(r.value.deck[i].data) == Optional(s.deck[i].data) + tokens) &&
      (s.deck[i].data.character != s.current.value.data.character ==> r.value.deck[i] == s.deck[i])
    ensures r.Success? ==> forall i :: 0 <= i < |s.deck| ==> r.value.deck[i] == EditRec(s.deck[i], s.current.value.data.character, AppendOptional(tokens))
    ensures r.Success? ==> r.value.previous == EditOption(s.previous, s.current.value.data.character, AppendOptional(tokens))
    ensures r.Success? ==> r.value.lastCorrect == s.lastCorrect && r.value.effects == s.effects + [Saved(r.value.deck)]
  {
    EditCurrent(s, AppendOptional(tokens))
  }

  /** All card records the session can reach. */
  function Records(s: App): seq<Rec> {
    s.deck + (if s.current.Some? then [s.current.value] else []) + (if s.previous.Some? then [s.previous.value] else [])
  }

  /** Records of the same character carry the same card data, as they do
      when they share one data object. */
  ghost predicate Coherent(s: App) {
    forall i, j :: 0 <= i < |Records(s)| && 0 <= j < |Records(s)| && Records(s)[i].data.character == Records(s)[j].data.character ==>
      Records(s)[i].data == Records(s)[j].data
  }

  lemma RecordsOfEdit(s: App, e: Edit)
    requires s.current.Some?
    ensures var t := EditCurrent(s, e).value;
      |Records(t)| == |Records(s)| &&
      forall i :: 0 <= i < |Records(s)| ==> Records(t)[i] == EditRec(Records(s)[i], s.current.value.data.character, e)
  {
    var t := EditCurrent(s, e).value;
    var ch := s.current.value.data.character;
    assert |Records(t)| == |Records(s)|;
    forall i | 0 <= i < |Records(s)|
      ensures Records(t)[i] == EditRec(Records(s)[i], ch, e)
    {
      if i < |s.deck| {
        assert Records(s)[i] == s.deck[i] && Records(t)[i] == t.deck[i];
      } else if i == |s.deck| {
        assert Records(s)[i] == s.current.value && Records(t)[i] == t.current.value;
      } else {
        assert Records(s)[i] == s.previous.value && Records(t)[i] == t.previous.value;
      }
    }
  }

  /** Editing the current card keeps records of one character in agreement:
      the edit reaches every copy of the shared data. */
  lemma EditKeepsCoherent(s: App, e: Edit)
    requires Coherent(s) && s.current.Some?
    ensures Coherent(EditCurrent(s, e).value)
  {
    var t := EditCurrent(s, e).value;
    RecordsOfEdit(s, e);
    forall i, j | 0 <= i < |Records(t)| && 0 <= j < |Records(t)| && Records(t)[i].data.character == Records(t)[j].data.character
      ensures Records(t)[i].data == Records(t)[j].data
    {
      assert Records(s)[i].data.character == Records(s)[j].data.character;
    }
  }

  /** `display_card!`: shows the current card's CEDICT entries and notes. */
  function DisplayCard(s: App, dict: Dictionary): (r: Result<App, Failure>)
    ensures s.current.None? ==> r == Failure(NoCurrentCard)
    ensures s.current.Some? && s.current.value.data.character !in dict ==> r == Failure(NotInDictionary)
    ensures r.Success? <==> s.current.Some? && s.current.value.data.character in dict
    ensures r.Success? ==> r.value == s.(effects := s.effects + [Displayed(s.current.value.data)])
  {
    match s.current
    case None => Failure(NoCurrentCard)
    case Some(card) =>
      if card.data.character !in dict then Failure(NotInDictionary)
      else Success(s.(effects := s.effects + [Displayed(card.data)]))
  }

  /** `expected_pinyins_count` of the session's current card. */
  function ExpectedCount(s: App, dict: Dictionary): (r: Result<nat, Failure>)
    ensures s.current.None? ==> r == Failure(NoCurrentCard)
    ensures s.current.Some? && s.current.value.data.character !in dict ==> r == Failure(NotInDictionary)
    ensures r.Success? <==> s.current.Some? && s.current.value.data.character in dict
    ensures r.Success? ==> r.value == |(set p | p in Pinyins(dict, s.current.value.data.character).value) - (set o | o in Optional(s.current.value.data))|
  {
    match s.current
    case None => Failure(NoCurrentCard)
    case Some(card) =>
      match ExpectedPinyinsCount(dict, card.data)
      case None => Failure(NotInDictionary)
      case Some(n) => Success(n)
  }

  /** The colour of the prompt: blue before the first answer, then green
      after an accepted answer and red after a rejected one. */
  datatype Colour = Blue | Green | Red

  /** What `prompt` shows: the number of due cards, the current character,
      the count of pinyins still expected (only when above one), in the
      colour of the last verdict. */
  datatype PromptLine = PromptLine(due: nat, character: string, expected: Option<nat>, colour: Colour)

  /** `prompt`: raises, as `char` and `expected_pinyins_count` do, when there
      is no current card or its character has no CEDICT entry. */
  function Prompt(s: App, eng: Engine, dict: Dictionary, now: Time): (r: Result<PromptLine, Failure>)
    ensures s.current.None? ==> r == Failure(NoCurrentCard)
    ensures r.Success? <==> s.current.Some? && s.current.value.data.character in dict
    ensures r.Success? ==> r.value.due == |eng.expiredCards(s.deck, now)| && r.value.character == s.current.value.data.character
    ensures r.Success? ==> (r.value.expected.Some? <==> ExpectedCount(s, dict).value > 1)
    ensures r.Success? && r.value.expected.Some? ==> r.value.expected.value == ExpectedCount(s, dict).value
    ensures r.Success? ==> (r.value.colour == Blue <==> s.lastCorrect.None?) && (r.value.colour == Green <==> s.lastCorrect == Some(true))
  {
    match ExpectedCount(s, dict)
    case Failure(f) => Failure(f)
    case Success(n) =>
      var colour := match s.lastCorrect
        case None => Blue
        case Some(ok) => if ok then Green else Red;
      Success(PromptLine(|eng.expiredCards(s.deck, now)|, s.current.value.data.character, if n > 1 then Some(n) else None, colour))
  }

  /** After an answer the prompt turns green exactly when `check!` accepted
      it, whatever card comes next (when that card can be shown at all). */
  lemma PromptShowsVerdict(s: App, eng: Engine, dict: Dictionary, now: Time, sampler: Sampler, input: seq<string>, later: Time)
    requires ValidSampler(sampler)
    ensures (CheckInput(s, eng, dict, now, sampler, input).Success? &&
             Prompt(CheckInput(s, eng, dict, now, sampler, input).value, eng, dict, later).Success?) ==>
      Prompt(CheckInput(s, eng, dict, now, sampler, input).value, eng, dict, later).value.colour ==
      (if CheckAnswer(input, Pinyins(dict, s.current.value.data.character).value, Optional(s.current.value.data)) then Green else Red)
  {
    CheckInputVerdict(s, eng, dict, now, sampler, input);
  }

  /** After `goto!` to a character no card has, the next prompt raises. */
  lemma GotoMissingBreaksPrompt(s: App, target: string, eng: Engine, dict: Dictionary, now: Time)
    requires forall i :: 0 <= i < |s.deck| ==> s.deck[i].data.character != Strip(target)
    ensures Prompt(Goto(s, target), eng, dict, now) == Failure(NoCurrentCard)
  {
  }
}
