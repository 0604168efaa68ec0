/** `CharacterTrainer::Card`: one character under review, its user notes
    and the pinyin the user has marked as optional, together with the
    canonical pinyin derived from CEDICT and the answer check. */
module Cards {
  import opened Wrappers
  import opened Text
  import opened Ordering

  /** One CEDICT row: traditional form, simplified form, pinyin, and the
      slash-separated glosses. */
  datatype Row = Row(traditional: string, simplified: string, pinyin: string, gloss: string)

  /** The `CEDICT` table: rows grouped under their traditional form. A
      character that is not a key has no entry (`CEDICT[char]` is nil). */
  type Dictionary = map<string, seq<Row>>

  /** How the table is built: every key holds at least one row, and every
      row sits under its own traditional form. */
  ghost predicate GroupedByHeadword(dict: Dictionary) {
    forall ch :: ch in dict ==> |dict[ch]| > 0 && forall i :: 0 <= i < |dict[ch]| ==> dict[ch][i].traditional == ch
  }

  /** The struct fields; `notes` and `optional` may be nil in a loaded deck. */
  datatype Card = Card(character: string, index: int, notes: Option<seq<string>>, optional: Option<seq<string>>)

  /** The `notes` reader: a nil field reads as an empty list. */
  function Notes(c: Card): seq<string> {
    c.notes.GetOr([])
  }

  /** The `optional` reader: a nil field reads as an empty list. */
  function Optional(c: Card): seq<string> {
    c.optional.GetOr([])
  }

  /** `cedicts.map {|_,_,py| py}.map(&:downcase)`. */
  function LoweredPinyins(rows: seq<Row>): (r: seq<string>)
    ensures |r| == |rows|
    ensures forall i :: 0 <= i < |rows| ==> r[i] == Lower(rows[i].pinyin)
  {
    seq(|rows|, i requires 0 <= i < |rows| => Lower(rows[i].pinyin))
  }

  /** `pinyins`: the canonical answer set, or None where Ruby raises
      because the character has no CEDICT entry (`nil.map`). */
  function Pinyins(dict: Dictionary, character: string): (r: Option<seq<string>>)
    ensures r.Some? <==> character in dict
    ensures r.Some? ==> StrictlySorted(r.value)
    ensures r.Some? ==> forall p :: p in r.value ==> IsLower(p)
    ensures r.Some? ==> forall p :: p in r.value <==> exists i :: 0 <= i < |dict[character]| && p == Lower(dict[character][i].pinyin)
  {
    if character !in dict then None
    else
      var lowered := LoweredPinyins(dict[character]);
      var sorted := Sort(Uniq(lowered));
      SortKeepsDistinct(Uniq(lowered));
      assert forall p :: p in sorted <==> p in lowered by {
        forall p ensures p in sorted <==> p in lowered {
          assert p in sorted <==> p in multiset(sorted);
        }
      }
      Some(sorted)
  }

  /** The canonical set is the one strictly sorted list of the lower-cased
      pinyin fields: any such list is what `pinyins` returns. */
  lemma PinyinsIsTheSortedSet(dict: Dictionary, character: string, l: seq<string>)
    requires character in dict
    requires StrictlySorted(l)
    requires forall p :: p in l <==> exists i :: 0 <= i < |dict[character]| && p == Lower(dict[character][i].pinyin)
    ensures Pinyins(dict, character) == Some(l)
  {
    StrictlySortedUnique(Pinyins(dict, character).value, l);
  }

  /** A character with dictionary rows has at least one canonical pinyin. */
  lemma PinyinsNonEmpty(dict: Dictionary, character: string)
    requires GroupedByHeadword(dict) && character in dict
    ensures |Pinyins(dict, character).value| > 0
  {
    assert Lower(dict[character][0].pinyin) in Pinyins(dict, character).value;
  }

  /** `xs.all? {|x| ys.include? x}`. */
  function AllIncluded(xs: seq<string>, ys: seq<string>): (r: bool)
    ensures r <==> forall x :: x in xs ==> x in ys
  {
    if |xs| == 0 then true
    else
      assert forall x :: x in xs <==> x == xs[0] || x in xs[1..] by {
        assert xs == [xs[0]] + xs[1..];
      }
      xs[0] in ys && AllIncluded(xs[1..], ys)
  }

  /** `ps.all? {|p| input.include?(p) || optional.include?(p)}`. */
  function AllCovered(ps: seq<string>, input: seq<string>, optional: seq<string>): (r: bool)
    ensures r <==> forall p :: p in ps ==> p in input || p in optional
  {
    if |ps| == 0 then true
    else
      assert forall p :: p in ps <==> p == ps[0] || p in ps[1..] by {
        assert ps == [ps[0]] + ps[1..];
      }
      (ps[0] in input || ps[0] in optional) && AllCovered(ps[1..], input, optional)
  }

  lemma ElemsCovered(xs: seq<string>, ys: seq<string>, zs: seq<string>)
    ensures (forall x :: x in xs ==> x in ys || x in zs) <==> (set x | x in xs) <= (set y | y in ys) + (set z | z in zs)
  {
    var a, b, c := (set x | x in xs), (set y | y in ys), (set z | z in zs);
    if a <= b + c {
      forall x | x in xs
        ensures x in ys || x in zs
      {
        assert x in a;
      }
    }
  }

  /** The body of `check!`: every submitted token is canonical, and every
      canonical pinyin is submitted or optional. Tokens are compared as
      given; nothing lower-cases the submitted side. */
  function CheckAnswer(input: seq<string>, canonical: seq<string>, optional: seq<string>): (ok: bool)
    ensures ok <==> (set t | t in input) <= (set p | p in canonical) <= (set t | t in input) + (set o | o in optional)
  {
    ElemsCovered(input, canonical, []);
    ElemsCovered(canonical, input, optional);
    AllIncluded(input, canonical) && AllCovered(canonical, input, optional)
  }

  /** `check!` on a card: None where `pinyins` raises. */
  function Check(dict: Dictionary, c: Card, input: seq<string>): (r: Option<bool>)
    ensures r.Some? <==> c.character in dict
    ensures r.Some? ==> (r.value <==> CheckAnswer(input, Pinyins(dict, c.character).value, Optional(c)))
  {
    match Pinyins(dict, c.character)
    case None => None
    case Some(ps) => Some(CheckAnswer(input, ps, Optional(c)))
  }

  /** A token outside the canonical set fails the answer, whatever is optional. */
  lemma CheckRejectsExtra(input: seq<string>, canonical: seq<string>, optional: seq<string>, t: string)
    requires t in input && t !in canonical
    ensures !CheckAnswer(input, canonical, optional)
  {
    assert t in (set x | x in input);
  }

  /** Widening the optional list never turns an accepted answer into a rejected one. */
  lemma CheckMonotoneInOptional(input: seq<string>, canonical: seq<string>, o1: seq<string>, o2: seq<string>)
    requires CheckAnswer(input, canonical, o1)
    requires forall p :: p in o1 ==> p in o2
    ensures CheckAnswer(input, canonical, o2)
  {
    assert (set o | o in o1) <= (set o | o in o2);
  }

  /** Submitting the whole canonical list is accepted, whatever is optional. */
  lemma FullAnswerAccepted(canonical: seq<string>, optional: seq<string>)
    ensures CheckAnswer(canonical, canonical, optional)
  {
  }

  /** Without optional pinyin, `check!` is set equality of answer and canonical set. */
  lemma CheckWithoutOptionalIsSetEquality(input: seq<string>, canonical: seq<string>)
    ensures CheckAnswer(input, canonical, []) <==> (set t | t in input) == (set p | p in canonical)
  {
    assert (set o: string | o in []) == {};
  }

  /** The canonical side is lower-cased but the submitted side is not: a
      token with a capital letter is always rejected. */
  lemma CapitalisedTokenRejected(dict: Dictionary, c: Card, input: seq<string>, t: string)
    requires c.character in dict
    requires t in input && !IsLower(t)
    ensures Check(dict, c, input) == Some(false)
  {
    CheckRejectsExtra(input, Pinyins(dict, c.character).value, Optional(c), t);
  }

  /** `pinyins - optional`: the canonical pinyin not marked optional, in order. */
  function Without(ps: seq<string>, optional: seq<string>): (r: seq<string>)
    ensures forall p :: p in r <==> p in ps && p !in optional
    ensures Distinct(ps) ==> Distinct(r)
  {
    if |ps| == 0 then []
    else
      var rest := Without(ps[1..], optional);
      assert forall p :: p in ps <==> p == ps[0] || p in ps[1..] by {
        assert ps == [ps[0]] + ps[1..];
      }
      assert Distinct(ps) ==> ps[0] !in ps[1..] by {
        if Distinct(ps) {
          NotInTail(ps);
        }
      }
      if ps[0] in optional then rest else [ps[0]] + rest
  }

  /** `expected_pinyins_count`: how many canonical pinyin the answer must
      still name, i.e. the size of the canonical set minus the optional set. */
  function ExpectedPinyinsCount(dict: Dictionary, c: Card): (r: Option<nat>)
    ensures r.Some? <==> c.character in dict
    ensures r.Some? ==> r.value == |(set p | p in Pinyins(dict, c.character).value) - (set o | o in Optional(c))|
  {
    match Pinyins(dict, c.character)
    case None => None
    case Some(ps) =>
      var w := Without(ps, Optional(c));
      DistinctCardinality(w);
      assert (set p | p in w) == (set p | p in ps) - (set o | o in Optional(c));
      Some(|w|)
  }

  /** Changes the session makes to a card's user data. */
  datatype Edit = AppendNote(note: string) | AppendOptional(tokens: seq<string>)

  /** `notes << note` and `optional.concat tokens`: the list grows at its
      end, a nil list counting as empty; nothing else about the card changes. */
  function Apply(c: Card, e: Edit): (r: Card)
    ensures r.character == c.character && r.index == c.index
    ensures e.AppendNote? ==> Notes(r) == Notes(c) + [e.note] && r.optional == c.optional
    ensures e.AppendOptional? ==> Optional(r) == Optional(c) + e.tokens && r.notes == c.notes
  {
    match e
    case AppendNote(note) => c.(notes := Some(Notes(c) + [note]))
    case AppendOptional(tokens) => c.(optional := Some(Optional(c) + tokens))
  }

  /** Marking pinyin optional keeps every accepted answer accepted. */
  lemma MarkOptionalKeepsAccepted(dict: Dictionary, c: Card, tokens: seq<string>, input: seq<string>)
    requires Check(dict, c, input) == Some(true)
    ensures Check(dict, Apply(c, AppendOptional(tokens)), input) == Some(true)
  {
    var ps := Pinyins(dict, c.character).value;
    CheckMonotoneInOptional(input, ps, Optional(c), Optional(c) + tokens);
  }

  /** Marking every canonical pinyin optional leaves nothing expected. */
  lemma MarkAllOptionalExpectsNothing(dict: Dictionary, c: Card)
    requires c.character in dict
    ensures ExpectedPinyinsCount(dict, Apply(c, AppendOptional(Pinyins(dict, c.character).value))) == Some(0)
  {
    var ps := Pinyins(dict, c.character).value;
    var c' := Apply(c, AppendOptional(ps));
    assert (set p | p in ps) - (set o | o in Optional(c')) == {};
  }
}
