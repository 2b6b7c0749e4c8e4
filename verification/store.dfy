/**
 * The three tables `DatabaseManager.insert_cards` writes
 * (database/db_manager.py), as pure state: the card rows keyed by card
 * identifier, the card sets keyed by set code, and the character types.
 *
 * `insert_cards` is a fold of `InsertCard` over the batch. For each card it
 * updates the row with that identifier or inserts a new one (counting only
 * the inserts), adds the card's set under its set code unless that code is
 * already there, and adds every non-blank `/`-separated character type.
 */
module Database {

  import opened Wrappers
  import opened Text
  import opened CardIds
  import opened Models

  /** The `cards`, `card_sets` and `character_types` tables. */
  datatype Tables = Tables(cards: map<string, Card>, cardSets: map<string, string>, characterTypes: set<string>)

  /** The tables after one or more cards, and how many of them were new rows. */
  datatype Outcome = Outcome(tables: Tables, inserted: nat)

  /** Every row is stored under its own card identifier. */
  predicate Keyed(t: Tables) {
    forall id :: id in t.cards ==> t.cards[id].cardId == id
  }

  /** An optional text is true in Python: present and not empty. */
  predicate Truthy(o: Option<string>) {
    o.Some? && o.value != ""
  }

  // ---------------------------------------------------------------------------
  // The set code of a card
  // ---------------------------------------------------------------------------

  /**
   * `card_id.split('-')[0] if '-' in card_id else ""`: the text before the
   * first dash, or nothing when there is no dash.
   */
  function DerivedSetCode(id: string): (code: string)
    ensures '-' !in code
    ensures '-' in id ==> |code| < |id| && id[..|code| + 1] == code + "-"
    ensures '-' !in id ==> code == ""
  {
    if '-' in id then
      SpanAll(id, NotDash);
      assert id[..|id|] == id;
      SetCodeOf(id)
    else
      ""
  }

  /** The text before a dash that follows a dash-free code is that code. */
  lemma DerivedSetCodeOf(code: string, rest: string)
    requires '-' !in code
    ensures DerivedSetCode(code + "-" + rest) == code
  {
    var id := code + "-" + rest;
    assert id == code + ("-" + rest);
    assert id[|code|] == '-';
    SpanPrefix(code, "-" + rest, NotDash);
  }

  /** For an identifier the card-id parser accepts, it is the parser's set code. */
  lemma DerivedSetCodeParsed(id: string)
    requires ExtractCardIdParts(id) != Unparsed
    ensures DerivedSetCode(id) == ExtractCardIdParts(id).setCode
  {
    ExtractSetCode(id);
    assert id[|SetCodeOf(id)|] == '-';
  }

  // ---------------------------------------------------------------------------
  // Character types
  // ---------------------------------------------------------------------------

  /** `s.split(sep)`: the pieces between the separators, empty ones included. */
  function SplitOn(s: string, sep: char): (parts: seq<string>)
    ensures |parts| >= 1
    decreases |s|
  {
    if s == [] then [""]
    else
      var rest := SplitOn(s[1..], sep);
      if s[0] == sep then [""] + rest else [[s[0]] + rest[0]] + rest[1..]
  }

  /** `sep.join(parts)`. */
  function JoinWith(parts: seq<string>, sep: char): string
    requires |parts| >= 1
    decreases |parts|
  {
    if |parts| == 1 then parts[0] else parts[0] + [sep] + JoinWith(parts[1..], sep)
  }

  /** No piece holds the separator. */
  predicate Separated(parts: seq<string>, sep: char) {
    forall i :: 0 <= i < |parts| ==> sep !in parts[i]
  }

  /** No piece of a split holds the separator. */
  lemma {:induction false} SplitSeparated(s: string, sep: char)
    ensures Separated(SplitOn(s, sep), sep)
    decreases |s|
  {
    if s != [] {
      var rest := SplitOn(s[1..], sep);
      SplitSeparated(s[1..], sep);
      var parts := SplitOn(s, sep);
      forall i | 0 <= i < |parts|
        ensures sep !in parts[i]
      {
        if s[0] == sep {
          if i > 0 {
            assert parts[i] == rest[i - 1];
          }
        } else if i == 0 {
          assert parts[0] == [s[0]] + rest[0];
        } else {
          assert parts[i] == rest[i];
        }
      }
    }
  }

  lemma JoinWithEmptyHead(rest: seq<string>, sep: char)
    requires |rest| >= 1
    ensures JoinWith([""] + rest, sep) == [sep] + JoinWith(rest, sep)
  {
    assert ([""] + rest)[1..] == rest;
  }

  lemma JoinWithConsChar(x: char, parts: seq<string>, sep: char)
    requires |parts| >= 1
    ensures JoinWith([[x] + parts[0]] + parts[1..], sep) == [x] + JoinWith(parts, sep)
  {
    var q := [[x] + parts[0]] + parts[1..];
    if |parts| > 1 {
      assert q[1..] == parts[1..];
      assert [x] + parts[0] + [sep] + JoinWith(parts[1..], sep) == [x] + (parts[0] + [sep] + JoinWith(parts[1..], sep));
    }
  }

  /** Joining the pieces of a split gives the text back. */
  lemma {:induction false} JoinSplit(s: string, sep: char)
    ensures JoinWith(SplitOn(s, sep), sep) == s
    decreases |s|
  {
    if s != [] {
      var rest := SplitOn(s[1..], sep);
      JoinSplit(s[1..], sep);
      if s[0] == sep {
        JoinWithEmptyHead(rest, sep);
      } else {
        JoinWithConsChar(s[0], rest, sep);
      }
      assert s == [s[0]] + s[1..];
    }
  }

  /** A separator-free text followed by more splits into the text glued to the first piece of the rest. */
  lemma {:induction false} SplitOnPrefix(x: string, tail: string, sep: char)
    requires sep !in x
    ensures var rest := SplitOn(tail, sep);
      SplitOn(x + tail, sep) == [x + rest[0]] + rest[1..]
    decreases |x|
  {
    var rest := SplitOn(tail, sep);
    if x == [] {
      assert x + tail == tail;
      assert x + rest[0] == rest[0];
      assert [x + rest[0]] + rest[1..] == rest;
    } else {
      assert (x + tail)[1..] == x[1..] + tail;
      assert (x + tail)[0] == x[0];
      SplitOnPrefix(x[1..], tail, sep);
      assert [x[0]] + (x[1..] + rest[0]) == x + rest[0];
    }
  }

  /** Joining separator-free pieces and splitting the result gives the pieces back. */
  lemma {:induction false} SplitJoin(parts: seq<string>, sep: char)
    requires |parts| >= 1 && Separated(parts, sep)
    ensures SplitOn(JoinWith(parts, sep), sep) == parts
    decreases |parts|
  {
    if |parts| == 1 {
      SplitOnPrefix(parts[0], [], sep);
      assert parts[0] + [] == parts[0];
    } else {
      var y := JoinWith(parts[1..], sep);
      assert sep !in parts[0];
      SplitJoin(parts[1..], sep);
      assert parts[0] + [sep] + y == parts[0] + ([sep] + y);
      SplitOnPrefix(parts[0], [sep] + y, sep);
      assert ([sep] + y)[1..] == y;
      assert SplitOn([sep] + y, sep) == [""] + parts[1..];
      assert parts[0] + "" == parts[0];
      assert [parts[0]] + parts[1..] == parts;
    }
  }

  /** The stripped, non-empty pieces of a `/`-separated text. */
  function TagsOf(text: string): (tags: set<string>)
    ensures forall t :: t in tags ==> t != [] && !IsSpace(t[0]) && !IsSpace(t[|t| - 1])
  {
    set p | p in SplitOn(text, '/') && Strip(p) != [] :: Strip(p)
  }

  /** The character types a card contributes, when it has a non-empty character type. */
  function CardTags(c: Card): (tags: set<string>)
    ensures !Truthy(c.characterType) ==> tags == {}
    ensures forall t :: t in tags ==> t != [] && !IsSpace(t[0]) && !IsSpace(t[|t| - 1])
  {
    if Truthy(c.characterType) then TagsOf(c.characterType.value) else {}
  }

  /** The tags of a text written as `/`-separated pieces are the stripped non-blank pieces. */
  lemma TagsOfJoin(parts: seq<string>)
    requires |parts| >= 1 && Separated(parts, '/')
    ensures TagsOf(JoinWith(parts, '/')) == set p | p in parts && Strip(p) != [] :: Strip(p)
  {
    SplitJoin(parts, '/');
  }

  /** Two non-blank `/`-free pieces joined by `/` give their two stripped texts. */
  lemma TagsOfPair(p: string, q: string)
    requires '/' !in p && '/' !in q && Strip(p) != [] && Strip(q) != []
    ensures TagsOf(p + "/" + q) == {Strip(p), Strip(q)}
  {
    var parts := [p, q];
    assert SplitOn(p + "/" + q, '/') == parts by {
      assert JoinWith(parts, '/') == p + "/" + q;
      SplitJoin(parts, '/');
    }
    assert forall x :: x in parts <==> x == p || x == q;
  }

  /** Two character types written as `a / b` are read back as `a` and `b`. */
  lemma TagsOfSlashed(a: string, b: string)
    requires '/' !in a && '/' !in b && a != [] && b != []
    requires !IsSpace(a[0]) && !IsSpace(a[|a| - 1]) && !IsSpace(b[0]) && !IsSpace(b[|b| - 1])
    ensures TagsOf(a + " / " + b) == {a, b}
  {
    var p := a + " ";
    var q := " " + b;
    assert Strip(p) == a by {
      StripPadded("", a, " ");
      assert "" + a + " " == p;
    }
    assert Strip(q) == b by {
      StripPadded(" ", b, "");
      assert " " + b + "" == q;
    }
    assert a + " / " + b == p + "/" + q;
    TagsOfPair(p, q);
  }

  /** "Straw Hat Crew / Navy" gives the two character types "Straw Hat Crew" and "Navy". */
  lemma TagsExample(crew: string, navy: string, text: string)
    requires crew == "Straw Hat Crew" && navy == "Navy" && text == "Straw Hat Crew / Navy"
    ensures TagsOf(text) == {crew, navy}
  {
    assert text == crew + " / " + navy;
    TagsOfSlashed(crew, navy);
  }

  // ---------------------------------------------------------------------------
  // One card
  // ---------------------------------------------------------------------------

  /** The card writes to `card_sets`: its set name is not empty and its identifier has a set code. */
  predicate NamesSet(c: Card) {
    Truthy(c.cardSet) && DerivedSetCode(c.cardId) != ""
  }

  /** `INSERT OR IGNORE INTO card_sets`: a code already present keeps its name. */
  function AddSet(sets: map<string, string>, c: Card): (r: map<string, string>)
    ensures r.Keys == sets.Keys + (if NamesSet(c) then {DerivedSetCode(c.cardId)} else {})
    ensures forall code :: code in sets ==> r[code] == sets[code]
    ensures NamesSet(c) && DerivedSetCode(c.cardId) !in sets ==> r[DerivedSetCode(c.cardId)] == c.cardSet.value
  {
    var code := DerivedSetCode(c.cardId);
    if NamesSet(c) && code !in sets then sets[code := c.cardSet.value] else sets
  }

  /** One iteration of the loop of `insert_cards`. */
  function InsertCard(t: Tables, c: Card): (r: Outcome)
    ensures r.tables.cards.Keys == t.cards.Keys + {c.cardId}
    ensures r.tables.cards[c.cardId] == c
    ensures r.inserted == (if c.cardId in t.cards then 0 else 1)
    ensures t.cardSets.Keys <= r.tables.cardSets.Keys
    ensures t.characterTypes <= r.tables.characterTypes
  {
    Outcome(
      Tables(t.cards[c.cardId := c], AddSet(t.cardSets, c), t.characterTypes + CardTags(c)),
      if c.cardId in t.cards then 0 else 1)
  }

  /** Storing a card again changes nothing and inserts nothing. */
  lemma InsertCardTwice(t: Tables, c: Card)
    ensures var once := InsertCard(t, c);
      InsertCard(once.tables, c) == Outcome(once.tables, 0)
  {
    var once := InsertCard(t, c);
    assert once.tables.cards[c.cardId := c] == once.tables.cards;
  }

  /**
   * Two cards with different identifiers can be stored in either order,
   * unless both name a set under the same code with different names: then
   * the first one stored keeps the code.
   */
  lemma InsertCardSwap(t: Tables, a: Card, b: Card)
    requires a.cardId != b.cardId
    requires NamesSet(a) && NamesSet(b) && DerivedSetCode(a.cardId) == DerivedSetCode(b.cardId) ==> a.cardSet == b.cardSet
    ensures var ab1 := InsertCard(t, a); var ab2 := InsertCard(ab1.tables, b);
      var ba1 := InsertCard(t, b); var ba2 := InsertCard(ba1.tables, a);
      ab2.tables == ba2.tables && ab1.inserted + ab2.inserted == ba1.inserted + ba2.inserted
  {
    assert t.cards[a.cardId := a][b.cardId := b] == t.cards[b.cardId := b][a.cardId := a];
    AddSetSwap(t.cardSets, a, b);
    assert t.characterTypes + CardTags(a) + CardTags(b) == t.characterTypes + CardTags(b) + CardTags(a);
  }

  lemma AddSetSwap(sets: map<string, string>, a: Card, b: Card)
    requires NamesSet(a) && NamesSet(b) && DerivedSetCode(a.cardId) == DerivedSetCode(b.cardId) ==> a.cardSet == b.cardSet
    ensures AddSet(AddSet(sets, a), b) == AddSet(AddSet(sets, b), a)
  {
    var ca := DerivedSetCode(a.cardId);
    var cb := DerivedSetCode(b.cardId);
    if NamesSet(a) && NamesSet(b) && ca !in sets && cb !in sets && ca != cb {
      assert sets[ca := a.cardSet.value][cb := b.cardSet.value] == sets[cb := b.cardSet.value][ca := a.cardSet.value];
    }
  }

  // ---------------------------------------------------------------------------
  // A batch
  // ---------------------------------------------------------------------------

  /** `insert_cards`: the cards in batch order, and the number of new rows. */
  function InsertCards(t: Tables, cards: seq<Card>): (r: Outcome)
    ensures r.inserted <= |cards|
    decreases |cards|
  {
    if cards == [] then Outcome(t, 0)
    else
      var first := InsertCard(t, cards[0]);
      var rest := InsertCards(first.tables, cards[1..]);
      Outcome(rest.tables, first.inserted + rest.inserted)
  }

  /** The card rows after the batch, computed on their own. */
  function UpsertAll(rows: map<string, Card>, cards: seq<Card>): map<string, Card>
    decreases |cards|
  {
    if cards == [] then rows else UpsertAll(rows[cards[0].cardId := cards[0]], cards[1..])
  }

  /** The number of new rows, computed on its own. */
  function Inserted(rows: map<string, Card>, cards: seq<Card>): nat
    decreases |cards|
  {
    if cards == [] then 0
    else (if cards[0].cardId in rows then 0 else 1) + Inserted(rows[cards[0].cardId := cards[0]], cards[1..])
  }

  /** The card sets after the batch, computed on their own. */
  function AddSets(sets: map<string, string>, cards: seq<Card>): map<string, string>
    decreases |cards|
  {
    if cards == [] then sets else AddSets(AddSet(sets, cards[0]), cards[1..])
  }

  /** The character types after the batch, computed on their own. */
  function AddTags(types: set<string>, cards: seq<Card>): set<string>
    decreases |cards|
  {
    if cards == [] then types else AddTags(types + CardTags(cards[0]), cards[1..])
  }

  /** Each table evolves independently of the others. */
  lemma {:induction false} InsertCardsTables(t: Tables, cards: seq<Card>)
    ensures InsertCards(t, cards).tables
      == Tables(UpsertAll(t.cards, cards), AddSets(t.cardSets, cards), AddTags(t.characterTypes, cards))
    ensures InsertCards(t, cards).inserted == Inserted(t.cards, cards)
    decreases |cards|
  {
    if cards != [] {
      InsertCardsTables(InsertCard(t, cards[0]).tables, cards[1..]);
    }
  }

  /** The identifiers of a batch. */
  function Ids(cards: seq<Card>): set<string> {
    set c | c in cards :: c.cardId
  }

  /** The last card of the batch with identifier `id`. */
  function LastWith(cards: seq<Card>, id: string): (o: Option<Card>)
    ensures o.Some? ==> o.value in cards && o.value.cardId == id
    decreases |cards|
  {
    if cards == [] then None
    else if cards[|cards| - 1].cardId == id then Some(cards[|cards| - 1])
    else LastWith(cards[..|cards| - 1], id)
  }

  /** Some card of the batch has identifier `id` exactly when there is a last one. */
  lemma {:induction false} LastWithIds(cards: seq<Card>, id: string)
    ensures LastWith(cards, id).Some? <==> id in Ids(cards)
    decreases |cards|
  {
    if cards != [] {
      var init := cards[..|cards| - 1];
      var last := cards[|cards| - 1];
      LastWithIds(init, id);
      assert cards == init + [last];
      if id in Ids(cards) && last.cardId != id {
        var c :| c in cards && c.cardId == id;
        assert c in init;
      }
    }
  }

  /** The last card with an identifier in `[c] + rest` is the last in `rest`, or else `c`. */
  lemma {:induction false} LastWithCons(c: Card, rest: seq<Card>, id: string)
    ensures LastWith([c] + rest, id)
      == if LastWith(rest, id).Some? then LastWith(rest, id) else if c.cardId == id then Some(c) else None
    decreases |rest|
  {
    if rest != [] {
      var init := rest[..|rest| - 1];
      assert ([c] + rest)[..|rest|] == [c] + init;
      LastWithCons(c, init, id);
    } else {
      assert [c] + rest == [c];
    }
  }

  lemma {:induction false} LastWithAt(cards: seq<Card>, i: nat)
    requires i < |cards|
    requires forall j :: i < j < |cards| ==> cards[j].cardId != cards[i].cardId
    ensures LastWith(cards, cards[i].cardId) == Some(cards[i])
    decreases |cards|
  {
    if i < |cards| - 1 {
      var init := cards[..|cards| - 1];
      assert init[i] == cards[i];
      LastWithAt(init, i);
    }
  }

  lemma {:induction false} UpsertAllRow(rows: map<string, Card>, cards: seq<Card>, id: string)
    ensures var r := UpsertAll(rows, cards); var last := LastWith(cards, id);
      && (id in r <==> id in rows || last.Some?)
      && (last.Some? ==> r[id] == last.value)
      && (last.None? && id in rows ==> r[id] == rows[id])
    decreases |cards|
  {
    if cards != [] {
      UpsertAllRow(rows[cards[0].cardId := cards[0]], cards[1..], id);
      assert cards == [cards[0]] + cards[1..];
      LastWithCons(cards[0], cards[1..], id);
    }
  }

  /**
   * After a batch, the row of an identifier the batch mentions is the last
   * card with that identifier, the row of any other identifier is what it
   * was, and no row disappears.
   */
  lemma InsertCardsRows(t: Tables, cards: seq<Card>, id: string)
    ensures var r := InsertCards(t, cards).tables; var last := LastWith(cards, id);
      && (id in r.cards <==> id in t.cards || last.Some?)
      && (last.Some? ==> r.cards[id] == last.value)
      && (last.None? && id in t.cards ==> r.cards[id] == t.cards[id])
  {
    InsertCardsTables(t, cards);
    UpsertAllRow(t.cards, cards, id);
  }

  /** The row of every identifier in the batch holds the last card of the batch with it. */
  lemma InsertCardsLastWins(t: Tables, cards: seq<Card>, i: nat)
    requires i < |cards|
    requires forall j :: i < j < |cards| ==> cards[j].cardId != cards[i].cardId
    ensures cards[i].cardId in InsertCards(t, cards).tables.cards
    ensures InsertCards(t, cards).tables.cards[cards[i].cardId] == cards[i]
  {
    InsertCardsRows(t, cards, cards[i].cardId);
    LastWithAt(cards, i);
  }

  /** A row whose identifier the batch does not mention is left as it was. */
  lemma InsertCardsOthersUnchanged(t: Tables, cards: seq<Card>, id: string)
    requires id in t.cards && id !in Ids(cards)
    ensures id in InsertCards(t, cards).tables.cards
    ensures InsertCards(t, cards).tables.cards[id] == t.cards[id]
  {
    LastWithIds(cards, id);
    InsertCardsRows(t, cards, id);
  }

  /** The identifiers of `[c] + rest`. */
  lemma IdsCons(c: Card, rest: seq<Card>)
    ensures Ids([c] + rest) == {c.cardId} + Ids(rest)
  {
    var cards := [c] + rest;
    forall id | id in Ids(cards)
      ensures id in {c.cardId} + Ids(rest)
    {
      var d :| d in cards && d.cardId == id;
      assert d == c || d in rest;
    }
    assert forall d :: d in rest ==> d in cards;
  }

  lemma FreshSplit(ids: set<string>, rest: set<string>, keys: set<string>, keys': set<string>, x: string)
    requires ids == {x} + rest && keys' == keys + {x}
    ensures |ids - keys| == (if x in keys then 0 else 1) + |rest - keys'|
  {
    var later := rest - keys';
    if x in keys {
      assert ids - keys == later;
    } else {
      assert ids - keys == later + {x};
      assert x !in later;
    }
  }

  lemma FreshStep(rows: map<string, Card>, cards: seq<Card>)
    requires cards != []
    ensures var c := cards[0];
      |Ids(cards) - rows.Keys|
      == (if c.cardId in rows then 0 else 1) + |Ids(cards[1..]) - rows[c.cardId := c].Keys|
  {
    var c := cards[0];
    assert cards == [c] + cards[1..];
    IdsCons(c, cards[1..]);
    FreshSplit(Ids(cards), Ids(cards[1..]), rows.Keys, rows[c.cardId := c].Keys, c.cardId);
  }

  lemma {:induction false} InsertedCount(rows: map<string, Card>, cards: seq<Card>)
    ensures Inserted(rows, cards) == |Ids(cards) - rows.Keys|
    decreases |cards|
  {
    if cards == [] {
      assert Ids(cards) == {};
    } else {
      InsertedCount(rows[cards[0].cardId := cards[0]], cards[1..]);
      FreshStep(rows, cards);
    }
  }

  /**
   * The count `insert_cards` returns is the number of distinct identifiers
   * of the batch that had no row before: duplicates count once.
   */
  lemma InsertCardsCount(t: Tables, cards: seq<Card>)
    ensures InsertCards(t, cards).inserted == |Ids(cards) - t.cards.Keys|
  {
    InsertCardsTables(t, cards);
    InsertedCount(t.cards, cards);
  }

  /** A batch has no more distinct identifiers than cards. */
  lemma {:induction false} IdsBound(cards: seq<Card>)
    ensures |Ids(cards)| <= |cards|
    decreases |cards|
  {
    if cards != [] {
      IdsBound(cards[1..]);
      assert cards == [cards[0]] + cards[1..];
      IdsCons(cards[0], cards[1..]);
    }
  }

  /** The name the first card naming set `code` gives it. */
  function FirstName(cards: seq<Card>, code: string): (o: Option<string>)
    ensures o.Some? ==> o.value != ""
    decreases |cards|
  {
    if cards == [] then None
    else if NamesSet(cards[0]) && DerivedSetCode(cards[0].cardId) == code then Some(cards[0].cardSet.value)
    else FirstName(cards[1..], code)
  }

  lemma {:induction false} AddSetsCode(sets: map<string, string>, cards: seq<Card>, code: string)
    ensures var r := AddSets(sets, cards); var first := FirstName(cards, code);
      && (code in r <==> code in sets || first.Some?)
      && (code in sets ==> r[code] == sets[code])
      && (code !in sets && first.Some? ==> r[code] == first.value)
    decreases |cards|
  {
    if cards != [] {
      AddSetsCode(AddSet(sets, cards[0]), cards[1..], code);
    }
  }

  /**
   * After a batch, a set code already present keeps its name, and a new code
   * gets the name of the first card of the batch that names it.
   */
  lemma InsertCardsSets(t: Tables, cards: seq<Card>, code: string)
    ensures var r := InsertCards(t, cards).tables; var first := FirstName(cards, code);
      && (code in r.cardSets <==> code in t.cardSets || first.Some?)
      && (code in t.cardSets ==> r.cardSets[code] == t.cardSets[code])
      && (code !in t.cardSets && first.Some? ==> r.cardSets[code] == first.value)
  {
    InsertCardsTables(t, cards);
    AddSetsCode(t.cardSets, cards, code);
  }

  /** The character types of all cards of a batch. */
  function AllTags(cards: seq<Card>): set<string> {
    set c, x | c in cards && x in CardTags(c) :: x
  }

  lemma {:induction false} AddTagsAll(types: set<string>, cards: seq<Card>)
    ensures AddTags(types, cards) == types + AllTags(cards)
    decreases |cards|
  {
    if cards == [] {
      assert AllTags(cards) == {};
    } else {
      var c := cards[0];
      var rest := cards[1..];
      AddTagsAll(types + CardTags(c), rest);
      assert cards == [c] + rest;
      assert AllTags(cards) == CardTags(c) + AllTags(rest) by {
        assert forall d :: d in cards <==> d == c || d in rest;
      }
    }
  }

  /** The character types after a batch are those before and those of the batch's cards. */
  lemma InsertCardsTags(t: Tables, cards: seq<Card>)
    ensures InsertCards(t, cards).tables.characterTypes == t.characterTypes + AllTags(cards)
  {
    InsertCardsTables(t, cards);
    AddTagsAll(t.characterTypes, cards);
  }

  /** The tables only grow: no row, set or character type disappears, and no set is renamed. */
  lemma InsertCardsGrows(t: Tables, cards: seq<Card>)
    ensures var r := InsertCards(t, cards).tables;
      && t.cards.Keys <= r.cards.Keys
      && t.cardSets.Keys <= r.cardSets.Keys
      && (forall code :: code in t.cardSets ==> r.cardSets[code] == t.cardSets[code])
      && t.characterTypes <= r.characterTypes
  {
    var r := InsertCards(t, cards).tables;
    forall id | id in t.cards
      ensures id in r.cards
    {
      InsertCardsRows(t, cards, id);
    }
    forall code | code in t.cardSets
      ensures code in r.cardSets && r.cardSets[code] == t.cardSets[code]
    {
      InsertCardsSets(t, cards, code);
    }
    InsertCardsTags(t, cards);
  }

  /** Rows stay stored under their own identifiers. */
  lemma InsertCardsKeyed(t: Tables, cards: seq<Card>)
    requires Keyed(t)
    ensures Keyed(InsertCards(t, cards).tables)
  {
    var r := InsertCards(t, cards).tables;
    forall id | id in r.cards
      ensures r.cards[id].cardId == id
    {
      InsertCardsRows(t, cards, id);
    }
  }

  lemma UpsertAllIdempotent(rows: map<string, Card>, cards: seq<Card>)
    ensures UpsertAll(UpsertAll(rows, cards), cards) == UpsertAll(rows, cards)
  {
    var once := UpsertAll(rows, cards);
    var twice := UpsertAll(once, cards);
    forall id
      ensures (id in twice <==> id in once)
      ensures id in once ==> twice[id] == once[id]
    {
      UpsertAllRow(rows, cards, id);
      UpsertAllRow(once, cards, id);
    }
    assert twice == once;
  }

  lemma InsertedAgain(rows: map<string, Card>, cards: seq<Card>)
    ensures Inserted(UpsertAll(rows, cards), cards) == 0
  {
    var once := UpsertAll(rows, cards);
    forall id | id in Ids(cards)
      ensures id in once
    {
      LastWithIds(cards, id);
      UpsertAllRow(rows, cards, id);
    }
    InsertedCount(once, cards);
    assert Ids(cards) - once.Keys == {};
  }

  lemma AddSetsIdempotent(sets: map<string, string>, cards: seq<Card>)
    ensures AddSets(AddSets(sets, cards), cards) == AddSets(sets, cards)
  {
    var once := AddSets(sets, cards);
    var twice := AddSets(once, cards);
    forall code
      ensures (code in twice <==> code in once)
      ensures code in once ==> twice[code] == once[code]
    {
      AddSetsCode(sets, cards, code);
      AddSetsCode(once, cards, code);
    }
    assert twice == once;
  }

  /** Storing the same batch a second time inserts nothing and changes no table. */
  lemma InsertCardsIdempotent(t: Tables, cards: seq<Card>)
    ensures var once := InsertCards(t, cards); var twice := InsertCards(once.tables, cards);
      twice.inserted == 0 && twice.tables == once.tables
  {
    var once := InsertCards(t, cards).tables;
    InsertCardsTables(t, cards);
    InsertCardsTables(once, cards);
    InsertedAgain(t.cards, cards);
    UpsertAllIdempotent(t.cards, cards);
    AddSetsIdempotent(t.cardSets, cards);
    AddTagsAll(t.characterTypes, cards);
    AddTagsAll(once.characterTypes, cards);
  }
}
