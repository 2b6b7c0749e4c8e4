/**
 * Turning the card list of the official site into `Card` records
 * (`_parse_card_item` and the page loop of `scrape_all_cards` in
 * scraper/card_scraper.py).
 *
 * The browser and the HTML parser are not modelled. A card item is given by
 * what `_parse_card_item` reads from it: the text of the first element of
 * each CSS class it looks up, and its first `img` element. The page loop
 * is given the sequence of card lists the page source shows, one per
 * visit, each with whether a NEXT or Add more button leads on.
 */
module Scraper {

  import opened Wrappers
  import opened Text
  import opened CardIds
  import opened Costs
  import opened Models

  // ---------------------------------------------------------------------------
  // Card items
  // ---------------------------------------------------------------------------

  /**
   * The elements of a card item that are read, one per CSS class:
   * `.card-id`, `.card-name`, `.card-type`, `.card-cost`, `.card-attribute`,
   * `.card-power`, `.card-counter`, `.card-color`, `.card-character-type`,
   * `.card-effect`, `.card-trigger` and `.card-set`, in this order.
   */
  datatype Slot =
    | IdSlot | NameSlot | TypeSlot | CostSlot | AttributeSlot | PowerSlot
    | CounterSlot | ColorSlot | CharacterTypeSlot | EffectSlot | TriggerSlot | SetSlot

  /** An `img` element, with its `src` attribute when it has one. */
  datatype Image = Image(src: Option<string>)

  /**
   * A `.cardlist-item`, as `_parse_card_item` sees it: for each selector
   * the text of the first element matching it (`None` when there is none),
   * and the first `img` element.
   */
  datatype Item = Item(
    cardId: Option<string>,
    name: Option<string>,
    cardType: Option<string>,
    cost: Option<string>,
    attribute: Option<string>,
    power: Option<string>,
    counter: Option<string>,
    color: Option<string>,
    characterType: Option<string>,
    effect: Option<string>,
    trigger: Option<string>,
    cardSet: Option<string>,
    image: Option<Image>)

  /** The text of the element a slot selects. */
  function ElementText(item: Item, s: Slot): Option<string> {
    match s
    case IdSlot => item.cardId
    case NameSlot => item.name
    case TypeSlot => item.cardType
    case CostSlot => item.cost
    case AttributeSlot => item.attribute
    case PowerSlot => item.power
    case CounterSlot => item.counter
    case ColorSlot => item.color
    case CharacterTypeSlot => item.characterType
    case EffectSlot => item.effect
    case TriggerSlot => item.trigger
    case SetSlot => item.cardSet
  }

  /**
   * The cost: the cleaned text of the cost element, parsed; `None` without
   * one, and otherwise a cost exactly when the cleaned text is an integer
   * literal `int` reads.
   */
  function ItemCost(item: Item): (r: Option<int>)
    ensures item.cost.None? ==> r.None?
    ensures item.cost.Some? ==> (r.Some? <==> IntLiteral(CleanText(item.cost.value)))
    ensures r.Some? ==> r.value == LiteralValue(CleanText(item.cost.value))
  {
    match item.cost
    case None => None
    case Some(t) => StripCleanText(t); ParseCost(Some(CleanText(t)))
  }

  /** The image's `src`, uncleaned, or `""` without an image or without the attribute. */
  function ImageUrl(item: Item): (url: string)
    ensures item.image.None? || item.image.value.src.None? ==> url == ""
    ensures item.image.Some? && item.image.value.src.Some? ==> url == item.image.value.src.value
  {
    match item.image
    case Some(Image(Some(src))) => src
    case _ => ""
  }

  /**
   * `_parse_card_item`: no card when the item has no id or no name element.
   * Otherwise every text is cleaned, the rarity is read off the cleaned id,
   * and a missing optional element gives `""` (`None` for the cost).
   */
  function ParseCardItem(item: Item): (r: Option<Card>)
    ensures r.None? <==> item.cardId.None? || item.name.None?
  {
    if item.cardId.None? || item.name.None? then None
    else
      var cardId := CleanText(item.cardId.value);
      Some(Card(
        cardId,
        CleanText(item.name.value),
        CleanTextOpt(item.cardType),
        ExtractCardIdParts(cardId).rarity,
        ItemCost(item),
        Some(CleanTextOpt(item.attribute)),
        Some(CleanTextOpt(item.power)),
        Some(CleanTextOpt(item.counter)),
        Some(CleanTextOpt(item.color)),
        Some(CleanTextOpt(item.characterType)),
        Some(CleanTextOpt(item.effect)),
        Some(CleanTextOpt(item.trigger)),
        Some(CleanTextOpt(item.cardSet)),
        Some(ImageUrl(item))))
  }

  // ---------------------------------------------------------------------------
  // What a scraped card looks like
  // ---------------------------------------------------------------------------

  /** The text field of a card a slot shows (`None` for the cost slot). */
  function TextField(c: Card, s: Slot): Option<string> {
    match s
    case IdSlot => Some(c.cardId)
    case NameSlot => Some(c.name)
    case TypeSlot => Some(c.cardType)
    case CostSlot => None
    case AttributeSlot => c.attribute
    case PowerSlot => c.power
    case CounterSlot => c.counter
    case ColorSlot => c.color
    case CharacterTypeSlot => c.characterType
    case EffectSlot => c.effect
    case TriggerSlot => c.triggerEffect
    case SetSlot => c.cardSet
  }

  /** A present text that cleaning leaves unchanged (by `CleanTextFixpoint`, a normalized text). */
  predicate Clean(o: Option<string>) {
    o.Some? && CleanText(o.value) == o.value
  }

  /**
   * The cards the scraper produces: every text field is present (possibly
   * empty) and clean, the rarity is the one the id carries, and the image
   * URL is present.
   */
  predicate Scraped(c: Card) {
    && (forall s :: s != CostSlot ==> Clean(TextField(c, s)))
    && c.rarity == ExtractCardIdParts(c.cardId).rarity
    && c.imageUrl.Some?
  }

  /** Every text field of a scraped card is normalized: single plain spaces, none at the ends. */
  lemma ScrapedNormalized(c: Card, s: Slot)
    requires Scraped(c) && s != CostSlot
    ensures TextField(c, s).Some? && Normalized(TextField(c, s).value)
  {
    CleanTextFixpoint(TextField(c, s).value);
  }

  /** Each text field of a parsed card is the cleaned text of its element (`""` without one). */
  lemma ParsedTextField(item: Item, s: Slot)
    requires ParseCardItem(item).Some? && s != CostSlot
    ensures TextField(ParseCardItem(item).value, s) == Some(CleanTextOpt(ElementText(item, s)))
  {
  }

  lemma CleanOptClean(o: Option<string>)
    ensures Clean(Some(CleanTextOpt(o)))
  {
    if o.Some? {
      CleanTextIdempotent(o.value);
    }
  }

  /** Every card parsed from an item has the scraped shape. */
  lemma ParseCardItemScraped(item: Item)
    requires ParseCardItem(item).Some?
    ensures Scraped(ParseCardItem(item).value)
  {
    forall s | s != CostSlot
      ensures Clean(TextField(ParseCardItem(item).value, s))
    {
      ParsedTextField(item, s);
      CleanOptClean(ElementText(item, s));
    }
  }

  /** A parsed card has a rarity only when its id matches the id pattern, and the rarity is letters. */
  lemma ParsedRarity(item: Item)
    requires ParseCardItem(item).Some?
    ensures var c := ParseCardItem(item).value;
      c.rarity != "" ==> PatternMatches(c.cardId) && All(c.rarity, IsUpper)
  {
    var c := ParseCardItem(item).value;
    if c.rarity != "" {
      ExtractParsedIff(c.cardId);
      ExtractWellFormed(c.cardId);
    }
  }

  /**
   * An id element holding only whitespace still gives a card, with the
   * empty id and no rarity: only a missing element is rejected.
   */
  lemma ParseAcceptsBlankId(item: Item)
    requires item.cardId.Some? && item.name.Some? && AllSpace(item.cardId.value)
    ensures ParseCardItem(item).Some?
    ensures ParseCardItem(item).value.cardId == "" && ParseCardItem(item).value.rarity == ""
  {
    CleanTextIsJoinOfWords(item.cardId.value);
    WordsAllSpace(item.cardId.value);
  }

  // ---------------------------------------------------------------------------
  // Rendering a card as an item
  // ---------------------------------------------------------------------------

  /** The card item showing a card: each field in its element, no cost element without a cost. */
  function Render(c: Card): (item: Item)
    ensures item.cardId.Some? && item.name.Some?
    ensures item.cost.Some? <==> c.cost.Some?
  {
    Item(
      Some(c.cardId), Some(c.name), Some(c.cardType),
      if c.cost.Some? then Some(ShowInt(c.cost.value)) else None,
      c.attribute, c.power, c.counter, c.color, c.characterType,
      c.effect, c.triggerEffect, c.cardSet,
      Some(Image(c.imageUrl)))
  }

  /** Written integers are normalized texts: digits and perhaps a minus sign. */
  lemma ShowIntNormalized(n: int)
    ensures Normalized(ShowInt(n))
  {
    var s := ShowInt(n);
    var d := ShowNat(if n < 0 then -n else n);
    assert s == if n < 0 then "-" + d else d;
    assert forall i :: 0 <= i < |s| ==> IsDigit(s[i]) || s[i] == '-' by {
      forall i | 0 <= i < |s|
        ensures IsDigit(s[i]) || s[i] == '-'
      {
        if n < 0 && i > 0 {
          assert s[i] == d[i - 1];
        }
      }
    }
  }

  /** A written integer is left unchanged by cleaning. */
  lemma CleanShowInt(n: int)
    ensures CleanText(ShowInt(n)) == ShowInt(n)
  {
    ShowIntNormalized(n);
    CleanTextFixpoint(ShowInt(n));
  }

  /** A written integer parses back as a cost. */
  lemma ParseCostShowInt(n: int)
    ensures ParseCost(Some(ShowInt(n))) == Some(n)
  {
    var s := ShowInt(n);
    StripPadded([], s, []);
    assert [] + s + [] == s;
    ShowIntLiteral(n);
  }

  /** The cost element of a rendered card reads back as the card's cost. */
  lemma RenderCost(c: Card)
    ensures ParseCardItem(Render(c)).value.cost == c.cost
  {
    if c.cost.Some? {
      CleanShowInt(c.cost.value);
      ParseCostShowInt(c.cost.value);
    }
  }

  /** The rarity read off the rendered id is the card's when it agrees with the id. */
  lemma RenderRarity(c: Card)
    requires Clean(TextField(c, IdSlot)) && c.rarity == ExtractCardIdParts(c.cardId).rarity
    ensures ParseCardItem(Render(c)).value.rarity == c.rarity
  {
  }

  /** A clean text field is read back from its slot unchanged. */
  lemma RenderField(c: Card, s: Slot)
    requires s != CostSlot && Clean(TextField(c, s))
    ensures TextField(ParseCardItem(Render(c)).value, s) == TextField(c, s)
  {
    ParsedTextField(Render(c), s);
    assert ElementText(Render(c), s) == TextField(c, s);
  }

  /** Parsing the item that shows a scraped card gives the card back. */
  lemma ParseRender(c: Card)
    requires Scraped(c)
    ensures ParseCardItem(Render(c)) == Some(c)
  {
    var p := ParseCardItem(Render(c)).value;
    RenderCost(c);
    RenderRarity(c);
    forall s | s != CostSlot
      ensures TextField(p, s) == TextField(c, s)
    {
      RenderField(c, s);
    }
    assert p.imageUrl == c.imageUrl;
    SameFields(p, c);
  }

  /** Two cards with the same fields are the same card. */
  lemma SameFields(p: Card, c: Card)
    requires forall s :: s != CostSlot ==> TextField(p, s) == TextField(c, s)
    requires p.rarity == c.rarity && p.cost == c.cost && p.imageUrl == c.imageUrl
    ensures p == c
  {
    assert TextField(p, IdSlot) == TextField(c, IdSlot);
    assert TextField(p, NameSlot) == TextField(c, NameSlot);
    assert TextField(p, TypeSlot) == TextField(c, TypeSlot);
    assert TextField(p, AttributeSlot) == TextField(c, AttributeSlot);
    assert TextField(p, PowerSlot) == TextField(c, PowerSlot);
    assert TextField(p, CounterSlot) == TextField(c, CounterSlot);
    assert TextField(p, ColorSlot) == TextField(c, ColorSlot);
    assert TextField(p, CharacterTypeSlot) == TextField(c, CharacterTypeSlot);
    assert TextField(p, EffectSlot) == TextField(c, EffectSlot);
    assert TextField(p, TriggerSlot) == TextField(c, TriggerSlot);
    assert TextField(p, SetSlot) == TextField(c, SetSlot);
  }

  /** The scraped cards are exactly the cards some item parses to. */
  lemma ScrapedIff(c: Card)
    ensures Scraped(c) <==> exists item :: ParseCardItem(item) == Some(c)
  {
    if Scraped(c) {
      ParseRender(c);
    }
    if exists item :: ParseCardItem(item) == Some(c) {
      var item :| ParseCardItem(item) == Some(c);
      ParseCardItemScraped(item);
    }
  }

  // ---------------------------------------------------------------------------
  // Pages
  // ---------------------------------------------------------------------------

  /** The present results of `f` on `xs`, in order. */
  function FilterMap<A, B>(f: A -> Option<B>, xs: seq<A>): (ys: seq<B>)
    ensures |ys| <= |xs|
  {
    if xs == [] then []
    else FilterMap(f, xs[..|xs| - 1]) + (match f(xs[|xs| - 1]) case None => [] case Some(y) => [y])
  }

  /** Every kept value is the result of some element. */
  lemma {:induction false} FilterMapSound<A, B>(f: A -> Option<B>, xs: seq<A>, y: B)
    requires y in FilterMap(f, xs)
    ensures exists j :: 0 <= j < |xs| && f(xs[j]) == Some(y)
    decreases |xs|
  {
    var init := xs[..|xs| - 1];
    if y in FilterMap(f, init) {
      FilterMapSound(f, init, y);
      var j :| 0 <= j < |init| && f(init[j]) == Some(y);
      assert xs[j] == init[j];
    } else {
      assert f(xs[|xs| - 1]) == Some(y);
    }
  }

  /** Every present result is kept. */
  lemma {:induction false} FilterMapComplete<A, B>(f: A -> Option<B>, xs: seq<A>, j: nat)
    requires j < |xs| && f(xs[j]).Some?
    ensures f(xs[j]).value in FilterMap(f, xs)
    decreases |xs|
  {
    var init := xs[..|xs| - 1];
    if j < |init| {
      assert init[j] == xs[j];
      FilterMapComplete(f, init, j);
    }
  }

  /** A value is kept exactly when `f` gives it for some element. */
  lemma {:induction false} FilterMapMembers<A, B>(f: A -> Option<B>, xs: seq<A>, y: B)
    ensures y in FilterMap(f, xs) <==> exists j :: 0 <= j < |xs| && f(xs[j]) == Some(y)
  {
    if y in FilterMap(f, xs) {
      FilterMapSound(f, xs, y);
    }
    if exists j :: 0 <= j < |xs| && f(xs[j]) == Some(y) {
      var j :| 0 <= j < |xs| && f(xs[j]) == Some(y);
      FilterMapComplete(f, xs, j);
    }
  }

  /** Elements whose result is absent are dropped: the length is the number of present results. */
  lemma {:induction false} FilterMapAllPresent<A, B>(f: A -> Option<B>, xs: seq<A>)
    requires forall j :: 0 <= j < |xs| ==> f(xs[j]).Some?
    ensures |FilterMap(f, xs)| == |xs|
    ensures forall j :: 0 <= j < |xs| ==> FilterMap(f, xs)[j] == f(xs[j]).value
    decreases |xs|
  {
    if xs != [] {
      var init := xs[..|xs| - 1];
      assert forall j :: 0 <= j < |init| ==> init[j] == xs[j];
      FilterMapAllPresent(f, init);
    }
  }

  lemma FilterMapSnoc<A, B>(f: A -> Option<B>, xs: seq<A>, j: nat)
    requires j < |xs|
    ensures FilterMap(f, xs[..j + 1])
      == FilterMap(f, xs[..j]) + (match f(xs[j]) case None => [] case Some(y) => [y])
  {
    assert xs[..j + 1][..j] == xs[..j];
  }

  /** The cards of one card list, in order, skipping the items that give no card. */
  function ParsePage(items: seq<Item>): seq<Card> {
    FilterMap(ParseCardItem, items)
  }

  /** A card is on a parsed page exactly when some item of the page parses to it. */
  lemma ParsePageMembers(items: seq<Item>, c: Card)
    ensures c in ParsePage(items) <==> exists j :: 0 <= j < |items| && ParseCardItem(items[j]) == Some(c)
  {
    FilterMapMembers(ParseCardItem, items, c);
  }

  /** A page whose every item has an id and a name gives one card per item, in order. */
  lemma ParsePageComplete(items: seq<Item>)
    requires forall j :: 0 <= j < |items| ==> items[j].cardId.Some? && items[j].name.Some?
    ensures |ParsePage(items)| == |items|
    ensures forall j :: 0 <= j < |items| ==> Some(ParsePage(items)[j]) == ParseCardItem(items[j])
  {
    FilterMapAllPresent(ParseCardItem, items);
  }

  /** One visit of the card list: the items the page source shows, and whether a button leads on. */
  datatype Page<I> = Page(items: seq<I>, hasNext: bool)

  /** The results of `parse` on a run of visits, in order. */
  function Flatten<I, C>(parse: I -> Option<C>, ps: seq<Page<I>>): seq<C>
  {
    if ps == [] then [] else Flatten(parse, ps[..|ps| - 1]) + FilterMap(parse, ps[|ps| - 1].items)
  }

  /** Every result of a run of visits comes from some item of some visit. */
  lemma {:induction false} FlattenSound<I, C>(parse: I -> Option<C>, ps: seq<Page<I>>, c: C)
    requires c in Flatten(parse, ps)
    ensures exists k, j :: 0 <= k < |ps| && 0 <= j < |ps[k].items| && parse(ps[k].items[j]) == Some(c)
    decreases |ps|
  {
    var init := ps[..|ps| - 1];
    if c in Flatten(parse, init) {
      FlattenSound(parse, init, c);
      var k, j :| 0 <= k < |init| && 0 <= j < |init[k].items| && parse(init[k].items[j]) == Some(c);
      assert ps[k] == init[k];
    } else {
      FilterMapSound(parse, ps[|ps| - 1].items, c);
    }
  }

  /** Every present result of an item of a visit is kept. */
  lemma {:induction false} FlattenComplete<I, C>(parse: I -> Option<C>, ps: seq<Page<I>>, k: nat, j: nat)
    requires k < |ps| && j < |ps[k].items| && parse(ps[k].items[j]).Some?
    ensures parse(ps[k].items[j]).value in Flatten(parse, ps)
    decreases |ps|
  {
    var init := ps[..|ps| - 1];
    if k < |init| {
      assert init[k] == ps[k];
      FlattenComplete(parse, init, k, j);
    } else {
      FilterMapComplete(parse, ps[k].items, j);
    }
  }

  /** A value is in the results of a run of visits exactly when some item of some visit parses to it. */
  lemma FlattenMembers<I, C>(parse: I -> Option<C>, ps: seq<Page<I>>, c: C)
    ensures c in Flatten(parse, ps)
      <==> exists k, j :: 0 <= k < |ps| && 0 <= j < |ps[k].items| && parse(ps[k].items[j]) == Some(c)
  {
    if c in Flatten(parse, ps) {
      FlattenSound(parse, ps, c);
    }
    if exists k, j :: 0 <= k < |ps| && 0 <= j < |ps[k].items| && parse(ps[k].items[j]) == Some(c) {
      var k, j :| 0 <= k < |ps| && 0 <= j < |ps[k].items| && parse(ps[k].items[j]) == Some(c);
      FlattenComplete(parse, ps, k, j);
    }
  }

  /** The 0-based visit `j` is within `max_pages` (which counts visits from 1). */
  predicate Within(limit: Option<int>, j: nat) {
    limit.None? || j < limit.value
  }

  /**
   * The number of visits the loop scrapes from visit `from` on: it stops
   * before a visit past the limit or one whose list is empty (a visit past
   * the end of `pages` shows nothing), and after a visit without a button.
   */
  function Visited<I>(pages: seq<Page<I>>, limit: Option<int>, from: nat): (k: nat)
    ensures from + k <= |pages| || k == 0
    decreases |pages| - from
  {
    if from >= |pages| || !Within(limit, from) || pages[from].items == [] then 0
    else if !pages[from].hasNext then 1
    else 1 + Visited(pages, limit, from + 1)
  }

  /** Whether the loop goes on to visit `j + 1` after visit `j`. */
  predicate GoesOn<I>(pages: seq<Page<I>>, limit: Option<int>, j: nat) {
    j < |pages| && Within(limit, j) && pages[j].items != [] && pages[j].hasNext
  }

  /**
   * The visits scraped from `from` are the longest run in which each visit
   * but the last leads on, and each visit, the last included, is within the
   * limit and shows cards. The run is empty only when visit `from` itself is
   * past the end, past the limit or without cards; otherwise it ends at a
   * visit without a button, or before one that would be scraped no more.
   */
  lemma {:induction false} VisitedRun<I>(pages: seq<Page<I>>, limit: Option<int>, from: nat)
    ensures var k := Visited(pages, limit, from);
      && (forall j :: from <= j < from + k ==> j < |pages| && Within(limit, j) && pages[j].items != [])
      && (forall j :: from <= j < from + k - 1 ==> GoesOn(pages, limit, j))
      && (k == 0 ==> from >= |pages| || !Within(limit, from) || pages[from].items == [])
      && (k > 0 ==>
            || !GoesOn(pages, limit, from + k - 1) || from + k >= |pages|
            || !Within(limit, from + k) || pages[from + k].items == [])
    decreases |pages| - from
  {
    if from < |pages| && Within(limit, from) && pages[from].items != [] && pages[from].hasNext {
      VisitedRun(pages, limit, from + 1);
    }
  }

  /** With a limit, no more visits are scraped than the limit allows. */
  lemma {:induction false} VisitedBound<I>(pages: seq<Page<I>>, limit: Option<int>, from: nat)
    requires limit.Some?
    ensures from + Visited(pages, limit, from) <= if from < limit.value then limit.value else from
    decreases |pages| - from
  {
    if from < |pages| && Within(limit, from) && pages[from].items != [] && pages[from].hasNext {
      VisitedBound(pages, limit, from + 1);
    }
  }

  /** The loop stops before a visit past the end, past the limit, or without cards. */
  lemma VisitStop<I>(pages: seq<Page<I>>, limit: Option<int>, i: nat)
    requires i >= |pages| || !Within(limit, i) || pages[i].items == []
    ensures Visited(pages, limit, i) == 0
  {
  }

  /** A visit within the limit that shows cards is scraped, and the loop goes on when a button leads on. */
  lemma VisitStep<I>(pages: seq<Page<I>>, limit: Option<int>, i: nat)
    requires i < |pages| && Within(limit, i) && pages[i].items != []
    ensures Visited(pages, limit, i) == if pages[i].hasNext then 1 + Visited(pages, limit, i + 1) else 1
  {
  }

  /** Scraping visit `i` appends its results to those of the visits before it. */
  lemma FlattenStep<I, C>(parse: I -> Option<C>, prior: seq<C>, pages: seq<Page<I>>, i: nat)
    requires i < |pages|
    ensures prior + Flatten(parse, pages[..i]) + FilterMap(parse, pages[i].items)
      == prior + Flatten(parse, pages[..i + 1])
  {
    assert pages[..i + 1][..i] == pages[..i];
    ConcatAssoc(prior, Flatten(parse, pages[..i]), FilterMap(parse, pages[i].items));
  }

  /** After `done` visits, the results are those of the first `done` visits after `prior`. */
  ghost predicate Scraping<I, C>(parse: I -> Option<C>, prior: seq<C>, pages: seq<Page<I>>, done: int, found: seq<C>) {
    0 <= done <= |pages| && found == prior + Flatten(parse, pages[..done])
  }

  /** The item loop: parses each item in order and keeps the present results. */
  method ParseItems<I, C>(parse: I -> Option<C>, items: seq<I>) returns (found: seq<C>)
    ensures found == FilterMap(parse, items)
  {
    found := [];
    var j := 0;
    while j < |items|
      invariant 0 <= j <= |items|
      invariant found == FilterMap(parse, items[..j])
    {
      FilterMapSnoc(parse, items, j);
      var r := parse(items[j]);
      if r.Some? {
        found := found + [r.value];
      }
      j := j + 1;
    }
    assert items[..|items|] == items;
  }

  /**
   * The page loop, for any item parser: for each visit within `maxPages`
   * it parses the items in order and keeps the results; it stops at a
   * visit without items, or after a visit without a way on.
   */
  method Crawl<I, C>(parse: I -> Option<C>, prior: seq<C>, pages: seq<Page<I>>, maxPages: Option<int>)
    returns (found: seq<C>)
    ensures found == prior + Flatten(parse, pages[..Visited(pages, maxPages, 0)])
  {
    found := prior;
    var page := 1;
    var hasMore := true;
    while hasMore && (maxPages.None? || page <= maxPages.value)
      invariant 1 <= page
      invariant Scraping(parse, prior, pages, if hasMore then page - 1 else page, found)
      invariant Visited(pages, maxPages, 0)
        == if hasMore then page - 1 + Visited(pages, maxPages, page - 1) else page
      decreases (if hasMore then 1 else 0) + |pages| + 1 - page
    {
      var i := page - 1;
      if i >= |pages| || pages[i].items == [] {
        VisitStop(pages, maxPages, i);
        break;
      }
      var results := ParseItems(parse, pages[i].items);
      FlattenStep(parse, prior, pages, i);
      VisitStep(pages, maxPages, i);
      found := found + results;
      assert Scraping(parse, prior, pages, i + 1, found);
      if pages[i].hasNext {
        page := page + 1;
      } else {
        hasMore := false;
      }
    }
    if hasMore {
      VisitStop(pages, maxPages, page - 1);
    }
  }

  /**
   * The page loop of `scrape_all_cards`: `prior` is what the scraper had
   * collected before the call (the list is never reset). Each visit's
   * card items are parsed with `_parse_card_item`.
   */
  method ScrapeAllCards(prior: seq<Card>, pages: seq<Page<Item>>, maxPages: Option<int>) returns (cards: seq<Card>)
    ensures cards == prior + Flatten(ParseCardItem, pages[..Visited(pages, maxPages, 0)])
  {
    cards := Crawl(ParseCardItem, prior, pages, maxPages);
  }

  /**
   * The cards a scrape adds are exactly the cards of the items of the
   * visited pages, and each has the scraped shape.
   */
  lemma ScrapeAllCardsMembers(pages: seq<Page<Item>>, maxPages: Option<int>, c: Card)
    ensures var ps := pages[..Visited(pages, maxPages, 0)];
      c in Flatten(ParseCardItem, ps)
      <==> exists k, j :: 0 <= k < |ps| && 0 <= j < |ps[k].items| && ParseCardItem(ps[k].items[j]) == Some(c)
    ensures c in Flatten(ParseCardItem, pages[..Visited(pages, maxPages, 0)]) ==> Scraped(c)
  {
    var ps := pages[..Visited(pages, maxPages, 0)];
    FlattenMembers(ParseCardItem, ps, c);
    if c in Flatten(ParseCardItem, ps) {
      var k, j :| 0 <= k < |ps| && 0 <= j < |ps[k].items| && ParseCardItem(ps[k].items[j]) == Some(c);
      ParseCardItemScraped(ps[k].items[j]);
    }
  }
}
