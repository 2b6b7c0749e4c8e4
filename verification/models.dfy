/**
 * The records of the card database (scraper/models.py): a `Card` with its
 * fourteen fields, a `CardSet`, and their conversion to and from Python
 * dictionaries.
 *
 * A dictionary is a `map` from `Key` to `Value`. `Key` enumerates the
 * dictionary keys the two records use (`KeyName` spells each one as the
 * Python code does), and `Value` covers the Python values the records hold:
 * `None`, integers, strings, lists and nested dictionaries.
 */
module Models {

  import opened Wrappers

  /** The dictionary keys of a card (the first fourteen) and of a card set (`NameKey` and the last three). */
  datatype Key =
    | CardIdKey | NameKey | CardTypeKey | RarityKey | CostKey
    | AttributeKey | PowerKey | CounterKey | ColorKey | CharacterTypeKey
    | EffectKey | TriggerEffectKey | CardSetKey | ImageUrlKey
    | CodeKey | ReleaseDateKey | CardsKey

  /** The key as it is written in the Python dictionaries. */
  function KeyName(k: Key): string {
    match k
    case CardIdKey => "card_id"
    case NameKey => "name"
    case CardTypeKey => "card_type"
    case RarityKey => "rarity"
    case CostKey => "cost"
    case AttributeKey => "attribute"
    case PowerKey => "power"
    case CounterKey => "counter"
    case ColorKey => "color"
    case CharacterTypeKey => "character_type"
    case EffectKey => "effect"
    case TriggerEffectKey => "trigger_effect"
    case CardSetKey => "card_set"
    case ImageUrlKey => "image_url"
    case CodeKey => "code"
    case ReleaseDateKey => "release_date"
    case CardsKey => "cards"
  }

  /** The Python values stored in the dictionaries of this model. */
  datatype Value =
    | VNone
    | VInt(i: int)
    | VStr(s: string)
    | VList(items: seq<Value>)
    | VDict(entries: map<Key, Value>)

  type Dict = map<Key, Value>

  /** A trading card. The first four fields are required; the rest may be absent (`None`). */
  datatype Card = Card(
    cardId: string,
    name: string,
    cardType: string,
    rarity: string,
    cost: Option<int>,
    attribute: Option<string>,
    power: Option<string>,
    counter: Option<string>,
    color: Option<string>,
    characterType: Option<string>,
    effect: Option<string>,
    triggerEffect: Option<string>,
    cardSet: Option<string>,
    imageUrl: Option<string>)

  /** A collection of cards released together. */
  datatype CardSet = CardSet(name: string, code: string, cards: seq<Card>, releaseDate: Option<string>)

  /** The fourteen keys of a card's dictionary. */
  const CardKeys: set<Key> := {
    CardIdKey, NameKey, CardTypeKey, RarityKey, CostKey,
    AttributeKey, PowerKey, CounterKey, ColorKey, CharacterTypeKey,
    EffectKey, TriggerEffectKey, CardSetKey, ImageUrlKey
  }

  /** The four keys of a card set's dictionary. */
  const CardSetKeys: set<Key> := {NameKey, CodeKey, ReleaseDateKey, CardsKey}

  // ---------------------------------------------------------------------------
  // Values of optional fields
  // ---------------------------------------------------------------------------

  function OptText(o: Option<string>): (v: Value)
    ensures v.VNone? <==> o.None?
    ensures v.VStr? <==> o.Some?
  {
    match o
    case None => VNone
    case Some(s) => VStr(s)
  }

  function OptInt(o: Option<int>): (v: Value)
    ensures v.VNone? <==> o.None?
    ensures v.VInt? <==> o.Some?
  {
    match o
    case None => VNone
    case Some(i) => VInt(i)
  }

  /** The field a text value holds. */
  function AsText(v: Value): string
    requires v.VStr?
  {
    v.s
  }

  /** The optional field a text-or-`None` value holds. */
  function AsOptText(v: Value): (o: Option<string>)
    requires v.VNone? || v.VStr?
    ensures OptText(o) == v
  {
    if v.VStr? then Some(v.s) else None
  }

  /** The optional field an integer-or-`None` value holds. */
  function AsOptInt(v: Value): (o: Option<int>)
    requires v.VNone? || v.VInt?
    ensures OptInt(o) == v
  {
    if v.VInt? then Some(v.i) else None
  }

  // ---------------------------------------------------------------------------
  // Card <-> dictionary
  // ---------------------------------------------------------------------------

  /**
   * A value of the kind the card field `k` is declared with: text for the
   * four required fields, an integer or `None` for the cost, text or `None`
   * for the others. Keys of a card set may hold anything.
   */
  predicate Fits(k: Key, v: Value) {
    match k
    case CardIdKey | NameKey | CardTypeKey | RarityKey => v.VStr?
    case CostKey => v.VNone? || v.VInt?
    case CodeKey | ReleaseDateKey | CardsKey => true
    case _ => v.VNone? || v.VStr?
  }

  /** The values `from_dict` reads have the kinds of the card's fields. */
  predicate WellTyped(d: Dict) {
    forall k :: k in d ==> Fits(k, d[k])
  }

  /** The keys of a card's dictionary: all but the three that only a card set uses. */
  predicate IsCardKey(k: Key) {
    !(k.CodeKey? || k.ReleaseDateKey? || k.CardsKey?)
  }

  /** The value `to_dict` stores under a card key. */
  function FieldValue(c: Card, k: Key): (v: Value)
    ensures Fits(k, v)
  {
    match k
    case CardIdKey => VStr(c.cardId)
    case NameKey => VStr(c.name)
    case CardTypeKey => VStr(c.cardType)
    case RarityKey => VStr(c.rarity)
    case CostKey => OptInt(c.cost)
    case AttributeKey => OptText(c.attribute)
    case PowerKey => OptText(c.power)
    case CounterKey => OptText(c.counter)
    case ColorKey => OptText(c.color)
    case CharacterTypeKey => OptText(c.characterType)
    case EffectKey => OptText(c.effect)
    case TriggerEffectKey => OptText(c.triggerEffect)
    case CardSetKey => OptText(c.cardSet)
    case ImageUrlKey => OptText(c.imageUrl)
    case _ => VNone
  }

  /**
   * `Card.to_dict`: one entry per field, `None` for absent optional fields.
   * Each entry has its field's kind.
   */
  function ToDict(c: Card): (d: Dict)
    ensures d.Keys == CardKeys
    ensures WellTyped(d)
  {
    map k: Key | IsCardKey(k) :: FieldValue(c, k)
  }

  /** Converting a card to a dictionary and back gives the same card. */
  lemma FromDictToDict(c: Card)
    ensures FromDict(ToDict(c)) == c
  {
    var d := ToDict(c);
    var e := FromDict(d);
    assert e.cardId == c.cardId && e.name == c.name && e.cardType == c.cardType && e.rarity == c.rarity by {
      assert CardIdKey in d && NameKey in d && CardTypeKey in d && RarityKey in d;
    }
    assert e.cost == c.cost && e.attribute == c.attribute && e.power == c.power && e.counter == c.counter by {
      assert CostKey in d && AttributeKey in d && PowerKey in d && CounterKey in d;
    }
    assert e.color == c.color && e.characterType == c.characterType && e.effect == c.effect by {
      assert ColorKey in d && CharacterTypeKey in d && EffectKey in d;
    }
    assert e.triggerEffect == c.triggerEffect && e.cardSet == c.cardSet && e.imageUrl == c.imageUrl by {
      assert TriggerEffectKey in d && CardSetKey in d && ImageUrlKey in d;
    }
  }

  /** The four card keys `from_dict` defaults to `''` rather than `None`. */
  const RequiredKeys: set<Key> := {CardIdKey, NameKey, CardTypeKey, RarityKey}

  /** What `from_dict` uses for a field whose key is missing: `''` or `None`. */
  function Default(k: Key): (v: Value)
    ensures Fits(k, v)
    ensures k in RequiredKeys ==> v == VStr("")
    ensures k !in RequiredKeys ==> v == VNone
  {
    match k
    case CardIdKey | NameKey | CardTypeKey | RarityKey => VStr("")
    case _ => VNone
  }

  /** `data.get(k, default)`. */
  function Get(d: Dict, k: Key): (v: Value)
    requires WellTyped(d)
    ensures Fits(k, v)
  {
    if k in d then d[k] else Default(k)
  }

  /**
   * `Card.from_dict`: each field from its key; a missing required field is
   * the empty text and a missing optional field is `None`. Keys that are
   * not fields are ignored.
   */
  function FromDict(d: Dict): (c: Card)
    requires WellTyped(d)
    ensures forall k :: IsCardKey(k) ==> FieldValue(c, k) == Get(d, k)
  {
    Card(
      AsText(Get(d, CardIdKey)),
      AsText(Get(d, NameKey)),
      AsText(Get(d, CardTypeKey)),
      AsText(Get(d, RarityKey)),
      AsOptInt(Get(d, CostKey)),
      AsOptText(Get(d, AttributeKey)),
      AsOptText(Get(d, PowerKey)),
      AsOptText(Get(d, CounterKey)),
      AsOptText(Get(d, ColorKey)),
      AsOptText(Get(d, CharacterTypeKey)),
      AsOptText(Get(d, EffectKey)),
      AsOptText(Get(d, TriggerEffectKey)),
      AsOptText(Get(d, CardSetKey)),
      AsOptText(Get(d, ImageUrlKey)))
  }

  /** `from_dict({})`: the four required fields are empty and every other field is `None`. */
  lemma FromDictEmpty()
    ensures FromDict(map[]) == Card("", "", "", "", None, None, None, None, None, None, None, None, None, None)
  {
  }

  /**
   * Reading a card from any well-typed dictionary and writing it back keeps
   * the value of every field key that was present, fills the default in for
   * every field key that was missing, and drops every other key.
   */
  lemma ToDictFromDict(d: Dict)
    requires WellTyped(d)
    ensures var e := ToDict(FromDict(d));
      && e.Keys == CardKeys
      && (forall k :: k in CardKeys && k in d ==> e[k] == d[k])
      && (forall k :: k in CardKeys && k !in d ==> e[k] == Default(k))
  {
    forall k | k in CardKeys
      ensures ToDict(FromDict(d))[k] == Get(d, k)
    {
      assert IsCardKey(k);
    }
  }

  /** A well-typed dictionary with exactly the card's keys is a card's dictionary. */
  lemma ToDictFromDictExact(d: Dict)
    requires WellTyped(d) && d.Keys == CardKeys
    ensures ToDict(FromDict(d)) == d
  {
    ToDictFromDict(d);
  }

  // ---------------------------------------------------------------------------
  // Card sets
  // ---------------------------------------------------------------------------

  /** The dictionaries of a list of cards, in order. */
  function CardDicts(cards: seq<Card>): (vs: seq<Value>)
    ensures |vs| == |cards|
  {
    seq(|cards|, i requires 0 <= i < |cards| => VDict(ToDict(cards[i])))
  }

  /** `CardSet.to_dict`: the name, code and release date, and the dictionaries of the cards. */
  function CardSetToDict(cs: CardSet): (d: Dict)
    ensures d.Keys == CardSetKeys
    ensures d[CardsKey].VList? && |d[CardsKey].items| == |cs.cards|
  {
    map[
      NameKey := VStr(cs.name),
      CodeKey := VStr(cs.code),
      ReleaseDateKey := OptText(cs.releaseDate),
      CardsKey := VList(CardDicts(cs.cards))
    ]
  }

  /** The cards of a set can be read back from its dictionary, in their order. */
  lemma CardSetToDictCards(cs: CardSet)
    ensures var items := CardSetToDict(cs)[CardsKey].items;
      forall i :: 0 <= i < |items| ==>
        items[i].VDict? && WellTyped(items[i].entries) && FromDict(items[i].entries) == cs.cards[i]
  {
    var items := CardSetToDict(cs)[CardsKey].items;
    forall i | 0 <= i < |items|
      ensures items[i].VDict? && WellTyped(items[i].entries) && FromDict(items[i].entries) == cs.cards[i]
    {
      FromDictToDict(cs.cards[i]);
    }
  }

  /** The other entries of a set's dictionary give back its name, code and release date. */
  lemma CardSetToDictFields(cs: CardSet)
    ensures var d := CardSetToDict(cs);
      && d[NameKey] == VStr(cs.name) && d[CodeKey] == VStr(cs.code)
      && (d[ReleaseDateKey].VNone? || d[ReleaseDateKey].VStr?) && AsOptText(d[ReleaseDateKey]) == cs.releaseDate
  {
  }
}
