# One Piece card database: a Dafny model of the scraper and the store

This project models the core of the One Piece card database in Dafny and proves
properties of that model. The core has two halves: the scraper, which turns the
card list of the official site into `Card` records, and the database manager,
which reconciles those records with three SQLite tables and reads them back.

- `wrappers.dfy` (`Wrappers`) is the `Option` type.
- `text.dfy` (`Text`) models `clean_text`: whitespace runs become one space, and
  the text is stripped. Whitespace is the set of characters Python's
  `str.isspace` accepts, which is what `\s`, `str.strip` and `str.split` use.
  The independent reference is `" ".join(text.split())`.
- `card_id.dfy` (`CardIds`) models `extract_card_id_parts`. The regular
  expression `([A-Z0-9]+)-(\d+)\s*([A-Z]+)?`, matched at the start of the text,
  is computed as maximal runs of each character class. It is proved equal to a
  declarative reading of the pattern. The identifier is also rebuilt from its
  parts (`Format`) for a round trip.
- `costs.dfy` (`Costs`) models `parse_cost` together with the part of Python's
  `int()` it needs: an optional sign, then digits with single underscores
  between them. `ShowInt` (Python's `str` of an integer) is a right inverse:
  `int(str(n)) == n`, while `int` also reads texts `str` never writes, such as
  `"007"`, `"+5"` and `"1_0"`.
- `models.dfy` (`Models`) has the `Card` and `CardSet` records and their
  dictionaries. A dictionary is a map from an enumeration of the keys the
  records use to a small universe of Python values.
- `scraper.dfy` (`Scraper`) models `_parse_card_item` and the page loop of
  `scrape_all_cards`. A card item is modelled as the text of the first element
  of each CSS class that is read, plus its first image. The browser session is
  a sequence of visits, each the card list the page showed and whether a NEXT
  or Add more button led on.
- `store.dfy` (`Database`) models `insert_cards` as a fold over the batch. The
  state is three tables:
  - the card rows, keyed by identifier;
  - the card sets, keyed by set code;
  - the set of character types.
- `queries.dfy` (`Queries`) models the four read queries. Each one is a filter
  over the card rows, sorted by identifier. The sort order is SQLite's BINARY
  collation, which compares code point by code point.

The model follows the code, including where it may differ from what a reader
expects:

- `_parse_card_item` rejects an item only when its `.card-id` or `.card-name`
  element is missing. An identifier or name that is blank after cleaning is
  kept, as the empty text (`Scraper.ParseAcceptsBlankId`).
- `parse_cost` keeps a sign, so a cost can be negative: `"-5"` gives `-5`
  (`Costs.ExampleCostNegative`).
- An optional text field whose element is missing becomes the empty text, not
  `None`. Only the cost is `None` in that case.
- The pattern's rarity group is greedy (`([A-Z]+)?`), so the rarity is the
  whole run of capitals after the number.
- `scrape_all_cards` appends to the scraper's card list without clearing it
  first, so the model's result starts with the cards already collected
  (`prior`).

## Model

| member | source | states |
|---|---|---|
| Text.CleanText | scraper/utils.py:60-77 | the empty text stays empty, and a cleaned text has no whitespace at either end |
| Text.CleanTextOpt | scraper/utils.py:60-77 | the result is normalized text with the same words as the input, and it is empty exactly when there is no text or the text is all whitespace (so `None` gives `""`) |
| Text.CleanTextEmpty | scraper/utils.py:70-77 | cleaning gives the empty text if and only if the text is all whitespace |
| Text.CleanTextNormalized | scraper/utils.py:73-77 | the cleaned text uses only the space as whitespace, never two in a row, and has none at either end |
| Text.CleanTextKeepsWords | scraper/utils.py:73-77 | cleaning keeps the whitespace-separated words of the text, in order |
| Text.CleanTextIsJoinOfWords | scraper/utils.py:60-77 | `clean_text(s)` equals `" ".join(s.split())` |
| Text.CleanTextIdempotent | scraper/utils.py:60-77 | cleaning a cleaned text changes nothing |
| Text.CleanTextFixpoint | scraper/utils.py:60-77 | cleaning leaves a text unchanged if and only if the text is already normalized |
| Text.StripSplits | scraper/utils.py:76 | `strip` keeps a middle slice and removes only whitespace around it |
| Text.StripCleanText | scraper/utils.py:74-77 | a cleaned text has no whitespace left to strip |
| Text.StripPadded | scraper/utils.py:76 | stripping whitespace padding off a text without whitespace at its ends gives that text |
| Text.CleanTextExampleSpaces | tests/test_utils.py:20 | `"  Hello  World  "` cleans to `"Hello World"` |
| Text.CleanTextExampleSeparators | tests/test_utils.py:23-26 | `"Hello\nWorld"` and `"Hello\tWorld"` both clean to `"Hello World"` |
| CardIds.ExtractCardIdParts | scraper/utils.py:92-100 | the set code and the number are both empty or both present, and without a set code all three parts are empty |
| CardIds.ExtractParsedIff | scraper/utils.py:91-100 | the identifier is split into parts if and only if the pattern matches at its start |
| CardIds.ExtractParsedShape | scraper/utils.py:91-92 | the pattern matches if and only if a run of `[A-Z0-9]` at the start is followed by a dash and a digit |
| CardIds.ExtractFormat | scraper/utils.py:91-98 | parsing the identifier written from well-formed parts gives those parts back |
| CardIds.ExtractWellFormed | scraper/utils.py:94-98 | the parts of a parsed identifier are well formed: a set-code run, digits, and optional capitals |
| CardIds.ExtractSetCode | scraper/utils.py:94-95 | the set code of a parsed identifier is its text before the first dash |
| CardIds.ExampleWithRarity | tests/test_utils.py:37 | `"OP01-001 SR"` gives `("OP01", "001", "SR")` |
| CardIds.ExampleWithoutRarity | tests/test_utils.py:40 | `"OP01-001"` gives `("OP01", "001", "")` |
| CardIds.ExampleStarterDeck | tests/test_utils.py:43 | `"ST01-001 C"` gives `("ST01", "001", "C")` |
| CardIds.ExampleInvalid | tests/test_utils.py:46 | `"Invalid"` gives three empty parts |
| Costs.ParseInt | scraper/utils.py:129-131 | `int()` of a stripped text succeeds if and only if the text is a grouped digit string, optionally after one sign, and then gives that literal's value |
| Costs.ParseCost | scraper/utils.py:115-131 | no text, an empty text and a lone dash give `None`; any other text gives `int()` of its stripped form; a cost is found exactly when the stripped text is an integer literal, and it is the literal's value |
| Costs.ParseUnsignedIsGrouped | scraper/utils.py:128-131 | the scanner accepts exactly the digit strings with single underscores between digits, with their decimal value |
| Costs.NotValidRejects | scraper/utils.py:128-131 | a character that is neither a digit nor an underscore makes the parse fail |
| Costs.ShowNat | scraper/utils.py:129 | the written form of a natural number is a non-empty digit string with that value |
| Costs.ParseShowInt | scraper/utils.py:129 | `int(str(n)) == n` for every integer; Python's digit-count limit is not modelled |
| Costs.ParseCostShow | scraper/utils.py:125-129 | a written integer with any whitespace around it parses back to that integer |
| Costs.ParseCostShape | scraper/utils.py:125-131 | a cost text has a cost if and only if, once stripped, it is an optionally signed grouped digit string; the cost is the value of its digits, negated after a minus sign |
| Costs.ExampleCostFive | tests/test_utils.py:51 | `"5"` gives `5` |
| Costs.ExampleCostPadded | tests/test_utils.py:54 | `" 10 "` gives `10` |
| Costs.ExampleCostDash | tests/test_utils.py:57 | `"-"` gives `None` |
| Costs.ExampleCostLetter | tests/test_utils.py:66 | `"X"` gives `None` |
| Costs.ExampleCostNegative | scraper/utils.py:125-129 | `"-5"` gives `-5`: a sign is accepted |
| Costs.ExampleCostLeadingZeros | scraper/utils.py:128-129 | `"007"` gives `7`, as `int()` reads leading zeros |
| Costs.ExampleCostPlus | scraper/utils.py:128-129 | `"+5"` gives `5` |
| Costs.ExampleCostUnderscore | scraper/utils.py:128-129 | `"1_0"` gives `10`, as `int()` skips an underscore between digits |
| Models.ToDict | scraper/models.py:26-43 | a card's dictionary has exactly the fourteen card keys, and each entry has its field's kind |
| Models.FromDictToDict | scraper/models.py:26-63 | `from_dict(to_dict(c)) == c` for every card |
| Models.Default | scraper/models.py:48-62 | the value used for a missing key is `''` for `card_id`, `name`, `card_type` and `rarity`, and `None` for every other key |
| Models.FromDict | scraper/models.py:45-63 | each card field of the result, written as `to_dict` writes it, is the dictionary's value for its key, or the default when the key is missing; values must have their field's kind |
| Models.FromDictEmpty | scraper/models.py:45-63 | `from_dict({})` is the card with four empty required fields and every other field `None` |
| Models.ToDictFromDict | scraper/models.py:45-63 | reading and rewriting a dictionary keeps the present card keys, fills defaults in for missing ones, and drops all other keys |
| Models.ToDictFromDictExact | scraper/models.py:26-63 | `to_dict(from_dict(d)) == d` when `d` has exactly the fourteen card keys |
| Models.CardDicts | scraper/models.py:80 | one dictionary per card |
| Models.CardSetToDict | scraper/models.py:74-81 | a set's dictionary has the keys `name`, `code`, `release_date` and `cards`, with one card entry per card |
| Models.CardSetToDictCards | scraper/models.py:80 | each card entry reads back as the card at the same position |
| Models.CardSetToDictFields | scraper/models.py:76-79 | the name, code and release date read back from a set's dictionary |
| Scraper.ItemCost | scraper/card_scraper.py:218 | an item without a cost element has no cost; with one, a cost is found exactly when the cleaned text of the element is an integer literal, and it is that literal's value |
| Scraper.ImageUrl | scraper/card_scraper.py:229-230 | the image URL is the `src` attribute of the item's image, uncleaned, and `""` when there is no image or no `src` |
| Scraper.ParseCardItem | scraper/card_scraper.py:203-208 | an item is rejected if and only if its identifier or name element is missing |
| Scraper.ParseCardItemScraped | scraper/card_scraper.py:210-230 | every text field of a parsed card is clean text, the rarity is the one parsed from the identifier, and there is an image URL |
| Scraper.ScrapedNormalized | scraper/card_scraper.py:210-226 | every text field of a scraped card is normalized text |
| Scraper.ParsedRarity | scraper/card_scraper.py:214 | a non-empty rarity comes from an identifier the pattern matches, and is all capitals |
| Scraper.ParseAcceptsBlankId | scraper/card_scraper.py:206-214 | an item whose identifier is only whitespace is still accepted, with an empty identifier and rarity |
| Scraper.ParseRender | scraper/card_scraper.py:203-248 | every card of scraped shape is parsed back from the item that displays it |
| Scraper.ScrapedIff | scraper/card_scraper.py:191-248 | a card is of scraped shape if and only if some item parses to it |
| Scraper.FilterMap | scraper/card_scraper.py:111-114 | keeping the present results never adds elements |
| Scraper.FilterMapMembers | scraper/card_scraper.py:111-114 | a value is kept if and only if some element produces it |
| Scraper.FilterMapAllPresent | scraper/card_scraper.py:111-114 | when every element produces a value, the results are one per element, in order |
| Scraper.ParsePageMembers | scraper/card_scraper.py:111-114 | a card comes from a page if and only if some item of the page parses to it |
| Scraper.ParsePageComplete | scraper/card_scraper.py:111-114 | a page whose items all have an identifier and a name gives one card per item, in order |
| Scraper.FlattenMembers | scraper/card_scraper.py:98-114 | a card is collected from a run of visits if and only if some item of some visit parses to it |
| Scraper.Visited | scraper/card_scraper.py:98-136 | the number of visits scraped never runs past the visits available |
| Scraper.VisitedRun | scraper/card_scraper.py:98-136 | the scraped visits are the longest run that stays within `max_pages`, shows cards, and where each visit but the last has a button leading on; the run is empty only when the first visit is past the end, past the limit or without cards |
| Scraper.VisitedBound | scraper/card_scraper.py:98 | with `max_pages` given, at most that many visits are scraped |
| Scraper.ParseItems | scraper/card_scraper.py:111-114 | the inner loop appends the parsed cards of the page in item order, dropping the rejected items |
| Scraper.Crawl | scraper/card_scraper.py:95-136 | the page loop ends with the earlier cards followed by the cards of exactly the scraped visits |
| Scraper.ScrapeAllCards | scraper/card_scraper.py:77-145 | the result is the earlier cards followed by the parsed cards of the scraped visits, in order |
| Scraper.ScrapeAllCardsMembers | scraper/card_scraper.py:98-114 | a new card is returned if and only if an item of a scraped visit parses to it, and every such card has scraped shape |
| Database.DerivedSetCode | database/db_manager.py:157 | the derived set code has no dash; with a dash in the identifier, the identifier starts with the code and a dash; without one, the code is empty |
| Database.DerivedSetCodeOf | database/db_manager.py:157 | the code derived from `code + "-" + rest` is `code`, for a dash-free `code` |
| Database.DerivedSetCodeParsed | database/db_manager.py:157 | for an identifier the card-id parser accepts, the derived set code is the parser's set code |
| Database.SplitOn | database/db_manager.py:169 | `split('/')` always gives at least one piece |
| Database.SplitSeparated | database/db_manager.py:169 | no piece of `split('/')` holds a slash |
| Database.JoinSplit | database/db_manager.py:169 | joining the pieces of `split('/')` with slashes gives the text back |
| Database.SplitJoin | database/db_manager.py:169 | splitting slash-joined, slash-free pieces gives the pieces back |
| Database.TagsOf | database/db_manager.py:169-175 | every character type taken from a text is non-empty and has no whitespace at its ends |
| Database.TagsOfJoin | database/db_manager.py:169-175 | the character types of slash-joined pieces are the stripped non-blank pieces |
| Database.TagsOfPair | database/db_manager.py:169-175 | two non-blank pieces joined by a slash give their two stripped texts |
| Database.TagsOfSlashed | database/db_manager.py:169-175 | `a / b` gives the character types `a` and `b` |
| Database.TagsExample | database/db_manager.py:166-175 | `"Straw Hat Crew / Navy"` gives `{"Straw Hat Crew", "Navy"}` |
| Database.CardTags | database/db_manager.py:166-175 | a card without a non-empty character type adds no types, and every type it adds is non-empty with no whitespace at its ends |
| Database.AddSet | database/db_manager.py:155-163 | the set insertion adds exactly the card's derived code when the card names a set under a non-empty code, and never renames a code already present |
| Database.InsertCard | database/db_manager.py:90-175 | one card upserts its row and counts only when new; sets and character types only grow |
| Database.InsertCardTwice | database/db_manager.py:93-152 | storing the same card again changes nothing and counts nothing |
| Database.InsertCardSwap | database/db_manager.py:90-175 | two cards with different identifiers commute, unless both name a set under the same code with different names |
| Database.AddSetSwap | database/db_manager.py:160-163 | two set insertions commute unless they give one code different names |
| Database.InsertCards | database/db_manager.py:85-183 | the returned count is at most the batch size |
| Database.InsertCardsTables | database/db_manager.py:88-175 | each of the three tables evolves independently over the batch |
| Database.UpsertAllRow | database/db_manager.py:93-151 | after the row updates of a batch, the row of an identifier is the batch's last card with it, or the old row |
| Database.InsertCardsRows | database/db_manager.py:90-151 | the row of an identifier in the batch is the last card with it, other rows are unchanged, and no row disappears |
| Database.InsertCardsLastWins | database/db_manager.py:96-128 | a card that no later card of the batch shares an identifier with is the final row for that identifier |
| Database.InsertCardsOthersUnchanged | database/db_manager.py:93-151 | a row whose identifier the batch does not mention is unchanged |
| Database.InsertedCount | database/db_manager.py:85-152 | the count of inserts is the number of distinct batch identifiers with no row beforehand |
| Database.InsertCardsCount | database/db_manager.py:85-183 | `insert_cards` returns the number of distinct batch identifiers that had no row, so duplicates count once |
| Database.IdsBound | database/db_manager.py:85-152 | a batch has no more distinct identifiers than cards |
| Database.AddSetsCode | database/db_manager.py:155-163 | after the set insertions of a batch, an existing code keeps its name and a new code gets the first name the batch gives it |
| Database.InsertCardsSets | database/db_manager.py:155-163 | `card_sets` after a batch: an existing code keeps its name, and a new code gets the name from the batch's first card naming it |
| Database.AddTagsAll | database/db_manager.py:166-175 | the character-type insertions of a batch add exactly the types of its cards |
| Database.InsertCardsTags | database/db_manager.py:166-175 | `character_types` after a batch is the old set plus the types of every card of the batch |
| Database.InsertCardsGrows | database/db_manager.py:155-175 | no row, set or character type disappears, and no set is renamed |
| Database.InsertCardsKeyed | database/db_manager.py:93-151 | every row stays stored under its own identifier |
| Database.UpsertAllIdempotent | database/db_manager.py:93-151 | applying a batch's row updates twice is applying them once |
| Database.InsertedAgain | database/db_manager.py:93-152 | a second run of the same batch inserts no row |
| Database.AddSetsIdempotent | database/db_manager.py:155-163 | applying a batch's set insertions twice is applying them once |
| Database.InsertCardsIdempotent | database/db_manager.py:85-183 | storing the same batch twice returns 0 the second time and leaves all three tables as the first run left them |
| Queries.BelowIrreflexive | database/db_manager.py:203 | no identifier sorts before itself |
| Queries.BelowTransitive | database/db_manager.py:203 | the identifier order is transitive |
| Queries.BelowTotal | database/db_manager.py:203 | two different identifiers are ordered exactly one way |
| Queries.InsertByIdSound | database/db_manager.py:203 | inserting a row with a new identifier into rows sorted by identifier keeps them sorted and adds exactly that row |
| Queries.AscendingUnique | database/db_manager.py:203 | two lists sorted by identifier with the same members are equal, so a query's result is fully determined |
| Queries.Select | database/db_manager.py:203-204 | the result holds exactly the stored rows that satisfy the filter, sorted strictly by identifier |
| Queries.GetAllCards | database/db_manager.py:193-213 | every stored row and nothing else, sorted by identifier |
| Queries.GetCardsByColor | database/db_manager.py:215-238 | exactly the rows whose color equals the argument, sorted by identifier; a row without a color never matches |
| Queries.GetCardsByType | database/db_manager.py:240-263 | exactly the rows whose card type equals the argument, sorted by identifier |
| Queries.SetPrefixIff | database/db_manager.py:278 | for a dash-free code, an identifier starts with the code and a dash if and only if it has a dash and its derived set code is that code |
| Queries.GetCardsBySet | database/db_manager.py:265-288 | exactly the rows whose identifier starts with the code and a dash, sorted; for a dash-free code, exactly the rows whose derived set code is that code |

## Left out

- The browser session is not modelled: the WebDriver setup, navigation, clicks and waits. Each visit's card list and button state are inputs. When the Add more button leads on, the next visit shows the cards loaded so far; the model takes whatever list the visit shows. One error path goes with the waits: when the first page shows no `.cardlist-item` within ten seconds, `scrape_all_cards` raises `TimeoutException` and re-raises it after closing the driver (scraper/card_scraper.py:91-93 and 141-145). The model has no such error: a first visit without cards makes `Visited` zero, and `Scraper.ScrapeAllCards` returns the prior cards unchanged.
- HTML parsing is not modelled: BeautifulSoup's `select` and `select_one`. A card item is given as the text of the first element of each class that is read.
- The `try`/`except` around `_parse_card_item` is not modelled. In the model no step of that function can fail, so the handler is never reached.
- `scrape_with_filters` is not modelled: it builds a URL and then defers to `scrape_all_cards`.
- `get_page` and `ensure_directory` are not modelled: they are network and filesystem access.
- The CSV and JSON exports, `main.py`, `config.py` and logging are not modelled: they are file I/O and command-line handling.
- SQLite mechanics are not modelled: connect and close, `initialize_database`, and commit and rollback. `schema.sql` is not part of this model. The set code is taken to be the key of `card_sets`, and the card identifier the key of `cards`.
- The per-card `sqlite3.Error` handler in `insert_cards` is not modelled, because its partial effects depend on the engine.
- The `id`, `created_at` and `updated_at` columns and `CURRENT_TIMESTAMP` are not modelled. The queries therefore return `Card` records, not `dict(row)` with those extra columns.
- Queries.GetCardsBySet: `LIKE` is modelled as a plain prefix test on the code and a dash. SQLite's `LIKE` ignores ASCII letter case and treats `_` and `%` in the code as wildcards.
- Queries.Select: assumes every row is stored under its own identifier (`Database.Keyed`). This is the key constraint of the `cards` table, and `Database.InsertCardsKeyed` shows that `insert_cards` keeps it.
- CardIds.ExtractCardIdParts: `\d` is taken to be the ASCII digits. Python's `\d` also matches other Unicode decimal digits.
- Costs.ParseInt: only ASCII digits are accepted. Python's `int()` also accepts other Unicode decimal digits.
- Costs.ParseInt: there is no limit on the number of digits. Since Python 3.11, `int()` raises `ValueError` for a text of more than 4300 digits, a limit that can be reconfigured, so `parse_cost` then gives `None` where the model gives the value. For the same reason `Costs.ParseShowInt` holds in Python only for integers of at most 4300 digits.
- Models.FromDict: requires each value to have its field's declared kind (`Models.WellTyped`). Python does not check this, and a card with wrongly typed fields cannot be written down in the model.
- Models.Key: dictionary keys are limited to the keys the two records use. `from_dict` ignores every other key, and so does the model.
