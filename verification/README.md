# EcoCraftingTool ingredients panel and message lookup, in Dafny

This project models two parts of the EcoCraftingTool Angular app in Dafny and proves properties of the model.

**The ingredients panel** (`IngredientsComponent`) holds:
- the selected ingredients, with their prices;
- the labor cost and the profit percentage;
- the active locale.

The panel is modelled as an immutable `Panel` record. Every component method becomes a function from one panel to the next. The values the component emits through its three `@Output` emitters are appended to an event log in the panel.

The model covers:
- **Number input** (`toFloat`). It searches the text with `[0-9,.]*([,.])[0-9]*` and picks the decimal separator. It then rewrites the text before `parseFloat` reads it:
  - a `,` separator deletes the first `.`, then turns the first `,` into `.`;
  - a `.` separator deletes the first `,`.

  The search is stated as a regular-expression predicate (leftmost match, greedy star) and implemented by a one-pass scanner proved equal to it (`NumberText`).
- **Start-up migration** (`ngOnInit`). It handles three slots: `ingredients`, `laborCost` and `profitPercent`. Each slot is:
  - loaded from local storage if it is there;
  - otherwise moved there from a legacy cookie;
  - otherwise left at the constructor's default.

  The catalog lookups and the decoding can throw. The model records such a throw as a `Fault` and keeps the state reached before it (`Migration`).
- **Edits and queries**: the guarded price, labor-cost and profit edits, `ingredientExists`, sorting by display name, and relocalization (`Ingredients`).
- **Display helpers**: the `getItem*` helpers that compute image URLs and sprite-sheet geometry (`Display`). They use `Decimal` to turn integers into text.

**The message service** (`MessageService.getMessage`) looks a text up in a static table. It takes the first message with the id, then the first translation with the language. The table's ids and language lists are modelled exactly. The texts are stand-ins (`Messages`).

`Seqs` and `Sorting` are generic support:
- element-wise mapping;
- insertion sort by a key under an abstract collation, proved to be a sorted permutation of its input.

### Where the code and its description differ

A natural reading of the regular expression in `toFloat` is "take the last separator and strip all grouping marks". The code does something else, and the model follows the code:
- `match` without the global flag takes the first match. Its group is the last `,`/`.` of the first run of `[0-9,.]` that holds one.
- `replace` with a string pattern replaces only the first occurrence.

So `"1.234.567,89"` becomes `"1234.567.89"`, not `"1234567.89"` (`NumberText.ExampleTwoGroups`).

## Model

| member | source | states |
|---|---|---|
| NumberText.Search | src/app/ingredients/ingredients.component.ts:159-160 | The one-pass scan finds the leftmost start where the pattern matches, with the group on the largest index that start allows; it reports no match only when the pattern matches nowhere. |
| NumberText.Delimiter | src/app/ingredients/ingredients.component.ts:159-161 | `input.match(...)` fails exactly when the pattern matches at no position; otherwise the separator returned is the one the leftmost greedy match captures. |
| NumberText.DelimiterOfSingleRun | src/app/ingredients/ingredients.component.ts:159-161 | If the input is a single run of digits, `,` and `.`, the captured separator is the last separator in it. |
| NumberText.DelimiterOfLast | src/app/ingredients/ingredients.component.ts:159-161 | In `pre d c`, where `pre` is a run of number characters, `d` a separator and `c` digits, the separator found is `d`. |
| NumberText.IndexOf | src/app/ingredients/ingredients.component.ts:163-165 | The position `replace` acts on is the first occurrence of the character, and there is none exactly when the character is absent. |
| NumberText.ReplaceFirst | src/app/ingredients/ingredients.component.ts:163-165 | A missing character leaves the text unchanged. Otherwise the first occurrence, and only it, is replaced by `rep`: the text before it and everything after it are kept. |
| NumberText.ReplaceFirstAt | src/app/ingredients/ingredients.component.ts:163-165 | Replacing in `a c b` with `c` not in `a` gives `a rep b`: text before the first occurrence is kept, and so is everything after it, later occurrences included. |
| NumberText.NoSeparatorUnchanged | src/app/ingredients/ingredients.component.ts:159-167 | Input with no `,` and no `.` reaches `parseFloat` unchanged. |
| NumberText.CommaDecimal | src/app/ingredients/ingredients.component.ts:162-163 | `a.b,c` (digits `a` and `c`, no `,` in `b`) becomes `ab.c`: the first `.` is deleted and the `,` becomes the decimal point; further dots in `b` stay. |
| NumberText.DotDecimal | src/app/ingredients/ingredients.component.ts:164-165 | `a,b.c` (digits `a` and `c`, no `.` in `b`) becomes `ab.c`: only the first `,` is deleted. |
| NumberText.CommaOnly | src/app/ingredients/ingredients.component.ts:162-163 | A lone `,` between digits becomes the decimal point. |
| NumberText.Normalise | src/app/ingredients/ingredients.component.ts:159-167 | Input the pattern does not match is handed on unchanged. For every input, the rewrite keeps every non-separator character in order and removes at most two characters. |
| NumberText.ExampleCommaDecimal | src/app/ingredients/ingredients.component.ts:162-163 | `"1.234,56"` becomes `"1234.56"`. |
| NumberText.ExampleDotDecimal | src/app/ingredients/ingredients.component.ts:164-165 | `"1,234.56"` becomes `"1234.56"`. |
| NumberText.ExampleCommaOnly | src/app/ingredients/ingredients.component.ts:162-163 | `"12,5"` becomes `"12.5"`. |
| NumberText.ExampleTwoGroups | src/app/ingredients/ingredients.component.ts:163 | `"1.234.567,89"` becomes `"1234.567.89"`: only the first grouping dot is removed. |
| Ingredients.Fresh | src/app/ingredients/ingredients.component.ts:34-37 | A new panel holds no ingredients, labor cost 0, profit 0, the selected locale, and has emitted nothing. |
| Ingredients.FindIndex | src/app/ingredients/ingredients.component.ts:88 | `findIndex` returns the first position with the `nameID`; -1 (None) exactly when no held item has it. |
| Ingredients.IngredientExists | src/app/ingredients/ingredients.component.ts:113-115 | True exactly when some held item has the `nameID`. |
| Ingredients.OnPriceChange | src/app/ingredients/ingredients.component.ts:85-93 | A NaN parse, or a value equal to the item's price, changes nothing and emits nothing. Otherwise exactly one event carrying the repriced item is appended, the first entry with that `nameID` (if any) becomes the repriced item, every other entry and field stays, and the length is kept. |
| Ingredients.PriceChangeSettles | src/app/ingredients/ingredients.component.ts:85-93 | Repeating an edit with the item as it was updated is a no-op: no second event. |
| Ingredients.PriceChangeTouchesOnlyItsEntry | src/app/ingredients/ingredients.component.ts:85-93 | With unique `nameID`s, an edit keeps every `nameID` in its place and every entry with another id, so ids stay unique and `ingredientExists` answers as before. |
| Ingredients.OnLaborCostChange | src/app/ingredients/ingredients.component.ts:95-102 | A NaN parse changes nothing. Otherwise the labor cost becomes the parsed value, exactly one event with it is appended, and nothing else changes. |
| Ingredients.OnProfitPercentChange | src/app/ingredients/ingredients.component.ts:104-111 | A NaN parse changes nothing. Otherwise the profit becomes the parsed value, exactly one event with it is appended, and nothing else changes. |
| Ingredients.LaborCostChangeRepeats | src/app/ingredients/ingredients.component.ts:95-102 | Unlike a price edit, repeating a labor-cost edit emits a second event and keeps the value. |
| Ingredients.SortIngredients | src/app/ingredients/ingredients.component.ts:117-119 | The held items are rearranged (same multiset) into an order that is sorted by display name under the locale's collation; nothing else changes. |
| Ingredients.Relabel | src/app/ingredients/ingredients.component.ts:154 | Each item is renamed to `localizeItemName(nameID, langCode)`, and its other fields and its position stay. |
| Ingredients.Localize | src/app/ingredients/ingredients.component.ts:152-156 | The locale is adopted and every held item is named for its `nameID` in the new language. Every other field of every item is preserved (as a multiset), and so is the multiset of `nameID`s. The list is sorted by the new names, and scalars and events are unchanged. |
| Ingredients.LocalizeKeepsUniqueIds | src/app/ingredients/ingredients.component.ts:152-156 | Relocalizing keeps unique `nameID`s unique. |
| Sorting.SortByKey | src/app/ingredients/ingredients.component.ts:118 | The sort result is a permutation of its input, ordered by the comparator, for any total preorder. |
| Sorting.InsertSorted | src/app/ingredients/ingredients.component.ts:118 | Inserting into a sorted sequence keeps it sorted. |
| Sorting.SortPreservesMapped | src/app/ingredients/ingredients.component.ts:118 | Sorting moves whole items: any projection of the items is preserved as a multiset. |
| Display.ItemImageUrl | src/app/ingredients/ingredients.component.ts:121-127 | The URL is `imageBaseUrl` followed by `lightbulb.png` for `LightBulbItem`, and by the item's image file otherwise. |
| Display.ItemSpritePosition | src/app/ingredients/ingredients.component.ts:129-134 | `LightBulbItem` sits at `0px 0px`. Any other item's offset reads `-X px -Y px`, where `X` and `Y` are the canonical decimal texts of `xPos*32` and `yPos*32`, with no stray sign and no leading zero. |
| Display.ItemBackgroundSize | src/app/ingredients/ingredients.component.ts:136-143 | The size is one of 32px, 2048px and 512px. It is `32px` exactly for `LightBulbItem`, and `2048px` exactly for other items on `UI_Icons_Baked_0.png`. |
| Display.ItemFilter | src/app/ingredients/ingredients.component.ts:145-150 | The item's filter when it has one, the empty string otherwise. |
| Display.LightBulbIgnoresSprite | src/app/ingredients/ingredients.component.ts:121-143 | Two `LightBulbItem` entries get the same URL, offset and size whatever their sprite fields. |
| Display.SpritePositionIdentifiesCell | src/app/ingredients/ingredients.component.ts:133 | Two sprite items with the same offset text are in the same cell. |
| Decimal.NatToString | src/app/ingredients/ingredients.component.ts:133 | A natural number is written as non-empty decimal digits, without a leading zero. |
| Decimal.IntToString | src/app/ingredients/ingredients.component.ts:133 | An integer is written in canonical form: `-` exactly for negative values, then digits with no leading zero. |
| Decimal.CanonicalRoundTrip | src/app/ingredients/ingredients.component.ts:133 | Every canonical text is exactly what `IntToString` writes for the value it denotes, so the canonical form has one text per integer. |
| Decimal.IntRoundTrip | src/app/ingredients/ingredients.component.ts:133 | Reading back the decimal text of an integer yields that integer. |
| Decimal.IntToStringInjective | src/app/ingredients/ingredients.component.ts:133 | Different integers are written differently. |
| Migration.Resolve | src/app/ingredients/ingredients.component.ts:44-48 | Records resolve in order, each to the first catalog item with its id carrying the stored price. The walk stops at the first unknown id, and fails exactly when some id is unknown. |
| Migration.LoadIngredients | src/app/ingredients/ingredients.component.ts:42-58 | Storage present: both stores are untouched and the list gets the catalog items for the stored ids in order, failing on a non-list or an unknown id. Only the cookie present: on success the cookie is deleted and storage holds the decoded records. Neither present: nothing changes. |
| Migration.LoadScalar | src/app/ingredients/ingredients.component.ts:60-78 | Storage present: its value is parsed and the stores are untouched. Only the cookie present: it is parsed, deleted and written to storage in the locale's format. Neither: the current value stays. |
| Migration.NgOnInit | src/app/ingredients/ingredients.component.ts:40-79 | The start-up keeps the locale and the event log, and leaves every key other than the three slots present or absent as before. |
| Migration.NothingStoredKeepsDefaults | src/app/ingredients/ingredients.component.ts:34-36 | With nothing stored for any slot, a new panel keeps its empty list and zero scalars, and the stores are unchanged. |
| Migration.IngredientSlotMoves | src/app/ingredients/ingredients.component.ts:42-58 | A successful ingredients slot moves the cookie into storage (if storage did not already hold the slot) and touches no other key. |
| Migration.ScalarSlotMoves | src/app/ingredients/ingredients.component.ts:60-68 | A scalar slot moves its cookie into storage (if storage did not already hold it) and touches no other key. |
| Migration.MigrationMovesCookies | src/app/ingredients/ingredients.component.ts:42-78 | After a start-up that did not throw, each slot is in storage exactly when it was in either store, its cookie is left only where storage already held the slot, and all other keys are untouched. |
| Migration.UnknownStoredIdThrows | src/app/ingredients/ingredients.component.ts:45-46 | A stored id missing from the catalog makes the start-up throw with an unknown id instead of skipping it; no scalar is loaded and neither store changes. |
| Migration.UnknownCookieIdThrows | src/app/ingredients/ingredients.component.ts:52-53 | A cookie id missing from the catalog makes the start-up throw with an unknown id; the cookie is kept and nothing is written to storage. |
| Migration.StoredIngredientsAfterStartUp | src/app/ingredients/ingredients.component.ts:42-57 | After a start-up that did not throw, storage holds under `ingredients` the value it already held, or else the records decoded from the cookie. |
| Migration.FaultKeepsStores | src/app/ingredients/ingredients.component.ts:42-58 | A start-up that throws has changed neither store. |
| Migration.MigrationIdempotent | src/app/ingredients/ingredients.component.ts:42-78 | For all stores, a second start-up on the stores the first left throws exactly as the first did (not at all after a clean first run). It changes neither store and loads the same ingredients. |
| Messages.FindMessage | src/app/service/message.service.ts:13 | The first message with the id, or none exactly when no message has it. |
| Messages.FindLocalized | src/app/service/message.service.ts:14 | The first translation with the language, or none exactly when no translation has it. |
| Messages.GetMessage | src/app/service/message.service.ts:12-15 | An unknown id fails. For a known id, the lookup fails exactly when the first message with it lacks the language, and otherwise returns the text of that message's first translation with the language. |
| Messages.UniqueIdLookup | src/app/service/message.service.ts:12-14 | With distinct ids, looking up a message's own id succeeds exactly when that message has the language. |
| Messages.DependsOnlyOnLangCode | src/app/service/message.service.ts:9-15 | Two locales with the same language code get the same answer. |
| Messages.TableIdsDistinct | src/app/service/message.service.ts:28-849 | The table's nineteen ids are pairwise distinct, so the first match is the only match. |
| Messages.TranslatedMessagesTotal | src/app/service/message.service.ts:28-849 | Every message except `navTitleVisualizer` has exactly en, fr, es, de, pl, ru, uk, ko, zh and ja, in that order, so the lookup succeeds for its id and any of those codes. |
| Messages.VisualizerEnglishOnly | src/app/service/message.service.ts:76-82 | `navTitleVisualizer` succeeds exactly for `en`. |

## Left out

- `src/app/app.module.ts`: Angular module wiring, with no logic.
- Angular dependency injection, decorators, `@Input`/`@Output` and `EventEmitter`: emitted values are an appended event log instead.
- `CookieService` and local storage are two finite maps. Storage values are already JSON-decoded. A stored JSON `null` counts as absent in the code; it has no counterpart in the model.
- `atob` and `JSON.parse` of the ingredients cookie: an uninterpreted `decode` function, where `None` means it throws or yields no array.
- `parseFloat`, `Number.parseFloat` and `toLocaleString`: floating-point parsing and formatting are uninterpreted functions. A JavaScript number is `NaN` or a `real`.
- Ingredients.ToFloat: composes the modelled rewrite with the uninterpreted `parseFloat`, so it has no contract of its own. Its properties are those of `NumberText.Normalise`.
- Migration.LoadScalar: does not claim that the value survives the formatted write to storage and the read back. The stored text is `toLocaleString` output, which the next start-up reads with `Number.parseFloat`.
- Migration.MigrationIdempotent: does not claim the second start-up reloads equal labor and profit values, for the same reason.
- `localeCompare` collation: an abstract total preorder chosen by the locale code. Id comparisons (`localeCompare(...) === 0`) are modelled as plain string equality.
- Sort stability: `Array.prototype.sort` is only promised to return a sorted permutation, and that is all the model claims.
- `CraftingDataService`: the catalog is passed in as a sequence.
- `LocaleService.localizeItemName`: an uninterpreted function of `nameID` and language code.
- Mutation in place and aliasing are not modelled: items are values. The code writes prices into the shared catalog objects and mutates the item handed to `onPriceChange`.
- Migration.Resolve: gives each entry the price of its own record. When the stored list names one id twice, the code pushes the same catalog object twice, so both entries end up with the last record's price.
- Migration.NgOnInit: formats the migrated scalars with the panel's locale code. The code reads `localeService.selectedLocale.code` at that point; the two agree unless the service's selection changed after construction.
- Display.ItemSpritePosition: sprite coordinates are integers, and the decimal text is exact only below 10^21, where JavaScript switches to exponent notation.
- Characters are Dafny `char`s, not UTF-16 code units.
- The message texts are stand-ins: only the ids and the language lists of the table are modelled.
- The component's `message(id)` only forwards to `getMessage` with the panel's locale, so it is covered by `Messages.GetMessage`.
- Templates, CSS and the routing module.
