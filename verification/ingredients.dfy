/** The state held by the ingredients panel
    (src/app/ingredients/ingredients.component.ts) and the operations that
    change it. Each operation takes the panel and returns the next panel;
    the events the component emits through its outputs are appended to
    `events`, in emission order. */
module Ingredients {
  import opened Wrappers
  import opened Seqs
  import opened Sorting
  import NumberText

  /** A JavaScript number as this code sees it: NaN, or some other value.
      Floating-point arithmetic is not modelled; `real` stands for the
      non-NaN doubles and `==` for `===` on them. */
  datatype Double = NaN | Num(value: real)

  /** A craftable resource. `price` is `undefined` until one is set;
      `filter` is an optional CSS filter. Sprite coordinates are taken to
      be integers. */
  datatype Item = Item(
    nameID: string,
    name: string,
    price: Option<real>,
    imageFile: string,
    xPos: int,
    yPos: int,
    filter: Option<string>)

  /** The active locale: `code` selects number formatting and collation,
      `langCode` (the value of `langCode()`) selects translations. */
  datatype Locale = Locale(code: string, langCode: string)

  /** What the three `@Output` emitters carry. */
  datatype Event =
    | IngredientPriceChanged(item: Item)
    | LaborCostChanged(value: real)
    | ProfitPercentChanged(value: real)

  datatype Panel = Panel(
    items: seq<Item>,
    laborCost: Double,
    profitPercent: Double,
    locale: Locale,
    events: seq<Event>)

  function NameOf(item: Item): string { item.name }

  function NameIdOf(item: Item): string { item.nameID }

  /** Every field but the display name. */
  function Unnamed(item: Item): Item { item.(name := "") }

  /** The constructor: no ingredients, both scalars 0, the selected locale. */
  function Fresh(locale: Locale): (p: Panel)
    ensures p.items == [] && p.events == []
    ensures p.laborCost == Num(0.0) && p.profitPercent == Num(0.0)
    ensures p.locale == locale
  {
    Panel([], Num(0.0), Num(0.0), locale, [])
  }

  /** `toFloat(input)`: normalise the separators, then `parseFloat`, which
      is not modelled and is supplied as `parse`. */
  function ToFloat(parse: string -> Double, input: string): Double {
    parse(NumberText.Normalise(input))
  }

  ghost predicate UniqueIds(items: seq<Item>) {
    forall i, j | 0 <= i < j < |items| :: items[i].nameID != items[j].nameID
  }

  /** `i` is the index `findIndex(i => i.nameID === id)` reports. */
  predicate IsFirstWithId(items: seq<Item>, i: int, id: string) {
    && 0 <= i < |items|
    && items[i].nameID == id
    && forall j | 0 <= j < i :: items[j].nameID != id
  }

  /** `findIndex` by `nameID`; None stands for -1. */
  function FindIndex(items: seq<Item>, id: string): (r: Option<nat>)
    ensures r.Some? ==> IsFirstWithId(items, r.value, id)
    ensures r.None? <==> forall i | 0 <= i < |items| :: items[i].nameID != id
  {
    if |items| == 0 then None
    else if items[0].nameID == id then Some(0)
    else
      match FindIndex(items[1..], id)
      case None => None
      case Some(k) => Some(k + 1)
  }

  /** `ingredientExists(nameID)`: `some` over the held items. */
  function IngredientExists(items: seq<Item>, id: string): (b: bool)
    ensures b <==> exists i | 0 <= i < |items| :: items[i].nameID == id
  {
    if |items| == 0 then false
    else items[0].nameID == id || IngredientExists(items[1..], id)
  }

  /** `onPriceChange(item, value)`. The item passed in need not be the held
      one: its price is the one compared, and when no held item has its
      `nameID`, `itemIngredients[-1] = item` changes no element, yet the
      event is still emitted. */
  function OnPriceChange(p: Panel, item: Item, value: string, parse: string -> Double): (r: Panel)
    ensures var x := ToFloat(parse, value);
      if x.NaN? || item.price == Some(x.value) then r == p
      else
        && r.events == p.events + [IngredientPriceChanged(item.(price := Some(x.value)))]
        && |r.items| == |p.items|
        && (forall i | 0 <= i < |p.items| ::
              r.items[i] == if IsFirstWithId(p.items, i, item.nameID) then item.(price := Some(x.value)) else p.items[i])
        && r.laborCost == p.laborCost && r.profitPercent == p.profitPercent && r.locale == p.locale
  {
    match ToFloat(parse, value)
    case NaN => p
    case Num(v) =>
      if item.price == Some(v) then p
      else
        var updated := item.(price := Some(v));
        var items := match FindIndex(p.items, item.nameID)
          case None => p.items
          case Some(k) => p.items[k := updated];
        p.(items := items, events := p.events + [IngredientPriceChanged(updated)])
  }

  /** `onLaborCostChange(value)`. */
  function OnLaborCostChange(p: Panel, value: string, parse: string -> Double): (r: Panel)
    ensures ToFloat(parse, value).NaN? ==> r == p
    ensures ToFloat(parse, value).Num? ==>
      && r.laborCost == ToFloat(parse, value)
      && r.events == p.events + [LaborCostChanged(ToFloat(parse, value).value)]
      && r.items == p.items && r.profitPercent == p.profitPercent && r.locale == p.locale
  {
    match ToFloat(parse, value)
    case NaN => p
    case Num(v) => p.(laborCost := Num(v), events := p.events + [LaborCostChanged(v)])
  }

  /** `onProfitPercentChange(value)`. */
  function OnProfitPercentChange(p: Panel, value: string, parse: string -> Double): (r: Panel)
    ensures ToFloat(parse, value).NaN? ==> r == p
    ensures ToFloat(parse, value).Num? ==>
      && r.profitPercent == ToFloat(parse, value)
      && r.events == p.events + [ProfitPercentChanged(ToFloat(parse, value).value)]
      && r.items == p.items && r.laborCost == p.laborCost && r.locale == p.locale
  {
    match ToFloat(parse, value)
    case NaN => p
    case Num(v) => p.(profitPercent := Num(v), events := p.events + [ProfitPercentChanged(v)])
  }

  /** `sortIngredients()`: reorder by display name with the collation of
      the panel's locale. `collate(code)(a, b)` stands for
      `a.localeCompare(b, code) <= 0`. */
  function SortIngredients(p: Panel, collate: string -> ((string, string) -> bool)): (r: Panel)
    requires TotalPreorder(collate(p.locale.code))
    ensures multiset(r.items) == multiset(p.items)
    ensures SortedByKey(r.items, NameOf, collate(p.locale.code))
    ensures r.(items := p.items) == p
  {
    p.(items := SortByKey(p.items, NameOf, collate(p.locale.code)))
  }

  /** Every held item renamed for `langCode`. */
  function Relabel(items: seq<Item>, langCode: string, localizeName: (string, string) -> string): (r: seq<Item>)
    ensures |r| == |items|
    ensures forall i | 0 <= i < |items| :: r[i] == items[i].(name := localizeName(items[i].nameID, langCode))
  {
    Map((item: Item) => item.(name := localizeName(item.nameID, langCode)), items)
  }

  /** `localize(locale)`: adopt the locale, rename every held item through
      `localizeItemName(nameID, langCode)` (supplied as `localizeName`),
      then sort. */
  function Localize(p: Panel, locale: Locale, localizeName: (string, string) -> string,
                    collate: string -> ((string, string) -> bool)): (r: Panel)
    requires TotalPreorder(collate(locale.code))
    ensures r.locale == locale
    ensures r.events == p.events && r.laborCost == p.laborCost && r.profitPercent == p.profitPercent
    ensures |r.items| == |p.items|
    ensures forall i | 0 <= i < |r.items| :: r.items[i].name == localizeName(r.items[i].nameID, locale.langCode)
    ensures multiset(Map(Unnamed, r.items)) == multiset(Map(Unnamed, p.items))
    ensures multiset(Map(NameIdOf, r.items)) == multiset(Map(NameIdOf, p.items))
    ensures SortedByKey(r.items, NameOf, collate(locale.code))
  {
    var renamed := Relabel(p.items, locale.langCode, localizeName);
    var r := SortIngredients(p.(locale := locale, items := renamed), collate);
    RelabelKeepsFields(p.items, locale.langCode, localizeName);
    SortPreservesMapped(Unnamed, renamed, NameOf, collate(locale.code));
    SortPreservesMapped(NameIdOf, renamed, NameOf, collate(locale.code));
    PermutationKeepsNames(renamed, r.items, locale.langCode, localizeName);
    r
  }

  lemma RelabelKeepsFields(items: seq<Item>, langCode: string, localizeName: (string, string) -> string)
    ensures Map(Unnamed, Relabel(items, langCode, localizeName)) == Map(Unnamed, items)
    ensures Map(NameIdOf, Relabel(items, langCode, localizeName)) == Map(NameIdOf, items)
  {
  }

  lemma PermutationKeepsNames(xs: seq<Item>, ys: seq<Item>, langCode: string, localizeName: (string, string) -> string)
    requires multiset(ys) == multiset(xs)
    requires forall i | 0 <= i < |xs| :: xs[i].name == localizeName(xs[i].nameID, langCode)
    ensures forall i | 0 <= i < |ys| :: ys[i].name == localizeName(ys[i].nameID, langCode)
  {
    forall i | 0 <= i < |ys| ensures ys[i].name == localizeName(ys[i].nameID, langCode) {
      assert ys[i] in multiset(xs);
      var k :| 0 <= k < |xs| && xs[k] == ys[i];
    }
  }

  // ---------------------------------------------------------------------
  // Properties relating several calls.
  // ---------------------------------------------------------------------

  /** Repeating a price edit with the item as it was just updated (the
      component mutates the item it was given) emits nothing new. */
  lemma PriceChangeSettles(p: Panel, item: Item, value: string, parse: string -> Double)
    requires ToFloat(parse, value).Num?
    ensures var once := OnPriceChange(p, item, value, parse);
      OnPriceChange(once, item.(price := Some(ToFloat(parse, value).value)), value, parse) == once
  {
  }

  /** With unique `nameID`s, a price edit touches only the entry carrying
      the edited item's `nameID`, keeps every `nameID` at its position, and
      so keeps the ids unique and the answers of `ingredientExists`. */
  lemma PriceChangeTouchesOnlyItsEntry(p: Panel, item: Item, value: string, parse: string -> Double)
    requires UniqueIds(p.items)
    ensures var r := OnPriceChange(p, item, value, parse);
      && |r.items| == |p.items|
      && (forall i | 0 <= i < |p.items| :: r.items[i].nameID == p.items[i].nameID)
      && (forall i | 0 <= i < |p.items| && p.items[i].nameID != item.nameID :: r.items[i] == p.items[i])
      && UniqueIds(r.items)
      && (forall id :: IngredientExists(r.items, id) == IngredientExists(p.items, id))
  {
    var r := OnPriceChange(p, item, value, parse);
    forall id ensures IngredientExists(r.items, id) == IngredientExists(p.items, id) {
      if IngredientExists(p.items, id) {
        var i :| 0 <= i < |p.items| && p.items[i].nameID == id;
        assert r.items[i].nameID == id;
      }
      if IngredientExists(r.items, id) {
        var i :| 0 <= i < |r.items| && r.items[i].nameID == id;
        assert p.items[i].nameID == id;
      }
    }
  }

  /** Unlike a price edit, a repeated labor-cost edit emits again. */
  lemma LaborCostChangeRepeats(p: Panel, value: string, parse: string -> Double)
    requires ToFloat(parse, value).Num?
    ensures var once := OnLaborCostChange(p, value, parse);
      var twice := OnLaborCostChange(once, value, parse);
      && twice.laborCost == once.laborCost
      && twice.events == once.events + [LaborCostChanged(ToFloat(parse, value).value)]
  {
  }

  /** Relocalizing keeps `nameID`s unique. */
  lemma LocalizeKeepsUniqueIds(p: Panel, locale: Locale, localizeName: (string, string) -> string,
                               collate: string -> ((string, string) -> bool))
    requires TotalPreorder(collate(locale.code))
    requires UniqueIds(p.items)
    ensures UniqueIds(Localize(p, locale, localizeName, collate).items)
  {
    var r := Localize(p, locale, localizeName, collate);
    assert Distinct(Map(NameIdOf, p.items));
    DistinctPermutation(Map(NameIdOf, p.items), Map(NameIdOf, r.items));
    assert Distinct(Map(NameIdOf, r.items));
  }
}
