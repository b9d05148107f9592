/** The one-shot migration `ngOnInit` performs when the ingredients panel
    starts (src/app/ingredients/ingredients.component.ts, lines 40-79).

    Three slots, `ingredients`, `laborCost` and `profitPercent`, each go
    through the same decision: a value in local storage is loaded as it is;
    otherwise a legacy cookie is decoded, loaded, deleted, and written to
    storage; otherwise the constructor's default stays. Cookies and local
    storage are two key/value stores. Where the code throws, the model
    stops with a `Fault` and keeps the state reached so far. */
module Migration {
  import opened Wrappers
  import opened Ingredients

  /** `{id, pr}`: one persisted ingredient selection. */
  datatype Record = Record(id: string, pr: real)

  /** What local storage hands back after its JSON decoding. */
  datatype Value = Records(records: seq<Record>) | Text(text: string)

  type Storage = map<string, Value>

  type Cookies = map<string, string>

  const IngredientsKey: string := "ingredients"
  const LaborCostKey: string := "laborCost"
  const ProfitPercentKey: string := "profitPercent"

  /** Why `ngOnInit` throws:
      - `UnknownItem(id)`: `find` misses, and `item.price = …` dereferences
        `undefined`;
      - `UndecodableCookie`: `atob` or `JSON.parse` rejects the cookie, or
        it does not decode to an array;
      - `NotAList`: the stored `ingredients` value has no `forEach`. */
  datatype Fault = UnknownItem(id: string) | UndecodableCookie | NotAList

  /** The collaborators the migration calls, none of them modelled:
      - `catalog`: `dataService.getItems()`;
      - `decode`: `JSON.parse(atob(…))` on the ingredients cookie;
      - `parse`: `Number.parseFloat`;
      - `format`: `toLocaleString(code, {0..2 fraction digits})`. */
  datatype Env = Env(
    catalog: seq<Item>,
    decode: string -> Option<seq<Record>>,
    parse: string -> Double,
    format: (Double, string) -> string)

  /** The component and both stores once `ngOnInit` has returned or thrown. */
  datatype Boot = Boot(panel: Panel, cookies: Cookies, storage: Storage, fault: Option<Fault>)

  // ---------------------------------------------------------------------
  // Resolving persisted ids against the catalog.
  // ---------------------------------------------------------------------

  /** `item` is the first catalog entry named `rec.id`, carrying `rec.pr`. */
  ghost predicate ResolvesTo(catalog: seq<Item>, rec: Record, item: Item) {
    exists k | IsFirstWithId(catalog, k, rec.id) :: item == catalog[k].(price := Some(rec.pr))
  }

  ghost predicate AllKnown(catalog: seq<Item>, records: seq<Record>) {
    forall i | 0 <= i < |records| :: IngredientExists(catalog, records[i].id)
  }

  /** The items pushed for `records`, in order, and the id whose lookup
      threw, if one did. */
  datatype Resolution = Resolution(items: seq<Item>, missing: Option<string>)

  /** The `forEach` of lines 44-48 (and 51-55) over `records`. */
  function Resolve(catalog: seq<Item>, records: seq<Record>): (r: Resolution)
    ensures |r.items| <= |records|
    ensures forall i | 0 <= i < |r.items| :: ResolvesTo(catalog, records[i], r.items[i])
    ensures r.missing.None? <==> AllKnown(catalog, records)
    ensures r.missing.None? ==> |r.items| == |records|
    ensures r.missing.Some? ==>
      && |r.items| < |records|
      && r.missing.value == records[|r.items|].id
      && !IngredientExists(catalog, r.missing.value)
  {
    if |records| == 0 then Resolution([], None)
    else
      match FindIndex(catalog, records[0].id)
      case None => Resolution([], Some(records[0].id))
      case Some(k) =>
        var rest := Resolve(catalog, records[1..]);
        var item := catalog[k].(price := Some(records[0].pr));
        assert ResolvesTo(catalog, records[0], item);
        assert AllKnown(catalog, records) <==> AllKnown(catalog, records[1..]) by {
          assert forall i | 1 <= i < |records| :: records[i] == records[1..][i - 1];
        }
        Resolution([item] + rest.items, rest.missing)
  }

  // ---------------------------------------------------------------------
  // The three slots.
  // ---------------------------------------------------------------------

  /** Pushes what `records` resolve to onto the held items, or stops at
      the first unknown id. */
  function PushResolved(p: Panel, cookies: Cookies, storage: Storage, catalog: seq<Item>, records: seq<Record>): Boot {
    var res := Resolve(catalog, records);
    var p' := p.(items := p.items + res.items);
    match res.missing
    case Some(id) => Boot(p', cookies, storage, Some(UnknownItem(id)))
    case None => Boot(p', cookies, storage, None)
  }

  /** Lines 42-58: the `ingredients` slot. */
  function LoadIngredients(p: Panel, cookies: Cookies, storage: Storage, env: Env): (r: Boot)
    ensures r.panel == p.(items := r.panel.items)
    ensures |p.items| <= |r.panel.items| && r.panel.items[..|p.items|] == p.items
    // storage present: both stores untouched
    ensures IngredientsKey in storage ==> r.cookies == cookies && r.storage == storage
    ensures IngredientsKey in storage && storage[IngredientsKey].Text? ==>
      r.fault == Some(NotAList) && r.panel == p
    ensures IngredientsKey in storage && storage[IngredientsKey].Records? ==>
      var recs := storage[IngredientsKey].records;
      && (r.fault.None? <==> AllKnown(env.catalog, recs))
      && (r.fault.None? ==> LoadedFrom(env.catalog, recs, r.panel.items[|p.items|..]))
    // only the cookie present
    ensures IngredientsKey !in storage && IngredientsKey in cookies ==>
      match env.decode(cookies[IngredientsKey])
      case None => r == Boot(p, cookies, storage, Some(UndecodableCookie))
      case Some(recs) =>
        if AllKnown(env.catalog, recs) then
          && r.fault.None?
          && LoadedFrom(env.catalog, recs, r.panel.items[|p.items|..])
          && r.cookies == cookies - {IngredientsKey}
          && r.storage == storage[IngredientsKey := Records(recs)]
        else
          r.fault.Some? && r.cookies == cookies && r.storage == storage
    // neither: nothing happens
    ensures IngredientsKey !in storage && IngredientsKey !in cookies ==> r == Boot(p, cookies, storage, None)
  {
    if IngredientsKey in storage then
      match storage[IngredientsKey]
      case Text(_) => Boot(p, cookies, storage, Some(NotAList))
      case Records(recs) => PushResolved(p, cookies, storage, env.catalog, recs)
    else if IngredientsKey in cookies then
      match env.decode(cookies[IngredientsKey])
      case None => Boot(p, cookies, storage, Some(UndecodableCookie))
      case Some(recs) =>
        var b := PushResolved(p, cookies, storage, env.catalog, recs);
        if b.fault.Some? then b
        else b.(cookies := cookies - {IngredientsKey}, storage := storage[IngredientsKey := Records(recs)])
    else Boot(p, cookies, storage, None)
  }

  /** The items pushed are the catalog entries for `records`, in order,
      with the persisted prices. */
  ghost predicate LoadedFrom(catalog: seq<Item>, records: seq<Record>, items: seq<Item>) {
    |items| == |records| && forall i | 0 <= i < |items| :: ResolvesTo(catalog, records[i], items[i])
  }

  /** A scalar slot once decided, with both stores. */
  datatype Scalar = Scalar(value: Double, cookies: Cookies, storage: Storage)

  /** `Number.parseFloat` of a stored value: a stored list turns into a
      string that does not start with a number. */
  function ParseStored(v: Value, parse: string -> Double): Double {
    match v
    case Text(t) => parse(t)
    case Records(_) => NaN
  }

  /** Lines 60-68 (with `key` = `laborCost`) and 70-78 (`profitPercent`). */
  function LoadScalar(key: string, current: Double, cookies: Cookies, storage: Storage, env: Env, code: string): (r: Scalar)
    // storage present: both stores untouched
    ensures key in storage ==>
      && r.value == ParseStored(storage[key], env.parse)
      && r.cookies == cookies && r.storage == storage
    // only the cookie present: parsed, deleted, written back formatted
    ensures key !in storage && key in cookies ==>
      && r.value == env.parse(cookies[key])
      && r.cookies == cookies - {key}
      && r.storage == storage[key := Text(env.format(r.value, code))]
    // neither: the current value stays
    ensures key !in storage && key !in cookies ==> r == Scalar(current, cookies, storage)
  {
    if key in storage then Scalar(ParseStored(storage[key], env.parse), cookies, storage)
    else if key in cookies then
      var v := env.parse(cookies[key]);
      Scalar(v, cookies - {key}, storage[key := Text(env.format(v, code))])
    else Scalar(current, cookies, storage)
  }

  /** `ngOnInit()` on a panel, with the stores as found. The number format
      uses the panel's locale code, which the constructor took from the
      same locale service. */
  function NgOnInit(p: Panel, cookies: Cookies, storage: Storage, env: Env): (r: Boot)
    ensures r.panel.locale == p.locale && r.panel.events == p.events
    ensures forall k | k !in {IngredientsKey, LaborCostKey, ProfitPercentKey} ::
      (k in r.cookies <==> k in cookies) && (k in r.storage <==> k in storage)
  {
    var b := LoadIngredients(p, cookies, storage, env);
    if b.fault.Some? then b
    else
      var labor := LoadScalar(LaborCostKey, b.panel.laborCost, b.cookies, b.storage, env, p.locale.code);
      var profit := LoadScalar(ProfitPercentKey, b.panel.profitPercent, labor.cookies, labor.storage, env, p.locale.code);
      Boot(b.panel.(laborCost := labor.value, profitPercent := profit.value), profit.cookies, profit.storage, None)
  }

  // ---------------------------------------------------------------------
  // Properties of a whole start-up.
  // ---------------------------------------------------------------------

  /** With nothing stored anywhere, the constructor's defaults stay. */
  lemma NothingStoredKeepsDefaults(locale: Locale, cookies: Cookies, storage: Storage, env: Env)
    requires IngredientsKey !in storage && IngredientsKey !in cookies
    requires LaborCostKey !in storage && LaborCostKey !in cookies
    requires ProfitPercentKey !in storage && ProfitPercentKey !in cookies
    ensures NgOnInit(Fresh(locale), cookies, storage, env) == Boot(Fresh(locale), cookies, storage, None)
  {
  }

  /** Slot `k` was migrated between the two pairs of stores: it is in
      storage when it was in either store, and its cookie survives only
      when storage already held it. */
  ghost predicate Moved(k: string, c0: Cookies, s0: Storage, c1: Cookies, s1: Storage) {
    && (k in s1 <==> k in s0 || k in c0)
    && (k in c1 <==> k in c0 && k in s0)
  }

  /** Key `k` has the same entries, if any, in both pairs of stores. */
  ghost predicate Untouched(k: string, c0: Cookies, s0: Storage, c1: Cookies, s1: Storage) {
    && (k in c1 <==> k in c0) && (k in c0 ==> c1[k] == c0[k])
    && (k in s1 <==> k in s0) && (k in s0 ==> s1[k] == s0[k])
  }

  lemma KeysDistinct()
    ensures IngredientsKey != LaborCostKey && IngredientsKey != ProfitPercentKey && LaborCostKey != ProfitPercentKey
  {
    assert IngredientsKey[0] != LaborCostKey[0];
    assert IngredientsKey[0] != ProfitPercentKey[0];
    assert LaborCostKey[0] != ProfitPercentKey[0];
  }

  lemma IngredientSlotMoves(p: Panel, cookies: Cookies, storage: Storage, env: Env)
    ensures var r := LoadIngredients(p, cookies, storage, env);
      r.fault.None? ==>
        && Moved(IngredientsKey, cookies, storage, r.cookies, r.storage)
        && forall k | k != IngredientsKey :: Untouched(k, cookies, storage, r.cookies, r.storage)
  {
  }

  lemma ScalarSlotMoves(key: string, current: Double, cookies: Cookies, storage: Storage, env: Env, code: string)
    ensures var r := LoadScalar(key, current, cookies, storage, env, code);
      && Moved(key, cookies, storage, r.cookies, r.storage)
      && forall k | k != key :: Untouched(k, cookies, storage, r.cookies, r.storage)
  {
  }

  lemma MovedThenUntouched(k: string, c0: Cookies, s0: Storage, c1: Cookies, s1: Storage, c2: Cookies, s2: Storage)
    requires Moved(k, c0, s0, c1, s1) && Untouched(k, c1, s1, c2, s2)
    ensures Moved(k, c0, s0, c2, s2)
  {
  }

  lemma UntouchedThenMoved(k: string, c0: Cookies, s0: Storage, c1: Cookies, s1: Storage, c2: Cookies, s2: Storage)
    requires Untouched(k, c0, s0, c1, s1) && Moved(k, c1, s1, c2, s2)
    ensures Moved(k, c0, s0, c2, s2)
  {
  }

  lemma UntouchedTwice(k: string, c0: Cookies, s0: Storage, c1: Cookies, s1: Storage, c2: Cookies, s2: Storage)
    requires Untouched(k, c0, s0, c1, s1) && Untouched(k, c1, s1, c2, s2)
    ensures Untouched(k, c0, s0, c2, s2)
  {
  }

  /** The three slot steps a start-up that did not throw is made of. */
  lemma NgOnInitSteps(p: Panel, cookies: Cookies, storage: Storage, env: Env)
    ensures var r := NgOnInit(p, cookies, storage, env);
      var b := LoadIngredients(p, cookies, storage, env);
      var labor := LoadScalar(LaborCostKey, b.panel.laborCost, b.cookies, b.storage, env, p.locale.code);
      var profit := LoadScalar(ProfitPercentKey, b.panel.profitPercent, labor.cookies, labor.storage, env, p.locale.code);
      r.fault.None? ==>
        && b.fault.None?
        && r.cookies == profit.cookies && r.storage == profit.storage
        && r.panel.items == b.panel.items
        && r.panel.laborCost == labor.value && r.panel.profitPercent == profit.value
  {
  }

  /** After a start-up that did not throw, each slot is in storage exactly
      when it was in either store before, its legacy cookie is left only
      when storage already held the slot (and so was never read), and
      every other key is untouched. */
  lemma MigrationMovesCookies(p: Panel, cookies: Cookies, storage: Storage, env: Env)
    ensures var r := NgOnInit(p, cookies, storage, env);
      r.fault.None? ==>
        && Moved(IngredientsKey, cookies, storage, r.cookies, r.storage)
        && Moved(LaborCostKey, cookies, storage, r.cookies, r.storage)
        && Moved(ProfitPercentKey, cookies, storage, r.cookies, r.storage)
        && forall k | k !in {IngredientsKey, LaborCostKey, ProfitPercentKey} ::
             Untouched(k, cookies, storage, r.cookies, r.storage)
  {
    var r := NgOnInit(p, cookies, storage, env);
    if r.fault.None? {
      NgOnInitSteps(p, cookies, storage, env);
      var b := LoadIngredients(p, cookies, storage, env);
      var labor := LoadScalar(LaborCostKey, b.panel.laborCost, b.cookies, b.storage, env, p.locale.code);
      var profit := LoadScalar(ProfitPercentKey, b.panel.profitPercent, labor.cookies, labor.storage, env, p.locale.code);
      IngredientSlotMoves(p, cookies, storage, env);
      ScalarSlotMoves(LaborCostKey, b.panel.laborCost, b.cookies, b.storage, env, p.locale.code);
      ScalarSlotMoves(ProfitPercentKey, b.panel.profitPercent, labor.cookies, labor.storage, env, p.locale.code);
      ThreeSlotsMoved(cookies, storage, b.cookies, b.storage, labor.cookies, labor.storage, profit.cookies, profit.storage);
    }
  }

  /** Three steps that each migrate one slot and leave every other key
      alone migrate all three slots and leave every other key alone. */
  lemma ThreeSlotsMoved(c0: Cookies, s0: Storage, c1: Cookies, s1: Storage, c2: Cookies, s2: Storage, c3: Cookies, s3: Storage)
    requires Moved(IngredientsKey, c0, s0, c1, s1)
    requires forall k | k != IngredientsKey :: Untouched(k, c0, s0, c1, s1)
    requires Moved(LaborCostKey, c1, s1, c2, s2)
    requires forall k | k != LaborCostKey :: Untouched(k, c1, s1, c2, s2)
    requires Moved(ProfitPercentKey, c2, s2, c3, s3)
    requires forall k | k != ProfitPercentKey :: Untouched(k, c2, s2, c3, s3)
    ensures Moved(IngredientsKey, c0, s0, c3, s3)
    ensures Moved(LaborCostKey, c0, s0, c3, s3)
    ensures Moved(ProfitPercentKey, c0, s0, c3, s3)
    ensures forall k | k !in {IngredientsKey, LaborCostKey, ProfitPercentKey} :: Untouched(k, c0, s0, c3, s3)
  {
    KeysDistinct();
    MovedThenUntouched(IngredientsKey, c0, s0, c1, s1, c2, s2);
    MovedThenUntouched(IngredientsKey, c0, s0, c2, s2, c3, s3);
    UntouchedThenMoved(LaborCostKey, c0, s0, c1, s1, c2, s2);
    MovedThenUntouched(LaborCostKey, c0, s0, c2, s2, c3, s3);
    UntouchedTwice(ProfitPercentKey, c0, s0, c1, s1, c2, s2);
    UntouchedThenMoved(ProfitPercentKey, c0, s0, c2, s2, c3, s3);
    forall k | k !in {IngredientsKey, LaborCostKey, ProfitPercentKey}
      ensures Untouched(k, c0, s0, c3, s3)
    {
      UntouchedTwice(k, c0, s0, c1, s1, c2, s2);
      UntouchedTwice(k, c0, s0, c2, s2, c3, s3);
    }
  }

  /** A stored id missing from the catalog is a failure, not a skip: the
      start-up throws at the first such id and loads no scalar. */
  lemma UnknownStoredIdThrows(p: Panel, cookies: Cookies, storage: Storage, env: Env, i: nat)
    requires IngredientsKey in storage && storage[IngredientsKey].Records?
    requires i < |storage[IngredientsKey].records|
    requires !IngredientExists(env.catalog, storage[IngredientsKey].records[i].id)
    ensures var r := NgOnInit(p, cookies, storage, env);
      && r.fault.Some? && r.fault.value.UnknownItem?
      && !IngredientExists(env.catalog, r.fault.value.id)
      && r.panel.laborCost == p.laborCost && r.panel.profitPercent == p.profitPercent
      && r.cookies == cookies && r.storage == storage
  {
    var recs := storage[IngredientsKey].records;
    assert !AllKnown(env.catalog, recs);
  }

  /** The same for an id in the legacy cookie: the cookie is kept and
      nothing is written to storage. */
  lemma UnknownCookieIdThrows(p: Panel, cookies: Cookies, storage: Storage, env: Env, i: nat)
    requires IngredientsKey !in storage && IngredientsKey in cookies
    requires env.decode(cookies[IngredientsKey]).Some?
    requires i < |env.decode(cookies[IngredientsKey]).value|
    requires !IngredientExists(env.catalog, env.decode(cookies[IngredientsKey]).value[i].id)
    ensures var r := NgOnInit(p, cookies, storage, env);
      && r.fault.Some? && r.fault.value.UnknownItem?
      && !IngredientExists(env.catalog, r.fault.value.id)
      && r.cookies == cookies && r.storage == storage
  {
    var recs := env.decode(cookies[IngredientsKey]).value;
    assert !AllKnown(env.catalog, recs);
  }

  /** What a start-up that did not throw leaves under `ingredients`: the
      stored value when there was one, else the decoded cookie. */
  lemma StoredIngredientsAfterStartUp(p: Panel, cookies: Cookies, storage: Storage, env: Env)
    ensures var r := NgOnInit(p, cookies, storage, env);
      r.fault.None? ==>
        && (IngredientsKey in storage ==> IngredientsKey in r.storage && r.storage[IngredientsKey] == storage[IngredientsKey])
        && (IngredientsKey !in storage && IngredientsKey in cookies ==>
              && env.decode(cookies[IngredientsKey]).Some?
              && IngredientsKey in r.storage
              && r.storage[IngredientsKey] == Records(env.decode(cookies[IngredientsKey]).value))
  {
    var r := NgOnInit(p, cookies, storage, env);
    if r.fault.None? {
      KeysDistinct();
      NgOnInitSteps(p, cookies, storage, env);
      var b := LoadIngredients(p, cookies, storage, env);
      var labor := LoadScalar(LaborCostKey, b.panel.laborCost, b.cookies, b.storage, env, p.locale.code);
      ScalarSlotMoves(LaborCostKey, b.panel.laborCost, b.cookies, b.storage, env, p.locale.code);
      ScalarSlotMoves(ProfitPercentKey, b.panel.profitPercent, labor.cookies, labor.storage, env, p.locale.code);
      UntouchedTwice(IngredientsKey, b.cookies, b.storage, labor.cookies, labor.storage, r.cookies, r.storage);
    }
  }

  /** A scalar slot whose cookie, if any, sits beside a stored value
      leaves both stores as they are. */
  lemma ScalarSlotSettled(key: string, current: Double, cookies: Cookies, storage: Storage, env: Env, code: string)
    requires key in cookies ==> key in storage
    ensures var r := LoadScalar(key, current, cookies, storage, env, code);
      r.cookies == cookies && r.storage == storage
  {
  }

  /** Re-running the ingredients slot on stores that already hold what the
      first run loaded loads the same list and changes nothing. */
  lemma IngredientSlotRerun(p: Panel, cookies: Cookies, storage: Storage, env: Env, c1: Cookies, s1: Storage)
    requires LoadIngredients(p, cookies, storage, env).fault.None?
    requires Moved(IngredientsKey, cookies, storage, c1, s1)
    requires IngredientsKey in storage ==> s1[IngredientsKey] == storage[IngredientsKey]
    requires IngredientsKey !in storage && IngredientsKey in cookies ==>
      env.decode(cookies[IngredientsKey]).Some? && s1[IngredientsKey] == Records(env.decode(cookies[IngredientsKey]).value)
    ensures var b1 := LoadIngredients(p, cookies, storage, env);
      var b2 := LoadIngredients(p, c1, s1, env);
      b2 == Boot(b1.panel, c1, s1, None)
  {
    if IngredientsKey in storage {
      var recs := storage[IngredientsKey].records;
      assert LoadIngredients(p, cookies, storage, env).panel == PushResolved(p, cookies, storage, env.catalog, recs).panel;
      assert LoadIngredients(p, c1, s1, env) == PushResolved(p, c1, s1, env.catalog, recs);
    } else if IngredientsKey in cookies {
      var recs := env.decode(cookies[IngredientsKey]).value;
      assert LoadIngredients(p, cookies, storage, env).panel == PushResolved(p, cookies, storage, env.catalog, recs).panel;
      assert LoadIngredients(p, c1, s1, env) == PushResolved(p, c1, s1, env.catalog, recs);
    }
  }

  /** A start-up that throws has changed neither store: every throw
      happens before the ingredients slot writes anything. */
  lemma FaultKeepsStores(p: Panel, cookies: Cookies, storage: Storage, env: Env)
    ensures var r := NgOnInit(p, cookies, storage, env);
      r.fault.Some? ==> r.cookies == cookies && r.storage == storage
  {
  }

  /** A second start-up on the stores the first one left ends the same
      way, changes neither store and loads the same ingredient list. (The
      scalars are re-read from their formatted text, which need not give
      back the same number.) */
  lemma MigrationIdempotent(locale: Locale, cookies: Cookies, storage: Storage, env: Env)
    ensures var first := NgOnInit(Fresh(locale), cookies, storage, env);
      var second := NgOnInit(Fresh(locale), first.cookies, first.storage, env);
      && second.fault == first.fault
      && second.cookies == first.cookies
      && second.storage == first.storage
      && second.panel.items == first.panel.items
  {
    var p := Fresh(locale);
    var first := NgOnInit(p, cookies, storage, env);
    if first.fault.Some? {
      FaultKeepsStores(p, cookies, storage, env);
    } else {
      var c1, s1 := first.cookies, first.storage;
      NgOnInitSteps(p, cookies, storage, env);
      MigrationMovesCookies(p, cookies, storage, env);
      StoredIngredientsAfterStartUp(p, cookies, storage, env);
      IngredientSlotRerun(p, cookies, storage, env, c1, s1);
      var b2 := LoadIngredients(p, c1, s1, env);
      ScalarSlotSettled(LaborCostKey, b2.panel.laborCost, c1, s1, env, p.locale.code);
      ScalarSlotSettled(ProfitPercentKey, b2.panel.profitPercent, c1, s1, env, p.locale.code);
    }
  }
}
