/** `MessageService.getMessage` and the shape of its static table
    (src/app/service/message.service.ts). The table lists, per message id,
    one text per language code; the lookup takes the first message with the
    id and, in it, the first text with the locale's language code. Either
    `find` can come back `undefined`, which the code then dereferences:
    the model answers None there. The literal translations are not part of
    this model: each text is the stand-in `TextOf(id, lang)`. */
module Messages {
  import opened Wrappers
  import opened Seqs
  import opened Ingredients

  datatype LocalizedMessage = LocalizedMessage(text: string, lang: string)

  datatype Message = Message(id: string, localizedMessages: seq<LocalizedMessage>)

  /** `i` is the index `messages.find(message => message.id === id)` picks. */
  predicate IsFirstMessage(ms: seq<Message>, i: int, id: string) {
    0 <= i < |ms| && ms[i].id == id && forall j | 0 <= j < i :: ms[j].id != id
  }

  /** `k` is the index `localizedMessages.find(m => m.lang === lang)` picks. */
  predicate IsFirstLocalized(lms: seq<LocalizedMessage>, k: int, lang: string) {
    0 <= k < |lms| && lms[k].lang == lang && forall j | 0 <= j < k :: lms[j].lang != lang
  }

  function FindMessage(ms: seq<Message>, id: string): (r: Option<nat>)
    ensures r.Some? ==> IsFirstMessage(ms, r.value, id)
    ensures r.None? <==> forall j | 0 <= j < |ms| :: ms[j].id != id
  {
    if |ms| == 0 then None
    else if ms[0].id == id then Some(0)
    else
      match FindMessage(ms[1..], id)
      case None => None
      case Some(i) => Some(i + 1)
  }

  function FindLocalized(lms: seq<LocalizedMessage>, lang: string): (r: Option<nat>)
    ensures r.Some? ==> IsFirstLocalized(lms, r.value, lang)
    ensures r.None? <==> forall j | 0 <= j < |lms| :: lms[j].lang != lang
  {
    if |lms| == 0 then None
    else if lms[0].lang == lang then Some(0)
    else
      match FindLocalized(lms[1..], lang)
      case None => None
      case Some(k) => Some(k + 1)
  }

  /** `getMessage(id, locale)` over the table `ms`; None where the code
      throws. */
  function GetMessage(ms: seq<Message>, id: string, locale: Locale): (r: Option<string>)
    ensures (forall j | 0 <= j < |ms| :: ms[j].id != id) ==> r.None?
    ensures forall i | IsFirstMessage(ms, i, id) ::
      && (r.None? <==> forall k | 0 <= k < |ms[i].localizedMessages| :: ms[i].localizedMessages[k].lang != locale.langCode)
      && (r.Some? ==> exists k | IsFirstLocalized(ms[i].localizedMessages, k, locale.langCode) ::
                        r.value == ms[i].localizedMessages[k].text)
  {
    match FindMessage(ms, id)
    case None => None
    case Some(i) =>
      match FindLocalized(ms[i].localizedMessages, locale.langCode)
      case None => None
      case Some(k) => Some(ms[i].localizedMessages[k].text)
  }

  /** With pairwise distinct ids, "first message with the id" is "the
      message with the id". */
  lemma UniqueIdLookup(ms: seq<Message>, i: nat, locale: Locale)
    requires IdsDistinct(ms)
    requires i < |ms|
    ensures GetMessage(ms, ms[i].id, locale).Some? <==>
      exists k | 0 <= k < |ms[i].localizedMessages| :: ms[i].localizedMessages[k].lang == locale.langCode
  {
    assert IsFirstMessage(ms, i, ms[i].id);
  }

  /** The answer depends on the locale only through its language code. */
  lemma DependsOnlyOnLangCode(ms: seq<Message>, id: string, a: Locale, b: Locale)
    requires a.langCode == b.langCode
    ensures GetMessage(ms, id, a) == GetMessage(ms, id, b)
  {
  }

  ghost predicate IdsDistinct(ms: seq<Message>) {
    forall i, j | 0 <= i < j < |ms| :: ms[i].id != ms[j].id
  }

  // ---------------------------------------------------------------------
  // The table itself (lines 28-849).
  // ---------------------------------------------------------------------

  /** The languages of every fully translated message, in table order. */
  const Languages: seq<string> := ["en", "fr", "es", "de", "pl", "ru", "uk", "ko", "zh", "ja"]

  /** Stand-in for the translation of message `id` into `lang`. */
  function TextOf(id: string, lang: string): string { id + ":" + lang }

  /** A message translated into every language of `Languages`. */
  function Translated(id: string): (m: Message)
    ensures m.id == id && |m.localizedMessages| == |Languages|
    ensures forall k | 0 <= k < |Languages| :: m.localizedMessages[k].lang == Languages[k]
  {
    Message(id, seq(|Languages|, k requires 0 <= k < |Languages| => LocalizedMessage(TextOf(id, Languages[k]), Languages[k])))
  }

  const VisualizerId: string := "navTitleVisualizer"

  /** The one message with a single language. */
  const Visualizer: Message := Message(VisualizerId, [LocalizedMessage(TextOf(VisualizerId, "en"), "en")])

  /** The message ids, in table order. */
  const MessageIds: seq<string> := [
    "navTitle", "navTitleVisualizer", "resourceCostMultiplier", "endGameCraftOption", "version",
    "skillsHeader", "skillSearchPlaceholder", "lavishWorkspace", "tableSearchPlaceholder",
    "ingredientsHeader", "calorieCostLabel", "profitPercentLabel", "outputsHeader",
    "recipeSearchPlaceholder", "recipeSuffix", "sourceCodeLink", "feedbackLink",
    "authorLink", "creditLink"]

  function MessageFor(id: string): Message {
    if id == VisualizerId then Visualizer else Translated(id)
  }

  /** `messages`. */
  const Table: seq<Message> := seq(|MessageIds|, i requires 0 <= i < |MessageIds| => MessageFor(MessageIds[i]))

  /** Length and first character of an id, packed into one number: the
      table's ids already differ in it. */
  function IdSignature(id: string): int {
    if |id| == 0 then 0 else |id| * 0x11_0000 + id[0] as int
  }

  const Signatures: seq<int> := seq(|MessageIds|, i requires 0 <= i < |MessageIds| => IdSignature(MessageIds[i]))

  lemma SignaturesDistinctFrom0()
    ensures forall i, j | 0 <= i < 6 && i < j < |Signatures| :: Signatures[i] != Signatures[j]
  {
  }

  lemma SignaturesDistinctFrom6()
    ensures forall i, j | 6 <= i < 12 && i < j < |Signatures| :: Signatures[i] != Signatures[j]
  {
  }

  lemma SignaturesDistinctFrom12()
    ensures forall i, j | 12 <= i < j < |Signatures| :: Signatures[i] != Signatures[j]
  {
  }

  lemma MessageIdsDistinct()
    ensures Distinct(MessageIds)
  {
    SignaturesDistinctFrom0();
    SignaturesDistinctFrom6();
    SignaturesDistinctFrom12();
    assert forall i | 0 <= i < |MessageIds| :: Signatures[i] == IdSignature(MessageIds[i]);
  }

  /** The message ids are pairwise distinct, so every lookup by id picks
      the one message with that id. */
  lemma TableIdsDistinct()
    ensures IdsDistinct(Table)
  {
    MessageIdsDistinct();
    assert forall i | 0 <= i < |Table| :: Table[i].id == MessageIds[i];
  }

  /** Every message but `navTitleVisualizer` is translated into exactly
      the ten languages, in the same order, so `getMessage` succeeds for
      its id and any of those language codes. */
  lemma TranslatedMessagesTotal(i: nat, locale: Locale)
    requires i < |Table| && Table[i].id != VisualizerId
    ensures |Table[i].localizedMessages| == |Languages|
    ensures forall k | 0 <= k < |Languages| :: Table[i].localizedMessages[k].lang == Languages[k]
    ensures locale.langCode in Languages ==> GetMessage(Table, Table[i].id, locale).Some?
  {
    TableIdsDistinct();
    UniqueIdLookup(Table, i, locale);
    var lms := Table[i].localizedMessages;
    if locale.langCode in Languages {
      var k :| 0 <= k < |Languages| && Languages[k] == locale.langCode;
      assert lms[k].lang == locale.langCode;
    }
  }

  /** `navTitleVisualizer` exists in English only: any other language
      code makes `getMessage` throw. */
  lemma VisualizerEnglishOnly(locale: Locale)
    ensures GetMessage(Table, VisualizerId, locale).Some? <==> locale.langCode == "en"
    ensures locale.langCode == "en" ==> GetMessage(Table, VisualizerId, locale) == Some(TextOf(VisualizerId, "en"))
  {
    assert Table[1] == Visualizer;
    assert IsFirstMessage(Table, 1, VisualizerId);
  }
}
