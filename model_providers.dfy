/**
 * The model catalogues of src/utils/model-providers.js: the OpenAI chat-model filter and sort,
 * the Gemini descriptor extraction, display-name annotation and two-key ordering, the
 * built-in default lists, and the per-provider dispatch. The catalogue request is not made
 * here: its outcome is an input, `None` standing for any failure (rejected fetch, non-OK
 * status, a body that is not JSON or whose entries lack the expected field).
 */
module ModelProviders {
  import opened Common
  import opened Text
  import opened Sorting

  // ---------------------------------------------------------------- OpenAI

  /** The catalogue used without a key, after a failure, or when nothing passes the filter. */
  const DefaultOpenAIModels: seq<string> :=
    ["gpt-4-1106-preview", "gpt-4-vision-preview", "gpt-4", "gpt-3.5-turbo"]

  /** A chat-capable GPT model: mentions `gpt`, is not an `instruct` model, and is of the
      3.5 or 4 families. */
  predicate IsChatModel(id: string) {
    Contains(id, "gpt") && !Contains(id, "instruct") && (Contains(id, "3.5") || Contains(id, "4"))
  }

  /** If one character of `p` never occurs in `s`, neither does `p`. */
  lemma MissingCharacter(s: string, p: string, c: char)
    requires c in p && c !in s
    ensures !Contains(s, p)
  {
  }

  /** `LexLe` is a total order on any list of strings. */
  lemma LexLeOrders(s: seq<string>)
    ensures TotalOn(s, LexLe) && TransitiveOn(s, LexLe)
  {
    forall a, b | a in s && b in s ensures LexLe(a, b) || LexLe(b, a) {
      LexLeTotal(a, b);
    }
    forall a, b, c | a in s && b in s && c in s && LexLe(a, b) && LexLe(b, c)
      ensures LexLe(a, c)
    {
      LexLeTransitive(a, b, c);
    }
  }

  /** An id of the form `gpt-4...` that lacks a letter of `instruct` is a chat model. */
  lemma IsGpt4Model(id: string, c: char)
    requires |id| >= 5 && id[..5] == "gpt-4"
    requires c in "instruct" && c !in id
    ensures IsChatModel(id)
  {
    assert id[..3] == "gpt" && id[4..5] == "4";
    assert OccursAt(id, "gpt", 0) && OccursAt(id, "4", 4);
    MissingCharacter(id, "instruct", c);
  }

  lemma Gpt41106PreviewIsChatModel() ensures IsChatModel("gpt-4-1106-preview") {
    IsGpt4Model("gpt-4-1106-preview", 'n');
  }

  lemma Gpt4VisionPreviewIsChatModel() ensures IsChatModel("gpt-4-vision-preview") {
    IsGpt4Model("gpt-4-vision-preview", 'u');
  }

  lemma Gpt4IsChatModel() ensures IsChatModel("gpt-4") {
    IsGpt4Model("gpt-4", 'i');
  }

  lemma Gpt35TurboIsChatModel() ensures IsChatModel("gpt-3.5-turbo") {
    var id := "gpt-3.5-turbo";
    assert id[..3] == "gpt" && id[4..7] == "3.5";
    assert OccursAt(id, "gpt", 0) && OccursAt(id, "3.5", 4);
    MissingCharacter(id, "instruct", 'i');
  }

  /** The built-in OpenAI ids all pass the chat-model filter. */
  lemma DefaultOpenAIModelsAreChatModels()
    ensures forall id :: id in DefaultOpenAIModels ==> IsChatModel(id)
  {
    Gpt41106PreviewIsChatModel();
    Gpt4VisionPreviewIsChatModel();
    Gpt4IsChatModel();
    Gpt35TurboIsChatModel();
  }

  /** `fetchOpenAIModels`: the listed ids that are chat models, in ascending order, or the
      built-in list when there is no key, the request failed, or no id passes. */
  function FetchOpenAIModels(apiKey: string, listed: Option<seq<string>>): (models: seq<string>)
    ensures models != []
    ensures forall id :: id in models ==> IsChatModel(id)
    ensures apiKey == "" || listed.None? ==> models == DefaultOpenAIModels
    ensures apiKey != "" && listed.Some? && Filter(listed.value, IsChatModel) == [] ==>
              models == DefaultOpenAIModels
    ensures apiKey != "" && listed.Some? && Filter(listed.value, IsChatModel) != [] ==>
              multiset(models) == multiset(Filter(listed.value, IsChatModel))
              && forall i, j :: 0 <= i < j < |models| ==> LexLe(models[i], models[j])
  {
    DefaultOpenAIModelsAreChatModels();
    if apiKey == "" || listed.None? then DefaultOpenAIModels
    else
      var chat := Filter(listed.value, IsChatModel);
      var sorted := SortBy(chat, LexLe);
      LexLeOrders(chat);
      SortBySorted(chat, LexLe);
      LexLeOrders(sorted);
      SortedPairwise(sorted, LexLe);
      assert forall id :: id in sorted ==> id in multiset(chat);
      if |sorted| > 0 then sorted else DefaultOpenAIModels
  }

  // ---------------------------------------------------------------- Gemini

  /** One catalogue entry: the model id and the name shown in the model picker. */
  datatype ModelDescriptor = ModelDescriptor(id: string, name: string)

  const FlashNote := "Fastest multimodal model"
  const ProNote15 := "Best performing model with 2M token context"
  const VisionNote := "Model with vision capabilities"
  const StandardNote := "Standard model for text generation"

  /** The catalogue used without a key, after a failure, or when no model is a Gemini one. */
  const DefaultGeminiModels: seq<ModelDescriptor> := [
    ModelDescriptor("gemini-1.5-flash", "gemini-1.5-flash - " + FlashNote),
    ModelDescriptor("gemini-1.5-pro", "gemini-1.5-pro - " + ProNote15),
    ModelDescriptor("gemini-pro", "gemini-pro - " + StandardNote),
    ModelDescriptor("gemini-pro-vision", "gemini-pro-vision - " + VisionNote)
  ]

  /** `name.split('/').pop()`: the part of a resource name after its last slash. */
  function LastComponent(name: string): (id: string)
    ensures |id| <= |name| && id == name[|name| - |id|..]
    ensures '/' !in id
    ensures |id| < |name| ==> name[|name| - |id| - 1] == '/'
  {
    var pieces := Split(name, OneOf({'/'}));
    SplitLast(name, {'/'});
    SplitAvoids(name, {'/'});
    assert pieces[|pieces| - 1] in pieces;
    pieces[|pieces| - 1]
  }

  /** The note attached to an id, by first match: `1.5-flash`, `1.5-pro`, `pro-vision`, `pro`. */
  function Annotation(id: string): (note: Option<string>)
    ensures Contains(id, "1.5-flash") ==> note == Some(FlashNote)
    ensures !Contains(id, "1.5-flash") && Contains(id, "1.5-pro") ==> note == Some(ProNote15)
    ensures !Contains(id, "1.5-flash") && !Contains(id, "1.5-pro") && Contains(id, "pro-vision")
            ==> note == Some(VisionNote)
    ensures (!Contains(id, "1.5-flash") && !Contains(id, "1.5-pro") && !Contains(id, "pro-vision")
             && Contains(id, "pro")) ==> note == Some(StandardNote)
    ensures note.None? <==> !Contains(id, "1.5-flash") && !Contains(id, "pro")
  {
    if Contains(id, "1.5-flash") then Some(FlashNote)
    else if Contains(id, "1.5-pro") then
      var i: nat :| OccursAt(id, "1.5-pro", i);
      OccursInside(id, "1.5-pro", i, "pro", 4);
      Some(ProNote15)
    else if Contains(id, "pro-vision") then
      var i: nat :| OccursAt(id, "pro-vision", i);
      OccursInside(id, "pro-vision", i, "pro", 0);
      Some(VisionNote)
    else if Contains(id, "pro") then Some(StandardNote)
    else None
  }

  /** The picker name of an id: the id, followed by its note when it has one. */
  function DisplayName(id: string): (name: string)
    ensures |id| <= |name| && name[..|id|] == id
    ensures Annotation(id).Some? ==> name == id + " - " + Annotation(id).value
    ensures name == id <==> !Contains(id, "1.5-flash") && !Contains(id, "pro")
  {
    match Annotation(id)
    case None => id
    case Some(note) => id + " - " + note
  }

  /** The descriptor of a listed model name. */
  function Describe(name: string): (m: ModelDescriptor)
    ensures m.id == LastComponent(name) && m.name == DisplayName(m.id)
  {
    var id := LastComponent(name);
    ModelDescriptor(id, DisplayName(id))
  }

  /** The ids of a list of descriptors, in order. */
  function Ids(models: seq<ModelDescriptor>): (ids: seq<string>)
    ensures |ids| == |models| && forall i :: 0 <= i < |models| ==> ids[i] == models[i].id
  {
    seq(|models|, i requires 0 <= i < |models| => models[i].id)
  }

  predicate IsGeminiName(name: string) {
    Contains(name, "gemini")
  }

  predicate Has15(m: ModelDescriptor) {
    Contains(m.id, "1.5")
  }

  /** The comparison of the Gemini sort, as "may precede": ids mentioning `1.5` come before
      all others, and ids in the same group are in character order. */
  predicate GeminiLe(a: ModelDescriptor, b: ModelDescriptor) {
    if Has15(a) != Has15(b) then Has15(a) else LexLe(a.id, b.id)
  }

  /** Every model may precede every later one: those with `1.5` first, each group in id order. */
  predicate InGeminiOrder(models: seq<ModelDescriptor>) {
    forall i, j :: 0 <= i < j < |models| ==> GeminiLe(models[i], models[j])
  }

  lemma GeminiLeOrders(s: seq<ModelDescriptor>)
    ensures TotalOn(s, GeminiLe) && TransitiveOn(s, GeminiLe)
  {
    forall a, b | a in s && b in s ensures GeminiLe(a, b) || GeminiLe(b, a) {
      LexLeTotal(a.id, b.id);
    }
    forall a, b, c | a in s && b in s && c in s && GeminiLe(a, b) && GeminiLe(b, c)
      ensures GeminiLe(a, c)
    {
      if Has15(a) == Has15(b) == Has15(c) {
        LexLeTransitive(a.id, b.id, c.id);
      }
    }
  }

  /** The descriptors of the Gemini models among the listed names, in listing order. */
  function Descriptors(names: seq<string>): (models: seq<ModelDescriptor>)
    ensures |models| == |Filter(names, IsGeminiName)|
    ensures forall i :: 0 <= i < |models| ==> models[i] == Describe(Filter(names, IsGeminiName)[i])
    ensures forall m :: m in models ==> m.name == DisplayName(m.id)
  {
    var gemini := Filter(names, IsGeminiName);
    seq(|gemini|, i requires 0 <= i < |gemini| => Describe(gemini[i]))
  }

  /** `fetchGeminiModels`: the descriptors of the listed Gemini models, those with `1.5` first
      and each group in id order, or the built-in list when there is no key, the request
      failed, or no model is a Gemini one. */
  function FetchGeminiModels(apiKey: string, listed: Option<seq<string>>): (models: seq<ModelDescriptor>)
    ensures models != []
    ensures apiKey == "" || listed.None? ==> models == DefaultGeminiModels
    ensures apiKey != "" && listed.Some? && Descriptors(listed.value) == [] ==>
              models == DefaultGeminiModels
    ensures apiKey != "" && listed.Some? && Descriptors(listed.value) != [] ==>
              multiset(models) == multiset(Descriptors(listed.value))
              && (forall m :: m in models ==> m.name == DisplayName(m.id))
              && InGeminiOrder(models)
  {
    if apiKey == "" || listed.None? then DefaultGeminiModels
    else
      var sorted := SortBy(Descriptors(listed.value), GeminiLe);
      SortedDescriptors(Descriptors(listed.value));
      if |sorted| > 0 then sorted else DefaultGeminiModels
  }

  /** Sorting descriptors named after their ids keeps them so named and puts them in
      `GeminiLe` order. */
  lemma SortedDescriptors(described: seq<ModelDescriptor>)
    requires forall m :: m in described ==> m.name == DisplayName(m.id)
    ensures var sorted := SortBy(described, GeminiLe);
            (forall m :: m in sorted ==> m.name == DisplayName(m.id))
            && InGeminiOrder(sorted)
  {
    var sorted := SortBy(described, GeminiLe);
    GeminiLeOrders(described);
    SortBySorted(described, GeminiLe);
    GeminiLeOrders(sorted);
    SortedPairwise(sorted, GeminiLe);
    forall m | m in sorted ensures m in described {
      assert m in multiset(described);
    }
  }

  // ---------------------------------------------------------------- dispatch

  /** `fetchModelsForProvider`: the OpenAI catalogue, the Gemini descriptor ids in order, or an
      error for any other provider. */
  function FetchModelsForProvider(provider: string, apiKey: string, listed: Option<seq<string>>): (r: Result<seq<string>>)
    ensures r.Ok? <==> provider == "openai" || provider == "gemini"
    ensures r.Err? ==> r.message == "Unknown provider: " + provider
    ensures provider == "openai" ==> r == Ok(FetchOpenAIModels(apiKey, listed))
    ensures provider == "gemini" ==> r == Ok(Ids(FetchGeminiModels(apiKey, listed)))
    ensures r.Ok? ==> r.value != []
  {
    if provider == "openai" then Ok(FetchOpenAIModels(apiKey, listed))
    else if provider == "gemini" then Ok(Ids(FetchGeminiModels(apiKey, listed)))
    else Err("Unknown provider: " + provider)
  }

  /** Without a key each provider yields exactly its built-in ids. */
  lemma CataloguesWithoutKey(listed: Option<seq<string>>)
    ensures FetchModelsForProvider("openai", "", listed) == Ok(DefaultOpenAIModels)
    ensures FetchModelsForProvider("gemini", "", listed)
            == Ok(["gemini-1.5-flash", "gemini-1.5-pro", "gemini-pro", "gemini-pro-vision"])
  {
    assert Ids(DefaultGeminiModels)
           == ["gemini-1.5-flash", "gemini-1.5-pro", "gemini-pro", "gemini-pro-vision"];
  }
}
