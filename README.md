# TabFlow core, modelled in Dafny

TabFlow is a browser extension that saves the page in the current tab to a Notion database.

- The **content script** reads the page's title, URL, description, favicon and a bounded slice of text.
- The **popup** previews the page for editing:
  - a URL depth slider that trims the URL back towards its origin;
  - a tag editor;
  - a description field.
- **AI enhancement** asks Gemini or OpenAI for a better description and tags, and reads the reply:
  - first as `Description:` / `Tags:` blocks;
  - failing that, with a looser parser;
  - if the call itself fails, a description and tags are built from the page alone.
- The **background script** (or the Notion helper) turns the page record into a Notion page request.

The model is a set of Dafny modules that follow the source files:

| module | file | models |
|---|---|---|
| `Text` | text.dfy | the JavaScript string operations the extension relies on: `trim`, `indexOf`, `includes`, `split` (the ES splitting loop for a character class, `/\s+/` and `/\n\n\|\r\n\r\n/`), `join`, `replace` of the first occurrence, `[...new Set(...)]`, `filter` |
| `Sorting` | sorting.dfy | default string order and the stable `Array.prototype.sort` |
| `Records` | records.dfy | settings, the page record and the enhancement result |
| `ContentScript` | content.dfy | `getPageInfo` |
| `NotionSchema`, `Background`, `NotionApi` | notion_schema.dfy, background.dfy, notion_api.dfy | the install defaults, both `saveToNotion` variants and their message handlers |
| `ModelProviders` | model_providers.dfy | the OpenAI and Gemini model catalogues |
| `LabelledResponse` | labelled.dfy | the `Description:` / `Tags:` reading shared by both providers |
| `OpenAIApi` | openai_api.dfy | `src/utils/openai-api.js`: prompts, reply parsing, the fallback reading with its word counting |
| `PopupUrl` | popup_url.dfy | `parseUrl` and the depth slider |
| `PopupTags` | popup_tags.dfy | the tag editor and `updateUIWithAIContent`, as the class `Preview` |
| `PopupEnhance` | popup_enhance.dfy | `enhanceWithGemini` (model substitution and both parsers), `generateFallbackEnhancement`, `enhanceWithAI` |
| `PopupSnapshots` | popup_snapshots.dfy | the two `localStorage` entries, as the class `SnapshotStore` |

Network calls, storage reads and the browser's URL parser are not executed. Their outcomes are parameters:

- a reply datatype for each request;
- `Option<seq<string>>` for a model listing, with `None` for any failure;
- `string -> Option<ParsedUrl>` for the URL parser;
- the host name for `new URL(...)`.

The current time is a parameter, in milliseconds.

## Model

| member | source | states |
|---|---|---|
| Text.Trim | src/popup/popup.js:652 | the result is the input with whitespace removed at both ends: a slice of the input with only whitespace outside it, no whitespace at its ends, and the input itself when already trimmed |
| Text.IndexOf | src/popup/popup.js:745-748 | the result is the first occurrence at or after the start position, and `None` exactly when there is none |
| Text.RemoveFirst | src/popup/popup.js:1177 | without an occurrence the string is unchanged; otherwise putting the pattern back at its first occurrence gives the original |
| Text.SplitThenJoin | src/popup/popup.js:725 | splitting on a character and joining with it gives back the string |
| Text.TrimAvoids | src/utils/openai-api.js:134 | trimming adds no character |
| Text.SplitAvoids | src/utils/openai-api.js:133 | no piece of a split contains a separator character |
| Text.SplitLast | src/utils/model-providers.js:96 | the last piece of a split is the suffix after the last separator |
| Text.DedupProperties | src/popup/popup.js:1202 | `[...new Set(xs)]` has no duplicates, the same members as `xs`, no more elements, and starts with `xs[0]` |
| Text.DedupSnoc | src/popup/popup.js:1202 | deduplicating one more element appends it exactly when it is new |
| Text.FilterPartition | src/utils/openai-api.js:199 | filtering by a predicate and by its negation partitions the list |
| Sorting.SortBySorted | src/utils/model-providers.js:40 | the stable insertion sort orders the list for a total, transitive comparison; its contract keeps the multiset |
| Sorting.LexLeTotal | src/utils/model-providers.js:40 | default string order is total |
| Sorting.LexLeTransitive | src/utils/model-providers.js:40 | default string order is transitive |
| Sorting.LexLeAntisymmetric | src/utils/model-providers.js:40 | default string order is antisymmetric |
| ContentScript.SearchQuery | src/content.js:29-35 | a query is used exactly on a Google results page with a non-empty `q` |
| ContentScript.MainContent | src/content.js:54-57 | the first of `article`, `main`, `.content`, `#content` found, in that order |
| ContentScript.ReadContent | src/content.js:52-74 | the main element's trimmed text cut to 5000 characters plus `...` exactly when longer; else exactly the first 5000 characters of the body text; empty when reading the body throws |
| ContentScript.GetPageInfo | src/content.js:19-77 | URL copied; Google title and description from the query; meta description otherwise; favicon order; content is the trimmed element text cut to 5000 characters plus `...`, or exactly the first 5000 characters of the body text (all of it when shorter), or empty when reading the body throws |
| Background.InstallWrite | src/background.js:8-24 | the defaults are written exactly when no settings are stored |
| Background.SettingsAfterInstall | src/background.js:8-24 | stored settings survive install; otherwise the defaults apply |
| Background.TagNames | src/background.js:113-119 | at most ten names, in order, each its tag's first 100 characters when longer and the tag itself otherwise |
| Background.TagNamesKeepConforming | src/background.js:113-119 | a tag list within both limits is sent unchanged |
| Background.BuildRequest | src/background.js:72-132 | configuration error exactly when the database id or key is missing; title, URL, description-or-placeholder; `Tags` present exactly for a non-empty tag list |
| Background.SaveToNotion | src/background.js:72-143 | the configuration error, else the outcome of the request |
| Background.HandleSaveMessage | src/background.js:41-59 | `Settings not configured` without stored settings; the configuration error; success exactly when the reply is OK |
| Background.FreshInstallCannotSave | src/background.js:8-80 | right after install every save fails with the configuration error |
| NotionSchema.PageProperties | src/background.js:83-110 | title, URL, timestamp copied; description or `No description`, never empty |
| NotionSchema.RequestFor | src/background.js:121-132 | endpoint `<base>/pages`, bearer key, version `2022-06-28`, database id |
| NotionSchema.Complete | src/background.js:134-139 | OK exactly for an OK reply; otherwise the reply's message or `Failed to save to Notion`; a thrown error passes through |
| NotionSchema.Answer | src/background.js:43-57 | the listener's answer follows the save's outcome and message |
| NotionApi.BuildRequest | src/utils/notion-api.js:35-83 | the same checks and mapping as the background script, with no `Tags` ever |
| NotionApi.SaveToNotion | src/utils/notion-api.js:35-94 | the configuration error, else the outcome of the request |
| NotionApi.HandleRequestMessage | src/utils/notion-api.js:7-27 | as the background handler, for `notionApiRequest` |
| NotionApi.AgreesWithBackground | src/utils/notion-api.js:35-83 | both variants build the same request up to `Tags`, the same request without tags, and the same message answers |
| ModelProviders.DefaultOpenAIModelsAreChatModels | src/utils/model-providers.js:54-60 | every built-in OpenAI id passes the chat-model filter |
| ModelProviders.LexLeOrders | src/utils/model-providers.js:40 | the OpenAI sort's comparison is total and transitive on any list of ids |
| ModelProviders.FetchOpenAIModels | src/utils/model-providers.js:11-47 | never empty; only chat models; the defaults without key, on failure or when nothing passes; otherwise a sorted permutation of the passing ids |
| ModelProviders.LastComponent | src/utils/model-providers.js:96 | the suffix after the last `/`, free of `/` |
| ModelProviders.Annotation | src/utils/model-providers.js:99-108 | first match wins among `1.5-flash`, `1.5-pro`, `pro-vision`, `pro`; no note exactly when neither `1.5-flash` nor `pro` occurs |
| ModelProviders.DisplayName | src/utils/model-providers.js:99-108 | the id, then ` - ` and its note; the bare id exactly when there is no note |
| ModelProviders.Describe | src/utils/model-providers.js:94-114 | a descriptor's id is the last component and its name the display name |
| ModelProviders.Descriptors | src/utils/model-providers.js:92-114 | one descriptor per Gemini name, in listing order |
| ModelProviders.GeminiLeOrders | src/utils/model-providers.js:115-125 | the Gemini sort's comparison (`1.5` ids first, then id order) is total and transitive |
| ModelProviders.SortedDescriptors | src/utils/model-providers.js:115-125 | sorting descriptors keeps each named after its id and leaves them in Gemini order |
| ModelProviders.FetchGeminiModels | src/utils/model-providers.js:69-132 | never empty; the defaults without key, on failure or with no Gemini model; otherwise a permutation of the descriptors with `1.5` ids first and id order within each group |
| ModelProviders.FetchModelsForProvider | src/utils/model-providers.js:167-176 | the OpenAI catalogue, the Gemini ids in order, or `Unknown provider: <p>`; never empty |
| ModelProviders.CataloguesWithoutKey | src/utils/model-providers.js:139-157 | without a key each provider yields exactly its four built-in ids |
| LabelledResponse.CleanPieces | src/utils/openai-api.js:133-135 | every piece is non-empty, trimmed and free of the separators |
| LabelledResponse.DescriptionBlock | src/utils/openai-api.js:120 | present exactly when `Description:` occurs; the text after the first one up to the next `Tags:` or the end, with no `Tags:` inside |
| LabelledResponse.TagsBlock | src/utils/openai-api.js:121 | present exactly when `Tags:` occurs; everything after the first one |
| LabelledResponse.LabelledDescription | src/utils/openai-api.js:126-128 | the trimmed description block, or empty |
| LabelledResponse.LabelledTags | src/utils/openai-api.js:130-136 | the cleaned comma-separated pieces of the trimmed tags block, or none |
| LabelledResponse.LabelledReply | src/utils/openai-api.js:120-136 | a reply `Description:<d>Tags:<t>` whose `d` is trimmed and holds no `Tags:` is read back as `d` and the pieces of `t`, even when `d` itself mentions `Description:` |
| OpenAIApi.SystemPrompt | src/utils/openai-api.js:82-108 | every prompt starts with the base sentence, followed by the style's instructions |
| OpenAIApi.UnknownStyleIsStandard | src/utils/openai-api.js:102-106 | an unknown style gets the standard prompt |
| OpenAIApi.HashtagsFrom | src/utils/openai-api.js:171-177 | every hashtag, without its `#`, is a non-empty run of ASCII letters and digits |
| OpenAIApi.Hashtags | src/utils/openai-api.js:171 | every `#word` match, without its `#`, is a non-empty run of ASCII letters and digits; there are none exactly when no `#` is followed by a letter or digit |
| OpenAIApi.NoHashtagsFrom | src/utils/openai-api.js:171 | from a position on, no hashtag is found exactly when no `#` there is followed by a letter or digit |
| OpenAIApi.FirstHashtag | src/utils/openai-api.js:171-177 | the first hashtag is the whole letter-and-digit run after the first `#` that starts one, and the search resumes after that run |
| OpenAIApi.FormAt | src/utils/openai-api.js:172 | the first alternative of `keywords?:\|tags?:\|topics?:` that matches ignoring case, or none of them matches |
| OpenAIApi.FirstForm | src/utils/openai-api.js:172 | the leftmost position where an alternative matches |
| OpenAIApi.KeywordStartAfterMatch | src/utils/openai-api.js:179 | `indexOf` of the matched text finds the match itself, so the list starts right after it |
| OpenAIApi.KeywordTags | src/utils/openai-api.js:178-182 | the keyword list's pieces are non-empty and free of `,` and `;` |
| OpenAIApi.OfferedTags | src/utils/openai-api.js:171-182 | hashtags take precedence over a keyword list; the tags are non-empty and comma-free |
| OpenAIApi.Normalize | src/utils/openai-api.js:190 | only ASCII letters and digits remain, none added |
| OpenAIApi.CandidateWordsAsWritten | src/utils/openai-api.js:188-191 | the counted words are alphanumeric and not common words |
| OpenAIApi.CandidateWords | src/utils/openai-api.js:186-191 | the corrected filter: every counted word has at least four letters or digits after normalising and is not a common word, and each is also counted as written |
| OpenAIApi.CorrectedWordsWritten | src/utils/openai-api.js:188-191 | a piece long after normalising was long before, so the corrected words are among the as-written ones |
| OpenAIApi.EntryOrder | src/utils/openai-api.js:199 | `Object.entries` key order is a permutation of the insertion order |
| OpenAIApi.Entries | src/utils/openai-api.js:194-199 | one entry per distinct word, in `Object.entries` order, with its number of occurrences |
| OpenAIApi.EntriesFacts | src/utils/openai-api.js:194-199 | each entry is a word and its count; every word has its entry; no entry repeats |
| OpenAIApi.SortedEntriesFacts | src/utils/openai-api.js:199-200 | after sorting, entries keep those facts and their counts do not increase |
| OpenAIApi.FrequencyTagsProperties | src/utils/openai-api.js:186-202 | at most 8 distinct words of the list, by non-increasing count; a word left out means all 8 places went to words counted at least as often |
| OpenAIApi.Take | src/utils/openai-api.js:201-207 | `slice(0, n)`: a prefix of at most `n` elements, the whole list when it is short enough |
| OpenAIApi.SplitPoint | src/utils/openai-api.js:163 | the cut `n` satisfies 5n <= 4·length < 5(n+1), that is floor(0.8·length) |
| OpenAIApi.FallbackWith | src/utils/openai-api.js:160-209 | description is the trimmed first part of the trimmed text; tags are the offered ones cut to 8, else the frequency tags of the description |
| OpenAIApi.FallbackParse | src/utils/openai-api.js:160-209 | the corrected fallback reading yields at most 8 tags, each non-empty and comma-free |
| OpenAIApi.FallbackParseAsWritten | src/utils/openai-api.js:160-209 | the fallback reading as written yields at most 8 comma-free tags, one of which may be empty |
| OpenAIApi.FallbackTagsAsWritten | src/utils/openai-api.js:173-202 | offered tags and frequency tags alike hold no comma |
| OpenAIApi.EmptyTagAsWritten | src/utils/openai-api.js:188-202 | the reply `-----` gives the as-written tag list `[""]` and the corrected list `[]` |
| OpenAIApi.EmptyTagParsed | src/utils/openai-api.js:117-151 | `parseOpenAIResponse` on `-----` finds no label, falls back and returns the tags `[""]` |
| OpenAIApi.CountWords | src/utils/openai-api.js:194-197 | the loop's keys are the distinct words in first-occurrence order and its counts the numbers of occurrences |
| OpenAIApi.CountEntriesOfWords | src/utils/openai-api.js:194-199 | `Object.entries` of the counting map are the entries of the words |
| OpenAIApi.FrequencyTagsOf | src/utils/openai-api.js:194-202 | counting, ordering, sorting and slicing compute the frequency tags |
| OpenAIApi.FallbackResponseParsing | src/utils/openai-api.js:160-209 | the step-by-step fallback, with the word filter as written, equals the as-written fallback reading |
| OpenAIApi.ParseOpenAIResponse | src/utils/openai-api.js:117-151 | the labelled reading (non-empty, comma-free tags) unless it yields neither description nor tag, then the as-written fallback reading; every tag is comma-free |
| OpenAIApi.ChatRequestFor | src/utils/openai-api.js:21-58 | the endpoint, bearer key, model and the style's system prompt |
| OpenAIApi.EnhanceWithOpenAI | src/utils/openai-api.js:14-74 | key required; network error passed on; error message or `Error calling OpenAI API`; success exactly for an OK answer, whose content is parsed |
| OpenAIApi.EmptyAnswer | src/utils/openai-api.js:66-69 | an empty answer yields an empty description and no tags |
| PopupUrl.FixedUrl | src/popup/popup.js:706-709 | `https://` is prefixed exactly when the URL lacks an http(s) scheme |
| PopupUrl.StripSlashes | src/popup/popup.js:715-721 | one leading and then one trailing `/` removed |
| PopupUrl.PathSegments | src/popup/popup.js:723-726 | none for the empty path, else `/piece` per `/`-separated piece |
| PopupUrl.PartsOf | src/popup/popup.js:702-739 | origin as domain; path segments, then the query, then the fragment, each only when present |
| PopupUrl.PathStart | src/popup/popup.js:745-762 | the first `/` after `://`, or the first `/` when there is no `://` |
| PopupUrl.FallbackParts | src/popup/popup.js:740-767 | domain before the path start, else the whole input; each segment is `/` plus a non-empty piece without `/` |
| PopupUrl.ParseUrl | src/popup/popup.js:702-768 | the parser's reading when it accepts the fixed URL, else the manual split |
| PopupUrl.Selected | src/popup/popup.js:797 | the number of parts the depth selects, clamped to 0..n |
| PopupUrl.RebuildUrl | src/popup/popup.js:796-801 | the loop yields the domain plus the first `depth` parts |
| PopupUrl.DepthBounds | src/popup/popup.js:796-801 | depth 0 gives the domain, full depth all parts, each step adds the next part |
| PopupUrl.ConcatPrefixed | src/popup/popup.js:725 | the `/piece` segments concatenate to `/` plus the joined path |
| PopupUrl.FullDepthSuccess | src/popup/popup.js:702-739 | full depth rebuilds origin, stripped path, query and fragment |
| PopupUrl.FullDepthRestoresUrl | src/popup/popup.js:702-739 | for a path that starts with `/`, is longer than `/` and has no trailing `/`, full depth gives origin+pathname+search+hash |
| PopupUrl.FullDepthFallback | src/popup/popup.js:740-767 | in the manual split, a path without empty pieces is rebuilt exactly |
| PopupUrl.ExampleUrl | src/popup/popup.js:702-739 | `https://example.com/a/b?x=1` gives domain `https://example.com` and parts `/a`, `/b`, `?x=1` |
| PopupTags.WithTag | src/popup/popup.js:651-663 | the trimmed text is appended exactly when it is non-empty and new |
| PopupTags.SpliceStart | src/popup/popup.js:668 | `splice`'s start for a non-negative or negative index |
| PopupTags.WithoutTag | src/popup/popup.js:667-673 | the element at the splice start goes, the others keep their order |
| PopupTags.WithTagValid | src/popup/popup.js:651-656 | adding keeps the tags non-empty, trimmed and distinct |
| PopupTags.WithoutTagValid | src/popup/popup.js:667-668 | removing keeps the list valid and removes exactly that tag |
| PopupTags.AddThenRemove | src/popup/popup.js:651-673 | adding a new tag and removing it by its index restores the list |
| PopupTags.WithTagsIsDedup | src/popup/popup.js:1228-1236 | adding texts one by one to an empty list gives the distinct trimmed non-empty texts |
| PopupTags.WithTagsGrows | src/popup/popup.js:1234-1236 | adding texts keeps a list valid and only appends |
| PopupTags.TrimmedTexts | src/popup/popup.js:633-638 | adding trimmed pieces is the same as adding the pieces |
| PopupTags.Preview.constructor | src/popup/popup.js:30 | no tags, empty input |
| PopupTags.Preview.AddTag | src/popup/popup.js:651-663 | tags become `WithTag`; an addition copies the list and clears the input |
| PopupTags.Preview.RemoveTag | src/popup/popup.js:667-673 | tags become `WithoutTag`; the copy follows |
| PopupTags.Preview.SubmitTagInput | src/popup/popup.js:619-624 | Enter or Tab adds the input's text; the copy and input follow `addTag`; the description is untouched |
| PopupTags.Preview.AddEach | src/popup/popup.js:1234-1236 | adding texts in turn gives `WithTags` and refreshes the copy when the list grew |
| PopupTags.Preview.TypeIntoTagInput | src/popup/popup.js:627-643 | a value with a comma adds each piece and clears the input; otherwise nothing changes but the input |
| PopupTags.Preview.ApplyEnhancement | src/popup/popup.js:1211-1239 | a non-empty description or short description replaces the field; a non-empty tag list replaces the tags with its distinct trimmed non-empty entries; the copy changes only when some tag was added; together these make up `ShowsEnhancement` |
| PopupEnhance.SkipSpace | src/popup/popup.js:1135 | the end of the whitespace run: all whitespace before it, none at it |
| PopupEnhance.RunLength | src/popup/popup.js:1135 | the maximal run of characters outside the stop set |
| PopupEnhance.Enclosed | src/popup/popup.js:1135-1136 | an opener, a non-empty run free of closers, then a closer |
| PopupEnhance.RunBackFrom | src/popup/popup.js:1147 | the unquoted value is non-empty and free of `,`, `\n`, `\r` |
| PopupEnhance.FirstFromAt | src/popup/popup.js:1135-1150 | the leftmost-match search returns the match anchored at the first position that has one |
| PopupEnhance.FirstFromNone | src/popup/popup.js:1135-1150 | with no match anchored anywhere, the search finds nothing |
| PopupEnhance.FirstKeyed | src/popup/popup.js:1135-1150 | the leftmost match's group is non-empty; an unquoted one holds no `,`, `\n`, `\r` |
| PopupEnhance.AbsentNoMatch | src/popup/popup.js:1135-1150 | when the key occurs nowhere, ignoring case, the pattern does not match |
| PopupEnhance.FirstKeyedAt | src/popup/popup.js:1135-1150 | the match is found at the first position where the pattern matches |
| PopupEnhance.BracketedValueRead | src/popup/popup.js:1135 | `key: [group]` with no earlier key is read back as `group` |
| PopupEnhance.StripQuotes | src/popup/popup.js:1141 | the result is the slice of the piece without its first character exactly when that is a quote, and without its last exactly when what is left ends with a quote |
| PopupEnhance.QuotedPieceRead | src/popup/popup.js:1141 | a piece wrapped in quotes is read back without them |
| PopupEnhance.UnquotedPieceKept | src/popup/popup.js:1141 | a piece that neither starts nor ends with a quote is kept as it is |
| PopupEnhance.GroupTags | src/popup/popup.js:1138-1143 | the unquoted, trimmed pieces are non-empty and comma-free |
| PopupEnhance.GeminiFallbackParse | src/popup/popup.js:1130-1168 | tags from the bracketed, else quoted list; description from the quoted, else unquoted value, else the first paragraph of more than 20 characters without `tags`, `{`, `}`; trimmed |
| PopupEnhance.AbsentKeys | src/popup/popup.js:1130-1168 | no `tags` key, no tags; no `short_description` key, the paragraph rule |
| PopupEnhance.TagListRead | src/popup/popup.js:1135-1143 | a reply with `tags: [a, b]` yields exactly those tags |
| PopupEnhance.ParseGeminiResponse | src/popup/popup.js:1095-1122 | the labelled reading with the model used, unless it yields neither description nor tag |
| PopupEnhance.ChooseGeminiModel | src/popup/popup.js:975-981 | the requested model if listed, else `gemini-1.5-flash` if listed, else the first id, else `gemini-pro` |
| PopupEnhance.EnhanceWithGemini | src/popup/popup.js:964-1127 | key required; the chosen model; network error passed on; error message or `Error calling Gemini API with model <m>`; the parsed answer |
| PopupEnhance.ChosenModelListed | src/popup/popup.js:971-981 | the chosen model is listed, or `gemini-pro` when the first listed id is empty |
| PopupEnhance.TitleTag | src/popup/popup.js:1197 | only `\w` characters remain, in lower case |
| PopupEnhance.PotentialTags | src/popup/popup.js:1191-1199 | at most five title tags, each longer than 3 and lower-case `\w` only |
| PopupEnhance.GenerateFallbackEnhancement | src/popup/popup.js:1171-1208 | description kept if longer than 10, else `<title> - A resource found at <domain>.`; tags start with the domain's first label, at most 6, distinct |
| PopupEnhance.FallbackTags | src/popup/popup.js:1202 | the set starts with the first label and adds at most the potential tags |
| PopupEnhance.ProviderAnswer | src/popup/popup.js:910-940 | the OpenAI or Gemini call with the stored key and model defaults, or the key error |
| PopupEnhance.EnhanceWithAI | src/popup/popup.js:904-956 | the provider's result, or the local fallback on any error |
| PopupEnhance.NoSettingsFallsBack | src/popup/popup.js:911-934 | without stored settings the local fallback is used |
| PopupSnapshots.SnapshotStore.SaveEnhanced | src/popup/popup.js:1278-1283 | the enhancement with the current time replaces the saved one |
| PopupSnapshots.SnapshotStore.LoadInto | src/popup/popup.js:1286-1304 | applied and removed exactly when younger than a day, leaving the preview as `updateUIWithAIContent` does (`ShowsEnhancement`: description, tags, copy and input); else nothing changes |
| PopupSnapshots.SnapshotStore.MarkInProgressAsWritten | src/popup/popup.js:1434-1473 | the marker is written without a timestamp |
| PopupSnapshots.SnapshotStore.MarkInProgress | src/popup/popup.js:1473 | the marker stamped with the start time |
| PopupSnapshots.SnapshotStore.FinishEnhancement | src/popup/popup.js:1479-1500 | a result is saved; the marker is removed either way |
| PopupSnapshots.SnapshotStore.CheckInProgress | src/popup/popup.js:1532-1566 | prompt exactly for a marker with a non-zero timestamp younger than an hour; any other marker is removed |
| PopupSnapshots.SnapshotStore.CheckResults | src/popup/popup.js:1549-1552 | load the saved enhancement, with the same preview outcome as the load, then remove the marker |
| PopupSnapshots.SnapshotStore.Dismiss | src/popup/popup.js:1553-1555 | the marker is removed |
| PopupSnapshots.ReopenAsWritten | src/popup/popup.js:1473-1541 | a popup reopened after a start never offers the results |
| PopupSnapshots.Reopen | src/popup/popup.js:1538-1541 | with a stamped marker the popup offers the results exactly within the hour |
| PopupSnapshots.LoadTwice | src/popup/popup.js:1292-1297 | a saved enhancement is applied at most once, and only within the day |

## Left out

- Chrome plumbing is not modelled: tabs, messaging, `chrome.storage` and `localStorage` access, the DOM, notifications and the `Worker` that only posts `started`. Storage values are given already parsed; malformed JSON in storage is not modelled.
- Requests are not modelled. The Gemini prompt texts, the payload's generation settings, the Notion `Content-Type` header and the `toISOString` timestamp are inputs or constants. Only the reply outcome is modelled.
- The WHATWG URL parser (`new URL`) is a parameter, not a model of URL syntax.
- Strings are sequences of Unicode code points, where JavaScript uses UTF-16 code units. Lengths such as `substring(0, 5000)` and `length > 20` differ for text outside the Basic Multilingual Plane.
- `toLowerCase` is modelled on ASCII letters only. This is exact where it is applied: after filtering to ASCII, and in comparisons with ASCII word lists.
- `localeCompare` is modelled as character-code order (`LexLe`). Locale collation is not modelled.
- OpenAIApi.CountWords: a word naming an inherited property of a plain object (only `constructor` can occur, since words are reduced to lower-case letters and digits first) starts from that property's value rather than 0 in the source. The model counts it like any other word.
- OpenAIApi.EnhanceWithOpenAI: a successful response whose body has no `choices` array throws a `TypeError` in the source. The model reads it as empty content.
- OpenAIApi.ParseOpenAIResponse: does not promise non-empty tags, because the source's fallback can return the empty word (Findings, second row); `EnhanceWithOpenAI` inherits this. Only the corrected `FallbackParse` promises non-empty tags.
- OpenAIApi.SplitPoint: `Math.floor(length * 0.8)` uses a double. It is modelled as `(4·length) / 5`, which agrees for every string length a browser can hold.
- PopupEnhance.GenerateFallbackEnhancement: `new URL(...)` throwing in the source escapes the catch block of `enhanceWithAI`, so the promise never settles. The model returns `None` there.
- PopupTags.Preview.ApplyEnhancement: the model-indicator label and the `aiEnhanced` flag are UI only.
- The save of the enhanced content inside `updateUIWithAIContent` is modelled in `SnapshotStore.LoadInto` and `FinishEnhancement`, not in `Preview`.
- `escapeHtml`, `renderManualTags`, the settings form and the model dropdown are presentation only.

## Findings

| source | as written | input that shows it | evidently intended | confidence | as-written member | corrected member |
|---|---|---|---|---|---|---|
| src/popup/popup.js:1434-1473 | the in-progress marker is the request copy `{pageInfo, enhancementStyle, settings}`, with no `timestamp`; the check at 1538-1539 requires a truthy `timestamp`, so every marker is discarded | start an enhancement, close the popup and reopen it one second later: no prompt, marker removed | the marker carries `timestamp: Date.now()`, so a popup reopened within the hour offers the results | high, not executed | PopupSnapshots.ReopenAsWritten | PopupSnapshots.Reopen |
| src/utils/openai-api.js:188-191 | the length filter runs before punctuation is stripped, so a word like `----` becomes the empty word and is counted | the reply `-----` (no labels): the fallback returns the tag `""` | only words of at least four characters after normalising are counted, as the comment at line 186 says, so no empty word | medium, not executed | OpenAIApi.EmptyTagAsWritten | OpenAIApi.FallbackParse |
