/** The records that travel between the extension's scripts. */
module Records {
  import opened Common

  /** The single configuration object kept in synced extension storage. A key that is
      missing or empty reads as `""` (or `[]`): every use of it in the extension tests
      truthiness, which does not tell the two apart. */
  datatype Settings = Settings(
    notionApiUrl: string,
    notionDatabaseId: string,
    notionApiKey: string,
    geminiApiKey: string,
    openaiApiKey: string,
    modelProvider: string,
    geminiModel: string,
    openaiModel: string,
    geminiModels: seq<string>,
    openaiModels: seq<string>)

  /** What `data.settings || {}` yields when nothing is stored. */
  const NoSettings := Settings("", "", "", "", "", "", "", "", [], [])

  /** The page record the popup sends with a save request. `description` is `None` when it is
      absent or `null`; `tags` is `None` when the record has no tag list. */
  datatype PageData = PageData(
    title: string,
    url: string,
    description: Option<string>,
    tags: Option<seq<string>>)

  /** The object an enhancement produces. A labelled or locally generated result carries a
      `description` (and, from the Gemini primary parse, the model used); the popup's loose
      parser yields a `shortDescription` and flags itself as fallback-parsed. */
  datatype Enhancement =
    | Described(description: string, tags: seq<string>, model: Option<string>)
    | FallbackParsed(shortDescription: string, tags: seq<string>, style: string)
}
