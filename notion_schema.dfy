/**
 * What the two `saveToNotion` functions share: the configuration check, the page properties
 * built from a page record, the request sent to the Notion API and the way its reply becomes
 * a result or an error. The request itself is not sent here; its reply is an input.
 */
module NotionSchema {
  import opened Common
  import opened Records

  /** The API base used when the settings name none. */
  const DefaultApiUrl := "https://api.notion.com/v1"
  /** The `Notion-Version` header value. */
  const NotionVersion := "2022-06-28"
  /** The error raised before any request when the database id or key is missing. */
  const NotConfigured := "Notion API settings not configured"
  /** The description stored for a page that has none. */
  const NoDescription := "No description"
  /** The error raised for a failed request whose reply names no reason. */
  const SaveFailed := "Failed to save to Notion"

  /** The `properties` object of a page: `Name` (title), `URL`, `Description` (rich text),
      `Saved at` (date) and, when present, `Tags` (multi-select option names). */
  datatype Properties = Properties(
    name: string,
    url: string,
    description: string,
    savedAt: string,
    tags: Option<seq<string>>)

  /** A `POST <endpoint>` whose body creates a page with `properties` in the database. */
  datatype PageRequest = PageRequest(
    endpoint: string,
    authorization: string,
    notionVersion: string,
    databaseId: string,
    properties: Properties)

  /** How the request ended: a reply with its `ok` flag, the `message` of its JSON body and the
      body itself, or an exception (the fetch rejected, or the body was not JSON). */
  datatype Reply =
    | Delivered(ok: bool, message: Option<string>, body: string)
    | Thrown(error: string)

  /** `settings.notionApiUrl || DefaultApiUrl`. */
  function ApiBase(settings: Settings): string {
    if settings.notionApiUrl != "" then settings.notionApiUrl else DefaultApiUrl
  }

  /** Both the database id and the integration key are set. */
  predicate Configured(settings: Settings) {
    settings.notionDatabaseId != "" && settings.notionApiKey != ""
  }

  /** `description || NoDescription`. */
  function DescriptionOrPlaceholder(description: Option<string>): string {
    if description.Some? && description.value != "" then description.value else NoDescription
  }

  /** The properties both variants fill from the page record, without `Tags`. */
  function PageProperties(data: PageData, savedAt: string): (p: Properties)
    ensures p.name == data.title && p.url == data.url && p.savedAt == savedAt && p.tags.None?
    ensures p.description != ""
    ensures data.description.Some? && data.description.value != "" ==> p.description == data.description.value
    ensures data.description.None? || data.description.value == "" ==> p.description == NoDescription
  {
    Properties(data.title, data.url, DescriptionOrPlaceholder(data.description), savedAt, None)
  }

  /** The request for `properties`, sent to `<base>/pages` with the key as bearer token. */
  function RequestFor(settings: Settings, properties: Properties): (req: PageRequest)
    ensures req.endpoint == ApiBase(settings) + "/pages"
    ensures req.authorization == "Bearer " + settings.notionApiKey
    ensures req.notionVersion == NotionVersion
    ensures req.databaseId == settings.notionDatabaseId && req.properties == properties
  {
    PageRequest(ApiBase(settings) + "/pages", "Bearer " + settings.notionApiKey, NotionVersion,
                settings.notionDatabaseId, properties)
  }

  /** The result of the request: the reply's body when it is OK; otherwise an error with the
      reply's `message`, or `SaveFailed` when that is absent or empty. */
  function Complete(reply: Reply): (r: Result<string>)
    ensures r.Ok? <==> reply.Delivered? && reply.ok
    ensures r.Ok? ==> r.value == reply.body
    ensures reply.Delivered? && !reply.ok ==>
              r.message != "" && (r.message == SaveFailed || Some(r.message) == reply.message)
    ensures reply.Delivered? && !reply.ok && reply.message.Some? && reply.message.value != ""
            ==> r.message == reply.message.value
    ensures reply.Thrown? ==> r == Err(reply.error)
  {
    match reply
    case Thrown(e) => Err(e)
    case Delivered(ok, message, body) =>
      if ok then Ok(body)
      else if message.Some? && message.value != "" then Err(message.value)
      else Err(SaveFailed)
  }

  /** The answer a `saveToNotion` message listener sends back. */
  datatype Response = Saved(result: string) | Failed(error: string)

  /** The listener's answer: `Settings not configured` when nothing is stored, otherwise the
      outcome of the save, its error message on failure. */
  function Answer(stored: Option<Settings>, save: Settings -> Result<string>): (resp: Response)
    ensures stored.None? ==> resp == Failed("Settings not configured")
    ensures stored.Some? ==> (resp.Saved? <==> save(stored.value).Ok?)
    ensures stored.Some? && resp.Saved? ==> resp.result == save(stored.value).value
    ensures stored.Some? && resp.Failed? ==> resp.error == save(stored.value).message
  {
    match stored
    case None => Failed("Settings not configured")
    case Some(settings) =>
      match save(settings)
      case Ok(result) => Saved(result)
      case Err(message) => Failed(message)
  }
}
