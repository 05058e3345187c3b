/**
 * The Notion helper (src/utils/notion-api.js): the same configuration check and page mapping as
 * the background script's, answering `notionApiRequest` messages, but never sending tags.
 */
module NotionApi {
  import opened Common
  import opened Records
  import opened NotionSchema
  import Background

  /** The request this variant issues, or the configuration error it raises first. */
  function BuildRequest(pageInfo: PageData, settings: Settings, savedAt: string): (r: Result<PageRequest>)
    ensures r.Err? <==> !Configured(settings)
    ensures r.Err? ==> r.message == NotConfigured
    ensures r.Ok? ==> r.value.endpoint == ApiBase(settings) + "/pages"
                      && r.value.databaseId == settings.notionDatabaseId
    ensures r.Ok? ==> var p := r.value.properties;
                      p.name == pageInfo.title && p.url == pageInfo.url && p.savedAt == savedAt
                      && p.description == DescriptionOrPlaceholder(pageInfo.description)
    // no `Tags` property, whatever tags the record carries
    ensures r.Ok? ==> r.value.properties.tags.None?
  {
    if !Configured(settings) then Err(NotConfigured)
    else Ok(RequestFor(settings, PageProperties(pageInfo, savedAt)))
  }

  /** This variant's `saveToNotion` with the reply its request receives. */
  function SaveToNotion(pageInfo: PageData, settings: Settings, savedAt: string, reply: Reply): (r: Result<string>)
    ensures !Configured(settings) ==> r == Err(NotConfigured)
    ensures Configured(settings) ==> r == Complete(reply)
  {
    match BuildRequest(pageInfo, settings, savedAt)
    case Err(message) => Err(message)
    case Ok(_) => Complete(reply)
  }

  /** The answer to a `notionApiRequest` message. */
  function HandleRequestMessage(stored: Option<Settings>, pageInfo: PageData, savedAt: string, reply: Reply): (resp: Response)
    ensures stored.None? ==> resp == Failed("Settings not configured")
    ensures stored.Some? && !Configured(stored.value) ==> resp == Failed(NotConfigured)
    ensures stored.Some? && Configured(stored.value) ==>
              (resp.Saved? <==> reply.Delivered? && reply.ok)
  {
    Answer(stored, settings => SaveToNotion(pageInfo, settings, savedAt, reply))
  }

  /** The two `saveToNotion` variants build the same request except for `Tags`, and they agree
      entirely on a record without tags; their outcomes and message answers never differ. */
  lemma AgreesWithBackground(data: PageData, stored: Option<Settings>, savedAt: string, reply: Reply)
    ensures stored.Some? ==>
              var mine := BuildRequest(data, stored.value, savedAt);
              var theirs := Background.BuildRequest(data, stored.value, savedAt);
              mine.Err? == theirs.Err?
              && (mine.Ok? ==> mine.value == theirs.value.(properties := theirs.value.properties.(tags := None)))
              && (data.tags.None? || data.tags.value == [] ==> mine == theirs)
    ensures HandleRequestMessage(stored, data, savedAt, reply)
            == Background.HandleSaveMessage(stored, data, savedAt, reply)
  {
  }
}
