/**
 * The background script (src/background.js): default settings written on install, the
 * `saveToNotion` page mapping with its tag limits, and the answer to a `saveToNotion` message.
 */
module Background {
  import opened Common
  import opened Records
  import opened NotionSchema

  /** At most this many tags are sent. */
  const MaxTags: nat := 10
  /** Notion's limit on an option name, in characters. */
  const MaxTagLength: nat := 100

  /** The settings written on first install. */
  const DefaultSettings := Settings(
    notionApiUrl := DefaultApiUrl,
    notionDatabaseId := "",
    notionApiKey := "",
    geminiApiKey := "",
    openaiApiKey := "",
    modelProvider := "gemini",
    geminiModel := "gemini-1.5-flash",
    openaiModel := "gpt-4-1106-preview",
    geminiModels := [],
    openaiModels := [])

  /** The install handler's write: the defaults, only when no settings are stored. */
  function InstallWrite(stored: Option<Settings>): (written: Option<Settings>)
    ensures written.Some? <==> stored.None?
    ensures written.Some? ==> written.value == DefaultSettings
  {
    if stored.None? then Some(DefaultSettings) else None
  }

  /** The settings stored once the install handler has run. */
  function SettingsAfterInstall(stored: Option<Settings>): (s: Settings)
    ensures stored.Some? ==> s == stored.value
    ensures stored.None? ==> s == DefaultSettings
  {
    match InstallWrite(stored)
    case Some(defaults) => defaults
    case None => stored.value
  }

  /** The `multi_select` option names for `tags`: the first ten tags in order, each cut to its
      first hundred characters. */
  function TagNames(tags: seq<string>): (names: seq<string>)
    ensures |names| <= MaxTags && |names| <= |tags|
    ensures |tags| <= MaxTags ==> |names| == |tags|
    ensures |tags| > MaxTags ==> |names| == MaxTags
    ensures forall i :: 0 <= i < |names| ==> |names[i]| <= MaxTagLength && names[i] <= tags[i]
    ensures forall i :: 0 <= i < |names| && |tags[i]| <= MaxTagLength ==> names[i] == tags[i]
    ensures forall i :: 0 <= i < |names| && |tags[i]| > MaxTagLength ==> names[i] == tags[i][..MaxTagLength]
  {
    var n := if |tags| <= MaxTags then |tags| else MaxTags;
    seq(n, i requires 0 <= i < n =>
      if |tags[i]| <= MaxTagLength then tags[i] else tags[i][..MaxTagLength])
  }

  /** Tags that already meet both limits are sent unchanged. */
  lemma TagNamesKeepConforming(tags: seq<string>)
    requires |tags| <= MaxTags
    requires forall i :: 0 <= i < |tags| ==> |tags[i]| <= MaxTagLength
    ensures TagNames(tags) == tags
  {
  }

  /** The request `saveToNotion` issues, or the configuration error it raises first. */
  function BuildRequest(data: PageData, settings: Settings, savedAt: string): (r: Result<PageRequest>)
    ensures r.Err? <==> !Configured(settings)
    ensures r.Err? ==> r.message == NotConfigured
    ensures r.Ok? ==> r.value.endpoint == ApiBase(settings) + "/pages"
                      && r.value.databaseId == settings.notionDatabaseId
    ensures r.Ok? ==> var p := r.value.properties;
                      p.name == data.title && p.url == data.url && p.savedAt == savedAt
                      && p.description == DescriptionOrPlaceholder(data.description)
    // `Tags` is present exactly when the record has a non-empty tag list
    ensures r.Ok? ==> (r.value.properties.tags.Some? <==> data.tags.Some? && data.tags.value != [])
    ensures r.Ok? && r.value.properties.tags.Some? ==>
              r.value.properties.tags.value == TagNames(data.tags.value)
  {
    if !Configured(settings) then Err(NotConfigured)
    else
      var base := PageProperties(data, savedAt);
      var properties :=
        if data.tags.Some? && |data.tags.value| > 0
        then base.(tags := Some(TagNames(data.tags.value)))
        else base;
      Ok(RequestFor(settings, properties))
  }

  /** `saveToNotion` with the reply its request receives. Without configuration it fails
      before the request, so the reply plays no part. */
  function SaveToNotion(data: PageData, settings: Settings, savedAt: string, reply: Reply): (r: Result<string>)
    ensures !Configured(settings) ==> r == Err(NotConfigured)
    ensures Configured(settings) ==> r == Complete(reply)
  {
    match BuildRequest(data, settings, savedAt)
    case Err(message) => Err(message)
    case Ok(_) => Complete(reply)
  }

  /** The answer to a `saveToNotion` message. */
  function HandleSaveMessage(stored: Option<Settings>, data: PageData, savedAt: string, reply: Reply): (resp: Response)
    ensures stored.None? ==> resp == Failed("Settings not configured")
    ensures stored.Some? && !Configured(stored.value) ==> resp == Failed(NotConfigured)
    ensures stored.Some? && Configured(stored.value) ==>
              (resp.Saved? <==> reply.Delivered? && reply.ok)
  {
    Answer(stored, settings => SaveToNotion(data, settings, savedAt, reply))
  }

  /** Right after install the defaults are in place, and they are not configured: a save
      fails with the configuration error whatever the reply would have been. */
  lemma FreshInstallCannotSave(data: PageData, savedAt: string, reply: Reply)
    ensures ApiBase(SettingsAfterInstall(None)) == DefaultApiUrl
    ensures HandleSaveMessage(Some(SettingsAfterInstall(None)), data, savedAt, reply)
            == Failed(NotConfigured)
  {
  }
}
