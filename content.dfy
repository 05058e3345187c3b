/**
 * The content script's `getPageInfo` (src/content.js): the record of title, URL, description,
 * favicon and a bounded slice of page text that the popup previews. The DOM is abstracted
 * into the answers to the queries the function makes.
 */
module ContentScript {
  import opened Common
  import opened Text

  /** The answers the document gives to the queries `getPageInfo` makes. */
  datatype Document = Document(
    title: string,                           // document.title
    href: string,                            // window.location.href
    hostname: string,                        // window.location.hostname
    pathname: string,                        // window.location.pathname
    queryQ: Option<string>,                  // the first `q` parameter of location.search
    metaDescription: Option<Option<string>>, // meta[name="description"], then its content attribute
    iconHref: Option<string>,                // href of link[rel="icon"]
    shortcutIconHref: Option<string>,        // href of link[rel="shortcut icon"]
    articleText: Option<string>,             // textContent of the first `article`
    mainText: Option<string>,                // textContent of the first `main`
    contentClassText: Option<string>,        // textContent of the first `.content`
    contentIdText: Option<string>,           // textContent of `#content`
    bodyText: Option<string>)                // document.body.innerText; None when reading it throws

  /** The record `getPageInfo` returns; `description` is `None` when it was set to `null`. */
  datatype PageInfo = PageInfo(
    title: string,
    url: string,
    description: Option<string>,
    favicon: string,
    content: string)

  /** Characters of page text kept for analysis. */
  const ContentLimit: nat := 5000
  /** Marker appended to text that was cut. */
  const Ellipsis := "..."

  /** A Google results page: the host names Google and the path names a search. */
  predicate IsGoogleSearch(doc: Document) {
    Contains(doc.hostname, "google") && Contains(doc.pathname, "/search")
  }

  /** The query whose results a Google results page shows, when it has a non-empty one. */
  function SearchQuery(doc: Document): (q: Option<string>)
    ensures q.Some? <==> IsGoogleSearch(doc) && doc.queryQ.Some? && doc.queryQ.value != ""
    ensures q.Some? ==> q == doc.queryQ
  {
    if IsGoogleSearch(doc) && doc.queryQ.Some? && doc.queryQ.value != "" then doc.queryQ else None
  }

  /** The text of the first element found among `article`, `main`, `.content`, `#content`,
      tried in that order. */
  function MainContent(doc: Document): (t: Option<string>)
    ensures t.None? <==> doc.articleText.None? && doc.mainText.None?
                         && doc.contentClassText.None? && doc.contentIdText.None?
    ensures doc.articleText.Some? ==> t == doc.articleText
    ensures doc.articleText.None? && doc.mainText.Some? ==> t == doc.mainText
    ensures doc.articleText.None? && doc.mainText.None? && doc.contentClassText.Some?
            ==> t == doc.contentClassText
  {
    if doc.articleText.Some? then doc.articleText
    else if doc.mainText.Some? then doc.mainText
    else if doc.contentClassText.Some? then doc.contentClassText
    else doc.contentIdText
  }

  /** The content script's `try` block: the main element's trimmed text, else the body text
      sliced to the limit, then cut with an ellipsis when still too long; empty when reading
      the body throws, as it does for a page without one. */
  method ReadContent(doc: Document) returns (content: string)
    ensures |content| <= ContentLimit + |Ellipsis|
    ensures |content| > ContentLimit
            <==> MainContent(doc).Some? && |Trim(MainContent(doc).value)| > ContentLimit
    ensures MainContent(doc).Some? ==>
              var t := Trim(MainContent(doc).value);
              if |t| <= ContentLimit then content == t
              else content == t[..ContentLimit] + Ellipsis
    ensures MainContent(doc).None? && doc.bodyText.Some? ==>
              var b := doc.bodyText.value;
              content == if |b| <= ContentLimit then b else b[..ContentLimit]
    ensures MainContent(doc).None? && doc.bodyText.None? ==> content == ""
  {
    var thrown := false;
    content := "";
    var main := MainContent(doc);
    if main.Some? {
      content := Trim(main.value);
    } else if doc.bodyText.Some? {
      var body := doc.bodyText.value;
      content := if |body| <= ContentLimit then body else body[..ContentLimit];
    } else {
      thrown := true;
    }
    if !thrown && |content| > ContentLimit {
      content := content[..ContentLimit] + Ellipsis;
    }
    if thrown {
      content := "";
    }
  }

  /** Fills the page record field by field, as the content script does. */
  method GetPageInfo(doc: Document) returns (info: PageInfo)
    ensures info.url == doc.href
    // a Google results page with a query is described by the query
    ensures SearchQuery(doc).Some? ==>
              info.title == "Google Search: " + SearchQuery(doc).value
              && info.description == Some("Search results for: " + SearchQuery(doc).value)
    // elsewhere the title is the document's and the description the meta description, if any
    ensures SearchQuery(doc).None? ==> info.title == doc.title
    ensures SearchQuery(doc).None? && (IsGoogleSearch(doc) || doc.metaDescription.None?)
            ==> info.description == Some("")
    ensures !IsGoogleSearch(doc) && doc.metaDescription.Some?
            ==> info.description == doc.metaDescription.value
    ensures info.favicon == (if doc.iconHref.Some? then doc.iconHref.value
                             else if doc.shortcutIconHref.Some? then doc.shortcutIconHref.value
                             else "")
    // the content is bounded, and the ellipsis marks exactly an element text that was cut
    ensures |info.content| <= ContentLimit + |Ellipsis|
    ensures |info.content| > ContentLimit
            <==> MainContent(doc).Some? && |Trim(MainContent(doc).value)| > ContentLimit
    ensures MainContent(doc).Some? ==>
              var t := Trim(MainContent(doc).value);
              if |t| <= ContentLimit then info.content == t
              else info.content == t[..ContentLimit] + Ellipsis
    ensures MainContent(doc).None? && doc.bodyText.Some? ==>
              var b := doc.bodyText.value;
              info.content == if |b| <= ContentLimit then b else b[..ContentLimit]
    ensures MainContent(doc).None? && doc.bodyText.None? ==> info.content == ""
  {
    info := PageInfo(doc.title, doc.href, Some(""), "", "");

    if IsGoogleSearch(doc) {
      if doc.queryQ.Some? && doc.queryQ.value != "" {
        var q := doc.queryQ.value;
        info := info.(title := "Google Search: " + q, description := Some("Search results for: " + q));
      }
    } else if doc.metaDescription.Some? {
      info := info.(description := doc.metaDescription.value);
    }

    var icon := if doc.iconHref.Some? then doc.iconHref else doc.shortcutIconHref;
    if icon.Some? {
      info := info.(favicon := icon.value);
    }

    var content := ReadContent(doc);
    info := info.(content := content);
  }
}
