/**
 * The popup's enhancement pipeline (src/popup/popup.js): the Gemini call with its model
 * substitution and labelled reply parse, the loose `fallbackResponseParsing` for replies in
 * another format, `generateFallbackEnhancement` built from the page alone, and
 * `enhanceWithAI`, which picks the provider and falls back to the local enhancement on error.
 */
module PopupEnhance {
  import opened Common
  import opened Text
  import opened Records
  import opened LabelledResponse
  import opened ModelProviders
  import OpenAIApi

  // ---------------------------------------------------------------- scanning `key: value`

  const Quotes: set<char> := {'"', '\''}

  predicate IsQuote(c: char) {
    c in Quotes
  }
  const LineStops: set<char> := {',', '\n', '\r'}

  /** The end of the whitespace run that starts at `i`. */
  function SkipSpace(s: string, i: nat): (j: nat)
    requires i <= |s|
    ensures i <= j <= |s| && (j == |s| || !IsSpace(s[j]))
    ensures forall k :: i <= k < j ==> IsSpace(s[k])
  {
    i + SpaceRunLength(s, i)
  }

  /** Where `\s*:?\s*` from `start` leaves off when the next item is neither whitespace nor a
      colon: both runs and the colon are taken greedily, and a shorter choice would leave
      whitespace or the colon in front of that item. */
  function AfterSeparator(s: string, start: nat): (b: nat)
    requires start <= |s|
    ensures start <= b <= |s| && (b == |s| || !IsSpace(s[b]))
  {
    var e := SkipSpace(s, start);
    if e < |s| && s[e] == ':' then SkipSpace(s, e + 1) else e
  }

  /** The positions `["']?` leaves after the key at `p`, in the order they are tried: past a
      quote first, then at it. */
  function Starts(s: string, p: nat): (starts: seq<nat>)
    requires p <= |s|
    ensures forall k :: 0 <= k < |starts| ==> starts[k] <= |s|
  {
    if p < |s| && IsQuote(s[p]) then [p + 1, p] else [p]
  }

  /** Length of the run from `i` of characters outside `stop`. */
  function RunLength(s: string, i: nat, stop: set<char>): (n: nat)
    requires i <= |s|
    ensures i + n <= |s| && (i + n == |s| || s[i + n] in stop)
    ensures forall k :: i <= k < i + n ==> s[k] !in stop
    decreases |s| - i
  {
    if i == |s| || s[i] in stop then 0 else 1 + RunLength(s, i + 1, stop)
  }

  /** `[open]([^close]+)[close]` at `b`: the greedy run is the only one that can be followed by
      a closing character. */
  function Enclosed(s: string, b: nat, open: set<char>, close: set<char>): (group: Option<string>)
    requires b <= |s|
    ensures group.Some? ==>
              b < |s| && s[b] in open && group.value != []
              && b + 1 + |group.value| < |s| && s[b + 1..b + 1 + |group.value|] == group.value
              && s[b + 1 + |group.value|] in close
              && forall k :: 0 <= k < |group.value| ==> group.value[k] !in close
  {
    if b < |s| && s[b] in open then
      var n := RunLength(s, b + 1, close);
      if n > 0 && b + 1 + n < |s| then Some(s[b + 1..b + 1 + n]) else None
    else None
  }

  /** `([^,\n\r]+)` after `\s*:?\s*` from `start`: the engine gives back whitespace and the
      colon one position at a time, so the group starts at the last position from `b` down to
      `lo` where a character outside `,`, `\n`, `\r` stands. */
  function RunBackFrom(s: string, lo: nat, b: nat): (group: Option<string>)
    requires lo <= b <= |s|
    ensures group.Some? ==> group.value != [] && Avoids(group.value, LineStops)
    decreases b - lo
  {
    var n := RunLength(s, b, LineStops);
    if n > 0 then
      Some(s[b..b + n])
    else if b == lo then None
    else RunBackFrom(s, lo, b - 1)
  }

  /** What follows the key and its separator in the three patterns. */
  datatype Tail =
    | Bracketed   // `\[([^\]]+)\]`
    | Quoted      // `["']([^"']+)["']`
    | Unquoted    // `([^,\n\r]+)`

  function TailAt(s: string, start: nat, tail: Tail): (group: Option<string>)
    requires start <= |s|
    ensures group.Some? ==> group.value != []
    ensures group.Some? && tail == Unquoted ==> Avoids(group.value, LineStops)
  {
    match tail
    case Bracketed => Enclosed(s, AfterSeparator(s, start), {'['}, {']'})
    case Quoted => Enclosed(s, AfterSeparator(s, start), Quotes, Quotes)
    case Unquoted => RunBackFrom(s, start, AfterSeparator(s, start))
  }

  /** The first of the starts from which the tail matches. */
  function FirstTail(s: string, starts: seq<nat>, tail: Tail): (group: Option<string>)
    requires forall k :: 0 <= k < |starts| ==> starts[k] <= |s|
    ensures group.Some? ==> group.value != []
    ensures group.Some? && tail == Unquoted ==> Avoids(group.value, LineStops)
  {
    if starts == [] then None
    else match TailAt(s, starts[0], tail)
      case Some(g) => Some(g)
      case None => FirstTail(s, starts[1..], tail)
  }

  /** `key["']?\s*:?\s*<tail>` with the `i` flag, matching at `i`: its group. */
  function KeyedAt(s: string, key: string, tail: Tail, i: nat): (group: Option<string>)
    ensures group.Some? ==> OccursAtIgnoringCase(s, key, i) && group.value != []
    ensures group.Some? && tail == Unquoted ==> Avoids(group.value, LineStops)
  {
    if OccursAtIgnoringCase(s, key, i) then FirstTail(s, Starts(s, i + |key|), tail) else None
  }

  /** The key does not occur in `s`, whatever the case of its letters. */
  ghost predicate Absent(s: string, key: string) {
    forall j: nat :: !OccursAtIgnoringCase(s, key, j)
  }

  /** The leftmost-match search of a regular expression: the first of `at(i)`, `at(i + 1)`,
      ..., `at(n)` that is present, where `at(j)` is the match anchored at `j`. */
  function FirstFrom(at: nat -> Option<string>, i: nat, n: nat): (r: Option<string>)
    ensures r.Some? ==> exists j: nat :: i <= j <= n && at(j) == r
    decreases n + 1 - i
  {
    if i > n then None
    else match at(i)
      case Some(g) => Some(g)
      case None => FirstFrom(at, i + 1, n)
  }

  /** The search finds the first position at which a match is anchored. */
  lemma {:induction false} FirstFromAt(at: nat -> Option<string>, from: nat, i: nat, n: nat)
    requires from <= i <= n && at(i).Some?
    requires forall j: nat :: from <= j < i ==> at(j).None?
    ensures FirstFrom(at, from, n) == at(i)
    decreases i - from
  {
    if from < i {
      FirstFromAt(at, from + 1, i, n);
    }
  }

  /** With no anchored match anywhere, the search finds nothing. */
  lemma {:induction false} FirstFromNone(at: nat -> Option<string>, from: nat, n: nat)
    requires forall j: nat :: from <= j <= n ==> at(j).None?
    ensures FirstFrom(at, from, n).None?
    decreases n + 1 - from
  {
    if from <= n {
      FirstFromNone(at, from + 1, n);
    }
  }

  /** The pattern `key["']?\s*:?\s*<tail>` anchored at each position. */
  function KeyedMatches(s: string, key: string, tail: Tail): nat -> Option<string> {
    (j: nat) => KeyedAt(s, key, tail, j)
  }

  /** `s.match(pattern)` from position `i`: the group of the leftmost match. */
  function FirstKeyed(s: string, key: string, tail: Tail, i: nat): (group: Option<string>)
    ensures group.Some? ==> group.value != []
    ensures group.Some? && tail == Unquoted ==> Avoids(group.value, LineStops)
  {
    FirstFrom(KeyedMatches(s, key, tail), i, |s|)
  }

  /** Without the key there is no match. */
  lemma AbsentNoMatch(s: string, key: string, tail: Tail, from: nat)
    requires Absent(s, key)
    ensures FirstKeyed(s, key, tail, from).None?
  {
    FirstFromNone(KeyedMatches(s, key, tail), from, |s|);
  }

  /** The leftmost match is the first position, from `from` on, at which the pattern matches. */
  lemma FirstKeyedAt(s: string, key: string, tail: Tail, from: nat, i: nat)
    requires from <= i <= |s| && KeyedAt(s, key, tail, i).Some?
    requires forall j: nat :: from <= j < i ==> !OccursAtIgnoringCase(s, key, j)
    ensures FirstKeyed(s, key, tail, from) == KeyedAt(s, key, tail, i)
  {
    FirstFromAt(KeyedMatches(s, key, tail), from, i, |s|);
  }

  /** A value written `key: [group]` is read back as `group` when the key occurs nowhere
      before, the group is not empty and holds no `]`. */
  lemma BracketedValueRead(s: string, key: string, i: nat, group: string)
    requires OccursAtIgnoringCase(s, key, i)
    requires forall j: nat :: 0 <= j < i ==> !OccursAtIgnoringCase(s, key, j)
    requires var p := i + |key|;
             p + 3 + |group| < |s| && s[p..p + 3] == ": [" && s[p + 3..p + 3 + |group|] == group
             && s[p + 3 + |group|] == ']'
    requires group != [] && Avoids(group, {']'})
    ensures FirstKeyed(s, key, Bracketed, 0) == Some(group)
  {
    var p := i + |key|;
    SeparatorBeforeBracket(s, p);
    RunToCloser(s, p + 3, group, {']'});
    BracketedAt(s, key, i, group);
    FirstKeyedAt(s, key, Bracketed, 0, i);
  }

  lemma BracketedAt(s: string, key: string, i: nat, group: string)
    requires OccursAtIgnoringCase(s, key, i)
    requires var p := i + |key|;
             p + 3 + |group| < |s| && s[p + 3..p + 3 + |group|] == group && group != []
             && Starts(s, p) == [p] && AfterSeparator(s, p) == p + 2 && s[p + 2] == '['
             && RunLength(s, p + 3, {']'}) == |group|
    ensures KeyedAt(s, key, Bracketed, i) == Some(group)
  {
    var p := i + |key|;
    EnclosedAt(s, p + 2, group);
    assert TailAt(s, p, Bracketed) == Some(group);
  }

  lemma EnclosedAt(s: string, b: nat, group: string)
    requires b + 1 + |group| < |s| && s[b + 1..b + 1 + |group|] == group && group != []
    requires s[b] == '[' && RunLength(s, b + 1, {']'}) == |group|
    ensures Enclosed(s, b, {'['}, {']'}) == Some(group)
  {
  }

  /** `: [` leaves `\s*:?\s*` at the bracket. */
  lemma SeparatorBeforeBracket(s: string, p: nat)
    requires p + 3 <= |s| && s[p..p + 3] == ": ["
    ensures Starts(s, p) == [p] && AfterSeparator(s, p) == p + 2
  {
    assert s[p] == ':' && s[p + 1] == ' ' && s[p + 2] == '[';
    assert SkipSpace(s, p) == p;
    assert SkipSpace(s, p + 1) == p + 2;
  }

  /** The run from `b` ends where `group`, written at `b` and free of `stop`, ends. */
  lemma RunToCloser(s: string, b: nat, group: string, stop: set<char>)
    requires b + |group| < |s| && s[b..b + |group|] == group && s[b + |group|] in stop
    requires Avoids(group, stop)
    ensures RunLength(s, b, stop) == |group|
  {
    forall k | b <= k < b + |group| ensures s[k] !in stop {
      assert s[k] == s[b..b + |group|][k - b];
    }
  }

  // ---------------------------------------------------------------- the loose Gemini parser

  /** `tag.trim().replace(/^["']|["']$/g, '')` after the trim: a leading quote goes, then a
      trailing quote if one is left. */
  function StripQuotes(t: string): (r: string)
    ensures |r| <= |t| && (forall k :: 0 <= k < |r| ==> r[k] in t)
    // the result is the middle of `t`: one character fewer at the front exactly when `t` starts
    // with a quote, and one fewer at the back exactly when what is left ends with one
    ensures exists a: nat, b: nat :: a <= b <= |t| && r == t[a..b]
              && (a == 1 <==> |t| > 0 && IsQuote(t[0])) && (a == 0 <==> !(|t| > 0 && IsQuote(t[0])))
              && (b == |t| - 1 <==> |t| > a && IsQuote(t[|t| - 1])) && (b == |t| <==> !(|t| > a && IsQuote(t[|t| - 1])))
  {
    var u := if |t| > 0 && IsQuote(t[0]) then t[1..] else t;
    var r := if |u| > 0 && IsQuote(u[|u| - 1]) then u[..|u| - 1] else u;
    assert forall k :: 0 <= k < |u| ==> u[k] in t;
    assert forall k :: 0 <= k < |r| ==> r[k] == u[k];
    var a: nat := |t| - |u|;
    var b: nat := a + |r|;
    assert r == t[a..b];
    r
  }

  function StripAll(pieces: seq<string>): (r: seq<string>)
    ensures |r| == |pieces| && forall i :: 0 <= i < |r| ==> r[i] == StripQuotes(pieces[i])
  {
    seq(|pieces|, i requires 0 <= i < |pieces| => StripQuotes(pieces[i]))
  }

  /** A piece wrapped in quotes is read back without them; its own characters are untouched. */
  lemma QuotedPieceRead(s: string, open: char, close: char)
    requires IsQuote(open) && IsQuote(close)
    ensures StripQuotes([open] + s + [close]) == s
  {
    var t := [open] + s + [close];
    assert t[1..] == s + [close];
    assert (s + [close])[..|s|] == s;
  }

  /** A piece that neither starts nor ends with a quote is left as it is. */
  lemma UnquotedPieceKept(s: string)
    requires |s| > 0 ==> !IsQuote(s[0]) && !IsQuote(s[|s| - 1])
    ensures StripQuotes(s) == s
  {
  }

  /** Removing quotes keeps a piece free of any character it was free of. */
  lemma StripQuotesAvoids(t: string, cs: set<char>)
    requires Avoids(t, cs)
    ensures Avoids(StripQuotes(t), cs)
  {
    var r := StripQuotes(t);
    forall k | 0 <= k < |r| ensures r[k] !in cs {
      assert r[k] in t;
      var j :| 0 <= j < |t| && t[j] == r[k];
    }
  }

  /** The tag list inside the matched group: its comma-separated pieces, trimmed, unquoted and
      non-empty. */
  function GroupTags(group: string): (tags: seq<string>)
    ensures forall t :: t in tags ==> t != [] && Avoids(t, {','})
  {
    var stripped := StripAll(TrimAll(Split(group, OneOf({','}))));
    StrippedAvoid(group);
    Filter(stripped, NonEmpty)
  }

  lemma StrippedAvoid(group: string)
    ensures forall t :: t in StripAll(TrimAll(Split(group, OneOf({','})))) ==> Avoids(t, {','})
  {
    var pieces := Split(group, OneOf({','}));
    var stripped := StripAll(TrimAll(pieces));
    SplitAvoids(group, {','});
    forall i | 0 <= i < |stripped| ensures Avoids(stripped[i], {','}) {
      assert pieces[i] in pieces;
      StripQuotesAvoids(Trim(pieces[i]), {','});
    }
  }

  /** The tag group: the bracketed list if there is one, else the quoted one. */
  function TagsGroup(aiText: string): Option<string>
  {
    match FirstKeyed(aiText, "tags", Bracketed, 0)
    case Some(g) => Some(g)
    case None => FirstKeyed(aiText, "tags", Quoted, 0)
  }

  /** The description group: the quoted value if there is one, else the rest of the line. */
  function DescriptionGroup(aiText: string): Option<string>
  {
    match FirstKeyed(aiText, "short_description", Quoted, 0)
    case Some(g) => Some(g)
    case None => FirstKeyed(aiText, "short_description", Unquoted, 0)
  }

  /** A paragraph that may serve as the description: more than twenty characters once
      trimmed, and no `tags`, `{` or `}` in it. */
  predicate IsProse(p: string) {
    |Trim(p)| > 20 && !Contains(p, "tags") && !Contains(p, "{") && !Contains(p, "}")
  }

  /** The blank-line-separated paragraphs that may serve as the description. */
  function ProseParagraphs(aiText: string): (ps: seq<string>)
    ensures forall p :: p in ps ==> IsProse(p)
  {
    Filter(Split(aiText, BlankLine), IsProse)
  }

  /** The loose parser: tags from a `tags` list in brackets or quotes, the short description
      from a `short_description` value, or else from the first paragraph that reads as prose. */
  function GeminiFallbackParse(aiText: string, style: string): (e: Enhancement)
    ensures e.FallbackParsed? && e.style == style
    ensures forall t :: t in e.tags ==> t != [] && Avoids(t, {','})
    ensures TagsGroup(aiText).None? ==> e.tags == []
    ensures TagsGroup(aiText).Some? ==> e.tags == GroupTags(TagsGroup(aiText).value)
    ensures IsTrimmed(e.shortDescription)
    ensures DescriptionGroup(aiText).Some? ==> e.shortDescription == Trim(DescriptionGroup(aiText).value)
    ensures DescriptionGroup(aiText).None? ==>
              (ProseParagraphs(aiText) == [] ==> e.shortDescription == "")
              && (ProseParagraphs(aiText) != [] ==>
                    e.shortDescription == Trim(ProseParagraphs(aiText)[0]) && |e.shortDescription| > 20)
  {
    var tags := match TagsGroup(aiText) case Some(g) => GroupTags(g) case None => [];
    var short :=
      match DescriptionGroup(aiText)
      case Some(g) => Trim(g)
      case None =>
        var ps := ProseParagraphs(aiText);
        if ps != [] then
          assert ps[0] in ps;
          Trim(ps[0])
        else "";
    FallbackParsed(short, tags, style)
  }

  /** Without a `tags` key there are no tags, and without a `short_description` key the
      description is the first prose paragraph, if any. */
  lemma AbsentKeys(aiText: string, style: string)
    ensures Absent(aiText, "tags") ==> GeminiFallbackParse(aiText, style).tags == []
    ensures Absent(aiText, "short_description") ==>
              GeminiFallbackParse(aiText, style).shortDescription
              == (if ProseParagraphs(aiText) == [] then "" else Trim(ProseParagraphs(aiText)[0]))
  {
    if Absent(aiText, "tags") {
      AbsentNoMatch(aiText, "tags", Bracketed, 0);
      AbsentNoMatch(aiText, "tags", Quoted, 0);
    }
    if Absent(aiText, "short_description") {
      AbsentNoMatch(aiText, "short_description", Quoted, 0);
      AbsentNoMatch(aiText, "short_description", Unquoted, 0);
    }
  }

  /** A reply listing its tags as `tags: [a, b, ...]`, with no `tags` earlier in it, yields
      exactly the listed tags, unquoted. */
  lemma TagListRead(aiText: string, style: string, i: nat, list: string)
    requires OccursAtIgnoringCase(aiText, "tags", i)
    requires forall j: nat :: j < i ==> !OccursAtIgnoringCase(aiText, "tags", j)
    requires i + 7 + |list| < |aiText| && aiText[i + 4..i + 7] == ": ["
    requires aiText[i + 7..i + 7 + |list|] == list && aiText[i + 7 + |list|] == ']'
    requires list != [] && Avoids(list, {']'})
    ensures GeminiFallbackParse(aiText, style).tags == GroupTags(list)
  {
    BracketedValueRead(aiText, "tags", i, list);
  }

  /** The Gemini reply parse inside `enhanceWithGemini`: the labelled reading with the model
      used, or the loose parser when it yields neither a description nor a tag. */
  function ParseGeminiResponse(aiText: string, style: string, model: string): (e: Enhancement)
    ensures LabelledDescription(aiText) != "" || LabelledTags(aiText) != [] ==>
              e == Described(LabelledDescription(aiText), LabelledTags(aiText), Some(model))
    ensures LabelledDescription(aiText) == "" && LabelledTags(aiText) == [] ==>
              e == GeminiFallbackParse(aiText, style)
    ensures forall t :: t in e.tags ==> t != [] && Avoids(t, {','})
  {
    var description := LabelledDescription(aiText);
    var tags := LabelledTags(aiText);
    if description == "" && tags == [] then GeminiFallbackParse(aiText, style)
    else
      Described(description, tags, Some(model))
  }

  // ---------------------------------------------------------------- the Gemini call

  const PreferredGeminiModel := "gemini-1.5-flash"
  const LastResortGeminiModel := "gemini-pro"
  const MissingGeminiKey := "Gemini API key is required"

  /** The model used: the requested one when the catalogue lists it, else `gemini-1.5-flash`
      when listed, else the first listed id, else `gemini-pro` (also when the first id is
      empty). */
  function ChooseGeminiModel(model: string, available: seq<string>): (chosen: string)
    ensures model in available ==> chosen == model
    ensures model !in available && PreferredGeminiModel in available ==> chosen == PreferredGeminiModel
    ensures model !in available && PreferredGeminiModel !in available ==>
              chosen == (if available != [] && available[0] != "" then available[0] else LastResortGeminiModel)
    ensures chosen in available || chosen == LastResortGeminiModel
  {
    if model in available then model
    else if PreferredGeminiModel in available then PreferredGeminiModel
    else if available != [] && available[0] != "" then available[0]
    else LastResortGeminiModel
  }

  /** `enhanceWithGemini` with the model list its catalogue call receives and the reply its
      request receives. */
  function EnhanceWithGemini(apiKey: string, style: string, model: string,
                             listed: Option<seq<string>>, reply: OpenAIApi.ChatReply)
    : (r: Result<Enhancement>)
    ensures apiKey == "" ==> r == Err(MissingGeminiKey)
    ensures var chosen := ChooseGeminiModel(model, Ids(FetchGeminiModels(apiKey, listed)));
            apiKey != "" ==>
              (reply.NetworkFailure? ==> r == Err(reply.error))
              && (reply.Answered? && !reply.ok ==>
                    r == Err(if OpenAIApi.OrEmpty(reply.errorMessage) != "" then reply.errorMessage.value
                             else "Error calling Gemini API with model " + chosen))
              && (reply.Answered? && reply.ok ==>
                    r == Ok(ParseGeminiResponse(OpenAIApi.OrEmpty(reply.content), style, chosen)))
    ensures r.Ok? ==> forall t :: t in r.value.tags ==> t != [] && Avoids(t, {','})
  {
    if apiKey == "" then Err(MissingGeminiKey)
    else
      var chosen := ChooseGeminiModel(model, Ids(FetchGeminiModels(apiKey, listed)));
      match reply
      case NetworkFailure(error) => Err(error)
      case Answered(ok, errorMessage, content) =>
        if !ok then
          Err(if OpenAIApi.OrEmpty(errorMessage) != "" then errorMessage.value
              else "Error calling Gemini API with model " + chosen)
        else Ok(ParseGeminiResponse(OpenAIApi.OrEmpty(content), style, chosen))
  }

  /** The model is always one the catalogue lists, unless its first id is empty: the catalogue
      is never empty. */
  lemma ChosenModelListed(apiKey: string, model: string, listed: Option<seq<string>>)
    ensures var available := Ids(FetchGeminiModels(apiKey, listed));
            var chosen := ChooseGeminiModel(model, available);
            chosen in available || (available[0] == "" && chosen == LastResortGeminiModel)
  {
  }

  // ---------------------------------------------------------------- the local fallback

  /** Title words that never become tags (compared in lower case). */
  const TitleCommonWords: seq<string> :=
    ["the", "and", "a", "an", "in", "on", "at", "to", "for", "with", "by", "of", "is", "are"]

  /** `\w`: ASCII letters, digits and the underscore. */
  predicate IsWordChar(c: char) {
    ('a' <= c <= 'z') || ('A' <= c <= 'Z') || ('0' <= c <= '9') || c == '_'
  }

  predicate IsTagWord(w: string) {
    |w| > 3 && forall k :: 0 <= k < |w| ==> IsWordChar(w[k]) && !('A' <= w[k] <= 'Z')
  }

  predicate IsTitleCandidate(w: string) {
    |w| > 3 && ToLowerAscii(w) !in TitleCommonWords
  }

  predicate IsLongEnough(w: string) {
    |w| > 3
  }

  /** `word.replace(/[^\w\s]/g, '').toLowerCase()` on a word without whitespace. */
  function TitleTag(w: string): (t: string)
    ensures forall k :: 0 <= k < |t| ==> IsWordChar(t[k]) && !('A' <= t[k] <= 'Z')
  {
    var kept := Filter(w, IsWordChar);
    assert forall k :: 0 <= k < |kept| ==> IsWordChar(kept[k]) by {
      forall k | 0 <= k < |kept| ensures IsWordChar(kept[k]) {
        assert kept[k] in kept;
      }
    }
    ToLowerAscii(kept)
  }

  function TitleTags(words: seq<string>): (r: seq<string>)
    ensures |r| == |words| && forall i :: 0 <= i < |r| ==> r[i] == TitleTag(words[i])
  {
    seq(|words|, i requires 0 <= i < |words| => TitleTag(words[i]))
  }

  /** Up to five tags from the title's words. */
  function PotentialTags(title: string): (tags: seq<string>)
    ensures |tags| <= 5 && forall t :: t in tags ==> IsTagWord(t)
  {
    var words := Filter(Split(title, SpaceRun), IsTitleCandidate);
    var kept := Filter(TitleTags(words), IsLongEnough);
    forall t | t in kept ensures IsTagWord(t) {
      var i :| 0 <= i < |TitleTags(words)| && TitleTags(words)[i] == t;
    }
    OpenAIApi.Take(kept, 5)
  }

  const FoundAt := " - A resource found at "

  /** `generateFallbackEnhancement`, with the host name the URL parser reads from the page URL
      (`None` when it throws, which the function does not catch). */
  function GenerateFallbackEnhancement(data: PageData, hostname: Option<string>): (e: Option<Enhancement>)
    ensures e.Some? <==> hostname.Some?
    ensures e.Some? ==>
              var domain := RemoveFirst(hostname.value, "www.");
              var v := e.value;
              v.Described? && v.model.None?
              && (data.description.Some? && |data.description.value| > 10 ==> v.description == data.description.value)
              && (data.description.None? || |data.description.value| <= 10 ==>
                    v.description == data.title + FoundAt + domain + ".")
              && v.tags != [] && v.tags[0] == Split(domain, OneOf({'.'}))[0]
              && |v.tags| <= 6 && NoDuplicates(v.tags)
              && forall t :: t in v.tags[1..] ==> IsTagWord(t)
  {
    match hostname
    case None => None
    case Some(host) =>
      var domain := RemoveFirst(host, "www.");
      var description :=
        if data.description.Some? && |data.description.value| > 10 then data.description.value
        else data.title + FoundAt + domain + ".";
      var first := Split(domain, OneOf({'.'}))[0];
      var potential := PotentialTags(data.title);
      var tags := Dedup([first] + potential);
      FallbackTags(first, potential);
      Some(Described(description, tags, None))
  }

  /** `[...new Set([first, ...rest])]` starts with `first`, holds at most one more element than
      `rest`, and every later element comes from `rest`. */
  lemma FallbackTags(first: string, rest: seq<string>)
    ensures var tags := Dedup([first] + rest);
            tags != [] && tags[0] == first && |tags| <= 1 + |rest| && NoDuplicates(tags)
            && forall t :: t in tags[1..] ==> t in rest
  {
    var tags := Dedup([first] + rest);
    DedupProperties([first] + rest);
    forall t | t in tags[1..] ensures t in rest {
      var i :| 1 <= i < |tags| && tags[i] == t;
      assert tags[i] != tags[0];
      assert t in [first] + rest;
    }
  }

  // ---------------------------------------------------------------- `enhanceWithAI`

  const DefaultProvider := "gemini"

  /** The provider's answer: the OpenAI call or the Gemini call with the stored key and model,
      or an error when the key is missing. */
  function ProviderAnswer(settings: Settings, data: PageData, style: string,
                          openaiReply: OpenAIApi.ChatReply, listed: Option<seq<string>>,
                          geminiReply: OpenAIApi.ChatReply): (r: Result<Enhancement>)
    ensures settings.modelProvider == "openai" && settings.openaiApiKey == "" ==>
              r == Err("OpenAI API key is required. Please configure it in settings.")
    ensures settings.modelProvider == "openai" && settings.openaiApiKey != "" ==>
              r == OpenAIApi.EnhanceWithOpenAI(data, settings.openaiApiKey, style,
                     if settings.openaiModel == "" then OpenAIApi.DefaultModel else settings.openaiModel,
                     openaiReply)
    ensures settings.modelProvider != "openai" && settings.geminiApiKey == "" ==>
              r == Err("Gemini API key is required. Please configure it in settings.")
    ensures settings.modelProvider != "openai" && settings.geminiApiKey != "" ==>
              r == EnhanceWithGemini(settings.geminiApiKey, style,
                     if settings.geminiModel == "" then LastResortGeminiModel else settings.geminiModel,
                     listed, geminiReply)
  {
    var provider := if settings.modelProvider == "" then DefaultProvider else settings.modelProvider;
    if provider == "openai" then
      if settings.openaiApiKey == "" then Err("OpenAI API key is required. Please configure it in settings.")
      else
        var model := if settings.openaiModel == "" then OpenAIApi.DefaultModel else settings.openaiModel;
        OpenAIApi.EnhanceWithOpenAI(data, settings.openaiApiKey, style, model, openaiReply)
    else
      if settings.geminiApiKey == "" then Err("Gemini API key is required. Please configure it in settings.")
      else
        var model := if settings.geminiModel == "" then LastResortGeminiModel else settings.geminiModel;
        EnhanceWithGemini(settings.geminiApiKey, style, model, listed, geminiReply)
  }

  /** `enhanceWithAI`: the provider's enhancement when it succeeds, else the local fallback
      (`None` when that throws too). */
  function EnhanceWithAI(stored: Option<Settings>, data: PageData, style: string,
                         openaiReply: OpenAIApi.ChatReply, listed: Option<seq<string>>,
                         geminiReply: OpenAIApi.ChatReply, hostname: Option<string>): (e: Option<Enhancement>)
    ensures var settings := if stored.Some? then stored.value else NoSettings;
            var answer := ProviderAnswer(settings, data, style, openaiReply, listed, geminiReply);
            (answer.Ok? ==> e == Some(answer.value))
            && (answer.Err? ==> e == GenerateFallbackEnhancement(data, hostname))
  {
    var settings := if stored.Some? then stored.value else NoSettings;
    match ProviderAnswer(settings, data, style, openaiReply, listed, geminiReply)
    case Ok(content) => Some(content)
    case Err(_) => GenerateFallbackEnhancement(data, hostname)
  }

  /** Without stored settings the Gemini path is taken without a key, so the enhancement is
      always the local fallback. */
  lemma NoSettingsFallsBack(data: PageData, style: string, openaiReply: OpenAIApi.ChatReply,
                            listed: Option<seq<string>>, geminiReply: OpenAIApi.ChatReply,
                            hostname: Option<string>)
    ensures EnhanceWithAI(None, data, style, openaiReply, listed, geminiReply, hostname)
            == GenerateFallbackEnhancement(data, hostname)
  {
  }
}
