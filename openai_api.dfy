/**
 * The OpenAI helper (src/utils/openai-api.js): the system prompt for each enhancement style,
 * the labelled reading of a reply, and the fallback reading used when that finds nothing:
 * the first 80% of the reply as description, tags from hashtags or a keyword list in the rest,
 * and otherwise the most frequent words of the description.
 */
module OpenAIApi {
  import opened Common
  import opened Text
  import opened Sorting
  import opened Records
  import opened LabelledResponse

  // ---------------------------------------------------------------- prompts

  const BasePrompt := "You are an AI assistant that improves web page descriptions and generates relevant tags. "

  const DetailedInstructions :=
    "Provide a comprehensive analysis of the webpage with 150-200 words. \n"
    + "Generate 8-12 relevant tags that categorize the content effectively. \n"
    + "Format your response with \"Description:\" followed by the detailed analysis, and \"Tags:\" followed by comma-separated tags."

  const KeyPointsInstructions :=
    "Extract 4-6 key points from the webpage content and format them as bullet points. \n"
    + "Generate 6-8 relevant tags that highlight the main topics. \n"
    + "Format your response with \"Description:\" followed by the bullet points (using \U{00E2}\U{20AC}\U{00A2} as the bullet character), and \"Tags:\" followed by comma-separated tags."

  const TechnicalInstructions :=
    "Focus on technical specifications, features, and capabilities mentioned on the webpage. \n"
    + "Provide a technical summary of 100-150 words.\n"
    + "Generate 6-10 technical tags related to technologies, methods, or specifications.\n"
    + "Format your response with \"Description:\" followed by the technical summary, and \"Tags:\" followed by comma-separated tags."

  const StandardInstructions :=
    "Provide a concise summary of the webpage content in 80-120 words. \n"
    + "Generate 5-8 relevant tags that accurately represent the content. \n"
    + "Format your response with \"Description:\" followed by the summary, and \"Tags:\" followed by comma-separated tags."

  /** The instructions for a style; any style other than the three named ones gets the
      standard instructions. */
  function Instructions(style: string): string {
    if style == "detailed" then DetailedInstructions
    else if style == "key-points" then KeyPointsInstructions
    else if style == "technical" then TechnicalInstructions
    else StandardInstructions
  }

  /** `getSystemPromptForStyle`: the shared opening sentence, then the style's instructions. */
  function SystemPrompt(style: string): (prompt: string)
    ensures |BasePrompt| <= |prompt| && prompt[..|BasePrompt|] == BasePrompt
    ensures prompt[|BasePrompt|..] == Instructions(style)
  {
    BasePrompt + Instructions(style)
  }

  /** A style the helper does not know is treated as `standard`. */
  lemma UnknownStyleIsStandard(style: string)
    requires style != "detailed" && style != "key-points" && style != "technical"
    ensures SystemPrompt(style) == SystemPrompt("standard")
  {
  }

  // ---------------------------------------------------------------- hashtags and keyword lists

  predicate IsAsciiAlnum(c: char) {
    ('a' <= c <= 'z') || ('A' <= c <= 'Z') || ('0' <= c <= '9')
  }

  predicate AllAlnum(t: string) {
    forall k :: 0 <= k < |t| ==> IsAsciiAlnum(t[k])
  }

  /** Length of the run of letters and digits that starts at `i`. */
  function AlnumRunLength(s: string, i: nat): (n: nat)
    requires i <= |s|
    ensures i + n <= |s| && AllAlnum(s[i..i + n])
    ensures i + n == |s| || !IsAsciiAlnum(s[i + n])
    decreases |s| - i
  {
    if i == |s| || !IsAsciiAlnum(s[i]) then 0
    else
      var n := AlnumRunLength(s, i + 1);
      assert s[i..i + 1 + n] == [s[i]] + s[i + 1..i + 1 + n];
      1 + n
  }

  /** `#` followed by a letter or digit: a position where `/#[a-zA-Z0-9]+/` matches. */
  predicate HashAt(s: string, j: nat) {
    j + 1 < |s| && s[j] == '#' && IsAsciiAlnum(s[j + 1])
  }

  /** The matches of `/#[a-zA-Z0-9]+/g` from `i` on, each without its `#`. */
  function HashtagsFrom(s: string, i: nat): (tags: seq<string>)
    requires i <= |s|
    ensures forall t :: t in tags ==> t != [] && AllAlnum(t)
    decreases |s| - i
  {
    if i == |s| then []
    else if s[i] == '#' && AlnumRunLength(s, i + 1) > 0 then
      var n := AlnumRunLength(s, i + 1);
      [s[i + 1..i + 1 + n]] + HashtagsFrom(s, i + 1 + n)
    else HashtagsFrom(s, i + 1)
  }

  function Hashtags(s: string): (tags: seq<string>)
    ensures forall t :: t in tags ==> t != [] && AllAlnum(t)
    // tags are found exactly when some `#` is followed by a letter or digit
    ensures tags == [] <==> forall j: nat :: !HashAt(s, j)
  {
    NoHashtagsFrom(s, 0);
    HashtagsFrom(s, 0)
  }

  /** No tag is found from `i` on exactly when no `#` from `i` on is followed by a letter or
      digit. */
  lemma {:induction false} NoHashtagsFrom(s: string, i: nat)
    requires i <= |s|
    ensures HashtagsFrom(s, i) == [] <==> forall j: nat :: i <= j ==> !HashAt(s, j)
    decreases |s| - i
  {
    if i < |s| {
      if HashAt(s, i) {
        assert AlnumRunLength(s, i + 1) > 0;
      } else {
        assert !(s[i] == '#' && AlnumRunLength(s, i + 1) > 0);
        NoHashtagsFrom(s, i + 1);
      }
    }
  }

  /** The first tag found from `i` on is the run after the first `#` followed by a letter or
      digit, and the search resumes after that run. */
  lemma {:induction false} FirstHashtag(s: string, i: nat, j: nat)
    requires i <= j && HashAt(s, j)
    requires forall k: nat :: i <= k < j ==> !HashAt(s, k)
    ensures var n := AlnumRunLength(s, j + 1);
            n > 0 && HashtagsFrom(s, i) == [s[j + 1..j + 1 + n]] + HashtagsFrom(s, j + 1 + n)
    decreases j - i
  {
    if i < j {
      assert !HashAt(s, i);
      assert !(s[i] == '#' && AlnumRunLength(s, i + 1) > 0);
      FirstHashtag(s, i + 1, j);
    } else {
      assert AlnumRunLength(s, j + 1) > 0;
    }
  }

  /** The alternatives of `/keywords?:|tags?:|topics?:/i`, in the order the regular expression
      tries them (a greedy `s?` tries the plural first). */
  const KeywordForms: seq<string> := ["keywords:", "keyword:", "tags:", "tag:", "topics:", "topic:"]

  /** The first of `forms` that matches at `i`, ignoring case. */
  function FormAt(s: string, i: nat, forms: seq<string>): (form: Option<string>)
    ensures form.Some? ==> form.value in forms && OccursAtIgnoringCase(s, form.value, i)
    ensures form.None? ==> forall f :: f in forms ==> !OccursAtIgnoringCase(s, f, i)
  {
    if forms == [] then None
    else if OccursAtIgnoringCase(s, forms[0], i) then Some(forms[0])
    else FormAt(s, i, forms[1..])
  }

  /** Whether some form matches at a position depends only on the text there. */
  lemma FormAtSameText(s: string, i: nat, j: nat, forms: seq<string>, form: string)
    requires form in forms && OccursAtIgnoringCase(s, form, i)
    requires j + |form| <= |s| && s[j..j + |form|] == s[i..i + |form|]
    ensures FormAt(s, j, forms).Some?
  {
    forall k | 0 <= k < |form| ensures LowerAscii(s[j + k]) == form[k] {
      assert s[j + k] == s[j..j + |form|][k] == s[i..i + |form|][k] == s[i + k];
    }
    assert OccursAtIgnoringCase(s, form, j);
  }

  /** The leftmost match of one of `forms` from `i` on: its position and form. */
  function FirstForm(s: string, i: nat, forms: seq<string>): (m: Option<(nat, string)>)
    requires i <= |s|
    ensures m.Some? ==> i <= m.value.0 < |s| && FormAt(s, m.value.0, forms) == Some(m.value.1)
    ensures m.Some? ==> forall j :: i <= j < m.value.0 ==> FormAt(s, j, forms).None?
    ensures m.None? ==> forall j :: i <= j < |s| ==> FormAt(s, j, forms).None?
    decreases |s| - i
  {
    if i == |s| then None
    else match FormAt(s, i, forms)
      case Some(form) => Some((i, form))
      case None => FirstForm(s, i + 1, forms)
  }

  /** `remaining.indexOf(match) + match.length`, where `match` is the matched text. */
  function KeywordStart(remaining: string, pos: nat, form: string): int
    requires pos + |form| <= |remaining|
  {
    match IndexOf(remaining, remaining[pos..pos + |form|], 0)
    case Some(j) => j + |form|
    case None => |form| - 1   // `indexOf` returned -1
  }

  /** The matched text occurs first where the expression matched, so the keyword list starts
      right after the match. */
  lemma KeywordStartAfterMatch(remaining: string, forms: seq<string>)
    requires FirstForm(remaining, 0, forms).Some?
    ensures var (pos, form) := FirstForm(remaining, 0, forms).value;
            pos + |form| <= |remaining| && KeywordStart(remaining, pos, form) == pos + |form|
  {
    var (pos, form) := FirstForm(remaining, 0, forms).value;
    var text := remaining[pos..pos + |form|];
    assert OccursAt(remaining, text, pos);
    forall j | 0 <= j < pos ensures !OccursAt(remaining, text, j) {
      if OccursAt(remaining, text, j) {
        FormAtSameText(remaining, pos, j, forms, form);
      }
    }
    FirstOccurrence(remaining, text, 0, pos);
  }

  /** The tags listed after a keyword: the rest of the text split on `,` or `;`, trimmed and
      non-empty. */
  function KeywordTags(remaining: string): (tags: seq<string>)
    ensures forall t :: t in tags ==> t != [] && Avoids(t, {',', ';'})
  {
    match FirstForm(remaining, 0, KeywordForms)
    case None => []
    case Some((pos, form)) =>
      KeywordStartAfterMatch(remaining, KeywordForms);
      var start := KeywordStart(remaining, pos, form);
      CleanPieces(Trim(remaining[start..]), {',', ';'})
  }

  /** The tags the last part of the reply offers: its hashtags if any, else a keyword list. */
  function OfferedTags(remaining: string): (tags: seq<string>)
    ensures forall t :: t in tags ==> t != [] && ',' !in t
    ensures Hashtags(remaining) != [] ==> tags == Hashtags(remaining)
    ensures Hashtags(remaining) == [] ==> tags == KeywordTags(remaining)
  {
    var hashtags := Hashtags(remaining);
    if hashtags != [] then
      assert forall t :: t in hashtags ==> ',' !in t by {
        forall t | t in hashtags ensures ',' !in t {
          assert AllAlnum(t);
        }
      }
      hashtags
    else
      var listed := KeywordTags(remaining);
      assert forall t :: t in listed ==> ',' !in t by {
        forall t | t in listed ensures ',' !in t {
          assert Avoids(t, {',', ';'});
        }
      }
      listed
  }

  // ---------------------------------------------------------------- word frequencies

  const CommonWords: seq<string> :=
    ["this", "that", "with", "from", "have", "what", "which", "their", "about", "would", "these", "there"]

  predicate IsLongWord(w: string) {
    |w| >= 4
  }

  predicate IsUncommon(w: string) {
    w !in CommonWords
  }

  /** `word.replace(/[^a-zA-Z0-9]/g, '').toLowerCase()`; only ASCII letters remain to lower. */
  function Normalize(w: string): (r: string)
    ensures |r| <= |w| && AllAlnum(r)
  {
    var kept := Filter(w, IsAsciiAlnum);
    var r := ToLowerAscii(kept);
    assert forall k :: 0 <= k < |kept| ==> IsAsciiAlnum(kept[k]) by {
      forall k | 0 <= k < |kept| ensures IsAsciiAlnum(kept[k]) {
        assert kept[k] in kept;
      }
    }
    r
  }

  function NormalizeAll(ws: seq<string>): (r: seq<string>)
    ensures |r| == |ws| && forall i :: 0 <= i < |ws| ==> r[i] == Normalize(ws[i])
  {
    seq(|ws|, i requires 0 <= i < |ws| => Normalize(ws[i]))
  }

  /** The words the source counts: whitespace-separated words of at least four characters,
      normalised, that are not common words. A word made only of punctuation normalises to
      the empty string and is kept. */
  function CandidateWordsAsWritten(description: string): (words: seq<string>)
    ensures forall w :: w in words ==> AllAlnum(w) && w !in CommonWords
  {
    Filter(NormalizeAll(Filter(Split(description, SpaceRun), IsLongWord)), IsUncommon)
  }

  /** The counted words as the comment above the filter describes them: words that still have
      at least four characters once normalised and are not common words. */
  function CandidateWords(description: string): (words: seq<string>)
    ensures forall w :: w in words ==> |w| >= 4 && AllAlnum(w) && w !in CommonWords
    // the correction only narrows the count: every word counted here is counted as written
    ensures forall w :: w in words ==> w in CandidateWordsAsWritten(description)
  {
    var pieces := Split(description, SpaceRun);
    var words := Filter(Filter(NormalizeAll(pieces), IsLongWord), IsUncommon);
    CorrectedWordsWritten(pieces, words);
    words
  }

  /** A piece that is long once normalised was long before, so its normal form is also among
      the as-written words. */
  lemma CorrectedWordsWritten(pieces: seq<string>, words: seq<string>)
    requires words == Filter(Filter(NormalizeAll(pieces), IsLongWord), IsUncommon)
    ensures forall w :: w in words ==> |w| >= 4 && AllAlnum(w) && w !in CommonWords
    ensures forall w :: w in words ==> w in Filter(NormalizeAll(Filter(pieces, IsLongWord)), IsUncommon)
  {
    var long := Filter(pieces, IsLongWord);
    forall w | w in words
      ensures |w| >= 4 && AllAlnum(w) && w !in CommonWords && w in NormalizeAll(long)
    {
      assert w in Filter(NormalizeAll(pieces), IsLongWord);
      var i :| 0 <= i < |pieces| && NormalizeAll(pieces)[i] == w;
      assert w == Normalize(pieces[i]);
      assert pieces[i] in long;
      var j :| 0 <= j < |long| && long[j] == pieces[i];
      assert NormalizeAll(long)[j] == w;
    }
  }

  predicate IsDigit(c: char) {
    '0' <= c <= '9'
  }

  /** A property key that is an array index (the canonical decimal form of an integer below
      2^32 - 1); such keys come first in `Object.entries`, in numeric order. */
  predicate IsArrayIndex(k: string) {
    0 < |k| <= 10
    && (forall i :: 0 <= i < |k| ==> IsDigit(k[i]))
    && (k[0] != '0' || |k| == 1)
    && (|k| == 10 ==> k != "4294967295" && LexLe(k, "4294967295"))
  }

  predicate IsNamedKey(k: string) {
    !IsArrayIndex(k)
  }

  /** Numeric order on canonical decimal numerals: shorter first, then character order. */
  predicate IndexLe(a: string, b: string) {
    |a| < |b| || (|a| == |b| && LexLe(a, b))
  }

  lemma IndexLeOrders(s: seq<string>)
    ensures TotalOn(s, IndexLe) && TransitiveOn(s, IndexLe)
  {
    forall a, b | a in s && b in s ensures IndexLe(a, b) || IndexLe(b, a) {
      LexLeTotal(a, b);
    }
    forall a, b, c | a in s && b in s && c in s && IndexLe(a, b) && IndexLe(b, c)
      ensures IndexLe(a, c)
    {
      if |a| == |b| == |c| {
        LexLeTransitive(a, b, c);
      }
    }
  }

  /** The key order of `Object.entries` on an object whose keys were added in the order
      `keys`: array indices ascending, then the other keys in insertion order. */
  function EntryOrder(keys: seq<string>): (ordered: seq<string>)
    ensures multiset(ordered) == multiset(keys)
  {
    FilterPartition(keys, IsArrayIndex, IsNamedKey);
    SortBy(Filter(keys, IsArrayIndex), IndexLe) + Filter(keys, IsNamedKey)
  }

  /** One `[word, count]` pair of `Object.entries(wordCounts)`. */
  datatype Entry = Entry(word: string, count: nat)

  /** The sort's comparison `b[1] - a[1]`, as "may precede": higher counts first. */
  predicate CountGe(a: Entry, b: Entry) {
    a.count >= b.count
  }

  /** Each distinct word with the number of times it occurs, in `Object.entries` order. */
  function Entries(words: seq<string>): (entries: seq<Entry>)
    ensures |entries| == |EntryOrder(Dedup(words))|
    ensures forall i :: 0 <= i < |entries| ==>
              entries[i] == Entry(EntryOrder(Dedup(words))[i], multiset(words)[EntryOrder(Dedup(words))[i]])
  {
    var keys := EntryOrder(Dedup(words));
    seq(|keys|, i requires 0 <= i < |keys| => Entry(keys[i], multiset(words)[keys[i]]))
  }

  /** At most this many tags are returned. */
  const MaxTags: nat := 8

  function Take<T>(s: seq<T>, n: nat): (r: seq<T>)
    ensures |r| <= n && |r| <= |s| && r == s[..|r|]
    ensures |s| <= n ==> r == s
    ensures |s| > n ==> |r| == n
  {
    if |s| <= n then s else s[..n]
  }

  function WordsOf(entries: seq<Entry>): (words: seq<string>)
    ensures |words| == |entries| && forall i :: 0 <= i < |words| ==> words[i] == entries[i].word
  {
    seq(|entries|, i requires 0 <= i < |entries| => entries[i].word)
  }

  /** The entries, most frequent first, as the sort leaves them. */
  function SortedEntries(words: seq<string>): seq<Entry> {
    SortBy(Entries(words), CountGe)
  }

  /** The eight most frequent words, most frequent first; ties keep `Object.entries` order. */
  function FrequencyTags(words: seq<string>): seq<string> {
    WordsOf(Take(SortedEntries(words), MaxTags))
  }

  /** Every entry pairs a word of the list with its number of occurrences, every word of the
      list has its entry, and no entry repeats. */
  lemma EntriesFacts(words: seq<string>)
    ensures forall e :: e in Entries(words) ==> e.word in words && e.count == multiset(words)[e.word]
    ensures forall w :: w in words ==> Entry(w, multiset(words)[w]) in Entries(words)
    ensures NoDuplicates(Entries(words))
  {
    EntryWords(words);
    EveryWordEntered(words);
    EntriesDistinct(words);
  }

  lemma EntryWords(words: seq<string>)
    ensures forall e :: e in Entries(words) ==> e.word in words && e.count == multiset(words)[e.word]
  {
    var keys := EntryOrder(Dedup(words));
    var entries := Entries(words);
    DedupProperties(words);
    forall e | e in entries ensures e.word in words && e.count == multiset(words)[e.word] {
      var i :| 0 <= i < |entries| && entries[i] == e;
      assert keys[i] in multiset(Dedup(words));
    }
  }

  lemma EveryWordEntered(words: seq<string>)
    ensures forall w :: w in words ==> Entry(w, multiset(words)[w]) in Entries(words)
  {
    var keys := EntryOrder(Dedup(words));
    var entries := Entries(words);
    DedupProperties(words);
    forall w | w in words ensures Entry(w, multiset(words)[w]) in entries {
      assert w in multiset(keys);
      var i :| 0 <= i < |keys| && keys[i] == w;
      assert entries[i] == Entry(w, multiset(words)[w]);
    }
  }

  lemma EntriesDistinct(words: seq<string>)
    ensures NoDuplicates(Entries(words))
  {
    var keys := EntryOrder(Dedup(words));
    var entries := Entries(words);
    DedupProperties(words);
    NoDuplicatesCounts(Dedup(words));
    NoDuplicatesCounts(keys);
    forall i, j | 0 <= i < j < |entries| ensures entries[i] != entries[j] {
      assert keys[i] != keys[j];
    }
  }

  /** The entries sorted by count keep those facts, and their counts do not increase. */
  lemma SortedEntriesFacts(words: seq<string>)
    ensures var sorted := SortedEntries(words);
            (forall e :: e in sorted ==> e.word in words && e.count == multiset(words)[e.word])
            && (forall w :: w in words ==> Entry(w, multiset(words)[w]) in sorted)
            && (forall i, j :: 0 <= i < j < |sorted| ==> sorted[i].word != sorted[j].word)
            && (forall i, j :: 0 <= i < j < |sorted| ==> sorted[i].count >= sorted[j].count)
  {
    SortedEntryWords(words);
    SortedWordsDistinctOf(words);
    SortedCountsDescend(words);
  }

  lemma SortedEntryWords(words: seq<string>)
    ensures forall e :: e in SortedEntries(words) ==> e.word in words && e.count == multiset(words)[e.word]
    ensures forall w :: w in words ==> Entry(w, multiset(words)[w]) in SortedEntries(words)
  {
    EntryWords(words);
    EveryWordEntered(words);
    SameMembers(Entries(words), SortedEntries(words));
  }

  lemma SortedWordsDistinctOf(words: seq<string>)
    ensures var sorted := SortedEntries(words);
            forall i, j :: 0 <= i < j < |sorted| ==> sorted[i].word != sorted[j].word
  {
    EntryWords(words);
    EntriesDistinct(words);
    SortedWordsDistinct(words, Entries(words), SortedEntries(words));
  }

  lemma SortedCountsDescend(words: seq<string>)
    ensures var sorted := SortedEntries(words);
            forall i, j :: 0 <= i < j < |sorted| ==> sorted[i].count >= sorted[j].count
  {
    SortBySorted(Entries(words), CountGe);
    SortedPairwise(SortedEntries(words), CountGe);
  }

  /** Lists with the same multiset have the same members. */
  lemma SameMembers(xs: seq<Entry>, ys: seq<Entry>)
    requires multiset(xs) == multiset(ys)
    ensures forall e :: e in xs <==> e in ys
  {
    forall e ensures e in xs <==> e in ys {
      assert e in xs <==> e in multiset(xs);
      assert e in ys <==> e in multiset(ys);
    }
  }

  /** Two entries of a permutation of distinct entries with the right counts hold different
      words. */
  lemma SortedWordsDistinct(words: seq<string>, entries: seq<Entry>, sorted: seq<Entry>)
    requires multiset(sorted) == multiset(entries) && NoDuplicates(entries)
    requires forall e :: e in entries ==> e.count == multiset(words)[e.word]
    ensures forall i, j :: 0 <= i < j < |sorted| ==> sorted[i].word != sorted[j].word
  {
    NoDuplicatesCounts(entries);
    NoDuplicatesCounts(sorted);
    SameMembers(entries, sorted);
    forall i, j | 0 <= i < j < |sorted| ensures sorted[i].word != sorted[j].word {
      assert sorted[i] in sorted && sorted[j] in sorted;
    }
  }

  /** The frequency tags are the words of the first entries of the sorted list. */
  lemma TopEntries(words: seq<string>)
    ensures var sorted := SortedEntries(words);
            var tags := FrequencyTags(words);
            |tags| <= MaxTags && |tags| <= |sorted|
            && (|tags| < |sorted| ==> |tags| == MaxTags)
            && forall i :: 0 <= i < |tags| ==> tags[i] == sorted[i].word
  {
  }

  /** The frequency tags are distinct words of the list, in non-increasing order of count,
      and any word left out occurs no more often than every word chosen. */
  lemma FrequencyTagsProperties(words: seq<string>)
    ensures var tags := FrequencyTags(words);
            |tags| <= MaxTags && NoDuplicates(tags)
            && (forall t :: t in tags ==> t in words)
            && (forall i, j :: 0 <= i < j < |tags| ==> multiset(words)[tags[i]] >= multiset(words)[tags[j]])
            && (forall w :: w in words && w !in tags ==>
                  |tags| == MaxTags && forall t :: t in tags ==> multiset(words)[t] >= multiset(words)[w])
  {
    TopEntries(words);
    TagsDistinct(words);
    TagsAreWords(words);
    TagCountsDescend(words);
    TagsLeaveOutLess(words);
  }

  lemma TagsDistinct(words: seq<string>)
    ensures NoDuplicates(FrequencyTags(words))
  {
    TopEntries(words);
    SortedWordsDistinctOf(words);
  }

  lemma TagsAreWords(words: seq<string>)
    ensures forall t :: t in FrequencyTags(words) ==> t in words
  {
    var sorted := SortedEntries(words);
    var tags := FrequencyTags(words);
    TopEntries(words);
    SortedEntryWords(words);
    forall t | t in tags ensures t in words {
      var i :| 0 <= i < |tags| && tags[i] == t;
      assert sorted[i] in sorted;
    }
  }

  lemma TagCountsDescend(words: seq<string>)
    ensures var tags := FrequencyTags(words);
            forall i, j :: 0 <= i < j < |tags| ==> multiset(words)[tags[i]] >= multiset(words)[tags[j]]
  {
    var sorted := SortedEntries(words);
    var tags := FrequencyTags(words);
    TopEntries(words);
    SortedEntryWords(words);
    SortedCountsDescend(words);
    forall i, j | 0 <= i < j < |tags| ensures multiset(words)[tags[i]] >= multiset(words)[tags[j]] {
      assert sorted[i] in sorted && sorted[j] in sorted;
    }
  }

  lemma TagsLeaveOutLess(words: seq<string>)
    ensures var tags := FrequencyTags(words);
            forall w :: w in words && w !in tags ==>
              |tags| == MaxTags && forall t :: t in tags ==> multiset(words)[t] >= multiset(words)[w]
  {
    var sorted := SortedEntries(words);
    var tags := FrequencyTags(words);
    TopEntries(words);
    SortedEntryWords(words);
    SortedCountsDescend(words);
    forall w | w in words && w !in tags
      ensures |tags| == MaxTags && forall t :: t in tags ==> multiset(words)[t] >= multiset(words)[w]
    {
      LeftOut(words, sorted, tags, w);
    }
  }

  /** A word whose entry lies past the chosen ones counts no more than any chosen word. */
  lemma LeftOut(words: seq<string>, sorted: seq<Entry>, tags: seq<string>, w: string)
    requires forall e :: e in sorted ==> e.word in words && e.count == multiset(words)[e.word]
    requires Entry(w, multiset(words)[w]) in sorted
    requires forall i, j :: 0 <= i < j < |sorted| ==> sorted[i].count >= sorted[j].count
    requires |tags| <= MaxTags && |tags| <= |sorted| && (|tags| < |sorted| ==> |tags| == MaxTags)
    requires forall i :: 0 <= i < |tags| ==> tags[i] == sorted[i].word
    requires w !in tags
    ensures |tags| == MaxTags && forall t :: t in tags ==> multiset(words)[t] >= multiset(words)[w]
  {
    var p :| 0 <= p < |sorted| && sorted[p] == Entry(w, multiset(words)[w]);
    forall t | t in tags ensures multiset(words)[t] >= multiset(words)[w] {
      var i :| 0 <= i < |tags| && tags[i] == t;
      assert sorted[i] in sorted;
    }
  }

  // ---------------------------------------------------------------- the fallback reading

  /** Where the text is cut: `Math.floor(text.length * 0.8)`. */
  function SplitPoint(text: string): (n: nat)
    ensures n <= |text| && 5 * n <= 4 * |text| < 5 * (n + 1)
  {
    (|text| * 4) / 5
  }

  /** The fallback reading with the given choice of counted words. */
  function FallbackWith(aiText: string, candidates: string -> seq<string>): (e: Enhancement)
    ensures e.Described? && e.model.None? && |e.tags| <= MaxTags
    ensures var text := Trim(aiText);
            e.description == Trim(text[..SplitPoint(text)])
            && (OfferedTags(text[SplitPoint(text)..]) != [] ==>
                  e.tags == Take(OfferedTags(text[SplitPoint(text)..]), MaxTags))
            && (OfferedTags(text[SplitPoint(text)..]) == [] ==>
                  e.tags == FrequencyTags(candidates(e.description)))
  {
    var text := Trim(aiText);
    var split := SplitPoint(text);
    var description := Trim(text[..split]);
    var offered := OfferedTags(text[split..]);
    var tags := if offered != [] then offered else FrequencyTags(candidates(description));
    Described(description, Take(tags, MaxTags), None)
  }

  /** `fallbackResponseParsing` as written: punctuation-only words count as the empty word. */
  function FallbackParseAsWritten(aiText: string): (e: Enhancement)
    ensures e.Described? && |e.tags| <= MaxTags
    ensures forall t :: t in e.tags ==> ',' !in t
  {
    var e := FallbackWith(aiText, CandidateWordsAsWritten);
    FallbackTagsAsWritten(aiText, e);
    e
  }

  /** The as-written fallback's tags are free of commas, though a frequency tag may be empty. */
  lemma FallbackTagsAsWritten(aiText: string, e: Enhancement)
    requires e == FallbackWith(aiText, CandidateWordsAsWritten)
    ensures forall t :: t in e.tags ==> ',' !in t
  {
    var text := Trim(aiText);
    var offered := OfferedTags(text[SplitPoint(text)..]);
    var words := CandidateWordsAsWritten(e.description);
    TakeKeeps(offered, MaxTags);
    TagsAreWords(words);
    AlnumWordsCommaFree(words);
  }

  /** `fallbackResponseParsing` with empty words left out of the count. */
  function FallbackParse(aiText: string): (e: Enhancement)
    ensures e.Described? && |e.tags| <= MaxTags
    ensures forall t :: t in e.tags ==> t != [] && ',' !in t
  {
    var e := FallbackWith(aiText, CandidateWords);
    FallbackTags(aiText, e);
    e
  }

  /** The tags the fallback reading returns are non-empty and free of commas, whichever
      source they come from. */
  lemma FallbackTags(aiText: string, e: Enhancement)
    requires e == FallbackWith(aiText, CandidateWords)
    ensures forall t :: t in e.tags ==> t != [] && ',' !in t
  {
    var text := Trim(aiText);
    var offered := OfferedTags(text[SplitPoint(text)..]);
    var words := CandidateWords(e.description);
    TakeKeeps(offered, MaxTags);
    TagsAreWords(words);
    AlnumWordsClean(words);
  }

  /** `slice(0, n)` keeps only members of the list. */
  lemma TakeKeeps(xs: seq<string>, n: nat)
    ensures forall x :: x in Take(xs, n) ==> x in xs
  {
    forall x | x in Take(xs, n) ensures x in xs {
      var i :| 0 <= i < |Take(xs, n)| && Take(xs, n)[i] == x;
      assert xs[i] == x;
    }
  }

  /** Words of letters and digits hold no comma. */
  lemma AlnumWordsCommaFree(words: seq<string>)
    requires forall w :: w in words ==> AllAlnum(w)
    ensures forall w :: w in words ==> ',' !in w
  {
  }

  /** Candidate words hold no comma. */
  lemma AlnumWordsClean(words: seq<string>)
    requires forall w :: w in words ==> w != [] && AllAlnum(w)
    ensures forall w :: w in words ==> w != [] && ',' !in w
  {
  }

  /** A reply of five dashes: the description is four dashes, which normalise to the empty
      word, and the as-written fallback returns it as the only tag. */
  lemma EmptyTagAsWritten(aiText: string)
    requires aiText == "-----"
    ensures FallbackParseAsWritten(aiText).tags == [""]
    ensures FallbackParse(aiText).tags == []
  {
    DashesCut(aiText);
    DashesRemainder(aiText[4..]);
    DashesWords(Trim(aiText[..4]));
    OneEmptyWord([""]);
    NoWords([]);
  }

  /** The reply `-----` carries neither label, so `parseOpenAIResponse` falls back and returns
      the empty word as its only tag. */
  lemma EmptyTagParsed(aiText: string)
    requires aiText == "-----"
    ensures ParseOpenAIResponse(aiText).tags == [""]
  {
    assert |DescriptionLabel| > |aiText|;
    forall i: nat ensures !OccursAt(aiText, TagsLabel, i) {
      if i == 0 {
        assert aiText[0] != TagsLabel[0];
      }
    }
    EmptyTagAsWritten(aiText);
  }

  /** Five dashes are already trimmed; the cut falls after the fourth. */
  lemma DashesCut(aiText: string)
    requires aiText == "-----"
    ensures Trim(aiText) == aiText && SplitPoint(aiText) == 4
    ensures Trim(aiText[..4]) == "----" && aiText[4..] == "-"
  {
    assert IsTrimmed(aiText);
    assert aiText[..4] == "----" && IsTrimmed("----");
  }

  /** A lone dash offers no hashtag and no keyword. */
  lemma DashesRemainder(remaining: string)
    requires remaining == "-"
    ensures OfferedTags(remaining) == []
  {
    assert HashtagsFrom(remaining, 1) == [];
    assert FormAt(remaining, 0, KeywordForms) == None by {
      forall f | f in KeywordForms ensures !OccursAtIgnoringCase(remaining, f, 0) {
        assert |f| > 1;
      }
    }
    assert FirstForm(remaining, 1, KeywordForms) == None;
  }

  /** Four dashes form one long word that normalises to the empty word. */
  lemma DashesWords(description: string)
    requires description == "----"
    ensures CandidateWordsAsWritten(description) == [""]
    ensures CandidateWords(description) == []
  {
    SplitWithoutSpace(description, 0);
    assert Filter([description], IsLongWord) == [description];
    FilterNone(description, IsAsciiAlnum);
    assert Normalize(description) == "";
    assert NormalizeAll([description]) == [""];
    assert Filter([""], IsUncommon) == [""];
    assert Filter([""], IsLongWord) == [];
  }

  /** Filtering keeps nothing when no element passes. */
  lemma {:induction false} FilterNone<T(!new)>(xs: seq<T>, keep: T -> bool)
    requires forall k :: 0 <= k < |xs| ==> !keep(xs[k])
    ensures Filter(xs, keep) == []
  {
    if xs != [] {
      FilterNone(xs[1..], keep);
    }
  }

  /** A text without whitespace splits on `/\s+/` to itself. */
  lemma {:induction false} SplitWithoutSpace(s: string, q: nat)
    requires q <= |s|
    requires forall k :: 0 <= k < |s| ==> !IsSpace(s[k])
    ensures SplitFrom(s, SpaceRun, 0, q) == [s]
    decreases |s| - q
  {
    if q < |s| {
      SplitWithoutSpace(s, q + 1);
    }
  }

  /** The empty word once is the only frequency tag. */
  lemma OneEmptyWord(words: seq<string>)
    requires words == [""]
    ensures FrequencyTags(words) == [""]
  {
    assert Dedup(words) == [""];
    assert !IsArrayIndex("");
    assert Filter([""], IsArrayIndex) == [] && Filter([""], IsNamedKey) == [""];
    assert EntryOrder([""]) == [""];
    assert Entries(words) == [Entry("", 1)];
    assert SortBy([Entry("", 1)], CountGe) == [Entry("", 1)];
  }

  /** No words, no frequency tags. */
  lemma NoWords(words: seq<string>)
    requires words == []
    ensures FrequencyTags(words) == []
  {
    assert Entries(words) == [];
  }

  /** `wordCounts`, built as the source builds it: one pass over the words, adding a key with
      count 1 on a word's first occurrence and incrementing it afterwards. `keys` records the
      keys in insertion order. */
  method CountWords(words: seq<string>) returns (keys: seq<string>, counts: map<string, nat>)
    ensures keys == Dedup(words)
    ensures forall w :: w in counts <==> w in words
    ensures forall w :: w in counts ==> counts[w] == multiset(words)[w]
  {
    keys := [];
    counts := map[];
    for i := 0 to |words|
      invariant keys == Dedup(words[..i])
      invariant forall w :: w in counts <==> w in words[..i]
      invariant forall w :: w in counts ==> counts[w] == multiset(words[..i])[w]
    {
      var w := words[i];
      assert words[..i + 1] == words[..i] + [w];
      DedupSnoc(words[..i], w);
      DedupProperties(words[..i]);
      if w in counts {
        counts := counts[w := counts[w] + 1];
      } else {
        keys := keys + [w];
        counts := counts[w := 1];
      }
    }
    assert words[..|words|] == words;
  }

  /** `Object.entries(wordCounts)`, with the keys in `Object.entries` order given as `ordered`. */
  function CountEntries(ordered: seq<string>, counts: map<string, nat>): (entries: seq<Entry>)
    requires forall k :: k in ordered ==> k in counts
    ensures |entries| == |ordered|
    ensures forall i :: 0 <= i < |ordered| ==> entries[i] == Entry(ordered[i], counts[ordered[i]])
  {
    seq(|ordered|, i requires 0 <= i < |ordered| => Entry(ordered[i], counts[ordered[i]]))
  }

  /** The entries of the counting map are the entries of the words. */
  lemma CountEntriesOfWords(words: seq<string>, counts: map<string, nat>)
    requires forall w :: w in counts <==> w in words
    requires forall w :: w in counts ==> counts[w] == multiset(words)[w]
    ensures forall k :: k in EntryOrder(Dedup(words)) ==> k in counts
    ensures CountEntries(EntryOrder(Dedup(words)), counts) == Entries(words)
  {
    var ordered := EntryOrder(Dedup(words));
    DedupProperties(words);
    forall k | k in ordered ensures k in counts {
      assert k in multiset(Dedup(words));
    }
  }

  /** The frequency tags, computed as the source computes them: count the words, list the
      counts in `Object.entries` order, sort by count and keep the first eight words. */
  method FrequencyTagsOf(words: seq<string>) returns (tags: seq<string>)
    ensures tags == FrequencyTags(words)
  {
    var keys, counts := CountWords(words);
    CountEntriesOfWords(words, counts);
    var sorted := SortBy(CountEntries(EntryOrder(keys), counts), CountGe);
    tags := WordsOf(Take(sorted, MaxTags));
  }

  /** `fallbackResponseParsing` step by step, with the word filter as written. */
  method FallbackResponseParsing(aiText: string) returns (e: Enhancement)
    ensures e == FallbackParseAsWritten(aiText)
  {
    var text := Trim(aiText);
    var splitPoint := (|text| * 4) / 5;
    var description := Trim(text[..splitPoint]);
    var remaining := text[splitPoint..];
    var tags := OfferedTags(remaining);
    if |tags| == 0 {
      tags := FrequencyTagsOf(CandidateWordsAsWritten(description));
    }
    e := Described(description, Take(tags, MaxTags), None);
  }

  // ---------------------------------------------------------------- the reply

  /** `parseOpenAIResponse`: the labelled reading, or the fallback reading when it yields
      neither a description nor a tag. */
  function ParseOpenAIResponse(aiText: string): (e: Enhancement)
    ensures e.Described?
    ensures forall t :: t in e.tags ==> ',' !in t
    ensures LabelledDescription(aiText) != "" || LabelledTags(aiText) != [] ==>
              e == Described(LabelledDescription(aiText), LabelledTags(aiText), None)
              && forall t :: t in e.tags ==> t != []
    ensures LabelledDescription(aiText) == "" && LabelledTags(aiText) == [] ==>
              e == FallbackParseAsWritten(aiText)
  {
    var description := LabelledDescription(aiText);
    var tags := LabelledTags(aiText);
    if description == "" && tags == [] then FallbackParseAsWritten(aiText)
    else
      assert forall t :: t in tags ==> ',' !in t by {
        forall t | t in tags ensures ',' !in t {
          assert Avoids(t, {','});
        }
      }
      Described(description, tags, None)
  }

  // ---------------------------------------------------------------- the request

  const ChatEndpoint := "https://api.openai.com/v1/chat/completions"
  const DefaultModel := "gpt-4-1106-preview"
  const MissingKey := "OpenAI API key is required"
  const CallFailed := "Error calling OpenAI API"

  /** The chat completion request `enhanceWithOpenAI` sends. */
  datatype ChatRequest = ChatRequest(
    endpoint: string,
    authorization: string,
    model: string,
    systemPrompt: string,
    userPrompt: string,
    temperature: real,
    maxTokens: nat)

  /** What the request receives: a response whose status is `ok` or not, with the error
      message of a failed call's body and the content of the first choice of a successful one
      (`None` when absent or empty), or a failure to reach the service at all. */
  datatype ChatReply =
    | Answered(ok: bool, errorMessage: Option<string>, content: Option<string>)
    | NetworkFailure(error: string)

  /** `s || ''` for an optional string. */
  function OrEmpty(s: Option<string>): (r: string)
    ensures s.Some? ==> r == s.value
    ensures s.None? ==> r == ""
  {
    if s.Some? then s.value else ""
  }

  /** The user message: the page's title, URL and description, each on its own line. */
  function UserPrompt(data: PageData): string {
    "\nPage Title: " + data.title + "\nPage URL: " + data.url
    + "\nPage Description: " + OrEmpty(data.description)
    + "\n\nPlease enhance this content according to the specified style."
  }

  function ChatRequestFor(data: PageData, apiKey: string, style: string, model: string): (req: ChatRequest)
    ensures req.endpoint == ChatEndpoint && req.authorization == "Bearer " + apiKey
    ensures req.model == model && req.systemPrompt == SystemPrompt(style)
  {
    ChatRequest(ChatEndpoint, "Bearer " + apiKey, model, SystemPrompt(style), UserPrompt(data), 0.7, 1000)
  }

  /** `enhanceWithOpenAI` with the reply its request receives: the key check, the error of a
      failed call, and otherwise the parsed first choice (empty when there is none). */
  function EnhanceWithOpenAI(data: PageData, apiKey: string, style: string, model: string, reply: ChatReply)
    : (r: Result<Enhancement>)
    ensures apiKey == "" ==> r == Err(MissingKey)
    ensures apiKey != "" && reply.NetworkFailure? ==> r == Err(reply.error)
    ensures apiKey != "" && reply.Answered? && !reply.ok ==>
              r == Err(if OrEmpty(reply.errorMessage) != "" then reply.errorMessage.value else CallFailed)
    ensures r.Ok? <==> apiKey != "" && reply.Answered? && reply.ok
    ensures r.Ok? ==> r.value == ParseOpenAIResponse(OrEmpty(reply.content))
                      && forall t :: t in r.value.tags ==> ',' !in t
  {
    if apiKey == "" then Err(MissingKey)
    else
      match reply
      case NetworkFailure(error) => Err(error)
      case Answered(ok, errorMessage, content) =>
        if !ok then Err(if OrEmpty(errorMessage) != "" then errorMessage.value else CallFailed)
        else Ok(ParseOpenAIResponse(OrEmpty(content)))
  }

  /** An empty answer goes through the fallback reading and yields an empty description
      and no tags. */
  lemma EmptyAnswer(data: PageData, apiKey: string, style: string, model: string)
    requires apiKey != ""
    ensures EnhanceWithOpenAI(data, apiKey, style, model, Answered(true, None, None))
            == Ok(Described("", [], None))
  {
    assert !Contains("", DescriptionLabel) && !Contains("", TagsLabel);
    assert Trim("") == "" && SplitPoint("") == 0;
    assert OfferedTags("") == [];
    assert Split("", SpaceRun) == [""];
    assert CandidateWordsAsWritten("") == [] by {
      assert Filter([""], IsLongWord) == [];
    }
    NoWords(CandidateWordsAsWritten(""));
  }
}
