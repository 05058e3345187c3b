/**
 * The labelled-block reading of a model reply, shared by the OpenAI helper
 * (src/utils/openai-api.js) and the popup's Gemini call (src/popup/popup.js): the description
 * is the text after `Description:` up to `Tags:` or the end, and the tags are the comma-separated
 * pieces after `Tags:`. These are the groups of `/Description:(.*?)(?=Tags:|$)/s` and
 * `/Tags:(.*?)$/s`.
 */
module LabelledResponse {
  import opened Common
  import opened Text

  const DescriptionLabel := "Description:"
  const TagsLabel := "Tags:"

  /** Every piece trimmed, in order. */
  function TrimAll(pieces: seq<string>): (r: seq<string>)
    ensures |r| == |pieces| && forall i :: 0 <= i < |r| ==> r[i] == Trim(pieces[i])
  {
    seq(|pieces|, i requires 0 <= i < |pieces| => Trim(pieces[i]))
  }

  /** `text.split(sep).map(t => t.trim()).filter(t => t.length > 0)`. */
  function CleanPieces(text: string, cs: set<char>): (tags: seq<string>)
    ensures forall t :: t in tags ==> t != [] && IsTrimmed(t) && Avoids(t, cs)
  {
    var trimmed := TrimAll(Split(text, OneOf(cs)));
    TrimmedPiecesAvoid(text, cs);
    Filter(trimmed, NonEmpty)
  }

  /** The trimmed pieces of a split on a character class hold none of its characters. */
  lemma TrimmedPiecesAvoid(text: string, cs: set<char>)
    ensures forall t :: t in TrimAll(Split(text, OneOf(cs))) ==> Avoids(t, cs)
  {
    var pieces := Split(text, OneOf(cs));
    var trimmed := TrimAll(pieces);
    SplitAvoids(text, cs);
    forall i | 0 <= i < |trimmed| ensures Avoids(trimmed[i], cs) {
      assert pieces[i] in pieces;
      TrimAvoids(pieces[i], cs);
    }
  }

  /** The description group: from just after the first `Description:` to the first `Tags:`
      after it, or to the end. `None` when the label does not occur. */
  function DescriptionBlock(text: string): (block: Option<string>)
    ensures block.Some? <==> Contains(text, DescriptionLabel)
    ensures block.Some? ==>
              var start := IndexOf(text, DescriptionLabel, 0).value + |DescriptionLabel|;
              start + |block.value| <= |text| && block.value == text[start..start + |block.value|]
              && (start + |block.value| == |text| || OccursAt(text, TagsLabel, start + |block.value|))
              && !Contains(block.value, TagsLabel)
  {
    match IndexOf(text, DescriptionLabel, 0)
    case None => None
    case Some(i) =>
      var start := i + |DescriptionLabel|;
      match IndexOf(text, TagsLabel, start)
      case None =>
        NoLabelInside(text, start, |text|);
        Some(text[start..])
      case Some(j) =>
        NoLabelInside(text, start, j);
        Some(text[start..j])
  }

  /** A `Tags:` inside `text[start..end]` would occur in `text` before `end`. */
  lemma NoLabelInside(text: string, start: nat, end: nat)
    requires start <= end <= |text|
    requires forall j :: start <= j < end ==> !OccursAt(text, TagsLabel, j)
    ensures !Contains(text[start..end], TagsLabel)
  {
    if Contains(text[start..end], TagsLabel) {
      var k: nat :| OccursAt(text[start..end], TagsLabel, k);
      forall m | 0 <= m < |TagsLabel| ensures text[start + k + m] == TagsLabel[m] {
        assert text[start..end][k..k + |TagsLabel|][m] == TagsLabel[m];
        assert text[start..end][k..k + |TagsLabel|][m] == text[start + k + m];
      }
      assert OccursAt(text, TagsLabel, start + k);
      assert false;
    }
  }

  /** The tags group: everything after the first `Tags:`. `None` when the label does not occur. */
  function TagsBlock(text: string): (block: Option<string>)
    ensures block.Some? <==> Contains(text, TagsLabel)
    ensures block.Some? ==> var i := IndexOf(text, TagsLabel, 0).value;
                            block.value == text[i + |TagsLabel|..]
  {
    match IndexOf(text, TagsLabel, 0)
    case None => None
    case Some(i) => Some(text[i + |TagsLabel|..])
  }

  /** The description the labelled reading yields: the trimmed group, or empty. */
  function LabelledDescription(text: string): (d: string)
    ensures IsTrimmed(d)
    ensures !Contains(text, DescriptionLabel) ==> d == ""
    ensures Contains(text, DescriptionLabel) ==> d == Trim(DescriptionBlock(text).value)
  {
    match DescriptionBlock(text)
    case None => ""
    case Some(block) => Trim(block)
  }

  /** The tags the labelled reading yields: the comma-separated, trimmed, non-empty pieces of
      the group, or none. */
  function LabelledTags(text: string): (tags: seq<string>)
    ensures forall t :: t in tags ==> t != [] && IsTrimmed(t) && Avoids(t, {','})
    ensures !Contains(text, TagsLabel) ==> tags == []
    ensures Contains(text, TagsLabel) ==> tags == CleanPieces(Trim(TagsBlock(text).value), {','})
  {
    match TagsBlock(text)
    case None => []
    case Some(block) => CleanPieces(Trim(block), {','})
  }

  /** A reply in the labelled format, read as the two labelled parsers read it. */
  lemma LabelledReply(description: string, tagList: string)
    requires IsTrimmed(description)
    requires !Contains(description, TagsLabel)
    ensures LabelledDescription(DescriptionLabel + description + TagsLabel + tagList) == description
    ensures LabelledTags(DescriptionLabel + description + TagsLabel + tagList)
            == CleanPieces(Trim(tagList), {','})
  {
    var text := DescriptionLabel + description + TagsLabel + tagList;
    var d := |DescriptionLabel|;
    var n := |description|;
    LabelledReplyPositions(description, tagList);
    assert text[d..d + n] == description;
    assert text[d + n + |TagsLabel|..] == tagList;
  }

  /** Where the parsers find the labels in a reply in the labelled format. */
  lemma LabelledReplyPositions(description: string, tagList: string)
    requires !Contains(description, TagsLabel)
    ensures var text := DescriptionLabel + description + TagsLabel + tagList;
            IndexOf(text, DescriptionLabel, 0) == Some(0)
            && IndexOf(text, TagsLabel, |DescriptionLabel|) == Some(|DescriptionLabel| + |description|)
            && IndexOf(text, TagsLabel, 0) == Some(|DescriptionLabel| + |description|)
  {
    var text := DescriptionLabel + description + TagsLabel + tagList;
    var d := |DescriptionLabel|;
    var n := |description|;
    assert text[..d] == DescriptionLabel;
    FirstOccurrence(text, DescriptionLabel, 0, 0);
    TagsAfterDescription(text, description, d);
    NoTagsInLabel(text);
    FirstOccurrence(text, TagsLabel, 0, d + n);
  }

  /** In `text` = `...description` `Tags:` at `d`, the first `Tags:` from `d` follows the description. */
  lemma TagsAfterDescription(text: string, description: string, d: nat)
    requires d + |description| + |TagsLabel| <= |text|
    requires text[d..d + |description|] == description
    requires text[d + |description|..d + |description| + |TagsLabel|] == TagsLabel
    requires !Contains(description, TagsLabel)
    ensures IndexOf(text, TagsLabel, d) == Some(d + |description|)
    ensures forall j :: d <= j < d + |description| ==> !OccursAt(text, TagsLabel, j)
  {
    forall j | d <= j < d + |description| ensures !OccursAt(text, TagsLabel, j) {
      BorderFree(text, description, j, d);
    }
    FirstOccurrence(text, TagsLabel, d, d + |description|);
  }

  /** `Tags:` does not start inside a leading `Description:`. */
  lemma NoTagsInLabel(text: string)
    requires |DescriptionLabel| <= |text| && text[..|DescriptionLabel|] == DescriptionLabel
    ensures forall j :: 0 <= j < |DescriptionLabel| ==> !OccursAt(text, TagsLabel, j)
  {
    forall j | 0 <= j < |DescriptionLabel| ensures !OccursAt(text, TagsLabel, j) {
      assert text[j] == DescriptionLabel[j];
      assert DescriptionLabel[j] != 'T';
    }
  }

  /** `indexOf` from `from` finds the occurrence at `at` when there is none before it. */
  lemma {:induction false} FirstOccurrence(s: string, p: string, from: nat, at: nat)
    requires from <= at && OccursAt(s, p, at)
    requires forall j :: from <= j < at ==> !OccursAt(s, p, j)
    ensures IndexOf(s, p, from) == Some(at)
    decreases at - from
  {
    if from < at {
      FirstOccurrence(s, p, from + 1, at);
    }
  }

  /** `Tags:` cannot start inside `description` (placed at `d` and followed by `Tags:`) when
      `description` does not contain it: no proper suffix of `Tags:` is one of its prefixes. */
  lemma BorderFree(text: string, description: string, j: nat, d: nat)
    requires d + |description| + |TagsLabel| <= |text|
    requires text[d..d + |description|] == description
    requires text[d + |description|..d + |description| + |TagsLabel|] == TagsLabel
    requires !Contains(description, TagsLabel)
    requires d <= j < d + |description|
    ensures !OccursAt(text, TagsLabel, j)
  {
    var n := |description|;
    // an occurrence that runs past the description overlaps the `Tags:` after it, which
    // is impossible because no proper suffix of `Tags:` starts with `T`
    if OccursAt(text, TagsLabel, j) && j + |TagsLabel| <= d + n {
      forall m | 0 <= m < |TagsLabel| ensures description[j - d + m] == TagsLabel[m] {
        assert text[j..j + |TagsLabel|][m] == TagsLabel[m];
        assert text[d..d + n][j - d + m] == description[j - d + m];
      }
      assert description[j - d..j - d + |TagsLabel|] == TagsLabel;
      assert OccursAt(description, TagsLabel, j - d);
      assert false;
    }
    if j + |TagsLabel| > d + n {
      NoSelfOverlap(text, j, d + n);
    }
  }

  /** Two occurrences of `Tags:` never overlap: no proper suffix of it starts with `T`. */
  lemma NoSelfOverlap(text: string, j: nat, e: nat)
    requires j < e < j + |TagsLabel| && OccursAt(text, TagsLabel, e)
    ensures !OccursAt(text, TagsLabel, j)
  {
    assert text[e] == text[e..e + |TagsLabel|][0] == 'T';
  }
}
