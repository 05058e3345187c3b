/**
 * The popup's tag editor (src/popup/popup.js): the `manualTags` list that `addTag` and
 * `removeTag` change in place, the tag input that adds every comma-separated piece typed
 * into it, and `updateUIWithAIContent`, which replaces the list by an enhancement's tags.
 */
module PopupTags {
  import opened Common
  import opened Text
  import opened Records
  import opened LabelledResponse

  /** No tag is empty, none has whitespace at either end, and none appears twice. */
  ghost predicate ValidTags(tags: seq<string>) {
    NoDuplicates(tags) && forall i :: 0 <= i < |tags| ==> tags[i] != "" && IsTrimmed(tags[i])
  }

  /** The list after `addTag(text)`: the trimmed text is appended when it is not empty and not
      already listed. */
  function WithTag(tags: seq<string>, text: string): (r: seq<string>)
    ensures Trim(text) != "" && Trim(text) !in tags ==> r == tags + [Trim(text)]
    ensures Trim(text) == "" || Trim(text) in tags ==> r == tags
  {
    var t := Trim(text);
    if t != "" && t !in tags then tags + [t] else tags
  }

  /** Where `splice(index, 1)` removes: a negative index counts from the end. */
  function SpliceStart(index: int, n: nat): (start: nat)
    ensures start <= n
    ensures 0 <= index <= n ==> start == index
    ensures -(n as int) <= index < 0 ==> start as int == n as int + index
  {
    if index < 0 then (if n + index < 0 then 0 else n + index)
    else if index > n then n else index
  }

  /** The list after `removeTag(index)`: the element at the splice position goes, the others
      keep their order; nothing goes when the position is past the end. */
  function WithoutTag(tags: seq<string>, index: int): (r: seq<string>)
    ensures var start := SpliceStart(index, |tags|);
            (start == |tags| ==> r == tags)
            && (start < |tags| ==>
                  |r| == |tags| - 1
                  && (forall k :: 0 <= k < start ==> r[k] == tags[k])
                  && (forall k :: start <= k < |r| ==> r[k] == tags[k + 1]))
  {
    var start := SpliceStart(index, |tags|);
    if start < |tags| then tags[..start] + tags[start + 1..] else tags
  }

  /** Adding keeps the list valid. */
  lemma WithTagValid(tags: seq<string>, text: string)
    requires ValidTags(tags)
    ensures ValidTags(WithTag(tags, text))
  {
  }

  /** Removing keeps the list valid, and removes exactly the tag at the position. */
  lemma WithoutTagValid(tags: seq<string>, index: int)
    requires ValidTags(tags)
    ensures ValidTags(WithoutTag(tags, index))
    ensures var start := SpliceStart(index, |tags|);
            start < |tags| ==>
              tags[start] !in WithoutTag(tags, index)
              && multiset(WithoutTag(tags, index)) + multiset{tags[start]} == multiset(tags)
  {
    var start := SpliceStart(index, |tags|);
    if start < |tags| {
      var r := WithoutTag(tags, index);
      assert r == tags[..start] + tags[start + 1..];
      assert tags == tags[..start] + [tags[start]] + tags[start + 1..];
      forall k | 0 <= k < |r| ensures r[k] != tags[start] {
        if k < start {
          assert r[k] == tags[k];
        } else {
          assert r[k] == tags[k + 1];
        }
      }
    }
  }

  /** Adding a new tag and then removing it by its index gives back the list. */
  lemma AddThenRemove(tags: seq<string>, text: string)
    requires Trim(text) != "" && Trim(text) !in tags
    ensures WithoutTag(WithTag(tags, text), |tags|) == tags
  {
    var added := WithTag(tags, text);
    assert added[..|tags|] == tags;
  }

  /** The list after adding each of `texts` in turn. */
  function WithTags(tags: seq<string>, texts: seq<string>): seq<string>
    decreases |texts|
  {
    if texts == [] then tags
    else WithTag(WithTags(tags, texts[..|texts| - 1]), texts[|texts| - 1])
  }

  /** The trimmed, non-empty texts. */
  function CleanTexts(texts: seq<string>): seq<string> {
    Filter(TrimAll(texts), NonEmpty)
  }

  /** Adding the texts in turn to an empty list gives `[...new Set(texts cleaned)]`: their
      distinct trimmed non-empty values in order of first appearance. */
  lemma {:induction false} WithTagsIsDedup(texts: seq<string>)
    ensures WithTags([], texts) == Dedup(CleanTexts(texts))
    decreases |texts|
  {
    if texts == [] {
      assert TrimAll([]) == [];
    } else {
      var init := texts[..|texts| - 1];
      var last := texts[|texts| - 1];
      var t := Trim(last);
      var before := Dedup(CleanTexts(init));
      assert WithTags([], texts) == WithTag(WithTags([], init), last);
      WithTagsIsDedup(init);
      assert texts == init + [last];
      CleanTextsSnoc(init, last);
      if t == "" {
        assert CleanTexts(texts) == CleanTexts(init);
      } else {
        assert CleanTexts(texts) == CleanTexts(init) + [t];
        DedupSnoc(CleanTexts(init), t);
      }
    }
  }

  /** Cleaning one more text appends it trimmed, unless it trims to nothing. */
  lemma CleanTextsSnoc(init: seq<string>, last: string)
    ensures CleanTexts(init + [last])
            == CleanTexts(init) + (if Trim(last) != "" then [Trim(last)] else [])
  {
    assert TrimAll(init + [last]) == TrimAll(init) + [Trim(last)];
    FilterAppend(TrimAll(init), [Trim(last)], NonEmpty);
    assert Filter([Trim(last)], NonEmpty) == if Trim(last) != "" then [Trim(last)] else [];
  }

  /** Adding texts in turn keeps a list valid and only ever appends. */
  lemma {:induction false} WithTagsGrows(tags: seq<string>, texts: seq<string>)
    requires ValidTags(tags)
    ensures ValidTags(WithTags(tags, texts))
    ensures |tags| <= |WithTags(tags, texts)| && WithTags(tags, texts)[..|tags|] == tags
    decreases |texts|
  {
    if texts != [] {
      WithTagsGrows(tags, texts[..|texts| - 1]);
      WithTagValid(WithTags(tags, texts[..|texts| - 1]), texts[|texts| - 1]);
    }
  }

  /** What `updateUIWithAIContent(e)` leaves in a preview that held `tags0`, `pageTags0`,
      `input0` and `description0`: the first non-empty of the description and the short
      description replaces the description field, and a non-empty tag list replaces the tags,
      refreshing the copy and clearing the input when some tag was added. */
  ghost predicate ShowsEnhancement(p: Preview, e: Enhancement, tags0: seq<string>, pageTags0: seq<string>,
                                   input0: string, description0: string)
    reads p
  {
    && p.description == (if e.Described? && e.description != "" then e.description
                         else if e.FallbackParsed? && e.shortDescription != "" then e.shortDescription
                         else description0)
    && p.tags == (if e.tags != [] then Dedup(CleanTexts(e.tags)) else tags0)
    && (if e.tags != [] && p.tags != [] then p.pageTags == p.tags && p.tagInput == ""
        else p.pageTags == pageTags0 && p.tagInput == input0)
  }

  /** The part of the popup the tag editor works on. */
  class Preview {
    /** `manualTags`: the tags shown, and sent when the page is saved. */
    var tags: seq<string>
    /** `pageInfo.tags`: the copy refreshed whenever a tag is added or removed. */
    var pageTags: seq<string>
    /** The text in the tag input field. */
    var tagInput: string
    /** The text in the description field. */
    var description: string

    /** The tag list invariant: established by the constructor and kept by every method. */
    ghost predicate Valid()
      reads this
    {
      ValidTags(tags)
    }

    constructor (description: string)
      ensures Valid()
      ensures tags == [] && pageTags == [] && tagInput == "" && this.description == description
    {
      tags := [];
      pageTags := [];
      tagInput := "";
      this.description := description;
    }

    /** `addTag`: a new tag is appended, copied to `pageInfo.tags` and clears the input. */
    method AddTag(text: string)
      requires Valid()
      modifies this
      ensures Valid()
      ensures tags == WithTag(old(tags), text)
      ensures tags != old(tags) ==> pageTags == tags && tagInput == ""
      ensures tags == old(tags) ==> pageTags == old(pageTags) && tagInput == old(tagInput)
      ensures description == old(description)
    {
      WithTagValid(tags, text);
      ghost var added := WithTag(tags, text);
      var t := Trim(text);
      if t != "" && t !in tags {
        tags := tags + [t];
        tagInput := "";
        pageTags := tags;
      }
      assert tags == added;
    }

    /** `removeTag`: the tag at the splice position goes, and `pageInfo.tags` follows. */
    method RemoveTag(index: int)
      requires Valid()
      modifies this
      ensures Valid()
      ensures tags == WithoutTag(old(tags), index) && pageTags == tags
      ensures tagInput == old(tagInput) && description == old(description)
    {
      WithoutTagValid(tags, index);
      var start := SpliceStart(index, |tags|);
      if start < |tags| {
        tags := tags[..start] + tags[start + 1..];
      }
      pageTags := tags;
    }

    /** Enter or Tab in the tag input adds what it holds. */
    method SubmitTagInput()
      requires Valid()
      modifies this
      ensures Valid()
      ensures tags == WithTag(old(tags), old(tagInput))
      ensures tags != old(tags) ==> pageTags == tags && tagInput == ""
      ensures tags == old(tags) ==> pageTags == old(pageTags) && tagInput == old(tagInput)
      ensures description == old(description)
    {
      AddTag(tagInput);
    }

    /** Adds `texts` one by one with `addTag`. */
    method AddEach(texts: seq<string>)
      requires Valid()
      modifies this
      ensures Valid()
      ensures tags == WithTags(old(tags), texts)
      ensures |tags| > |old(tags)| ==> pageTags == tags && tagInput == ""
      ensures |tags| == |old(tags)| ==> pageTags == old(pageTags) && tagInput == old(tagInput)
      ensures description == old(description)
    {
      WithTagsGrows(tags, texts);
      for i := 0 to |texts|
        invariant Valid()
        invariant tags == WithTags(old(tags), texts[..i])
        invariant |tags| > |old(tags)| ==> pageTags == tags && tagInput == ""
        invariant |tags| == |old(tags)| ==> pageTags == old(pageTags) && tagInput == old(tagInput)
        invariant description == old(description)
      {
        assert texts[..i + 1][..i] == texts[..i];
        WithTagsGrows(old(tags), texts[..i]);
        AddTag(texts[i]);
      }
      assert texts[..|texts|] == texts;
    }

    /** Typing into the tag input: once the value holds a comma, every trimmed non-empty
        comma-separated piece is added and the input is cleared. */
    method TypeIntoTagInput(value: string)
      requires Valid()
      modifies this
      ensures Valid()
      ensures !Contains(value, ",") ==> tags == old(tags) && tagInput == value && pageTags == old(pageTags)
      ensures Contains(value, ",") ==>
                tags == WithTags(old(tags), Split(value, OneOf({','}))) && tagInput == ""
      ensures |tags| > |old(tags)| ==> pageTags == tags
      ensures |tags| == |old(tags)| ==> pageTags == old(pageTags)
      ensures description == old(description)
    {
      tagInput := value;
      if Contains(value, ",") {
        var pieces := Split(value, OneOf({','}));
        ghost var before := tags;
        AddEach(TrimAll(pieces));
        assert tags == WithTags(before, pieces) by {
          TrimmedTexts(before, pieces);
        }
        tagInput := "";
      }
    }

    /** `updateUIWithAIContent`: a non-empty description (or short description) replaces the
        description field; a non-empty tag list replaces the tags, added one by one. Nothing
        happens without content. */
    method ApplyEnhancement(content: Option<Enhancement>)
      requires Valid()
      modifies this
      ensures Valid()
      ensures content.None? ==> tags == old(tags) && description == old(description)
      ensures content.Some? && content.value.Described? && content.value.description != "" ==>
                description == content.value.description
      ensures content.Some? && content.value.FallbackParsed? && content.value.shortDescription != "" ==>
                description == content.value.shortDescription
      ensures content.Some? && (content.value.Described? ==> content.value.description == "")
              && (content.value.FallbackParsed? ==> content.value.shortDescription == "") ==>
                description == old(description)
      ensures content.Some? && content.value.tags != [] ==>
                tags == Dedup(CleanTexts(content.value.tags))
      ensures content.None? || content.value.tags == [] ==> tags == old(tags)
      // `pageInfo.tags` and the input change only when some tag is actually added
      ensures content.Some? && content.value.tags != [] && tags != [] ==> pageTags == tags && tagInput == ""
      ensures content.None? || content.value.tags == [] || tags == [] ==>
                pageTags == old(pageTags) && tagInput == old(tagInput)
      ensures content.Some? ==>
                ShowsEnhancement(this, content.value, old(tags), old(pageTags), old(tagInput), old(description))
    {
      if content.None? {
        return;
      }
      var e := content.value;
      match e {
        case Described(d, _, _) =>
          if d != "" {
            description := d;
          }
        case FallbackParsed(sd, _, _) =>
          if sd != "" {
            description := sd;
          }
      }
      if |e.tags| > 0 {
        tags := [];
        AddEach(e.tags);
        WithTagsIsDedup(e.tags);
      }
    }
  }

  /** Adding the trimmed pieces is adding the pieces: `addTag` trims again. */
  lemma {:induction false} TrimmedTexts(tags: seq<string>, pieces: seq<string>)
    ensures WithTags(tags, TrimAll(pieces)) == WithTags(tags, pieces)
    decreases |pieces|
  {
    if pieces != [] {
      var init := pieces[..|pieces| - 1];
      assert TrimAll(pieces)[..|pieces| - 1] == TrimAll(init);
      TrimmedTexts(tags, init);
      var last := pieces[|pieces| - 1];
      assert IsTrimmed(Trim(last));
    }
  }
}
