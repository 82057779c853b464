/**
 * The tag input of the ask-question form: Enter adds the typed tag, the remove
 * button drops one. Only the tag list, the text box and the `tags` error are
 * modelled; the rest of the form (and `form.trigger()`'s re-validation) is not.
 */
module QuestionForm {
  import opened Wrappers
  import opened Seqs

  const MAX_TAG_LENGTH := 15
  const TAG_TOO_LONG := "Tags should be less than 15 characters"

  /** The tag field's value, the text box and the error shown under the field. */
  datatype TagField = TagField(tags: seq<string>, input: string, error: Option<string>)

  /** The whitespace `String.prototype.trim` strips, restricted to the ASCII range and no-break space. */
  predicate IsSpace(c: char) {
    c == ' ' || c == '\t' || c == '\n' || c == '\r' || c == '\U{000B}' || c == '\U{000C}' || c == '\U{00A0}'
  }

  function TrimStart(s: string): (r: string)
    ensures |r| <= |s| && r == s[|s| - |r|..]
    ensures |r| > 0 ==> !IsSpace(r[0])
    ensures forall i :: 0 <= i < |s| - |r| ==> IsSpace(s[i])
  {
    if |s| > 0 && IsSpace(s[0]) then TrimStart(s[1..]) else s
  }

  function TrimEnd(s: string): (r: string)
    ensures |r| <= |s| && r == s[..|r|]
    ensures |r| > 0 ==> !IsSpace(r[|r| - 1])
    ensures forall i :: |r| <= i < |s| ==> IsSpace(s[i])
  {
    if |s| > 0 && IsSpace(s[|s| - 1]) then TrimEnd(s[..|s| - 1]) else s
  }

  /** `r` is the slice of `s` from `i` on, with only whitespace before and after it. */
  predicate SliceBetweenSpaces(s: string, r: string, i: int) {
    && 0 <= i <= |s| - |r| && r == s[i..i + |r|]
    && (forall k :: 0 <= k < i ==> IsSpace(s[k]))
    && (forall k :: i + |r| <= k < |s| ==> IsSpace(s[k]))
  }

  /** `trim`: the slice of `s` between its leading and its trailing whitespace. */
  function Trim(s: string): (r: string)
    ensures exists i :: SliceBetweenSpaces(s, r, i)
    ensures |r| > 0 ==> !IsSpace(r[0]) && !IsSpace(r[|r| - 1])
  {
    var front := TrimStart(s);
    var r := TrimEnd(front);
    var i := |s| - |front|;
    assert SliceBetweenSpaces(s, r, i);
    r
  }

  /** `handleInputKeyDown` for a key press in the field called `fieldName`. */
  function KeyDown(f: TagField, key: string, fieldName: string): (r: TagField)
    ensures r.tags == f.tags || r.tags == f.tags + [Trim(f.input)]
    ensures r.tags != f.tags ==> 0 < |Trim(f.input)| <= MAX_TAG_LENGTH && Trim(f.input) !in f.tags
  {
    if key != "Enter" || fieldName != "tags" then f
    else
      var value := Trim(f.input);
      if value == "" then f
      else if |value| > MAX_TAG_LENGTH then f.(error := Some(TAG_TOO_LONG))
      else if value in f.tags then f
      else TagField(f.tags + [value], "", None)
  }

  /** `handleTagRemove`: `filter(t => t !== tag)`. */
  function RemoveTag(tags: seq<string>, tag: string): (r: seq<string>)
    ensures tag !in r
    ensures forall t :: t != tag ==> (t in r <==> t in tags)
  {
    RemoveAll(tags, tag)
  }

  /**
   * What one key press does: nothing unless it is Enter on the tag field; an
   * empty or already present tag changes nothing; an overlong one only sets the
   * error, keeping the tags and the typed text; otherwise the trimmed tag is
   * appended, the box cleared and the error reset.
   */
  lemma KeyDownEffect(f: TagField, key: string, fieldName: string)
    ensures var r := KeyDown(f, key, fieldName);
            var value := Trim(f.input);
            && (key != "Enter" || fieldName != "tags" ==> r == f)
            && (r.tags == f.tags || r.tags == f.tags + [value])
            && (r.tags != f.tags <==>
                  key == "Enter" && fieldName == "tags" && 1 <= |value| <= MAX_TAG_LENGTH && value !in f.tags)
            && (r.error == Some(TAG_TOO_LONG) && f.error != r.error ==>
                  key == "Enter" && fieldName == "tags" && |value| > MAX_TAG_LENGTH)
            && (key == "Enter" && fieldName == "tags" && |value| > MAX_TAG_LENGTH ==>
                  r.tags == f.tags && r.input == f.input && r.error == Some(TAG_TOO_LONG))
            && (r.tags != f.tags ==> r.input == "" && r.error == None)
  {
    var r := KeyDown(f, key, fieldName);
    var value := Trim(f.input);
    if r.tags != f.tags {
      assert |r.tags| == |f.tags| + 1;
    }
    if key == "Enter" && fieldName == "tags" && 1 <= |value| <= MAX_TAG_LENGTH && value !in f.tags {
      assert |r.tags| == |f.tags| + 1;
    }
  }

  /** A duplicate-free tag list stays duplicate-free. */
  lemma KeyDownKeepsNoDup(f: TagField, key: string, fieldName: string)
    requires NoDup(f.tags)
    ensures NoDup(KeyDown(f, key, fieldName).tags)
  {
  }

  /** Every tag the field holds keeps within the 1 to 15 characters the form schema demands. */
  lemma KeyDownKeepsTagLengths(f: TagField, key: string, fieldName: string)
    requires forall t :: t in f.tags ==> 1 <= |t| <= MAX_TAG_LENGTH
    ensures forall t :: t in KeyDown(f, key, fieldName).tags ==> 1 <= |t| <= MAX_TAG_LENGTH
  {
  }

  /** Removing a tag just added restores the list as it was. */
  lemma RemoveUndoesAdd(f: TagField, fieldName: string)
    requires KeyDown(f, "Enter", fieldName).tags != f.tags
    ensures RemoveTag(KeyDown(f, "Enter", fieldName).tags, Trim(f.input)) == f.tags
  {
    var value := Trim(f.input);
    assert KeyDown(f, "Enter", fieldName).tags == f.tags + [value];
    RemoveAllAppended(f.tags, value);
    RemoveAllAbsent(f.tags, value);
  }

  /** Removal keeps the other tags in their order: it commutes with appending a different tag. */
  lemma RemoveKeepsOrder(tags: seq<string>, t: string, tag: string)
    requires t != tag
    ensures RemoveTag(tags + [t], tag) == RemoveTag(tags, tag) + [t]
  {
    RemoveAllConcat(tags, [t], tag);
    assert RemoveAll([t], tag) == [t] + RemoveAll([], tag);
  }
}
