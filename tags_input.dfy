/**
 * The tag editor of the blog form: a text buffer and an ordered list of tags
 * without duplicates, driven by key presses and by removal buttons.
 */
module TagsEditor {
  import opened Wrappers
  import opened JsText
  import opened Seqs

  /** The editor state: the tag list (the parent's `tags`) and the buffer
      (`inputValue`). */
  datatype TagState = TagState(tags: seq<string>, buffer: string)

  /** Enter, comma and space commit the buffer as a tag. */
  predicate IsCommitKey(key: string) {
    key == "Enter" || key == "," || key == " "
  }

  const Backspace := "Backspace"

  /** Tags as the editor creates them: distinct, non-empty and trimmed. */
  predicate WellFormed(tags: seq<string>) {
    NoDup(tags) && forall k :: 0 <= k < |tags| ==> tags[k] != "" && IsTrimmed(tags[k])
  }

  /** The buffer, trimmed, when a commit key would add it as a new tag. */
  predicate CanCommit(s: TagState) {
    Trim(s.buffer) != "" && Trim(s.buffer) !in s.tags
  }

  /** `handleKeyDown`: the state after one key press. */
  function KeyDown(s: TagState, key: string): (r: TagState)
    ensures WellFormed(s.tags) ==> WellFormed(r.tags)
    ensures NoDup(s.tags) ==> NoDup(r.tags)
    ensures r.tags == s.tags || r.tags == s.tags + [Trim(s.buffer)]
            || (s.tags != [] && r.tags == s.tags[..|s.tags| - 1])
    ensures r.buffer == s.buffer || r.buffer == ""
  {
    if IsCommitKey(key) then
      var trimmed := Trim(s.buffer);
      if trimmed != "" && trimmed !in s.tags then TagState(s.tags + [trimmed], "") else s
    else if key == Backspace && s.buffer == "" && |s.tags| > 0 then
      TagState(s.tags[..|s.tags| - 1], s.buffer)
    else s
  }

  /** A commit key adds the trimmed buffer at the end and clears the buffer
      when it is non-blank and new; otherwise nothing changes. */
  lemma CommitKey(s: TagState, key: string)
    requires IsCommitKey(key)
    ensures CanCommit(s) ==> KeyDown(s, key) == TagState(s.tags + [Trim(s.buffer)], "")
    ensures !CanCommit(s) ==> KeyDown(s, key) == s
  {
  }

  /** The tag a commit adds has no whitespace at either end and is new. */
  lemma CommittedTagIsTrimmed(s: TagState, key: string)
    requires IsCommitKey(key) && CanCommit(s)
    ensures var t := KeyDown(s, key).tags[|s.tags|];
            t != "" && !IsWs(t[0]) && !IsWs(t[|t| - 1]) && t !in s.tags
  {
  }

  /** Backspace on an empty buffer drops exactly the last tag; otherwise it
      changes nothing. */
  lemma BackspaceKey(s: TagState)
    ensures s.buffer == "" && s.tags != [] ==> KeyDown(s, Backspace) == TagState(s.tags[..|s.tags| - 1], "")
    ensures s.buffer != "" || s.tags == [] ==> KeyDown(s, Backspace) == s
  {
  }

  /** Any other key leaves the state alone. */
  lemma OtherKey(s: TagState, key: string)
    requires !IsCommitKey(key) && key != Backspace
    ensures KeyDown(s, key) == s
  {
  }

  /** Committing the same text a second time changes nothing. */
  lemma CommitTwice(tags: seq<string>, buffer: string, k1: string, k2: string)
    requires IsCommitKey(k1) && IsCommitKey(k2)
    ensures var first := KeyDown(TagState(tags, buffer), k1);
            KeyDown(TagState(first.tags, buffer), k2).tags == first.tags
  {
  }

  /** The state after pressing `key` `n` times. */
  function Press(s: TagState, key: string, n: nat): TagState
    decreases n
  {
    if n == 0 then s else Press(KeyDown(s, key), key, n - 1)
  }

  /** Each Backspace on an empty buffer removes one tag from the end. */
  lemma {:induction false} BackspaceDrains(s: TagState, n: nat)
    requires s.buffer == "" && n <= |s.tags|
    ensures Press(s, Backspace, n) == TagState(s.tags[..|s.tags| - n], "")
    decreases n
  {
    if n > 0 {
      var next := KeyDown(s, Backspace);
      assert next == TagState(s.tags[..|s.tags| - 1], "");
      BackspaceDrains(next, n - 1);
      assert next.tags[..|next.tags| - (n - 1)] == s.tags[..|s.tags| - n];
    }
  }

  /** `|tags|` Backspaces empty the list. */
  lemma BackspaceEmpties(s: TagState)
    requires s.buffer == ""
    ensures Press(s, Backspace, |s.tags|) == TagState([], "")
  {
    BackspaceDrains(s, |s.tags|);
  }

  /** `removeTag(t)`: `tags.filter(tag => tag !== t)`. */
  function RemoveTag(tags: seq<string>, t: string): (r: seq<string>)
    ensures forall k :: 0 <= k < |r| ==> r[k] != t && r[k] in tags
    ensures forall k :: 0 <= k < |tags| && tags[k] != t ==> tags[k] in r
    ensures IsSubseq(r, tags)
  {
    if tags == [] then []
    else if tags[0] == t then
      var r := RemoveTag(tags[1..], t);
      assert r == [] || r[0] != tags[0];
      r
    else [tags[0]] + RemoveTag(tags[1..], t)
  }

  /** Removal drops every copy of the tag and keeps every copy of the others. */
  lemma {:induction false} RemoveTagCounts(tags: seq<string>, t: string, x: string)
    ensures multiset(RemoveTag(tags, t))[x] == if x == t then 0 else multiset(tags)[x]
  {
    if tags != [] {
      RemoveTagCounts(tags[1..], t, x);
      assert tags == [tags[0]] + tags[1..];
      assert multiset(tags) == multiset{tags[0]} + multiset(tags[1..]);
      if tags[0] != t {
        assert multiset(RemoveTag(tags, t)) == multiset{tags[0]} + multiset(RemoveTag(tags[1..], t));
      }
    }
  }

  /** Removing a tag keeps the list well formed and, for a present tag,
      shortens it by exactly one. */
  lemma {:induction false} RemoveTagWellFormed(tags: seq<string>, t: string)
    requires WellFormed(tags)
    ensures WellFormed(RemoveTag(tags, t))
    ensures |RemoveTag(tags, t)| == if t in tags then |tags| - 1 else |tags|
  {
    if tags != [] {
      RemoveTagWellFormed(tags[1..], t);
      if tags[0] != t {
        var r := RemoveTag(tags[1..], t);
        assert tags[0] !in tags[1..];
        assert forall k :: 0 <= k < |r| ==> r[k] != tags[0];
        assert t in tags <==> t in tags[1..];
      } else {
        assert t !in tags[1..];
      }
    }
  }

  /** The tag input component: the tags it was given and its own buffer. */
  class TagsInput {
    var tags: seq<string>
    var inputValue: string

    function State(): TagState
      reads this
    {
      TagState(tags, inputValue)
    }

    constructor(tags: seq<string>)
      ensures State() == TagState(tags, "")
    {
      this.tags := tags;
      inputValue := "";
    }

    /** `handleInputChange`: typing replaces the buffer. */
    method InputChange(value: string)
      modifies this`inputValue
      ensures State() == TagState(old(tags), value)
    {
      inputValue := value;
    }

    /** `handleKeyDown`: `emitted` is the list passed to `onChange`, which
        the parent feeds back as the new `tags`. */
    method HandleKeyDown(key: string) returns (emitted: Option<seq<string>>)
      modifies this
      ensures State() == KeyDown(old(State()), key)
      ensures emitted == if tags != old(tags) then Some(tags) else None
      ensures WellFormed(old(tags)) ==> WellFormed(tags)
    {
      emitted := None;
      if IsCommitKey(key) {
        var trimmedValue := Trim(inputValue);
        if trimmedValue != "" && trimmedValue !in tags {
          var newTags := tags + [trimmedValue];
          emitted := Some(newTags);
          tags := newTags;
          inputValue := "";
        }
      }
      if key == Backspace && inputValue == "" && |tags| > 0 {
        var newTags := tags[..|tags| - 1];
        emitted := Some(newTags);
        tags := newTags;
      }
    }

    /** The remove button of tag `t`. */
    method HandleRemoveTag(t: string) returns (emitted: seq<string>)
      modifies this`tags
      ensures emitted == RemoveTag(old(tags), t) && tags == emitted
      ensures inputValue == old(inputValue)
    {
      emitted := RemoveTag(tags, t);
      tags := emitted;
    }
  }
}
