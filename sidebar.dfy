/**
 * The metrics the blog-creation sidebar derives from the draft: reading time,
 * a content preview with markup removed, the completeness flags and the
 * progress score, and the reading-time label.
 */
module Sidebar {
  import opened Wrappers
  import opened JsText

  // ---------------------------------------------------------------
  // Reading time
  // ---------------------------------------------------------------

  const WordsPerMinute: nat := 200

  /** `Math.max(1, Math.ceil(wordCount / 200))` in whole minutes. */
  function ReadingTime(wordCount: nat): (minutes: nat)
    ensures minutes >= 1
    ensures wordCount > 0 ==> (minutes - 1) * WordsPerMinute < wordCount <= minutes * WordsPerMinute
    ensures wordCount <= WordsPerMinute ==> minutes == 1
  {
    var rounded := (wordCount + WordsPerMinute - 1) / WordsPerMinute;
    if rounded < 1 then 1 else rounded
  }

  /** More words never mean less reading time. */
  lemma ReadingTimeMonotone(w1: nat, w2: nat)
    requires w1 <= w2
    ensures ReadingTime(w1) <= ReadingTime(w2)
  {
  }

  // ---------------------------------------------------------------
  // Content preview: content.replace(/<[^>]*>/g, ' ')
  // ---------------------------------------------------------------

  /** Position of the first `>` of `s` at or after `i`, or `|s|`. */
  function CloseAt(s: string, i: nat): (j: nat)
    requires i <= |s|
    ensures i <= j <= |s|
    ensures forall k :: i <= k < j ==> s[k] != '>'
    ensures j < |s| ==> s[j] == '>'
    decreases |s| - i
  {
    if i < |s| && s[i] != '>' then CloseAt(s, i + 1) else i
  }

  /** `s[i..]` with every match of `/<[^>]*>/g` replaced by one space: a `<`
      followed somewhere by `>` is a tag up to the first such `>`; a `<` with
      no `>` after it stays. */
  function StripTagsFrom(s: string, i: nat): (r: string)
    requires i <= |s|
    ensures |r| <= |s| - i
    decreases |s| - i
  {
    if i == |s| then ""
    else if s[i] == '<' && CloseAt(s, i + 1) < |s| then " " + StripTagsFrom(s, CloseAt(s, i + 1) + 1)
    else [s[i]] + StripTagsFrom(s, i + 1)
  }

  /** The scan yields only spaces and characters of `s`. */
  lemma {:induction false} StripTagsFromChars(s: string, i: nat)
    requires i <= |s|
    ensures forall k :: 0 <= k < |StripTagsFrom(s, i)| ==>
              StripTagsFrom(s, i)[k] == ' ' || StripTagsFrom(s, i)[k] in s
    decreases |s| - i
  {
    if i < |s| {
      var c := CloseAt(s, i + 1);
      if s[i] == '<' && c < |s| {
        StripTagsFromChars(s, c + 1);
        TagStep(s, i);
      } else {
        StripTagsFromChars(s, i + 1);
        PlainStep(s, i);
      }
    }
  }

  /** Without a `>` there is no tag, and the text is left as it is. */
  lemma {:induction false} StripTagsFromNoClose(s: string, i: nat)
    requires i <= |s|
    ensures (forall k :: i <= k < |s| ==> s[k] != '>') ==> StripTagsFrom(s, i) == s[i..]
    decreases |s| - i
  {
    if i < |s| && forall k :: i <= k < |s| ==> s[k] != '>' {
      assert CloseAt(s, i + 1) == |s|;
      StripTagsFromNoClose(s, i + 1);
      PlainStep(s, i);
      assert s[i..] == [s[i]] + s[i + 1..];
    }
  }

  /** The scan leaves no tag behind. */
  lemma {:induction false} StripTagsFromNoTag(s: string, i: nat)
    requires i <= |s|
    ensures NoTag(StripTagsFrom(s, i))
    decreases |s| - i
  {
    if i < |s| {
      var c := CloseAt(s, i + 1);
      if s[i] == '<' && c < |s| {
        StripTagsFromNoTag(s, c + 1);
        TagStep(s, i);
        NoTagCons(' ', StripTagsFrom(s, c + 1));
      } else {
        StripTagsFromNoTag(s, i + 1);
        PlainStep(s, i);
        if s[i] == '<' {
          StripTagsFromNoClose(s, i + 1);
        }
        NoTagCons(s[i], StripTagsFrom(s, i + 1));
      }
    }
  }

  /** One more character in front keeps a text tag-free, unless it is a `<`
      before some `>`. */
  lemma NoTagCons(c: char, r: string)
    requires NoTag(r) && (c == '<' ==> forall k :: 0 <= k < |r| ==> r[k] != '>')
    ensures NoTag([c] + r)
  {
    var t := [c] + r;
    forall i, j | 0 <= i < j < |t| && t[i] == '<'
      ensures t[j] != '>'
    {
      assert t[j] == r[j - 1];
      if i > 0 { assert t[i] == r[i - 1]; }
    }
  }

  /** Text without `<` is left as it is. */
  lemma {:induction false} StripTagsFromPlain(s: string, i: nat)
    requires i <= |s|
    ensures (forall k :: i <= k < |s| ==> s[k] != '<') ==> StripTagsFrom(s, i) == s[i..]
    decreases |s| - i
  {
    if i < |s| && s[i] != '<' {
      StripTagsFromPlain(s, i + 1);
      PlainStep(s, i);
      assert s[i..] == [s[i]] + s[i + 1..];
    }
  }

  /** No `<` of `s` is followed, anywhere later, by a `>`. */
  predicate NoTag(s: string) {
    forall i, j :: 0 <= i < j < |s| && s[i] == '<' ==> s[j] != '>'
  }

  function StripTags(s: string): (r: string)
    ensures |r| <= |s| && NoTag(r)
    ensures forall k :: 0 <= k < |r| ==> r[k] == ' ' || r[k] in s
    ensures (forall k :: 0 <= k < |s| ==> s[k] != '<') ==> r == s
  {
    StripTagsFromChars(s, 0);
    StripTagsFromNoTag(s, 0);
    StripTagsFromPlain(s, 0);
    assert s[0..] == s;
    StripTagsFrom(s, 0)
  }

  /** The scan of `s` from `j` sees only `s[i..]`, whatever lies before `i`. */
  lemma {:induction false} CloseAtShift(s: string, i: nat, j: nat)
    requires i <= j <= |s|
    ensures CloseAt(s, j) == i + CloseAt(s[i..], j - i)
    decreases |s| - j
  {
    if j < |s| {
      assert s[i..][j - i] == s[j];
      if s[j] != '>' { CloseAtShift(s, i, j + 1); }
    }
  }

  lemma {:induction false} StripTagsFromShift(s: string, i: nat, j: nat)
    requires i <= j <= |s|
    ensures StripTagsFrom(s, j) == StripTagsFrom(s[i..], j - i)
    decreases |s| - j, 1
  {
    if j < |s| {
      CloseAtShift(s, i, j + 1);
      if s[j] == '<' && CloseAt(s, j + 1) < |s| {
        ShiftTag(s, i, j);
      } else {
        ShiftPlain(s, i, j);
      }
    }
  }

  lemma {:induction false} ShiftTag(s: string, i: nat, j: nat)
    requires i <= j < |s| && s[j] == '<' && CloseAt(s, j + 1) < |s|
    requires CloseAt(s, j + 1) == i + CloseAt(s[i..], j + 1 - i)
    ensures StripTagsFrom(s, j) == StripTagsFrom(s[i..], j - i)
    decreases |s| - j, 0
  {
    var t := s[i..];
    var c := CloseAt(s, j + 1);
    assert t[j - i] == '<';
    StripTagsFromShift(s, i, c + 1);
    TagStep(s, j);
    TagStep(t, j - i);
  }

  lemma {:induction false} ShiftPlain(s: string, i: nat, j: nat)
    requires i <= j < |s| && !(s[j] == '<' && CloseAt(s, j + 1) < |s|)
    requires CloseAt(s, j + 1) == i + CloseAt(s[i..], j + 1 - i)
    ensures StripTagsFrom(s, j) == StripTagsFrom(s[i..], j - i)
    decreases |s| - j, 0
  {
    var t := s[i..];
    assert t[j - i] == s[j];
    StripTagsFromShift(s, i, j + 1);
    PlainStep(s, j);
    PlainStep(t, j - i);
  }

  lemma TagStep(s: string, j: nat)
    requires j < |s| && s[j] == '<' && CloseAt(s, j + 1) < |s|
    ensures StripTagsFrom(s, j) == " " + StripTagsFrom(s, CloseAt(s, j + 1) + 1)
  {
  }

  lemma PlainStep(s: string, j: nat)
    requires j < |s| && !(s[j] == '<' && CloseAt(s, j + 1) < |s|)
    ensures StripTagsFrom(s, j) == [s[j]] + StripTagsFrom(s, j + 1)
  {
  }

  /** The text after the first `j` characters is scanned as a text of its own. */
  lemma StripTagsSuffix(s: string, j: nat)
    requires j <= |s|
    ensures StripTagsFrom(s, j) == StripTags(s[j..])
  {
    StripTagsFromShift(s, j, j);
  }

  /** A character other than `<` is kept. */
  lemma StripTagsKeeps(c: char, y: string)
    requires c != '<'
    ensures StripTags([c] + y) == [c] + StripTags(y)
  {
    var s := [c] + y;
    assert s[0] == c && s[1..] == y;
    StripTagsSuffix(s, 1);
  }

  /** A tag `<...>`, up to the first `>`, becomes one space. */
  lemma StripTagsTag(t: string, y: string)
    requires '>' !in t
    ensures StripTags(['<'] + t + ['>'] + y) == " " + StripTags(y)
  {
    var s := ['<'] + t + ['>'] + y;
    var n := |t| + 1;
    assert s[n] == '>';
    assert forall k :: 1 <= k < n ==> s[k] == t[k - 1];
    assert CloseAt(s, 1) == n;
    assert s[n + 1..] == y;
    StripTagsSuffix(s, n + 1);
  }

  /** A `<` with no `>` anywhere after it is kept. */
  lemma StripTagsUnclosed(y: string)
    requires '>' !in y
    ensures StripTags(['<'] + y) == ['<'] + StripTags(y)
  {
    var s := ['<'] + y;
    assert forall k :: 1 <= k < |s| ==> s[k] == y[k - 1];
    assert CloseAt(s, 1) == |s|;
    assert s[1..] == y;
    StripTagsSuffix(s, 1);
  }

  const PreviewLength: nat := 150
  const Ellipsis := "..."
  const Placeholder := "Your blog content preview will appear here..."

  /** `t.substring(0, n)`: the first `n` characters, or all of a shorter `t`. */
  function Take(t: string, n: nat): (r: string)
    ensures |r| == if |t| <= n then |t| else n
    ensures r == t[..|r|]
  {
    if |t| <= n then t else t[..n]
  }

  /** `contentPreview` as written: the ellipsis depends on the length of the
      content before its tags are replaced. */
  function ContentPreview(content: string): (r: string)
    ensures content == "" ==> r == Placeholder
    ensures content != "" ==> |r| <= PreviewLength + |Ellipsis|
  {
    if content == "" then Placeholder
    else Take(StripTags(content), PreviewLength) + (if |content| > PreviewLength then Ellipsis else "")
  }

  /** A non-empty content's preview starts with the tag-replaced content cut
      to 150 characters and ends with the ellipsis iff the content is longer
      than 150; content of at most 150 characters is shown whole. */
  lemma ContentPreviewShape(content: string)
    requires content != ""
    ensures var t := StripTags(content);
            var n := if |t| <= PreviewLength then |t| else PreviewLength;
            var r := ContentPreview(content);
            r[..n] == t[..n]
            && (|content| > PreviewLength ==> r[n..] == Ellipsis)
            && (|content| <= PreviewLength ==> r == t)
  {
  }

  /** The ellipsis corrected to mean "text was cut off": it is appended
      exactly when the tag-replaced text is longer than 150 characters. */
  function TruncatedPreview(content: string): (r: string)
    ensures content == "" ==> r == Placeholder
    ensures content != "" && |StripTags(content)| <= PreviewLength ==> r == StripTags(content)
    ensures content != "" && |StripTags(content)| > PreviewLength
            ==> r == StripTags(content)[..PreviewLength] + Ellipsis
  {
    if content == "" then Placeholder
    else
      var t := StripTags(content);
      Take(t, PreviewLength) + (if |t| > PreviewLength then Ellipsis else "")
  }

  /** Without markup the two previews agree. */
  lemma PreviewsAgreeWithoutMarkup(content: string)
    requires forall k :: 0 <= k < |content| ==> content[k] != '<'
    ensures ContentPreview(content) == TruncatedPreview(content)
  {
  }

  /** A 151-character content that is one single tag: nothing of the
      tag-replaced text is cut off, yet the as-written preview adds "...". */
  lemma EllipsisWithoutTruncation()
    ensures var c := ['<'] + seq(149, _ => 'x') + ['>'];
            |c| > PreviewLength && StripTags(c) == " "
            && ContentPreview(c) == " ..." && TruncatedPreview(c) == " "
  {
    var c := ['<'] + seq(149, _ => 'x') + ['>'];
    assert c[150] == '>';
    assert forall k :: 1 <= k < 150 ==> c[k] == 'x';
    assert CloseAt(c, 1) == 150;
    assert StripTagsFrom(c, 151) == "";
  }

  // ---------------------------------------------------------------
  // Completeness flags and progress
  // ---------------------------------------------------------------

  /** `title.trim().length > 0`: the title is not blank. */
  predicate HasTitle(title: string): (b: bool)
    ensures b <==> !AllWs(title)
  {
    TrimEmptyIff(title);
    |Trim(title)| > 0
  }

  /** `content.trim().length > 0`: the content is not blank. */
  predicate HasContent(content: string): (b: bool)
    ensures b <==> !AllWs(content)
  {
    TrimEmptyIff(content);
    |Trim(content)| > 0
  }

  /** `image && image.length > 0`; the form passes `imageUrl || undefined`. */
  predicate HasImage(image: Option<string>): (b: bool)
    ensures b <==> image != None && image != Some("")
  {
    image.Some? && |image.value| > 0
  }

  /** The content part of the score, by word-count bracket. */
  function ContentScore(wordCount: nat): (points: nat)
    ensures points in {10, 20, 30, 40}
  {
    if wordCount < 100 then 10
    else if wordCount < 300 then 20
    else if wordCount < 600 then 30
    else 40
  }

  /** `blogProgress()`: the capped sum of the three parts. */
  function Progress(wordCount: nat, title: string, content: string, image: Option<string>): (score: nat)
    ensures score <= 100
  {
    var score := (if HasTitle(title) then 20 else 0)
               + (if HasImage(image) then 20 else 0)
               + (if HasContent(content) then ContentScore(wordCount) else 0);
    if score < 100 then score else 100
  }

  /** The parts add up to at most 80, so the cap of 100 never applies. */
  lemma ProgressAtMost80(wordCount: nat, title: string, content: string, image: Option<string>)
    ensures Progress(wordCount, title, content, image) <= 80
  {
  }

  /** An empty draft scores 0. */
  lemma ProgressEmpty(wordCount: nat, title: string, content: string, image: Option<string>)
    requires !HasTitle(title) && !HasImage(image) && !HasContent(content)
    ensures Progress(wordCount, title, content, image) == 0
  {
  }

  /** The title adds exactly 20 when it is present and nothing when it is
      blank, whatever the other parts are. */
  lemma ProgressTitle(wordCount: nat, title: string, content: string, image: Option<string>)
    ensures Progress(wordCount, title, content, image)
         == Progress(wordCount, "", content, image) + (if HasTitle(title) then 20 else 0)
  {
    assert !HasTitle("");
  }

  /** The image adds exactly 20 when there is a non-empty one and nothing
      otherwise (`None` or `Some("")`), whatever the other parts are. */
  lemma ProgressImage(wordCount: nat, title: string, content: string, image: Option<string>)
    ensures Progress(wordCount, title, content, image)
         == Progress(wordCount, title, content, None) + (if HasImage(image) then 20 else 0)
  {
  }

  /** With content, the content part follows the brackets 10/20/30/40. */
  lemma ProgressContent(wordCount: nat, content: string)
    ensures var p := Progress(wordCount, "", content, None);
            (!HasContent(content) ==> p == 0)
            && (HasContent(content) && wordCount < 100 ==> p == 10)
            && (HasContent(content) && 100 <= wordCount < 300 ==> p == 20)
            && (HasContent(content) && 300 <= wordCount < 600 ==> p == 30)
            && (HasContent(content) && 600 <= wordCount ==> p == 40)
  {
    assert !HasTitle("");
  }

  /** More words never lower the score. */
  lemma ProgressMonotone(w1: nat, w2: nat, title: string, content: string, image: Option<string>)
    requires w1 <= w2
    ensures Progress(w1, title, content, image) <= Progress(w2, title, content, image)
  {
  }

  // ---------------------------------------------------------------
  // Reading-time label
  // ---------------------------------------------------------------

  predicate IsDigit(c: char) { '0' <= c <= '9' }

  /** Decimal digits of `n`, as `${n}` prints a non-negative integer. */
  function NatToString(n: nat): (r: string)
    ensures |r| >= 1 && forall k :: 0 <= k < |r| ==> IsDigit(r[k])
    ensures n > 0 ==> r[0] != '0'
  {
    var d := [('0' as int + n % 10) as char];
    if n < 10 then d else NatToString(n / 10) + d
  }

  /** The number a string of decimal digits denotes. */
  function DigitsValue(s: string): nat
    requires forall k :: 0 <= k < |s| ==> IsDigit(s[k])
  {
    if s == [] then 0
    else
      assert IsDigit(s[|s| - 1]);
      DigitsValue(s[..|s| - 1]) * 10 + (s[|s| - 1] as int - '0' as int)
  }

  lemma {:induction false} NatToStringRoundTrip(n: nat)
    ensures DigitsValue(NatToString(n)) == n
  {
    var r := NatToString(n);
    if n >= 10 {
      NatToStringRoundTrip(n / 10);
      assert r[..|r| - 1] == NatToString(n / 10);
    }
  }

  /** The "Reading Time" entry: "N/A" without content, else "N min(s)". */
  function ReadingTimeLabel(content: string, wordCount: nat): (text: string)
    ensures text == "N/A" <==> content == ""
  {
    if content == "" then "N/A"
    else
      var n := ReadingTime(wordCount);
      NatToString(n) + " min" + (if n != 1 then "s" else "")
  }

  /** With content, the label is the reading time in decimal, then " min",
      with a final "s" exactly when the time is not 1. */
  lemma ReadingTimeLabelShape(content: string, wordCount: nat)
    requires content != ""
    ensures var text := ReadingTimeLabel(content, wordCount);
            var n := ReadingTime(wordCount);
            var d := NatToString(n);
            |text| > |d| && DigitsValue(text[..|d|]) == n
            && text[|d|..|d| + 4] == " min"
            && |text| == |d| + 4 + (if n != 1 then 1 else 0)
            && (text[|text| - 1] == 's' <==> n != 1)
  {
    var n := ReadingTime(wordCount);
    var d := NatToString(n);
    var text := ReadingTimeLabel(content, wordCount);
    assert text[..|d|] == d;
    NatToStringRoundTrip(n);
  }
}
