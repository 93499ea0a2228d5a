/**
 * The category picker of the blog form: eight built-in categories, custom
 * categories added during the session with an identifier derived from the
 * name, and the add/cancel mode of the picker.
 */
module CategoryRegistry {
  import opened Wrappers
  import opened JsText

  datatype Category = Category(id: string, name: string)

  /** `DEFAULT_CATEGORIES`. */
  const DefaultCategories: seq<Category> := [
    Category("technology", "Technology"),
    Category("lifestyle", "Lifestyle"),
    Category("health", "Health & Wellness"),
    Category("travel", "Travel"),
    Category("food", "Food & Cooking"),
    Category("finance", "Finance"),
    Category("education", "Education"),
    Category("other", "Other")
  ]

  /** The option value that switches the picker into adding mode. */
  const AddNew := "add-new"

  /** The eight built-in categories have distinct ids, each a slug, and none is
      the option value reserved for adding a category. */
  lemma DefaultCategoriesWellFormed()
    ensures |DefaultCategories| == 8
    ensures forall i :: 0 <= i < 8 ==> IsSlug(DefaultCategories[i].id) && DefaultCategories[i].id != AddNew
    ensures forall i, j :: 0 <= i < j < 8 ==> DefaultCategories[i].id != DefaultCategories[j].id
  {
    var d := DefaultCategories;
    assert d[0].id == "technology" && d[1].id == "lifestyle" && d[2].id == "health" && d[3].id == "travel";
    assert d[4].id == "food" && d[5].id == "finance" && d[6].id == "education" && d[7].id == "other";
    assert d[0].id[1] != d[3].id[1] && d[4].id[1] != d[5].id[1];
  }

  /** `allCategories`: the defaults, then the custom ones in insertion order. */
  function AllCategories(custom: seq<Category>): (all: seq<Category>)
    ensures |all| == |DefaultCategories| + |custom|
    ensures all[..|DefaultCategories|] == DefaultCategories
    ensures forall k :: 0 <= k < |custom| ==> all[|DefaultCategories| + k] == custom[k]
  {
    DefaultCategories + custom
  }

  // ---------------------------------------------------------------
  // The slug pipeline of handleAddCategory
  // ---------------------------------------------------------------

  predicate IsSlugChar(c: char) {
    ('a' <= c <= 'z') || ('0' <= c <= '9') || c == '-'
  }

  predicate IsSlug(s: string) {
    forall k :: 0 <= k < |s| ==> IsSlugChar(s[k])
  }

  /** `s.replace(/\s+/g, '-')` applied from position `i`: every maximal
      whitespace run becomes one hyphen. */
  function HyphenateFrom(s: string, i: nat): (r: string)
    requires i <= |s|
    decreases |s| - i
  {
    if i == |s| then ""
    else if IsWs(s[i]) then "-" + HyphenateFrom(s, SkipWs(s, i))
    else [s[i]] + HyphenateFrom(s, i + 1)
  }

  /** No whitespace survives the scan. */
  lemma {:induction false} HyphenateFromNoWs(s: string, i: nat)
    requires i <= |s|
    ensures NoWs(HyphenateFrom(s, i))
    decreases |s| - i
  {
    if i < |s| {
      if IsWs(s[i]) {
        HyphenateFromNoWs(s, SkipWs(s, i));
        WsStep(s, i);
      } else {
        HyphenateFromNoWs(s, i + 1);
        CharStep(s, i);
      }
    }
  }

  lemma WsStep(s: string, i: nat)
    requires i < |s| && IsWs(s[i])
    ensures HyphenateFrom(s, i) == "-" + HyphenateFrom(s, SkipWs(s, i))
  {
  }

  lemma CharStep(s: string, i: nat)
    requires i < |s| && !IsWs(s[i])
    ensures HyphenateFrom(s, i) == [s[i]] + HyphenateFrom(s, i + 1)
  {
  }

  /** The scan from `j` depends only on `s[i..]`. */
  lemma {:induction false} HyphenateFromShift(s: string, i: nat, j: nat)
    requires i <= j <= |s|
    ensures HyphenateFrom(s, j) == HyphenateFrom(s[i..], j - i)
    decreases |s| - j
  {
    if j < |s| {
      var t := s[i..];
      assert t[j - i] == s[j];
      if IsWs(s[j]) {
        var e := SkipWs(s, j);
        SkipWsShift(s, i, j);
        assert SkipWs(t, j - i) == e - i;
        HyphenateFromShift(s, i, e);
        WsStep(s, j);
        WsStep(t, j - i);
        calc {
          HyphenateFrom(s, j);
          "-" + HyphenateFrom(s, e);
          "-" + HyphenateFrom(t, e - i);
          HyphenateFrom(t, j - i);
        }
      } else {
        HyphenateFromShift(s, i, j + 1);
        CharStep(s, j);
        CharStep(t, j - i);
        calc {
          HyphenateFrom(s, j);
          [s[j]] + HyphenateFrom(s, j + 1);
          [t[j - i]] + HyphenateFrom(t, j + 1 - i);
          HyphenateFrom(t, j - i);
        }
      }
    }
  }

  /** A whitespace-free stretch is copied as it is. */
  lemma {:induction false} HyphenateFromWord(s: string, i: nat, j: nat)
    requires i <= j <= |s| && forall k :: i <= k < j ==> !IsWs(s[k])
    ensures HyphenateFrom(s, i) == s[i..j] + HyphenateFrom(s, j)
    decreases j - i
  {
    if i < j {
      var rest := HyphenateFrom(s, j);
      HyphenateFromWord(s, i + 1, j);
      CharStep(s, i);
      calc {
        HyphenateFrom(s, i);
        [s[i]] + HyphenateFrom(s, i + 1);
        [s[i]] + (s[i + 1..j] + rest);
        ([s[i]] + s[i + 1..j]) + rest;
        { assert [s[i]] + s[i + 1..j] == s[i..j]; }
        s[i..j] + rest;
      }
    }
  }

  function Hyphenate(s: string): (r: string)
    ensures NoWs(r)
    ensures NoWs(s) ==> r == s
  {
    HyphenateFromNoWs(s, 0);
    if NoWs(s) then HyphenateFromWord(s, 0, |s|); assert s[0..|s|] == s; HyphenateFrom(s, 0)
    else HyphenateFrom(s, 0)
  }

  /** A maximal whitespace run becomes exactly one hyphen, and the text
      before it is kept. */
  lemma HyphenateRun(x: string, w: string, y: string)
    requires NoWs(x) && w != [] && AllWs(w) && (y == [] || !IsWs(y[0]))
    ensures Hyphenate(x + w + y) == x + "-" + Hyphenate(y)
  {
    var s := x + w + y;
    var m, n := |x|, |x| + |w|;
    HyphenateFromWord(s, 0, m);
    assert s[0..m] == x;
    assert IsWs(s[m]);
    assert n < |s| ==> s[n] == y[0];
    assert SkipWs(s, m) == n;
    HyphenateFromShift(s, n, n);
    assert s[n..] == y;
  }

  /** `s.replace(/[^a-z0-9-]/g, '')`: characters outside the slug alphabet
      are dropped, the others kept in order. */
  function KeepSlugChars(s: string): (r: string)
    ensures IsSlug(r) && |r| <= |s|
    ensures IsSlug(s) ==> r == s
  {
    if s == [] then ""
    else if IsSlugChar(s[0]) then [s[0]] + KeepSlugChars(s[1..])
    else KeepSlugChars(s[1..])
  }

  /** The filter works character by character ... */
  lemma {:induction false} KeepSlugCharsAppend(a: string, b: string)
    ensures KeepSlugChars(a + b) == KeepSlugChars(a) + KeepSlugChars(b)
  {
    if a != [] {
      KeepSlugCharsAppend(a[1..], b);
      assert (a + b)[0] == a[0] && (a + b)[1..] == a[1..] + b;
    } else {
      assert a + b == b;
    }
  }

  /** ... keeping a slug character and dropping any other. */
  lemma KeepSlugCharsOne(c: char)
    ensures KeepSlugChars([c]) == if IsSlugChar(c) then [c] else []
  {
    assert [c][1..] == [];
  }

  /** The identifier of a new category:
      `name.trim().toLowerCase().replace(/\s+/g, '-').replace(/[^a-z0-9-]/g, '')`. */
  function Slug(name: string): (id: string)
    ensures IsSlug(id) && NoWs(id)
  {
    var id := KeepSlugChars(Hyphenate(Lower(Trim(name))));
    assert NoWs(id) by {
      forall k | 0 <= k < |id| ensures !IsWs(id[k]) { assert IsSlugChar(id[k]); }
    }
    id
  }

  /** A slug is its own slug. */
  lemma SlugIdempotent(name: string)
    ensures Slug(Slug(name)) == Slug(name)
  {
    var id := Slug(name);
    assert IsTrimmed(id) by {
      if id != [] { assert IsSlugChar(id[0]) && IsSlugChar(id[|id| - 1]); }
    }
    TrimTrimmed(id);
    assert Lower(id) == id by {
      forall k | 0 <= k < |id| ensures Lower(id)[k] == id[k] { assert IsSlugChar(id[k]); }
    }
  }

  /** Nothing in a name may survive: the slug can be empty, the option value
      of "Select a category". */
  lemma SlugCanBeEmpty()
    ensures Slug("&&") == ""
  {
    assert Trim("&&") == "&&" by { TrimTrimmed("&&"); }
    assert Lower("&&") == "&&";
    assert Hyphenate("&&") == "&&";
  }

  /** Case and surrounding whitespace do not matter; inner whitespace
      becomes a hyphen. */
  lemma SlugExample()
    ensures Slug(" My Blog ") == "my-blog"
  {
    TrimExample();
    LowerExample();
    HyphenateExample();
    KeepExample();
  }

  lemma TrimExample()
    ensures Trim(" My Blog ") == "My Blog"
  {
    TrimPadded(" ", "My Blog", " ");
    assert " " + "My Blog" + " " == " My Blog ";
  }

  lemma KeepExample()
    ensures KeepSlugChars("my-blog") == "my-blog"
  {
    var h := "my-blog";
    forall k | 0 <= k < |h| ensures IsSlugChar(h[k]) { }
  }

  lemma LowerExample()
    ensures Lower("My Blog") == "my blog"
  {
    var l := Lower("My Blog");
    assert l[0] == 'm' && l[1] == 'y' && l[2] == ' ' && l[3] == 'b';
    assert l[4] == 'l' && l[5] == 'o' && l[6] == 'g';
  }

  lemma HyphenateExample()
    ensures Hyphenate("my blog") == "my-blog"
  {
    var l := "my blog";
    assert NoWs(l[3..]);
    assert HyphenateFrom(l, 3) == "blog";
    assert SkipWs(l, 2) == 3;
    assert HyphenateFrom(l, 2) == "-blog";
    assert HyphenateFrom(l, 1) == "y-blog";
  }

  // ---------------------------------------------------------------
  // The picker component
  // ---------------------------------------------------------------

  class CategorySelect {
    /** The selected category id (the parent's `value`, updated through `onChange`). */
    var value: string
    var isAddingNew: bool
    var newCategory: string
    var customCategories: seq<Category>

    constructor(value: string)
      ensures this.value == value && !isAddingNew && newCategory == "" && customCategories == []
    {
      this.value := value;
      isAddingNew := false;
      newCategory := "";
      customCategories := [];
    }

    function Options(): seq<Category>
      reads this
    {
      AllCategories(customCategories)
    }

    /** `handleChange`: "add-new" opens adding mode and keeps the selection;
        any other value is passed to `onChange` and becomes the selection. */
    method HandleChange(selected: string) returns (emitted: Option<string>)
      modifies this`isAddingNew, this`value
      ensures selected == AddNew ==> isAddingNew && value == old(value) && emitted == None
      ensures selected != AddNew ==> value == selected && isAddingNew == old(isAddingNew)
                                     && emitted == Some(selected)
    {
      if selected == AddNew {
        isAddingNew := true;
        emitted := None;
      } else {
        emitted := Some(selected);
        value := selected;
      }
    }

    /** `handleNewCategoryChange`: typing replaces the name being entered. */
    method HandleNewCategoryChange(text: string)
      modifies this`newCategory
      ensures newCategory == text
    {
      newCategory := text;
    }

    /** `handleAddCategory`: a blank name is ignored; otherwise the trimmed
        name is appended with its slug as id (duplicates included), selected,
        and the picker leaves adding mode with an empty input. */
    method HandleAddCategory() returns (emitted: Option<string>)
      modifies this
      ensures AllWs(old(newCategory)) ==>
                customCategories == old(customCategories) && value == old(value)
                && newCategory == old(newCategory) && isAddingNew == old(isAddingNew)
                && emitted == None
      ensures !AllWs(old(newCategory)) ==>
                var item := Category(Slug(old(newCategory)), Trim(old(newCategory)));
                customCategories == old(customCategories) + [item]
                && value == item.id && emitted == Some(item.id)
                && newCategory == "" && !isAddingNew
    {
      TrimEmptyIff(newCategory);
      if Trim(newCategory) != "" {
        var newCategoryId := Slug(newCategory);
        var newCategoryItem := Category(newCategoryId, Trim(newCategory));
        customCategories := customCategories + [newCategoryItem];
        emitted := Some(newCategoryId);
        value := newCategoryId;
        newCategory := "";
        isAddingNew := false;
      } else {
        emitted := None;
      }
    }

    /** `handleCancel`: leave adding mode and clear the input. */
    method HandleCancel()
      modifies this`isAddingNew, this`newCategory
      ensures !isAddingNew && newCategory == ""
      ensures customCategories == old(customCategories) && value == old(value)
    {
      isAddingNew := false;
      newCategory := "";
    }
  }
}
