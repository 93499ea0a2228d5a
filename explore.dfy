/**
 * The explore view: a list of posts narrowed by an optional category, an
 * optional author and an optional inclusive date range, and the distinct
 * category and author lists offered by its dropdowns.
 */
module Explore {
  import opened Wrappers
  import opened Seqs

  datatype Post = Post(
    id: string, title: string, author: string, category: string,
    excerpt: string, imageUrl: string, createdAt: string, readTime: nat,
    tags: seq<string>)

  datatype DateRange = DateRange(start: string, end: string)

  /** The filter record handed to the view; every part may be absent. */
  datatype Filters = Filters(
    category: Option<string>, author: Option<string>, dateRange: Option<DateRange>)

  /** A string criterion takes part only when present and non-empty. */
  predicate Active(o: Option<string>) {
    o.Some? && o.value != ""
  }

  /** The date criterion takes part only when both bounds are non-empty. */
  predicate DateActive(f: Filters) {
    f.dateRange.Some? && f.dateRange.value.start != "" && f.dateRange.value.end != ""
  }

  // ---------------------------------------------------------------
  // Dates: `YYYY-MM-DD` strings, whose chronological order is the
  // lexicographic order of their characters
  // ---------------------------------------------------------------

  predicate DateLe(a: string, b: string) {
    a == [] || (b != [] && (a[0] < b[0] || (a[0] == b[0] && DateLe(a[1..], b[1..]))))
  }

  lemma {:induction false} DateLeRefl(a: string)
    ensures DateLe(a, a)
  {
    if a != [] { DateLeRefl(a[1..]); }
  }

  lemma {:induction false} DateLeTotal(a: string, b: string)
    ensures DateLe(a, b) || DateLe(b, a)
  {
    if a != [] && b != [] && a[0] == b[0] { DateLeTotal(a[1..], b[1..]); }
  }

  lemma {:induction false} DateLeAntisym(a: string, b: string)
    requires DateLe(a, b) && DateLe(b, a)
    ensures a == b
  {
    if a != [] && b != [] {
      DateLeAntisym(a[1..], b[1..]);
      assert a == [a[0]] + a[1..] && b == [b[0]] + b[1..];
    }
  }

  lemma {:induction false} DateLeTrans(a: string, b: string, c: string)
    requires DateLe(a, b) && DateLe(b, c)
    ensures DateLe(a, c)
  {
    if a != [] && a[0] == b[0] && b[0] == c[0] { DateLeTrans(a[1..], b[1..], c[1..]); }
  }

  /** At the first position where `a` and `b` differ, `a` has the smaller
      character. */
  predicate FirstDifferenceBelow(a: string, b: string) {
    exists n :: 0 <= n < |a| && n < |b| && a[..n] == b[..n] && a[n] < b[n]
  }

  /** `<=` on strings is the lexicographic order: a prefix comes first, and
      otherwise the first differing character decides. */
  lemma {:induction false} DateLeIsLexicographic(a: string, b: string)
    ensures DateLe(a, b) <==> a <= b || FirstDifferenceBelow(a, b)
  {
    if a != [] && b != [] {
      DateLeIsLexicographic(a[1..], b[1..]);
      if a[0] < b[0] {
        assert a[..0] == b[..0];
      } else if a[0] == b[0] {
        FirstDifferenceTail(a, b);
        assert a == [a[0]] + a[1..] && b == [b[0]] + b[1..];
      } else {
        assert !FirstDifferenceBelow(a, b) by {
          if n :| 0 <= n < |a| && n < |b| && a[..n] == b[..n] && a[n] < b[n] {
            assert false;
          }
        }
      }
    }
  }

  lemma FirstDifferenceTail(a: string, b: string)
    requires a != [] && b != [] && a[0] == b[0]
    ensures FirstDifferenceBelow(a, b) <==> FirstDifferenceBelow(a[1..], b[1..])
  {
    var a', b' := a[1..], b[1..];
    if m :| 0 <= m < |a'| && m < |b'| && a'[..m] == b'[..m] && a'[m] < b'[m] {
      assert a[..m + 1] == [a[0]] + a'[..m] && b[..m + 1] == [b[0]] + b'[..m];
    }
    if n :| 0 <= n < |a| && n < |b| && a[..n] == b[..n] && a[n] < b[n] {
      assert n > 0;
      assert a'[..n - 1] == a[..n][1..] && b'[..n - 1] == b[..n][1..];
    }
  }

  /** A post is in a range when its date is between the bounds, both included. */
  predicate InRange(r: DateRange, date: string) {
    DateLe(r.start, date) && DateLe(date, r.end)
  }

  /** Both bounds lie in a range whose start is not after its end, and a range
      holding any date at all has its start not after its end. */
  lemma InRangeBounds(r: DateRange, date: string)
    ensures DateLe(r.start, r.end) ==> InRange(r, r.start) && InRange(r, r.end)
    ensures InRange(r, date) ==> DateLe(r.start, r.end)
  {
    DateLeRefl(r.start);
    DateLeRefl(r.end);
    if InRange(r, date) { DateLeTrans(r.start, date, r.end); }
  }

  // ---------------------------------------------------------------
  // The filter chain of handleFilterChange
  // ---------------------------------------------------------------

  function ByCategory(name: string): Post -> bool {
    (p: Post) => p.category == name
  }

  function ByAuthor(name: string): Post -> bool {
    (p: Post) => p.author == name
  }

  function ByDate(r: DateRange): Post -> bool {
    (p: Post) => InRange(r, p.createdAt)
  }

  /** The one-pass reference: a post passes when it meets every active criterion. */
  predicate Matches(f: Filters, p: Post) {
    (Active(f.category) ==> p.category == f.category.value)
    && (Active(f.author) ==> p.author == f.author.value)
    && (DateActive(f) ==> InRange(f.dateRange.value, p.createdAt))
  }

  /** The chain as the view runs it: category, then author, then dates, each
      stage applied only when its criterion is active. */
  function ApplyFilters(posts: seq<Post>, f: Filters): (r: seq<Post>)
    ensures |r| <= |posts|
  {
    var a := if Active(f.category) then Filter(posts, ByCategory(f.category.value)) else posts;
    var b := if Active(f.author) then Filter(a, ByAuthor(f.author.value)) else a;
    if DateActive(f) then Filter(b, ByDate(f.dateRange.value)) else b
  }

  /** Running the stages in turn is one pass with the conjunction of the
      active criteria. */
  lemma ApplyFiltersIsOnePass(posts: seq<Post>, f: Filters)
    ensures ApplyFilters(posts, f) == Filter(posts, p => Matches(f, p))
  {
    var tc := if Active(f.category) then ByCategory(f.category.value) else (p: Post) => true;
    var ta := if Active(f.author) then ByAuthor(f.author.value) else (p: Post) => true;
    var td := if DateActive(f) then ByDate(f.dateRange.value) else (p: Post) => true;
    var a := if Active(f.category) then Filter(posts, ByCategory(f.category.value)) else posts;
    var b := if Active(f.author) then Filter(a, ByAuthor(f.author.value)) else a;
    if !Active(f.category) { FilterAll(posts, tc); }
    assert a == Filter(posts, tc);
    if !Active(f.author) { FilterAll(a, ta); }
    assert b == Filter(a, ta);
    if !DateActive(f) { FilterAll(b, td); }
    assert ApplyFilters(posts, f) == Filter(b, td);
    var cAndA := (p: Post) => tc(p) && ta(p);
    FilterFuse(posts, tc, ta, cAndA);
    var all := (p: Post) => cAndA(p) && td(p);
    FilterFuse(posts, cAndA, td, all);
    FilterExt(posts, all, p => Matches(f, p));
  }

  /** A post is shown exactly when it is in the list and meets every active criterion. */
  lemma ApplyFiltersMembership(posts: seq<Post>, f: Filters, p: Post)
    ensures p in ApplyFilters(posts, f) <==> p in posts && Matches(f, p)
  {
    ApplyFiltersIsOnePass(posts, f);
    var r := ApplyFilters(posts, f);
    if p in r {
      var k :| 0 <= k < |r| && r[k] == p;
    }
    if p in posts && Matches(f, p) {
      var k :| 0 <= k < |posts| && posts[k] == p;
    }
  }

  /** The shown posts keep their relative order. */
  lemma ApplyFiltersKeepsOrder(posts: seq<Post>, f: Filters)
    ensures IsSubseq(ApplyFilters(posts, f), posts)
  {
    ApplyFiltersIsOnePass(posts, f);
    FilterIsSubseq(posts, p => Matches(f, p));
  }

  /** Without an active criterion every post is shown. */
  lemma NoCriterionShowsAll(posts: seq<Post>, f: Filters)
    requires !Active(f.category) && !Active(f.author) && !DateActive(f)
    ensures ApplyFilters(posts, f) == posts
  {
  }

  /** A date range with one empty bound narrows nothing. */
  lemma SingleBoundIgnored(posts: seq<Post>, f: Filters)
    requires f.dateRange.Some? && (f.dateRange.value.start == "" || f.dateRange.value.end == "")
    ensures ApplyFilters(posts, f) == ApplyFilters(posts, f.(dateRange := None))
  {
  }

  /** Category and author stages may run in either order. */
  lemma CategoryAuthorCommute(posts: seq<Post>, category: string, author: string)
    ensures Filter(Filter(posts, ByCategory(category)), ByAuthor(author))
         == Filter(Filter(posts, ByAuthor(author)), ByCategory(category))
  {
    FilterCommute(posts, ByCategory(category), ByAuthor(author));
  }

  // ---------------------------------------------------------------
  // Dropdown lists
  // ---------------------------------------------------------------

  function CategoryColumn(posts: seq<Post>): (r: seq<string>)
    ensures |r| == |posts| && forall k :: 0 <= k < |posts| ==> r[k] == posts[k].category
  {
    seq(|posts|, k requires 0 <= k < |posts| => posts[k].category)
  }

  function AuthorColumn(posts: seq<Post>): (r: seq<string>)
    ensures |r| == |posts| && forall k :: 0 <= k < |posts| ==> r[k] == posts[k].author
  {
    seq(|posts|, k requires 0 <= k < |posts| => posts[k].author)
  }

  /** `Array.from(new Set(posts.map(p => p.category)))`: every post's category,
      each once. */
  function CategoryOptions(posts: seq<Post>): (r: seq<string>)
    ensures NoDup(r)
    ensures forall k :: 0 <= k < |posts| ==> posts[k].category in r
    ensures forall k :: 0 <= k < |r| ==> exists i :: 0 <= i < |posts| && posts[i].category == r[k]
  {
    var col := CategoryColumn(posts);
    var r := Distinct(col);
    assert forall k :: 0 <= k < |r| ==> exists i :: 0 <= i < |posts| && posts[i].category == r[k] by {
      forall k | 0 <= k < |r| ensures exists i :: 0 <= i < |posts| && posts[i].category == r[k] {
        var i :| 0 <= i < |col| && col[i] == r[k];
      }
    }
    r
  }

  /** The same for authors. */
  function AuthorOptions(posts: seq<Post>): (r: seq<string>)
    ensures NoDup(r)
    ensures forall k :: 0 <= k < |posts| ==> posts[k].author in r
    ensures forall k :: 0 <= k < |r| ==> exists i :: 0 <= i < |posts| && posts[i].author == r[k]
  {
    var col := AuthorColumn(posts);
    var r := Distinct(col);
    assert forall k :: 0 <= k < |r| ==> exists i :: 0 <= i < |posts| && posts[i].author == r[k] by {
      forall k | 0 <= k < |r| ensures exists i :: 0 <= i < |posts| && posts[i].author == r[k] {
        var i :| 0 <= i < |col| && col[i] == r[k];
      }
    }
    r
  }

  /** The dropdown lists follow the order in which values first appear. */
  lemma OptionsInFirstOccurrenceOrder(posts: seq<Post>, i: nat, j: nat)
    requires i < j < |CategoryOptions(posts)|
    ensures FirstIndex(CategoryColumn(posts), CategoryOptions(posts)[i])
          < FirstIndex(CategoryColumn(posts), CategoryOptions(posts)[j])
  {
    DistinctFirstOccurrenceOrder(CategoryColumn(posts), i, j);
  }

  lemma AuthorOptionsInFirstOccurrenceOrder(posts: seq<Post>, i: nat, j: nat)
    requires i < j < |AuthorOptions(posts)|
    ensures FirstIndex(AuthorColumn(posts), AuthorOptions(posts)[i])
          < FirstIndex(AuthorColumn(posts), AuthorOptions(posts)[j])
  {
    DistinctFirstOccurrenceOrder(AuthorColumn(posts), i, j);
  }

  // ---------------------------------------------------------------
  // The demonstration data
  // ---------------------------------------------------------------

  const MockBlogs: seq<Post> := [
    Post("1", "Getting Started with Next.js", "John Doe", "Technology",
         "Learn the basics of Next.js and how to create your first application with this powerful React framework.",
         "https://images.pexels.com/photos/261662/pexels-photo-261662.jpeg?auto=compress&cs=tinysrgb&w=1260&h=750&dpr=2",
         "2024-03-15", 5, ["Next.js", "React", "Web Development"]),
    Post("2", "Healthy Living: A Complete Guide", "Jane Smith", "Health",
         "Discover the essential habits and practices for maintaining a healthy lifestyle in today's fast-paced world.",
         "https://images.pexels.com/photos/4052198/pexels-photo-4052198.jpeg?auto=compress&cs=tinysrgb&w=1260&h=750&dpr=2",
         "2024-03-14", 8, ["Health", "Lifestyle", "Wellness"]),
    Post("3", "Exploring Hidden Gems in Europe", "Mike Johnson", "Travel",
         "Take a journey through Europe's lesser-known destinations and discover the charm of off-the-beaten-path locations.",
         "https://images.pexels.com/photos/20046363/pexels-photo-20046363/free-photo-of-pictures-of-valentines-day-on-laptop-screen.jpeg?auto=compress&cs=tinysrgb&w=1260&h=750&dpr=2",
         "2024-03-13", 10, ["Travel", "Europe", "Adventure"]),
    Post("4", "The Art of Food Photography", "Sarah Williams", "Food",
         "Master the techniques of food photography and learn how to capture stunning images that make your dishes look irresistible.",
         "https://images.pexels.com/photos/6869016/pexels-photo-6869016.jpeg?auto=compress&cs=tinysrgb&w=1260&h=750&dpr=2",
         "2024-03-12", 6, ["Photography", "Food", "Art"]),
    Post("5", "Minimalist Living: Less is More", "John Doe", "Lifestyle",
         "Explore the benefits of minimalist living and learn how to declutter your life for greater happiness and productivity.",
         "https://images.pexels.com/photos/261662/pexels-photo-261662.jpeg?auto=compress&cs=tinysrgb&w=1260&h=750&dpr=2",
         "2024-03-11", 7, ["Lifestyle", "Minimalism", "Productivity"]),
    Post("6", "The Future of Artificial Intelligence", "Jane Smith", "Technology",
         "Dive into the latest developments in AI and explore how this transformative technology is shaping our future.",
         "https://images.pexels.com/photos/4052198/pexels-photo-4052198.jpeg?auto=compress&cs=tinysrgb&w=1260&h=750&dpr=2",
         "2024-03-10", 9, ["AI", "Technology", "Future"])
  ]

  /** Choosing "Technology" alone shows the first and the last post. */
  lemma TechnologyScenario()
    ensures ApplyFilters(MockBlogs, Filters(Some("Technology"), Some(""), Some(DateRange("", ""))))
         == [MockBlogs[0], MockBlogs[5]]
  {
    MockCategories();
    CategoryFirstAndLast(MockBlogs, "Technology");
  }

  lemma MockCategories()
    ensures |MockBlogs| == 6
    ensures MockBlogs[0].category == "Technology" && MockBlogs[5].category == "Technology"
    ensures MockBlogs[1].category == "Health" && MockBlogs[2].category == "Travel"
    ensures MockBlogs[3].category == "Food" && MockBlogs[4].category == "Lifestyle"
  {
  }

  lemma CategoryFirstAndLast(m: seq<Post>, c: string)
    requires |m| == 6 && c != ""
    requires m[0].category == c && m[5].category == c
    requires m[1].category != c && m[2].category != c && m[3].category != c && m[4].category != c
    ensures ApplyFilters(m, Filters(Some(c), Some(""), Some(DateRange("", "")))) == [m[0], m[5]]
  {
    FilterFirstAndLast(m, ByCategory(c));
  }

  lemma FilterFirstAndLast(m: seq<Post>, t: Post -> bool)
    requires |m| == 6
    requires t(m[0]) && !t(m[1]) && !t(m[2]) && !t(m[3]) && !t(m[4]) && t(m[5])
    ensures Filter(m, t) == [m[0], m[5]]
  {
    assert Filter(m[5..], t) == [m[5]];
    assert Filter(m[4..], t) == [m[5]];
    assert Filter(m[3..], t) == [m[5]];
    assert Filter(m[2..], t) == [m[5]];
    assert Filter(m[1..], t) == [m[5]];
  }

  /** Dates agreeing up to position `n` are ordered by their characters at `n`. */
  lemma {:induction false} DateLeAt(a: string, b: string, n: nat)
    requires n < |a| && n < |b| && a[..n] == b[..n] && a[n] < b[n]
    ensures DateLe(a, b) && !DateLe(b, a)
  {
    if n > 0 {
      assert a[0] == a[..n][0] && b[0] == b[..n][0];
      assert a[1..][..n - 1] == a[..n][1..] && b[1..][..n - 1] == b[..n][1..];
      DateLeAt(a[1..], b[1..], n - 1);
    }
  }

  /** The range 2024-03-12 to 2024-03-14 takes both bounds in. */
  lemma DateScenario()
    ensures ApplyFilters(MockBlogs, Filters(Some(""), Some(""), Some(DateRange("2024-03-12", "2024-03-14"))))
         == [MockBlogs[1], MockBlogs[2], MockBlogs[3]]
  {
    MockDateTests();
    DateOnly(MockBlogs, DateRange("2024-03-12", "2024-03-14"));
  }

  lemma DateOnly(m: seq<Post>, r: DateRange)
    requires |m| == 6 && r.start != "" && r.end != ""
    requires var t := ByDate(r); !t(m[0]) && t(m[1]) && t(m[2]) && t(m[3]) && !t(m[4]) && !t(m[5])
    ensures ApplyFilters(m, Filters(Some(""), Some(""), Some(r))) == [m[1], m[2], m[3]]
  {
    FilterMiddleThree(m, ByDate(r));
  }

  lemma FilterMiddleThree(m: seq<Post>, t: Post -> bool)
    requires |m| == 6
    requires !t(m[0]) && t(m[1]) && t(m[2]) && t(m[3]) && !t(m[4]) && !t(m[5])
    ensures Filter(m, t) == [m[1], m[2], m[3]]
  {
    assert Filter(m[5..], t) == [];
    assert Filter(m[4..], t) == [];
    assert Filter(m[3..], t) == [m[3]];
    assert Filter(m[2..], t) == [m[2], m[3]];
    assert Filter(m[1..], t) == [m[1], m[2], m[3]];
  }

  lemma MockDateTests()
    ensures var t := ByDate(DateRange("2024-03-12", "2024-03-14"));
      !t(MockBlogs[0]) && t(MockBlogs[1]) && t(MockBlogs[2]) && t(MockBlogs[3])
      && !t(MockBlogs[4]) && !t(MockBlogs[5])
  {
    MockIdsAndDates();
    DateTestsOf(MockBlogs);
  }

  lemma DateTestsOf(m: seq<Post>)
    requires |m| == 6
    requires m[0].createdAt == "2024-03-15" && m[1].createdAt == "2024-03-14"
    requires m[2].createdAt == "2024-03-13" && m[3].createdAt == "2024-03-12"
    requires m[4].createdAt == "2024-03-11" && m[5].createdAt == "2024-03-10"
    ensures var t := ByDate(DateRange("2024-03-12", "2024-03-14"));
      !t(m[0]) && t(m[1]) && t(m[2]) && t(m[3]) && !t(m[4]) && !t(m[5])
  {
    DatesOfMock();
  }

  lemma DatesOfMock()
    ensures !InRange(DateRange("2024-03-12", "2024-03-14"), "2024-03-15")
    ensures InRange(DateRange("2024-03-12", "2024-03-14"), "2024-03-14")
    ensures InRange(DateRange("2024-03-12", "2024-03-14"), "2024-03-13")
    ensures InRange(DateRange("2024-03-12", "2024-03-14"), "2024-03-12")
    ensures !InRange(DateRange("2024-03-12", "2024-03-14"), "2024-03-11")
    ensures !InRange(DateRange("2024-03-12", "2024-03-14"), "2024-03-10")
  {
    var d10, d11, d12, d13, d14, d15 := "2024-03-10", "2024-03-11", "2024-03-12", "2024-03-13", "2024-03-14", "2024-03-15";
    assert d10[..9] == d11[..9] == d12[..9] == d13[..9] == d14[..9] == d15[..9];
    DateLeAt(d14, d15, 9);
    DateLeAt(d12, d14, 9);
    DateLeAt(d12, d13, 9);
    DateLeAt(d13, d14, 9);
    DateLeAt(d11, d12, 9);
    DateLeAt(d10, d12, 9);
    DateLeRefl(d12);
    DateLeRefl(d14);
  }

  /** The demonstration list has six posts with ids "1" to "6", listed newest
      first: each post is strictly older than the one before it. */
  lemma MockBlogsNewestFirst()
    ensures |MockBlogs| == 6
    ensures forall i :: 0 <= i < 6 ==> MockBlogs[i].id == [('1' as int + i) as char]
    ensures forall i :: 0 <= i < 5 ==>
              DateLe(MockBlogs[i + 1].createdAt, MockBlogs[i].createdAt)
              && !DateLe(MockBlogs[i].createdAt, MockBlogs[i + 1].createdAt)
  {
    MockIdsAndDates();
    NewestFirst(MockBlogs);
  }

  lemma MockIdsAndDates()
    ensures |MockBlogs| == 6
    ensures MockBlogs[0].id == "1" && MockBlogs[0].createdAt == "2024-03-15"
    ensures MockBlogs[1].id == "2" && MockBlogs[1].createdAt == "2024-03-14"
    ensures MockBlogs[2].id == "3" && MockBlogs[2].createdAt == "2024-03-13"
    ensures MockBlogs[3].id == "4" && MockBlogs[3].createdAt == "2024-03-12"
    ensures MockBlogs[4].id == "5" && MockBlogs[4].createdAt == "2024-03-11"
    ensures MockBlogs[5].id == "6" && MockBlogs[5].createdAt == "2024-03-10"
  {
  }

  lemma NewestFirst(m: seq<Post>)
    requires |m| == 6
    requires m[0].id == "1" && m[0].createdAt == "2024-03-15"
    requires m[1].id == "2" && m[1].createdAt == "2024-03-14"
    requires m[2].id == "3" && m[2].createdAt == "2024-03-13"
    requires m[3].id == "4" && m[3].createdAt == "2024-03-12"
    requires m[4].id == "5" && m[4].createdAt == "2024-03-11"
    requires m[5].id == "6" && m[5].createdAt == "2024-03-10"
    ensures forall i :: 0 <= i < 6 ==> m[i].id == [('1' as int + i) as char]
    ensures forall i :: 0 <= i < 5 ==>
              DateLe(m[i + 1].createdAt, m[i].createdAt) && !DateLe(m[i].createdAt, m[i + 1].createdAt)
  {
    forall i | 0 <= i < 5
      ensures DateLe(m[i + 1].createdAt, m[i].createdAt) && !DateLe(m[i].createdAt, m[i + 1].createdAt)
    {
      DayBefore(m[i + 1].createdAt, m[i].createdAt);
    }
  }

  /** Two dates of March 2024 in the 10th to 15th, one day apart. */
  lemma DayBefore(a: string, b: string)
    requires [a, b] in [["2024-03-14", "2024-03-15"], ["2024-03-13", "2024-03-14"], ["2024-03-12", "2024-03-13"],
                        ["2024-03-11", "2024-03-12"], ["2024-03-10", "2024-03-11"]]
    ensures DateLe(a, b) && !DateLe(b, a)
  {
    assert a[..9] == b[..9] == "2024-03-1";
    DateLeAt(a, b, 9);
  }
}
