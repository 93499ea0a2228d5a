/**
 * The filter bar of the explore view: the selected category, author and
 * date range, each replaced by its own handler, which then hands the full
 * filter record to the view.
 */
module FilterPanel {
  import opened Wrappers
  import opened Explore

  /** The record a handler emits: every part present, empty meaning "any". */
  function Emitted(category: string, author: string, range: DateRange): (f: Filters)
    ensures f.category == Some(category) && f.author == Some(author) && f.dateRange == Some(range)
    ensures Active(f.category) <==> category != ""
    ensures Active(f.author) <==> author != ""
    ensures DateActive(f) <==> range.start != "" && range.end != ""
  {
    Filters(Some(category), Some(author), Some(range))
  }

  /** The initial selection narrows nothing. */
  lemma InitialSelectionShowsAll(posts: seq<Post>)
    ensures ApplyFilters(posts, Emitted("", "", DateRange("", ""))) == posts
  {
    NoCriterionShowsAll(posts, Emitted("", "", DateRange("", "")));
  }

  /** Clearing the category is the same as never having chosen one. */
  lemma ClearedCategoryIgnored(posts: seq<Post>, author: string, range: DateRange)
    ensures ApplyFilters(posts, Emitted("", author, range))
         == ApplyFilters(posts, Filters(None, Some(author), Some(range)))
  {
  }

  class FilterSection {
    var selectedCategory: string
    var selectedAuthor: string
    var dateRange: DateRange

    constructor()
      ensures selectedCategory == "" && selectedAuthor == "" && dateRange == DateRange("", "")
    {
      selectedCategory := "";
      selectedAuthor := "";
      dateRange := DateRange("", "");
    }

    /** The filter record built from the current selection. */
    function Current(): Filters
      reads this
    {
      Emitted(selectedCategory, selectedAuthor, dateRange)
    }

    /** `handleCategoryChange`. */
    method HandleCategoryChange(category: string) returns (emitted: Filters)
      modifies this`selectedCategory
      ensures selectedCategory == category
      ensures emitted == Emitted(category, selectedAuthor, dateRange) && emitted == Current()
    {
      selectedCategory := category;
      emitted := Emitted(category, selectedAuthor, dateRange);
    }

    /** `handleAuthorChange`. */
    method HandleAuthorChange(author: string) returns (emitted: Filters)
      modifies this`selectedAuthor
      ensures selectedAuthor == author
      ensures emitted == Emitted(selectedCategory, author, dateRange) && emitted == Current()
    {
      selectedAuthor := author;
      emitted := Emitted(selectedCategory, author, dateRange);
    }

    /** `handleDateChange`: both bounds are replaced together. */
    method HandleDateChange(start: string, end: string) returns (emitted: Filters)
      modifies this`dateRange
      ensures dateRange == DateRange(start, end)
      ensures emitted == Emitted(selectedCategory, selectedAuthor, DateRange(start, end))
      ensures emitted == Current()
    {
      var newDateRange := DateRange(start, end);
      dateRange := newDateRange;
      emitted := Emitted(selectedCategory, selectedAuthor, newDateRange);
    }
  }
}
