/**
 * The computations of the calendar page's view: the search filter over four
 * company fields, the grouping of the filtered events by date, and the
 * chronological order of the date headings.
 */
module CalendarView {
  import opened Nullable
  import opened Seqs
  import opened Text
  import opened Gregorian
  import opened DateKey
  import opened Queries
  import opened Grouping
  import opened Sorting

  /** `normalize`: a missing value reads as "", any other is lower-cased. */
  function Normalize(value: Option<string>): (r: string)
    ensures value.None? ==> r == ""
    ensures value.Some? ==> |r| == |value.value| && r == Lower(value.value)
    ensures forall i :: 0 <= i < |r| ==> !IsAsciiUpper(r[i])
  {
    Lower(value.GetOr(""))
  }

  /** The searched fields, in the order the view lists them. */
  function SearchFields(c: Company): seq<Option<string>>
  {
    [c.ticker, c.friendlyName, c.name, Some(c.isin)]
  }

  /** Some searched field, normalized, contains the (already lower-cased) term. */
  predicate MatchesTerm(c: Company, term: string)
  {
    || Contains(Normalize(c.ticker), term)
    || Contains(Normalize(c.friendlyName), term)
    || Contains(Normalize(c.name), term)
    || Contains(Normalize(Some(c.isin)), term)
  }

  /** MatchesTerm is the `some` over the searched fields. */
  lemma MatchesTermIsSome(c: Company, term: string)
    ensures MatchesTerm(c, term) <==> exists f :: f in SearchFields(c) && Contains(Normalize(f), term)
  {
    var fs := SearchFields(c);
    assert fs[0] == c.ticker && fs[1] == c.friendlyName && fs[2] == c.name && fs[3] == Some(c.isin);
  }

  /** `!searchTerm.trim()`: the term is empty or white space only. */
  predicate IsBlank(searchTerm: string)
  {
    Trim(searchTerm) == ""
  }

  /**
   * `filteredEvents`: a blank term keeps every event; any other term is
   * lower-cased (not trimmed) and keeps the events with a matching field.
   */
  function FilterEvents(events: seq<EarningsEvent>, searchTerm: string): (r: seq<EarningsEvent>)
    ensures IsBlank(searchTerm) ==> r == events
    ensures !IsBlank(searchTerm) ==>
      forall i :: 0 <= i < |r| ==> MatchesTerm(r[i].company, Lower(searchTerm))
  {
    if IsBlank(searchTerm) then events
    else Filter(events, (e: EarningsEvent) => MatchesTerm(e.company, Lower(searchTerm)))
  }

  /** A term is blank exactly when all its characters are white space. */
  lemma BlankIsAllWhiteSpace(searchTerm: string)
    ensures IsBlank(searchTerm) <==> forall i :: 0 <= i < |searchTerm| ==> IsWhiteSpace(searchTerm[i])
  {
  }

  /**
   * For a non-blank term, an event is kept (with its full multiplicity) exactly
   * when one of its searched fields contains the lower-cased term, and dropped
   * otherwise; nothing is added.
   */
  lemma FilterEventsCount(events: seq<EarningsEvent>, searchTerm: string, x: EarningsEvent)
    requires !IsBlank(searchTerm)
    ensures multiset(FilterEvents(events, searchTerm))[x]
         == if MatchesTerm(x.company, Lower(searchTerm)) then multiset(events)[x] else 0
  {
    FilterCount(events, (e: EarningsEvent) => MatchesTerm(e.company, Lower(searchTerm)), x);
  }

  /** The filtered list is a subsequence of the events: same relative order, no event skipped that matches. */
  lemma FilterEventsOrder(events: seq<EarningsEvent>, searchTerm: string) returns (idx: seq<int>)
    ensures Embedding(FilterEvents(events, searchTerm), events, idx)
    ensures forall j ::
      (0 <= j < |events| && (IsBlank(searchTerm) || MatchesTerm(events[j].company, Lower(searchTerm)))) ==> j in idx
  {
    if IsBlank(searchTerm) {
      idx := seq(|events|, i requires 0 <= i < |events| => i);
      forall j | 0 <= j < |events|
        ensures j in idx
      {
        assert idx[j] == j;
      }
    } else {
      idx := FilterPositions(events, (e: EarningsEvent) => MatchesTerm(e.company, Lower(searchTerm)));
    }
  }

  /**
   * The search is case-insensitive: two terms that differ only in the case of
   * their letters ("AAPL", "aapl", "AaPl") keep the same events. In particular
   * a term and its lower-cased form do.
   */
  lemma CaseInsensitive(events: seq<EarningsEvent>, t1: string, t2: string)
    requires Lower(t1) == Lower(t2)
    ensures FilterEvents(events, t1) == FilterEvents(events, t2)
    ensures FilterEvents(events, t1) == FilterEvents(events, Lower(t1))
  {
    LowerKeepsWhiteSpace(t1);
    LowerKeepsWhiteSpace(t2);
    LowerKeepsWhiteSpace(Lower(t1));
    BlankIsAllWhiteSpace(t1);
    BlankIsAllWhiteSpace(t2);
    BlankIsAllWhiteSpace(Lower(t1));
    LowerIdempotent(t1);
  }

  /** A missing field never matches a non-blank term. */
  lemma MissingFieldNeverMatches(searchTerm: string)
    requires !IsBlank(searchTerm)
    ensures !Contains(Normalize(None), Lower(searchTerm))
  {
    ContainsEmpty([], Lower(searchTerm));
  }

  /** No white space anywhere in s. */
  predicate NoWhiteSpace(s: string)
  {
    forall i :: 0 <= i < |s| ==> !IsWhiteSpace(s[i])
  }

  /** A term that starts with white space occurs in no text free of white space. */
  lemma WhiteSpaceLedTermAbsent(s: string, t: string)
    requires t != [] && IsWhiteSpace(t[0]) && NoWhiteSpace(s)
    ensures !Contains(s, t)
  {
    ContainsOccurs(s, t);
  }

  /**
   * The search term is lower-cased but not trimmed: a non-blank term with
   * leading white space (" aapl") finds no company whose searched fields are
   * free of white space, although its trimmed form might.
   */
  lemma UntrimmedTermMatchesNothing(c: Company, searchTerm: string)
    requires searchTerm != [] && IsWhiteSpace(searchTerm[0])
    requires forall f :: f in SearchFields(c) && f.Some? ==> NoWhiteSpace(f.value)
    ensures !MatchesTerm(c, Lower(searchTerm))
  {
    var term := Lower(searchTerm);
    assert term[0] == searchTerm[0];
    var fs := SearchFields(c);
    forall k | 0 <= k < 4
      ensures !Contains(Normalize(fs[k]), term)
    {
      assert fs[k] in fs;
      WhiteSpaceLedTermAbsent(Normalize(fs[k]), term);
    }
    assert fs[0] == c.ticker && fs[1] == c.friendlyName && fs[2] == c.name && fs[3] == Some(c.isin);
  }

  /** Every key parses as a "yyyy-MM-dd" calendar date. */
  predicate AllKeysParse(keys: seq<string>)
  {
    forall i :: 0 <= i < |keys| ==> ParseDateKey(keys[i]).Some?
  }

  /**
   * The sort key of a date heading: the day `parseISO` reads from it (the
   * comparator subtracts the two instants, a fixed multiple of the days).
   * Keys that do not parse never reach the sort in this model.
   */
  function DayOf(key: string): Day
  {
    ParseDateKey(key).GetOr(0)
  }

  /** Distinct well-formed keys sort into strictly increasing days. */
  lemma SortDatesStrict(keys: seq<string>)
    requires AllKeysParse(keys) && Distinct(keys)
    ensures StrictlySortedBy(SortBy(keys, DayOf), DayOf)
    ensures Distinct(SortBy(keys, DayOf))
  {
    var r := SortBy(keys, DayOf);
    SortByDistinct(keys, DayOf);
    forall i, j | 0 <= i < j < |r|
      ensures DayOf(r[i]) < DayOf(r[j])
    {
      assert r[i] in multiset(keys) && r[j] in multiset(keys);
      if DayOf(r[i]) == DayOf(r[j]) {
        ParseInjective(r[i], r[j]);
      }
    }
  }

  /**
   * The order of the date headings depends only on which dates occur, not on
   * the order in which the grouping produced them.
   */
  lemma SortDatesIgnoresOrder(keys: seq<string>, keys': seq<string>)
    requires AllKeysParse(keys) && Distinct(keys)
    requires AllKeysParse(keys') && Distinct(keys')
    requires multiset(keys) == multiset(keys')
    ensures SortBy(keys, DayOf) == SortBy(keys', DayOf)
  {
    SortDatesStrict(keys);
    SortDatesStrict(keys');
    StrictlySortedUnique(SortBy(keys, DayOf), SortBy(keys', DayOf), DayOf);
  }

  /** Every event date is a well-formed key. */
  predicate DatesParse(events: seq<EarningsEvent>)
  {
    forall i :: 0 <= i < |events| ==> ParseDateKey(events[i].date).Some?
  }

  /** Filtering keeps well-formed dates well-formed, so every heading parses. */
  lemma FilteredDatesParse(events: seq<EarningsEvent>, searchTerm: string)
    requires DatesParse(events)
    ensures AllKeysParse(Dates(FilterEvents(events, searchTerm)))
  {
    var filtered := FilterEvents(events, searchTerm);
    var keys := Dates(filtered);
    forall i | 0 <= i < |keys|
      ensures ParseDateKey(keys[i]).Some?
    {
      assert keys[i] in keys;
      var j :| 0 <= j < |filtered| && filtered[j].date == keys[i];
      assert filtered[j] in events;
    }
  }

  /** There is a date heading exactly when some event passes the filter. */
  lemma NoDatesIffNoEvents(events: seq<EarningsEvent>)
    ensures Dates(events) == [] <==> events == []
  {
    if events != [] {
      assert events[0].date in Dates(events);
    }
  }

  /** What the calendar view renders: the date headings in order and the events under each. */
  datatype CalendarModel = CalendarModel(
    sortedDates: seq<string>,
    grouped: map<string, seq<EarningsEvent>>,
    showsNoEventsMessage: bool)

  /**
   * The calendar view's computation for the current search term: filter, group
   * by date, order the dates chronologically, and show the "No earnings events
   * found" message exactly when no event passes the filter.
   */
  method CalendarSections(events: seq<EarningsEvent>, searchTerm: string) returns (view: CalendarModel)
    requires DatesParse(events)
    ensures var filtered := FilterEvents(events, searchTerm);
      && view.sortedDates == SortBy(Dates(filtered), DayOf)
      && StrictlySortedBy(view.sortedDates, DayOf)
      && (forall k :: k in view.grouped <==> k in view.sortedDates)
      && (forall k :: k in view.grouped ==> view.grouped[k] == EventsOn(filtered, k) && view.grouped[k] != [])
      && (view.showsNoEventsMessage <==> filtered == [])
  {
    var filtered := FilterEvents(events, searchTerm);
    var keys, grouped := GroupByDate(filtered);
    FilteredDatesParse(events, searchTerm);
    var sortedDates := SortBy(keys, DayOf);
    SortDatesStrict(keys);
    forall k | k in grouped
      ensures grouped[k] != []
    {
      EventsOnNonEmpty(filtered, k);
    }
    assert forall k :: k in sortedDates <==> k in multiset(keys);
    NoDatesIffNoEvents(filtered);
    view := CalendarModel(sortedDates, grouped, |sortedDates| == 0);
  }
}
