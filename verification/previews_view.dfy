/**
 * The computations of the previews page's view: one section per requested
 * date holding that date's events, the count label of each section, and the
 * choice between a preview link (with an optional "Updated" line) and the
 * "Preview pending" badge.
 */
module PreviewsView {
  import opened Nullable
  import opened Seqs
  import opened Queries
  import opened Grouping

  /** One rendered day: the requested date and the events listed under it. */
  datatype DaySection = DaySection(date: string, events: seq<EarningsEvent>)

  /** The sections the view shows: one per requested date, in the order requested. */
  function SectionsFor(dates: seq<string>, events: seq<EarningsEvent>): (r: seq<DaySection>)
    ensures |r| == |dates|
    ensures forall i :: 0 <= i < |r| ==> r[i].date == dates[i]
  {
    seq(|dates|, i requires 0 <= i < |dates| => DaySection(dates[i], EventsOn(events, dates[i])))
  }

  /**
   * Groups the events by date, then looks every requested date up in the
   * groups, an absent date giving an empty list.
   */
  method PreviewSections(dates: seq<string>, events: seq<EarningsEvent>) returns (sections: seq<DaySection>)
    ensures sections == SectionsFor(dates, events)
  {
    var keys, grouped := GroupByDate(events);
    sections := seq(|dates|, i requires 0 <= i < |dates| =>
      DaySection(dates[i], if dates[i] in grouped then grouped[dates[i]] else []));
    forall i | 0 <= i < |dates|
      ensures sections[i].events == EventsOn(events, dates[i])
    {
      EventsOnNonEmpty(events, dates[i]);
    }
  }

  /** The "No earnings on the calendar for this date" message. */
  predicate ShowsEmptyMessage(s: DaySection)
  {
    s.events == []
  }

  /**
   * A requested date is never dropped: its section shows the empty message
   * exactly when no event carries that date.
   */
  lemma EmptySectionIffNoEvent(dates: seq<string>, events: seq<EarningsEvent>, i: int)
    requires 0 <= i < |dates|
    ensures ShowsEmptyMessage(SectionsFor(dates, events)[i])
        <==> forall e :: e in events ==> e.date != dates[i]
  {
    FilterEmpty(events, (e: EarningsEvent) => e.date == dates[i]);
  }

  /** An event whose date was not requested appears in no section. */
  lemma OutsideWindowHidden(dates: seq<string>, events: seq<EarningsEvent>, e: EarningsEvent)
    requires e.date !in dates
    ensures forall i :: 0 <= i < |dates| ==> e !in SectionsFor(dates, events)[i].events
  {
    forall i | 0 <= i < |dates|
      ensures e !in SectionsFor(dates, events)[i].events
    {
      EventsOnCount(events, dates[i], e);
    }
  }

  /** An event whose date was requested is listed under that date, as often as it was fetched. */
  lemma InsideWindowShown(dates: seq<string>, events: seq<EarningsEvent>, e: EarningsEvent, i: int)
    requires 0 <= i < |dates| && dates[i] == e.date
    ensures multiset(SectionsFor(dates, events)[i].events)[e] == multiset(events)[e]
  {
    EventsOnCount(events, dates[i], e);
  }

  /** With distinct requested dates, a fetched event in the window is listed in exactly one section. */
  lemma ExactlyOneSection(dates: seq<string>, events: seq<EarningsEvent>, e: EarningsEvent)
    requires Distinct(dates) && e in events && e.date in dates
    ensures exists i :: 0 <= i < |dates| && e in SectionsFor(dates, events)[i].events
    ensures forall i, j ::
      (0 <= i < |dates| && 0 <= j < |dates| &&
       e in SectionsFor(dates, events)[i].events && e in SectionsFor(dates, events)[j].events) ==> i == j
  {
    var sections := SectionsFor(dates, events);
    var i :| 0 <= i < |dates| && dates[i] == e.date;
    InsideWindowShown(dates, events, e, i);
    assert e in sections[i].events;
    forall j | 0 <= j < |dates| && e in sections[j].events
      ensures dates[j] == e.date
    {
      EventsOnCount(events, dates[j], e);
    }
  }

  /** The count label: singular exactly for one company. */
  function CountLabel(n: nat): (r: string)
    ensures r == "company scheduled" <==> n == 1
    ensures r == "company scheduled" || r == "companies scheduled"
  {
    if n == 1 then "company scheduled" else "companies scheduled"
  }

  /**
   * `formatTimestamp`: a missing (`undefined`) or empty timestamp gives no text;
   * any other is handed to the date formatter and its text is shown, a
   * formatter failure (`None`, the caught exception) giving no text.
   */
  function FormatTimestamp(isoDateTime: Option<string>, render: string -> Option<string>): (r: Option<string>)
    ensures isoDateTime.None? ==> r == None
    ensures isoDateTime == Some("") ==> r == None
    ensures isoDateTime.Some? && isoDateTime.value != "" ==> r == render(isoDateTime.value)
  {
    match isoDateTime
    case None => None
    case Some(s) => if s == "" then None else render(s)
  }

  /** What an event shows on the right of its row. */
  datatype PreviewSlot =
    | PreviewLink(url: string, updated: Option<string>)
    | PreviewPending

  /** The preview link when the event has a preview, "Preview pending" otherwise. */
  function PreviewSlotOf(e: EarningsEvent, render: string -> Option<string>): (slot: PreviewSlot)
    ensures slot.PreviewPending? <==> e.preview.None?
    ensures slot.PreviewLink? ==> slot.url == e.preview.value.storageUrl
    ensures slot.PreviewLink? ==> slot.updated == FormatTimestamp(Some(e.preview.value.generatedAt), render)
    ensures slot.PreviewLink? && slot.updated.Some? ==> e.preview.value.generatedAt != ""
  {
    match e.preview
    case None => PreviewPending
    case Some(p) => PreviewLink(p.storageUrl, FormatTimestamp(Some(p.generatedAt), render))
  }

  /**
   * From row to screen: a row shows a link exactly when it has both a preview
   * id and a storage URL, the link targets that URL, and a row without a
   * generation time shows no "Updated" line, whatever the formatter does.
   */
  lemma RowPreviewSlot(row: EarningsRow, render: string -> Option<string>)
    ensures var slot := PreviewSlotOf(MapRow(row), render);
      && (slot.PreviewLink? <==> Truthy(row.previewId) && Truthy(row.previewStorageUrl))
      && (slot.PreviewLink? ==> slot.url == row.previewStorageUrl.value)
      && (slot.PreviewLink? && row.previewGeneratedAt.None? ==> slot.updated.None?)
      && (slot.PreviewLink? && row.previewGeneratedAt.Some? && row.previewGeneratedAt.value != "" ==>
            slot.updated == render(row.previewGeneratedAt.value))
  {
  }
}
