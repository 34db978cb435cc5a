/**
 * The earnings-calendar records and the mapping from a database row to the
 * event record the views consume. The SQL query itself is not modelled: its
 * result rows are the input.
 */
module Queries {
  import opened Nullable

  /** A result row of the calendar query; nullable columns are Options. */
  datatype EarningsRow = EarningsRow(
    id: int,
    date: string,
    source: Option<string>,
    isin: string,
    companyName: Option<string>,
    companyFriendlyName: Option<string>,
    companyTicker: Option<string>,
    companyGicsSector: Option<string>,
    companyGicsIndustry: Option<string>,
    companyCountry: Option<string>,
    companyYearEnd: Option<string>,
    companyMarketCapMillion: Option<real>,
    previewId: Option<string>,
    previewName: Option<string>,
    previewStorageUrl: Option<string>,
    previewGeneratedAt: Option<string>)

  datatype Company = Company(
    isin: string,
    name: Option<string>,
    friendlyName: Option<string>,
    ticker: Option<string>,
    gicsSector: Option<string>,
    gicsIndustry: Option<string>,
    country: Option<string>,
    yearEnd: Option<string>,
    marketCapMillion: Option<real>)

  /** A published earnings preview of the company. */
  datatype Preview = Preview(reportId: string, name: string, storageUrl: string, generatedAt: string)

  /** One earnings event, as the views display it. */
  datatype EarningsEvent = EarningsEvent(
    id: int,
    date: string,
    source: Option<string>,
    company: Company,
    preview: Option<Preview>)

  /** JavaScript truthiness of a nullable string: present and not empty. */
  predicate Truthy(s: Option<string>)
  {
    s.Some? && s.value != ""
  }

  const DefaultPreviewName: string := "Earnings Preview"

  /**
   * `mapRow`: copies the row's columns into the event and its company, and
   * attaches a preview exactly when the preview id and storage URL are both
   * present and non-empty, with defaults for a missing name and timestamp.
   */
  function MapRow(row: EarningsRow): (e: EarningsEvent)
    ensures e.id == row.id && e.date == row.date && e.source == row.source
    ensures e.company.isin == row.isin
      && e.company.name == row.companyName
      && e.company.friendlyName == row.companyFriendlyName
      && e.company.ticker == row.companyTicker
      && e.company.gicsSector == row.companyGicsSector
      && e.company.gicsIndustry == row.companyGicsIndustry
      && e.company.country == row.companyCountry
      && e.company.yearEnd == row.companyYearEnd
      && e.company.marketCapMillion == row.companyMarketCapMillion
    ensures e.preview.Some? <==> Truthy(row.previewId) && Truthy(row.previewStorageUrl)
    ensures e.preview.Some? ==>
      && e.preview.value.reportId == row.previewId.value
      && e.preview.value.storageUrl == row.previewStorageUrl.value
      && e.preview.value.name == (if row.previewName.Some? then row.previewName.value else DefaultPreviewName)
      && e.preview.value.generatedAt == (if row.previewGeneratedAt.Some? then row.previewGeneratedAt.value else "")
  {
    var company := Company(
      row.isin, row.companyName, row.companyFriendlyName, row.companyTicker,
      row.companyGicsSector, row.companyGicsIndustry, row.companyCountry,
      row.companyYearEnd, row.companyMarketCapMillion);
    var preview :=
      if Truthy(row.previewId) && Truthy(row.previewStorageUrl) then
        Some(Preview(
          row.previewId.value,
          row.previewName.GetOr(DefaultPreviewName),
          row.previewStorageUrl.value,
          row.previewGeneratedAt.GetOr("")))
      else None;
    EarningsEvent(row.id, row.date, row.source, company, preview)
  }

  /** `fetchEarningsCalendar` after the query: one event per result row, in row order. */
  function FetchEarningsCalendar(rows: seq<EarningsRow>): (events: seq<EarningsEvent>)
    ensures |events| == |rows|
    ensures forall i :: 0 <= i < |rows| ==> events[i] == MapRow(rows[i])
  {
    if rows == [] then [] else FetchEarningsCalendar(rows[..|rows| - 1]) + [MapRow(rows[|rows| - 1])]
  }

  /** The row a calendar event comes from, with every preview column filled in. */
  function RowOf(e: EarningsEvent): EarningsRow
  {
    var c := e.company;
    EarningsRow(
      e.id, e.date, e.source, c.isin, c.name, c.friendlyName, c.ticker,
      c.gicsSector, c.gicsIndustry, c.country, c.yearEnd, c.marketCapMillion,
      if e.preview.Some? then Some(e.preview.value.reportId) else None,
      if e.preview.Some? then Some(e.preview.value.name) else None,
      if e.preview.Some? then Some(e.preview.value.storageUrl) else None,
      if e.preview.Some? then Some(e.preview.value.generatedAt) else None)
  }

  /**
   * Every event whose preview, if any, has a non-empty report id and storage
   * URL is what MapRow builds from some row: the mapping loses nothing else.
   */
  lemma MapRowRoundTrip(e: EarningsEvent)
    requires e.preview.Some? ==> e.preview.value.reportId != "" && e.preview.value.storageUrl != ""
    ensures MapRow(RowOf(e)) == e
  {
  }
}
