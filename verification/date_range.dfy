/**
 * Setting the order date range: the start date comes from the settings and
 * the end date is the day before the run date. Both are written into the
 * page's date inputs; if a search button is present it is clicked, the
 * inputs are read back, and on any mismatch the whole set-and-search
 * sequence is repeated once without checking again.
 *
 * The page is replaced by the oracle `Page`: what each in-page script
 * reports and what the inputs hold after the first search.
 */
module DateRange {
  import opened Options
  import Calendar

  /**
   * `startInputFound`/`endInputFound`: what the scripts that fill the two
   * date inputs report; `searchButton`: whether the search button exists;
   * `readBack`: the start and end inputs' values after the first search,
   * `None` when either input is missing; `retryRaises`: whether the retry
   * sequence raises (it clicks the search button through the handle taken
   * before the first search reloaded the results), were it to run.
   */
  datatype Page = Page(startInputFound: bool, endInputFound: bool, searchButton: bool,
                       readBack: Option<(string, string)>, retryRaises: bool)

  datatype RangeFailure = EndDateOutOfRange | StartInputMissing | EndInputMissing | ReadBackInputsMissing | RetryRaised

  /**
   * `Applied` is the `True` answer, with the end date requested and the
   * number of searches submitted; `Failed` is the `False` answer.
   */
  datatype RangeResult = Applied(endDate: string, submissions: nat) | Failed(failure: RangeFailure)

  /** The read-back values differ from the range requested, so the retry runs. */
  predicate ReadBackDiffers(startDate: string, today: Calendar.Date, page: Page)
    requires Calendar.Valid(today) && today != Calendar.FirstDate && page.readBack.Some?
  {
    page.readBack.value != (startDate, Calendar.FormatDate(Calendar.Yesterday(today).value))
  }

  /** When setting the range answers `True`. */
  predicate Accepts(startDate: string, today: Calendar.Date, page: Page)
    requires Calendar.Valid(today)
  {
    && today != Calendar.FirstDate
    && page.startInputFound
    && page.endInputFound
    && (page.searchButton ==> page.readBack.Some? && !(ReadBackDiffers(startDate, today, page) && page.retryRaises))
  }

  function SetDateRange(startDate: string, today: Calendar.Date, page: Page): (r: RangeResult)
    requires Calendar.Valid(today)
    ensures r.Applied? <==> Accepts(startDate, today, page)
    ensures r.Applied? ==> |r.endDate| == 10 && Calendar.ParseDate(r.endDate) == Calendar.Yesterday(today)
    ensures r.Applied? ==> r.submissions <= 2
    ensures r.Applied? ==> (r.submissions == 0 <==> !page.searchButton)
    ensures r.Applied? ==> (r.submissions == 2 <==> page.searchButton && page.readBack.value != (startDate, r.endDate))
    ensures r.Failed? ==> (r.failure == EndDateOutOfRange <==> today == Calendar.FirstDate)
    ensures r.Failed? && r.failure == ReadBackInputsMissing ==>
              page.startInputFound && page.endInputFound && page.searchButton && page.readBack.None?
    ensures r.Failed? && r.failure == RetryRaised ==>
              page.searchButton && page.readBack.Some? && ReadBackDiffers(startDate, today, page) && page.retryRaises
  {
    match Calendar.Yesterday(today)
    case None => Failed(EndDateOutOfRange)
    case Some(yesterday) =>
      Calendar.FormatDateRoundTrip(yesterday);
      var endDate := Calendar.FormatDate(yesterday);
      if !page.startInputFound then Failed(StartInputMissing)
      else if !page.endInputFound then Failed(EndInputMissing)
      else if !page.searchButton then Applied(endDate, 0)
      else match page.readBack
        case None => Failed(ReadBackInputsMissing)
        case Some((actualStart, actualEnd)) =>
          if actualStart == startDate && actualEnd == endDate then Applied(endDate, 1)
          else if page.retryRaises then Failed(RetryRaised)
          else Applied(endDate, 2)
  }

  /**
   * A read-back end value that spells the requested day in `YYYY-MM-DD`
   * form matches, and no other does: the string comparison is a date
   * comparison, so the retry happens exactly when the page shows a different
   * start or a different end day.
   */
  lemma RetryIffReadBackDiffers(startDate: string, today: Calendar.Date, page: Page, shownEnd: Calendar.Date)
    requires Calendar.Valid(today) && Calendar.Valid(shownEnd)
    requires Accepts(startDate, today, page) && page.searchButton
    requires page.readBack.value.1 == Calendar.FormatDate(shownEnd)
    ensures SetDateRange(startDate, today, page).submissions == 2
            <==> page.readBack.value.0 != startDate || Calendar.Yesterday(today) != Some(shownEnd)
  {
  }
}
