/**
 * The `/api/analyze` handler of the scoring service (server/index.js), with the
 * Express and fetch plumbing stripped away: a pure decision from the request's
 * `url` field, the outcome of the one outbound fetch and the server clock to
 * the HTTP response.
 *
 * The `Date` constructor is an oracle `parse` from the header text to a time
 * value in milliseconds (`None` for an invalid date); `now` is the server clock
 * in milliseconds.
 */
module Analyze {
  import opened Wrappers
  import opened Text

  /** `req.body.url` as the handler receives it. */
  datatype UrlField =
    | Absent        // no `url` key, or `null`/`undefined`
    | NonString     // a number, boolean, object or array
    | Str(s: string)

  /** What happened to the outbound request. */
  datatype FetchOutcome =
    | Threw   // fetch rejected (network, DNS, bad URL) or reading the body threw
    | Fetched(httpStatus: int, lastModified: Option<string>)

  /** The freshness bucket of a posting. */
  datatype Freshness = Fresh | Aging | Stale | Missing

  /** One checklist entry of the response; `info` is only set on the stale signal. */
  datatype Signal = Signal(result: bool, delay: nat, info: Option<string>)

  datatype Signals = Signals(stale: Signal, weak: Signal, inactivity: Signal)

  /** The JSON body: a scored analysis or `{ error }`. */
  datatype Body =
    | Analysis(score: int, signals: Signals)
    | ErrorBody(error: string)

  datatype Response = Response(status: int, body: Body)

  /** `1000 * 60 * 60 * 24`. */
  const MsPerDay: int := 86_400_000

  /** The last age in days that is still `fresh`, and the last that is `aging`. */
  const FreshDays: int := 45
  const AgingDays: int := 90

  /** UI pacing of the three signals, in milliseconds. */
  const StaleDelay: nat := 1000
  const WeakDelay: nat := 2200
  const InactivityDelay: nat := 3400

  const InvalidUrlMessage: string := "Invalid URL"
  const FetchFailedMessage: string := "Failed to fetch job page"
  const NoDateInfo: string := "No date detected"
  const DaysOldSuffix: string := " days old"

  /**
   * The detected date: only a present, non-empty `Last-Modified` header is
   * parsed, and a header the parser rejects counts as no date.
   */
  function DetectedDate(lastModified: Option<string>, parse: string -> Option<int>): (r: Option<int>)
    ensures r.Some? <==> lastModified.Some? && lastModified.value != "" && parse(lastModified.value).Some?
    ensures r.Some? ==> r == parse(lastModified.value)
  {
    match lastModified
    case None => None
    case Some(h) => if h == "" then None else parse(h)
  }

  /**
   * Whole days elapsed between the detected date and `now`, rounded down
   * (`Math.floor`); negative for a date in the future.
   */
  function DaysOld(detected: Option<int>, now: int): (r: Option<int>)
    ensures r.Some? <==> detected.Some?
    ensures r.Some? ==> detected.value + r.value * MsPerDay <= now < detected.value + (r.value + 1) * MsPerDay
  {
    match detected
    case None => None
    case Some(d) => Some((now - d) / MsPerDay)
  }

  /** The freshness bucket of an age in days (`None`: no date). */
  function Classify(daysOld: Option<int>): Freshness {
    match daysOld
    case None => Missing
    case Some(d) => if d <= FreshDays then Fresh else if d <= AgingDays then Aging else Stale
  }

  /** The fixed score table. */
  function Score(f: Freshness): int {
    match f
    case Fresh => 85
    case Aging => 55
    case _ => 25
  }

  /** The human-readable age shown with the stale signal. */
  function StaleInfo(daysOld: Option<int>): string {
    match daysOld
    case None => NoDateInfo
    case Some(d) => DecimalString(d) + DaysOldSuffix
  }

  function BuildSignals(httpStatus: int, daysOld: Option<int>): Signals {
    Signals(
      stale := Signal(Classify(daysOld) == Stale, StaleDelay, Some(StaleInfo(daysOld))),
      weak := Signal(false, WeakDelay, None),
      inactivity := Signal(httpStatus != 200, InactivityDelay, None))
  }

  /** `!url || typeof url !== 'string'`. */
  predicate ValidUrl(url: UrlField) {
    url.Str? && url.s != ""
  }

  /** The handler: validation, one fetch, date detection, bucketing, score and signals. */
  function Analyze(url: UrlField, outcome: FetchOutcome, now: int, parse: string -> Option<int>): Response {
    if !ValidUrl(url) then
      Response(400, ErrorBody(InvalidUrlMessage))
    else
      match outcome
      case Threw => Response(500, ErrorBody(FetchFailedMessage))
      case Fetched(httpStatus, lastModified) =>
        var daysOld := DaysOld(DetectedDate(lastModified, parse), now);
        Response(200, Analysis(Score(Classify(daysOld)), BuildSignals(httpStatus, daysOld)))
  }

  /** The age in days the handler computes for a fetched page. */
  function AgeOf(outcome: FetchOutcome, now: int, parse: string -> Option<int>): Option<int>
    requires outcome.Fetched?
  {
    DaysOld(DetectedDate(outcome.lastModified, parse), now)
  }

  // ---------------------------------------------------------------------------
  // Properties of the handler
  // ---------------------------------------------------------------------------

  /**
   * A missing, empty or non-string `url` is answered with 400 "Invalid URL"
   * whatever the fetch would have done (it is never issued), and only such a
   * `url` gets a 400.
   */
  lemma InvalidUrlRejectedBeforeFetch(url: UrlField, o1: FetchOutcome, o2: FetchOutcome, now: int, parse: string -> Option<int>)
    ensures Analyze(url, o1, now, parse).status == 400 <==> !ValidUrl(url)
    ensures !ValidUrl(url) ==> Analyze(url, o1, now, parse) == Analyze(url, o2, now, parse) == Response(400, ErrorBody("Invalid URL"))
  {
  }

  /** Any exception while fetching gives an opaque 500 without score or signals. */
  lemma FetchFailureIsOpaque(url: UrlField, now: int, parse: string -> Option<int>)
    requires ValidUrl(url)
    ensures Analyze(url, Threw, now, parse) == Response(500, ErrorBody("Failed to fetch job page"))
  {
  }

  /** A fetched page always gets a 200 with a score, whatever its own HTTP status. */
  lemma FetchedPageIsScored(url: UrlField, outcome: FetchOutcome, now: int, parse: string -> Option<int>)
    requires ValidUrl(url) && outcome.Fetched?
    ensures Analyze(url, outcome, now, parse).status == 200
    ensures Analyze(url, outcome, now, parse).body.Analysis?
    ensures Analyze(url, outcome, now, parse).body.score == Score(Classify(AgeOf(outcome, now, parse)))
  {
  }

  /**
   * The age is absent exactly when `Last-Modified` is absent, empty or
   * unparsable; otherwise it is the floor of the elapsed milliseconds over a day.
   */
  lemma AgeIsFlooredDays(outcome: FetchOutcome, now: int, parse: string -> Option<int>)
    requires outcome.Fetched?
    ensures var lm := outcome.lastModified;
      AgeOf(outcome, now, parse).None? <==> lm.None? || lm.value == "" || parse(lm.value).None?
    ensures var age := AgeOf(outcome, now, parse);
      age.Some? ==>
        var date := parse(outcome.lastModified.value).value;
        date + age.value * MsPerDay <= now < date + (age.value + 1) * MsPerDay
  {
  }

  /** The buckets partition every age: none, up to 45, 46 to 90, above 90. */
  lemma BucketsPartition(daysOld: Option<int>)
    ensures Classify(daysOld) == Missing <==> daysOld.None?
    ensures Classify(daysOld) == Fresh <==> daysOld.Some? && daysOld.value <= 45
    ensures Classify(daysOld) == Aging <==> daysOld.Some? && 45 < daysOld.value <= 90
    ensures Classify(daysOld) == Stale <==> daysOld.Some? && daysOld.value > 90
  {
  }

  /** The score is one of three values and never increases as the posting ages. */
  lemma ScoreTable(d1: int, d2: int, daysOld: Option<int>)
    ensures Score(Classify(daysOld)) in {25, 55, 85}
    ensures d1 <= d2 ==> Score(Classify(Some(d1))) >= Score(Classify(Some(d2)))
    ensures Score(Classify(None)) == Score(Classify(Some(91))) == 25
  {
  }

  /**
   * The stale signal fires exactly for a stale posting and carries the age or
   * "No date detected"; the weak signal never fires; the inactivity signal
   * fires exactly when the page did not answer 200, whatever its date.
   */
  lemma SignalRules(httpStatus: int, daysOld: Option<int>)
    ensures BuildSignals(httpStatus, daysOld).stale.result <==> Classify(daysOld) == Stale
    ensures BuildSignals(httpStatus, daysOld).stale.info ==
      Some(if daysOld.Some? then DecimalString(daysOld.value) + " days old" else "No date detected")
    ensures !BuildSignals(httpStatus, daysOld).weak.result
    ensures BuildSignals(httpStatus, daysOld).inactivity.result <==> httpStatus != 200
    ensures BuildSignals(httpStatus, daysOld).inactivity == BuildSignals(httpStatus, None).inactivity
  {
  }

  /** The age can be read back from the stale signal's text. */
  lemma StaleInfoRoundTrip(d: int)
    ensures var info := StaleInfo(Some(d));
      |info| > |DaysOldSuffix| && info[|info| - |DaysOldSuffix|..] == DaysOldSuffix &&
      ParseDecimal(info[..|info| - |DaysOldSuffix|]) == d
  {
    var info := StaleInfo(Some(d));
    assert info[..|info| - |DaysOldSuffix|] == DecimalString(d);
    DecimalRoundTrip(d);
  }

  /** The reveal delays are fixed and strictly increase from stale to weak to inactivity. */
  lemma DelaysIncrease(httpStatus: int, daysOld: Option<int>)
    ensures var s := BuildSignals(httpStatus, daysOld);
      s.stale.delay == 1000 && s.weak.delay == 2200 && s.inactivity.delay == 3400 &&
      s.stale.delay < s.weak.delay < s.inactivity.delay
  {
  }
}
