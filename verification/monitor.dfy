/** One run of the monitor as `cli` assembles it once the configuration is
    loaded: a result per configured target under today's `YYYYMMDD` date,
    then the alerting pass against the previous run's saved results. The
    network is an input: `listing(url)` is the hrefs of the listing page at
    `url`, None when that page cannot be fetched, and `fetch(url)(id)` what
    the compose's files yielded. */
module Monitor {
  import opened Outcomes
  import opened Text
  import opened Calendar
  import opened Search
  import opened ComposeIds
  import opened ComposeResult
  import opened Config
  import opened Alerts

  /** `get_compose_result` for a configured target: a listing page that
      cannot be fetched ends the run, since `get_compose_ids` does not
      catch the error of `urlopen`; otherwise the result is the one built
      from the page's hrefs. */
  function ResultFor(t: TargetConf, today: Date, listing: string -> Option<seq<string>>, fetch: string -> string -> Probe)
    : (r: Result<TargetResult, Error>)
    requires Valid(today)
    ensures listing(t.url).None? ==> r == Failure(ListingUnavailable(t.url))
    ensures listing(t.url).Some? ==> r == GetComposeResult(t.url, t.name, t.version, t.description, today, listing(t.url).value, fetch(t.url))
  {
    match listing(t.url)
    case None => Failure(ListingUnavailable(t.url))
    case Some(hrefs) => GetComposeResult(t.url, t.name, t.version, t.description, today, hrefs, fetch(t.url))
  }

  /** The results of `targets` in order, or the error of the first target
      that fails. */
  function CollectFrom(targets: seq<TargetConf>, today: Date, listing: string -> Option<seq<string>>, fetch: string -> string -> Probe)
    : (r: Result<seq<TargetResult>, Error>)
    requires Valid(today)
    ensures r.Success? <==> forall i :: 0 <= i < |targets| ==> ResultFor(targets[i], today, listing, fetch).Success?
    ensures r.Success? ==> |r.value| == |targets|
    ensures r.Success? ==> forall i :: 0 <= i < |targets| ==> r.value[i] == ResultFor(targets[i], today, listing, fetch).value
    ensures r.Failure? ==> exists i :: 0 <= i < |targets| && ResultFor(targets[i], today, listing, fetch) == Failure(r.error)
                                       && forall j :: 0 <= j < i ==> ResultFor(targets[j], today, listing, fetch).Success?
  {
    Collect(targets, t requires Valid(today) => ResultFor(t, today, listing, fetch))
  }

  /** `results` as `cli` builds it before alerting: stamped with today's
      date, one unstamped result per configured target, in configuration
      order, each being that target's `get_compose_result` and so carrying
      its url, name and version. */
  function CollectResults(conf: Conf, today: Date, listing: string -> Option<seq<string>>, fetch: string -> string -> Probe)
    : (r: Result<RunResult, Error>)
    requires Valid(today)
    ensures r.Success? <==> forall i :: 0 <= i < |conf.composes| ==> ResultFor(conf.composes[i], today, listing, fetch).Success?
    ensures r.Success? ==> r.value.date == FormatStamp(today) && |r.value.composes| == |conf.composes|
    ensures r.Success? ==> forall i :: 0 <= i < |conf.composes| ==>
      var c := r.value.composes[i];
      IsFor(c, conf.composes[i].url, conf.composes[i].name, conf.composes[i].version) && c.alertDate.None?
    ensures r.Success? ==> forall i :: 0 <= i < |conf.composes| ==>
      r.value.composes[i] == ResultFor(conf.composes[i], today, listing, fetch).value
  {
    var composes :- CollectFrom(conf.composes, today, listing, fetch);
    Success(RunResult(FormatStamp(today), composes))
  }

  /** Every collected target finds a result, so the alerting pass never
      looks a target up in vain. */
  lemma CollectedTargetsFound(conf: Conf, today: Date, listing: string -> Option<seq<string>>, fetch: string -> string -> Probe, t: TargetConf)
    requires Valid(today) && CollectResults(conf, today, listing, fetch).Success?
    requires t in conf.composes
    ensures Current(t, CollectResults(conf, today, listing, fetch).value).Some?
  {
    var results := CollectResults(conf, today, listing, fetch).value;
    var i :| 0 <= i < |conf.composes| && conf.composes[i] == t;
    assert Targets(t.url, t.name, t.version)(results.composes[i]);
  }

  /** The configurations the model covers for every run: every target with
      recipients has a numeric `alert_days`, a string sender, string
      recipients and a scalar `extra`. */
  predicate WellTyped(conf: Conf) {
    forall t :: t in conf.composes && Truthy(Recipients(conf, t)) ==>
      Number(Threshold(conf, t)).Some? && Sender(conf, t).Str? && Joinable(Recipients(conf, t)) && !Extra(conf, t).List?
  }

  lemma CollectedEvaluable(conf: Conf, today: Date, listing: string -> Option<seq<string>>, fetch: string -> string -> Probe, previous: Option<RunResult>)
    requires Valid(today) && WellTyped(conf) && CollectResults(conf, today, listing, fetch).Success?
    ensures AllEvaluable(conf, conf.composes, CollectResults(conf, today, listing, fetch).value, previous)
  {
    forall t | t in conf.composes
      ensures Evaluable(conf, t, CollectResults(conf, today, listing, fetch).value, previous)
    {
      CollectedTargetsFound(conf, today, listing, fetch, t);
    }
  }

  /** A whole run: collect, then alert; the error of the first target
      without a usable date otherwise. */
  function Check(conf: Conf, today: Date, listing: string -> Option<seq<string>>, fetch: string -> string -> Probe, previous: Option<RunResult>)
    : (r: Result<AlertRun, Error>)
    requires Valid(today) && WellTyped(conf)
    ensures r.Success? <==> CollectResults(conf, today, listing, fetch).Success?
    ensures r.Success? ==>
      var results := CollectResults(conf, today, listing, fetch).value;
      AllEvaluable(conf, conf.composes, results, previous)
      && r.value.sent == Planned(conf, conf.composes, results, previous)
      && SameScan(results, r.value.results)
  {
    var results :- CollectResults(conf, today, listing, fetch);
    CollectedEvaluable(conf, today, listing, fetch, previous);
    RunAlertsFacts(conf, results, previous);
    Success(RunAlerts(conf, results, previous))
  }

  /** A target whose listing page cannot be fetched ends the whole run,
      whatever the other targets yield. */
  lemma ListingFailureEndsRun(conf: Conf, today: Date, listing: string -> Option<seq<string>>, fetch: string -> string -> Probe, t: TargetConf)
    requires Valid(today) && WellTyped(conf) && t in conf.composes && listing(t.url).None?
    ensures CollectResults(conf, today, listing, fetch).Failure?
    ensures Check(conf, today, listing, fetch, None).Failure?
  {
    var i :| 0 <= i < |conf.composes| && conf.composes[i] == t;
    assert ResultFor(conf.composes[i], today, listing, fetch).Failure?;
  }

  /** Two runs on the same day, the second reading what the first saved:
      no target the first run mailed, or found already mailed, is mailed
      by the second, whatever the listings and fetches of the second run. */
  lemma OncePerDay(conf: Conf, today: Date,
                   listing1: string -> Option<seq<string>>, fetch1: string -> string -> Probe, previous: Option<RunResult>,
                   listing2: string -> Option<seq<string>>, fetch2: string -> string -> Probe, t: TargetConf)
    requires Valid(today) && WellTyped(conf) && t in conf.composes
    requires Check(conf, today, listing1, fetch1, previous).Success?
    requires Check(conf, today, listing2, fetch2, Some(Check(conf, today, listing1, fetch1, previous).value.results)).Success?
    requires Stamps(Decide(conf, t, CollectResults(conf, today, listing1, fetch1).value, previous))
    ensures Decide(conf, t, CollectResults(conf, today, listing2, fetch2).value,
                   Some(Check(conf, today, listing1, fetch1, previous).value.results)) != Alert
  {
    var first := CollectResults(conf, today, listing1, fetch1).value;
    var second := CollectResults(conf, today, listing2, fetch2).value;
    StampedTargetNotRealerted(conf, t, first, previous, second);
  }

  /** A run on a later day, reading what an earlier run saved, mails every
      target that has recipients and no finished compose younger than its
      threshold: the earlier stamps no longer hold any target back. */
  lemma LaterDayAlertsAgain(conf: Conf, day1: Date, day2: Date,
                            listing1: string -> Option<seq<string>>, fetch1: string -> string -> Probe, previous: Option<RunResult>,
                            listing2: string -> Option<seq<string>>, fetch2: string -> string -> Probe, t: TargetConf)
    requires Valid(day1) && Valid(day2) && Before(day1, day2) && WellTyped(conf) && t in conf.composes
    requires Check(conf, day1, listing1, fetch1, previous).Success?
    requires Check(conf, day2, listing2, fetch2, Some(Check(conf, day1, listing1, fetch1, previous).value.results)).Success?
    ensures var second := CollectResults(conf, day2, listing2, fetch2).value;
      Decide(conf, t, second, Some(Check(conf, day1, listing1, fetch1, previous).value.results)) == Alert
      <==> Truthy(Recipients(conf, t)) && !Fresh(conf, t, Current(t, second).value)
  {
    var first := CollectResults(conf, day1, listing1, fetch1).value;
    var second := CollectResults(conf, day2, listing2, fetch2).value;
    var saved := Some(Check(conf, day1, listing1, fetch1, previous).value.results);
    assert saved == Some(RunAlerts(conf, first, previous).results);
    forall i | 0 <= i < |first.composes|
      ensures first.composes[i].alertDate.None?
    {
    }
    CollectedEvaluable(conf, day2, listing2, fetch2, saved);
    NextDayAlertsAgain(conf, t, first, previous, day1, second, day2);
  }
}
