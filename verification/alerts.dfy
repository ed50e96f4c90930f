/** The alerting pass (`alerts` and the message fields of `send_alert`):
    per target, decide whether to mail, and stamp the result with the run's
    date once its alert is due, so that a target is mailed at most once per
    day. Delivery (`send_email`) and the message body are left out; what a
    run mails is the list of `AlertMail`s it produces. */
module Alerts {
  import opened Outcomes
  import opened Text
  import opened Numerals
  import opened Calendar
  import opened Search
  import opened ComposeIds
  import opened ComposeResult
  import opened Config

  /** What the pass does for one configured target. */
  datatype Verdict =
    | NoRecipients     // `email_to` is falsy: skipped, not stamped
    | UnderThreshold   // the latest finished compose is younger than `alert_days`: skipped, not stamped
    | AlreadyAlerted   // the previous run's stamp is not before today: stamped, not mailed
    | Alert            // mailed and stamped

  /** The verdicts after which the source stamps the result. */
  predicate Stamps(v: Verdict) {
    v == Alert || v == AlreadyAlerted
  }

  function Recipients(conf: Conf, t: TargetConf): Value {
    ConfigProp("email_to", conf, t)
  }

  function Threshold(conf: Conf, t: TargetConf): Value {
    ConfigProp("alert_days", conf, t)
  }

  function Extra(conf: Conf, t: TargetConf): Value {
    ConfigProp("extra", conf, t)
  }

  /** This run's result for the target. */
  function Current(t: TargetConf, results: RunResult): Option<TargetResult> {
    FindComposeResult(t.url, t.name, t.version, Some(results))
  }

  /** The stamp of the previous run's result for the target, or "00000000"
      when there is no previous run, no result or no stamp. */
  function PreviousStamp(t: TargetConf, previous: Option<RunResult>): (r: string)
    ensures previous.None? ==> r == NeverStamp
    ensures r != NeverStamp ==>
      previous.Some? && exists c :: c in previous.value.composes && IsFor(c, t.url, t.name, t.version) && c.alertDate == Some(r)
    ensures FindComposeResult(t.url, t.name, t.version, previous).Some? && FindComposeResult(t.url, t.name, t.version, previous).value.alertDate.Some?
      ==> r == FindComposeResult(t.url, t.name, t.version, previous).value.alertDate.value
    ensures FindComposeResult(t.url, t.name, t.version, previous).Some? && FindComposeResult(t.url, t.name, t.version, previous).value.alertDate.None?
      ==> r == NeverStamp
  {
    match FindComposeResult(t.url, t.name, t.version, previous)
    case Some(prev) => prev.alertDate.GetOr(NeverStamp)
    case None => NeverStamp
  }

  /** The latest finished compose is younger than the threshold. */
  predicate Fresh(conf: Conf, t: TargetConf, result: TargetResult) {
    && result.slots.finished.Some?
    && Number(Threshold(conf, t)).Some?
    && result.slots.finished.value.age < Number(Threshold(conf, t)).value
  }

  /** The previous stamp is before today's date, as strings. */
  predicate Due(t: TargetConf, results: RunResult, previous: Option<RunResult>) {
    Less(PreviousStamp(t, previous), results.date)
  }

  function Sender(conf: Conf, t: TargetConf): Value {
    ConfigProp("email_sender", conf, t)
  }

  /** The inputs the model covers for one target. A target with recipients
      must have a result in this run (the source otherwise indexes None),
      and a threshold comparable with an age when it has a finished compose
      (the source otherwise raises TypeError at the comparison). A mailed
      target must have a string sender and string recipients (`send_email`
      otherwise raises TypeError at `"from=" + sender` or at the join,
      before the stamp is written), and, by choice of the model, a scalar
      `extra`: the source would print a list through its `repr`. */
  predicate Evaluable(conf: Conf, t: TargetConf, results: RunResult, previous: Option<RunResult>) {
    Truthy(Recipients(conf, t)) ==>
      && Current(t, results).Some?
      && (Current(t, results).value.slots.finished.Some? ==> Number(Threshold(conf, t)).Some?)
      && (!Fresh(conf, t, Current(t, results).value) && Due(t, results, previous) ==>
            !Extra(conf, t).List? && Sender(conf, t).Str? && Joinable(Recipients(conf, t)))
  }

  /** The body of the loop in `alerts` for one target. */
  function Decide(conf: Conf, t: TargetConf, results: RunResult, previous: Option<RunResult>): (v: Verdict)
    requires Evaluable(conf, t, results, previous)
    ensures v == NoRecipients <==> !Truthy(Recipients(conf, t))
    ensures v == UnderThreshold <==> Truthy(Recipients(conf, t)) && Fresh(conf, t, Current(t, results).value)
    ensures v == Alert <==>
      Truthy(Recipients(conf, t)) && !Fresh(conf, t, Current(t, results).value) && Due(t, results, previous)
  {
    if !Truthy(Recipients(conf, t)) then NoRecipients
    else if Fresh(conf, t, Current(t, results).value) then UnderThreshold
    else if Due(t, results, previous) then Alert
    else AlreadyAlerted
  }

  /** The four properties each slot contributes to the message. */
  datatype Prop = Age | DateProp | Id | Url

  function SlotName(slot: Slot): string {
    match slot
    case Attempted => "latest_attempted"
    case Finished => "latest_finished"
    case Incomplete => "latest_incomplete"
  }

  function PropName(prop: Prop): string {
    match prop
    case Age => "age"
    case DateProp => "date"
    case Id => "id"
    case Url => "url"
  }

  /** The fields `send_alert` formats the message with. */
  datatype Field = DescriptionField | AlertDaysField | SlotField(slot: Slot, prop: Prop) | ExtraField

  /** The field's key in the source's format dictionary, e.g. `latest_finished_age`. */
  function FieldName(f: Field): string {
    match f
    case DescriptionField => "description"
    case AlertDaysField => "alert_days"
    case SlotField(slot, prop) => SlotName(slot) + "_" + PropName(prop)
    case ExtraField => "extra"
  }

  /** A slot's property, or `unknown-<prop>` when the slot is empty. */
  function FieldValue(rec: Option<ComposeRecord>, prop: Prop): Value {
    match rec
    case None => Str("unknown-" + PropName(prop))
    case Some(r) =>
      match prop
      case Age => Int(r.age)
      case DateProp => Str(r.date)
      case Id => Str(r.id)
      case Url => Str(r.url)
  }

  /** The `extra` field: a heading and the text when `extra` is truthy, else empty. */
  function ExtraText(extra: Value): (s: string)
    requires !extra.List?
    ensures Truthy(extra) ==> StartsWith(s, "\nAdditional details:\n") && s == "\nAdditional details:\n" + Render(extra) + "\n"
    ensures !Truthy(extra) <==> s == ""
  {
    if Truthy(extra) then "\nAdditional details:\n" + Render(extra) + "\n" else ""
  }

  /** `[COMPOSE FAILURE] {description} has not finished for {latest_finished_age} days`. */
  function Subject(description: string, finishedAge: Value): string
    requires !finishedAge.List?
  {
    "[COMPOSE FAILURE] " + description + " has not finished for " + Render(finishedAge) + " days"
  }

  lemma SubjectOfSlot(description: string, finished: Option<ComposeRecord>)
    ensures finished.Some? ==>
      Subject(description, FieldValue(finished, Age))
      == "[COMPOSE FAILURE] " + description + " has not finished for " + IntToString(finished.value.age) + " days"
    ensures finished.None? ==>
      Subject(description, FieldValue(finished, Age))
      == "[COMPOSE FAILURE] " + description + " has not finished for unknown-age days"
  {
  }

  /** One mail: the sender and recipients as configured, the subject, and
      what the message body is formatted from. */
  datatype AlertMail = AlertMail(
    sender: Value, recipients: Value, subject: string,
    description: string, alertDays: Value, slots: Slots, extra: string)

  /** The value a mail's body shows for a field. */
  function FieldOf(m: AlertMail, f: Field): Value {
    match f
    case DescriptionField => Str(m.description)
    case AlertDaysField => m.alertDays
    case SlotField(slot, prop) => FieldValue(m.slots.Get(slot), prop)
    case ExtraField => Str(m.extra)
  }

  /** `send_alert` up to the hand-off to `send_email`: the subject names the
      description and the latest finished compose's age, or `unknown-age`
      when there is none, and every slot field of the body shows the slot's
      record or `unknown-<prop>`. */
  function AlertFor(conf: Conf, t: TargetConf, result: TargetResult): (m: AlertMail)
    requires !Extra(conf, t).List?
    ensures m.sender == Sender(conf, t) && m.recipients == Recipients(conf, t)
    ensures FieldOf(m, DescriptionField) == Str(result.description) && FieldOf(m, AlertDaysField) == Threshold(conf, t)
    ensures forall slot, prop :: FieldOf(m, SlotField(slot, prop)) == FieldValue(result.slots.Get(slot), prop)
    ensures FieldOf(m, ExtraField) == Str(ExtraText(Extra(conf, t)))
    ensures result.slots.finished.Some? ==>
      m.subject == "[COMPOSE FAILURE] " + result.description + " has not finished for "
                   + IntToString(result.slots.finished.value.age) + " days"
    ensures result.slots.finished.None? ==>
      m.subject == "[COMPOSE FAILURE] " + result.description + " has not finished for unknown-age days"
  {
    var age := FieldValue(result.slots.finished, Age);
    SubjectOfSlot(result.description, result.slots.finished);
    AlertMail(Sender(conf, t), Recipients(conf, t), Subject(result.description, age),
              result.description, Threshold(conf, t), result.slots, ExtraText(Extra(conf, t)))
  }

  /** A slot's age field is a number exactly when the slot holds a record;
      its ID field reads `unknown-id` exactly when the slot is empty, since
      no compose ID of the target can read so. */
  lemma UnknownExactlyWhenEmpty(conf: Conf, t: TargetConf, result: TargetResult, slot: Slot)
    requires !Extra(conf, t).List?
    requires result.slots.Get(slot).Some? ==> IsComposeId(result.slots.Get(slot).value.id, result.name, result.version)
    ensures FieldOf(AlertFor(conf, t, result), SlotField(slot, Age)).Int? <==> result.slots.Get(slot).Some?
    ensures FieldOf(AlertFor(conf, t, result), SlotField(slot, Id)) == Str("unknown-id") <==> result.slots.Get(slot).None?
  {
    if result.slots.Get(slot).Some? {
      var id := result.slots.Get(slot).value.id;
      var p := IdPrefix(result.name, result.version);
      assert id[|result.name|] == '-' && id[|p| - 1] == '-' by {
        assert id[..|p|] == p;
      }
      assert |result.name| < |p| - 1;
      var u := "unknown-id";
      assert forall k :: 0 <= k < |u| && u[k] == '-' ==> k == 7;
    }
  }

  /** A result with its stamp cleared: everything the pass reads of it. */
  function Unstamped(r: TargetResult): TargetResult {
    r.(alertDate := None)
  }

  /** Two runs that differ at most in their stamps. */
  predicate SameScan(a: RunResult, b: RunResult) {
    && a.date == b.date
    && |a.composes| == |b.composes|
    && forall i :: 0 <= i < |a.composes| ==> Unstamped(a.composes[i]) == Unstamped(b.composes[i])
  }

  /** `result["alert_date"] = today` on the result `find_compose_result`
      returned, which is the first one for the target. */
  function Stamp(results: RunResult, t: TargetConf): (r: RunResult)
    ensures SameScan(results, r)
    ensures forall i :: 0 <= i < |results.composes| ==>
      r.composes[i].alertDate ==
        (if FindIndex(results.composes, t.url, t.name, t.version) == Some(i) then Some(results.date)
         else results.composes[i].alertDate)
  {
    match FindIndex(results.composes, t.url, t.name, t.version)
    case Some(i) => results.(composes := results.composes[i := results.composes[i].(alertDate := Some(results.date))])
    case None => results
  }

  /** Reading back a stamp: the next run, given the results this stamp wrote,
      finds today's date as the target's previous stamp. */
  lemma StampReadBack(results: RunResult, t: TargetConf)
    requires Current(t, results).Some?
    ensures PreviousStamp(t, Some(Stamp(results, t))) == results.date
  {
  }

  /** The outcome of the pass: the mails in configuration order, and the
      results with their stamps, which the run saves for the next one. */
  datatype AlertRun = AlertRun(sent: seq<AlertMail>, results: RunResult)

  predicate AllEvaluable(conf: Conf, targets: seq<TargetConf>, results: RunResult, previous: Option<RunResult>) {
    forall t :: t in targets ==> Evaluable(conf, t, results, previous)
  }

  /** The loop of `alerts` over `targets`, threading the stamped results:
      at most one mail per target, and the run keeps its date and its
      number of results. */
  function AlertsFrom(conf: Conf, targets: seq<TargetConf>, results: RunResult, previous: Option<RunResult>): (r: AlertRun)
    requires AllEvaluable(conf, targets, results, previous)
    ensures |r.sent| <= |targets|
    ensures r.results.date == results.date && |r.results.composes| == |results.composes|
    decreases |targets|
  {
    if |targets| == 0 then AlertRun([], results)
    else
      var t := targets[0];
      var v := Decide(conf, t, results, previous);
      var mail := if v == Alert then [AlertFor(conf, t, Current(t, results).value)] else [];
      var next := if Stamps(v) then Stamp(results, t) else results;
      EvaluableUnderScan(conf, targets[1..], results, next, previous);
      var rest := AlertsFrom(conf, targets[1..], next, previous);
      AlertRun(mail + rest.sent, rest.results)
  }

  /** `alerts(conf, results, old_results)`: at most one mail per configured
      target; the saved run keeps its date and its number of results. */
  function RunAlerts(conf: Conf, results: RunResult, previous: Option<RunResult>): (r: AlertRun)
    requires AllEvaluable(conf, conf.composes, results, previous)
    ensures |r.sent| <= |conf.composes|
    ensures r.results.date == results.date && |r.results.composes| == |results.composes|
  {
    AlertsFrom(conf, conf.composes, results, previous)
  }

  lemma FirstIndexCongruent<T>(s: seq<T>, u: seq<T>, p: T -> bool)
    requires |s| == |u|
    requires forall i :: 0 <= i < |s| ==> p(s[i]) == p(u[i])
    ensures FirstIndex(s, p) == FirstIndex(u, p)
  {
  }

  /** Stamps are invisible to the pass: on two runs that differ only in
      their stamps, every target finds the same position, gets the same
      verdict and would get the same mail. */
  lemma SameScanDecisions(conf: Conf, t: TargetConf, a: RunResult, b: RunResult, previous: Option<RunResult>)
    requires SameScan(a, b)
    ensures FindIndex(a.composes, t.url, t.name, t.version) == FindIndex(b.composes, t.url, t.name, t.version)
    ensures Current(t, a).Some? <==> Current(t, b).Some?
    ensures Current(t, a).Some? ==> Unstamped(Current(t, a).value) == Unstamped(Current(t, b).value)
    ensures Evaluable(conf, t, a, previous) <==> Evaluable(conf, t, b, previous)
    ensures Evaluable(conf, t, a, previous) ==> Decide(conf, t, a, previous) == Decide(conf, t, b, previous)
    ensures Current(t, a).Some? && !Extra(conf, t).List? ==>
      AlertFor(conf, t, Current(t, a).value) == AlertFor(conf, t, Current(t, b).value)
  {
    var p := Targets(t.url, t.name, t.version);
    forall i | 0 <= i < |a.composes|
      ensures p(a.composes[i]) == p(b.composes[i])
    {
      assert Unstamped(a.composes[i]) == Unstamped(b.composes[i]);
    }
    FirstIndexCongruent(a.composes, b.composes, p);
  }

  lemma EvaluableUnderScan(conf: Conf, targets: seq<TargetConf>, a: RunResult, b: RunResult, previous: Option<RunResult>)
    requires SameScan(a, b) && AllEvaluable(conf, targets, a, previous)
    ensures AllEvaluable(conf, targets, b, previous)
  {
    forall t | t in targets
      ensures Evaluable(conf, t, b, previous)
    {
      SameScanDecisions(conf, t, a, b, previous);
    }
  }

  /** The mails of a pass computed without stamping: one per target whose
      verdict on the unstamped results is Alert, in configuration order. */
  function Planned(conf: Conf, targets: seq<TargetConf>, results: RunResult, previous: Option<RunResult>): seq<AlertMail>
    requires AllEvaluable(conf, targets, results, previous)
    decreases |targets|
  {
    if |targets| == 0 then []
    else
      var t := targets[0];
      (if Decide(conf, t, results, previous) == Alert then [AlertFor(conf, t, Current(t, results).value)] else [])
      + Planned(conf, targets[1..], results, previous)
  }

  lemma {:induction false} PlannedUnderScan(conf: Conf, targets: seq<TargetConf>, a: RunResult, b: RunResult, previous: Option<RunResult>)
    requires SameScan(a, b) && AllEvaluable(conf, targets, a, previous)
    ensures AllEvaluable(conf, targets, b, previous)
    ensures Planned(conf, targets, a, previous) == Planned(conf, targets, b, previous)
    decreases |targets|
  {
    EvaluableUnderScan(conf, targets, a, b, previous);
    if |targets| > 0 {
      SameScanDecisions(conf, targets[0], a, b, previous);
      PlannedUnderScan(conf, targets[1..], a, b, previous);
    }
  }

  /** Some target among `targets` has a stamping verdict and finds its
      result at position `i`. */
  predicate StampedBy(conf: Conf, targets: seq<TargetConf>, results: RunResult, previous: Option<RunResult>, i: int)
    requires AllEvaluable(conf, targets, results, previous)
  {
    exists j :: 0 <= j < |targets| && Stamps(Decide(conf, targets[j], results, previous))
                && FindIndex(results.composes, targets[j].url, targets[j].name, targets[j].version) == Some(i)
  }

  lemma StampedByStep(conf: Conf, targets: seq<TargetConf>, a: RunResult, b: RunResult, previous: Option<RunResult>, i: int)
    requires |targets| > 0 && SameScan(a, b) && AllEvaluable(conf, targets, a, previous)
    ensures AllEvaluable(conf, targets[1..], b, previous)
    ensures StampedBy(conf, targets, a, previous, i) <==>
      (Stamps(Decide(conf, targets[0], a, previous))
       && FindIndex(a.composes, targets[0].url, targets[0].name, targets[0].version) == Some(i))
      || StampedBy(conf, targets[1..], b, previous, i)
  {
    EvaluableUnderScan(conf, targets[1..], a, b, previous);
    if StampedBy(conf, targets, a, previous, i) {
      StampedByForward(conf, targets, a, b, previous, i);
    }
    if StampedBy(conf, targets[1..], b, previous, i) {
      StampedByBackward(conf, targets, a, b, previous, i);
    }
  }

  lemma StampedByForward(conf: Conf, targets: seq<TargetConf>, a: RunResult, b: RunResult, previous: Option<RunResult>, i: int)
    requires |targets| > 0 && SameScan(a, b) && AllEvaluable(conf, targets, a, previous)
    requires AllEvaluable(conf, targets[1..], b, previous)
    requires StampedBy(conf, targets, a, previous, i)
    ensures (Stamps(Decide(conf, targets[0], a, previous))
             && FindIndex(a.composes, targets[0].url, targets[0].name, targets[0].version) == Some(i))
            || StampedBy(conf, targets[1..], b, previous, i)
  {
    var j :| 0 <= j < |targets| && Stamps(Decide(conf, targets[j], a, previous))
             && FindIndex(a.composes, targets[j].url, targets[j].name, targets[j].version) == Some(i);
    if j > 0 {
      var t := targets[j];
      assert t == targets[1..][j - 1];
      SameScanDecisions(conf, t, a, b, previous);
    }
  }

  lemma StampedByBackward(conf: Conf, targets: seq<TargetConf>, a: RunResult, b: RunResult, previous: Option<RunResult>, i: int)
    requires |targets| > 0 && SameScan(a, b) && AllEvaluable(conf, targets, a, previous)
    requires AllEvaluable(conf, targets[1..], b, previous)
    requires StampedBy(conf, targets[1..], b, previous, i)
    ensures StampedBy(conf, targets, a, previous, i)
  {
    var tail := targets[1..];
    var j :| 0 <= j < |tail| && Stamps(Decide(conf, tail[j], b, previous))
             && FindIndex(b.composes, tail[j].url, tail[j].name, tail[j].version) == Some(i);
    var t := tail[j];
    assert t == targets[j + 1];
    SameScanDecisions(conf, t, a, b, previous);
  }

  /** What the pass does: it mails exactly the planned alerts (stamping
      never changes a later target's verdict), it changes nothing but
      stamps, and a result ends up stamped with the run's date exactly
      when some target with an Alert or AlreadyAlerted verdict finds it;
      every other result keeps its stamp. */
  lemma {:induction false} AlertsFromFacts(conf: Conf, targets: seq<TargetConf>, results: RunResult, previous: Option<RunResult>)
    requires AllEvaluable(conf, targets, results, previous)
    ensures AlertsFrom(conf, targets, results, previous).sent == Planned(conf, targets, results, previous)
    ensures SameScan(results, AlertsFrom(conf, targets, results, previous).results)
    ensures forall i :: 0 <= i < |results.composes| ==>
      AlertsFrom(conf, targets, results, previous).results.composes[i].alertDate ==
        (if StampedBy(conf, targets, results, previous, i) then Some(results.date) else results.composes[i].alertDate)
    decreases |targets|
  {
    if |targets| > 0 {
      var t := targets[0];
      var v := Decide(conf, t, results, previous);
      var next := if Stamps(v) then Stamp(results, t) else results;
      assert SameScan(results, next);
      EvaluableUnderScan(conf, targets[1..], results, next, previous);
      AlertsFromFacts(conf, targets[1..], next, previous);
      PlannedUnderScan(conf, targets[1..], results, next, previous);
      var out := AlertsFrom(conf, targets, results, previous);
      forall i | 0 <= i < |results.composes|
        ensures out.results.composes[i].alertDate ==
          (if StampedBy(conf, targets, results, previous, i) then Some(results.date) else results.composes[i].alertDate)
      {
        StampedByStep(conf, targets, results, next, previous, i);
      }
    }
  }

  /** `alerts`: mails the targets whose verdict is Alert, in configuration
      order, and stamps exactly the results whose target's verdict is
      Alert or AlreadyAlerted. */
  lemma RunAlertsFacts(conf: Conf, results: RunResult, previous: Option<RunResult>)
    requires AllEvaluable(conf, conf.composes, results, previous)
    ensures RunAlerts(conf, results, previous).sent == Planned(conf, conf.composes, results, previous)
    ensures SameScan(results, RunAlerts(conf, results, previous).results)
    ensures forall i :: 0 <= i < |results.composes| ==>
      RunAlerts(conf, results, previous).results.composes[i].alertDate ==
        (if StampedBy(conf, conf.composes, results, previous, i) then Some(results.date) else results.composes[i].alertDate)
  {
    AlertsFromFacts(conf, conf.composes, results, previous);
  }

  /** A target without recipients, or whose latest finished compose is
      under the threshold, gets no mail. */
  lemma {:induction false} PlannedOnlyAlerts(conf: Conf, targets: seq<TargetConf>, results: RunResult, previous: Option<RunResult>)
    requires AllEvaluable(conf, targets, results, previous)
    ensures |Planned(conf, targets, results, previous)| <= |targets|
    ensures (forall j :: 0 <= j < |targets| ==> Decide(conf, targets[j], results, previous) != Alert)
            <==> Planned(conf, targets, results, previous) == []
    decreases |targets|
  {
    if |targets| > 0 {
      PlannedOnlyAlerts(conf, targets[1..], results, previous);
      NoAlertSplit(conf, targets, results, previous);
    }
  }

  /** No target of a list has the Alert verdict exactly when its head has
      not and no target of its tail has. */
  lemma NoAlertSplit(conf: Conf, targets: seq<TargetConf>, results: RunResult, previous: Option<RunResult>)
    requires |targets| > 0 && AllEvaluable(conf, targets, results, previous)
    ensures AllEvaluable(conf, targets[1..], results, previous)
    ensures (forall j :: 0 <= j < |targets| ==> Decide(conf, targets[j], results, previous) != Alert)
            <==> Decide(conf, targets[0], results, previous) != Alert
                 && forall j :: 0 <= j < |targets[1..]| ==> Decide(conf, targets[1..][j], results, previous) != Alert
  {
    assert forall j :: 0 <= j < |targets[1..]| ==> targets[1..][j] == targets[j + 1];
  }

  /** The guarantee the stamp exists for: once a run has mailed a target,
      or found it already mailed, a later run on the same day that reads
      the results this run saved does not mail it again, whatever that
      later run's own results are. */
  lemma StampedTargetNotRealerted(conf: Conf, t: TargetConf, results: RunResult, previous: Option<RunResult>, later: RunResult)
    requires AllEvaluable(conf, conf.composes, results, previous)
    requires t in conf.composes && Stamps(Decide(conf, t, results, previous))
    requires later.date == results.date
    ensures !Due(t, later, Some(RunAlerts(conf, results, previous).results))
    ensures Evaluable(conf, t, later, Some(RunAlerts(conf, results, previous).results)) ==>
      Decide(conf, t, later, Some(RunAlerts(conf, results, previous).results)) != Alert
  {
    var out := RunAlerts(conf, results, previous).results;
    RunAlertsFacts(conf, results, previous);
    var i := FindIndex(results.composes, t.url, t.name, t.version).value;
    var j :| 0 <= j < |conf.composes| && conf.composes[j] == t;
    assert StampedBy(conf, conf.composes, results, previous, i);
    SameScanDecisions(conf, t, results, out, previous);
    assert PreviousStamp(t, Some(out)) == results.date;
    LessIrreflexive(results.date);
  }

  /** Running the pass a second time the same day on the same results,
      with the first pass's output as the previous run, mails nothing. */
  lemma SameDayRerunSendsNothing(conf: Conf, results: RunResult, previous: Option<RunResult>)
    requires AllEvaluable(conf, conf.composes, results, previous)
    ensures AllEvaluable(conf, conf.composes, results, Some(RunAlerts(conf, results, previous).results))
    ensures RunAlerts(conf, results, Some(RunAlerts(conf, results, previous).results)).sent == []
  {
    var first := Some(RunAlerts(conf, results, previous).results);
    forall t | t in conf.composes
      ensures Evaluable(conf, t, results, first)
      ensures Evaluable(conf, t, results, first) ==> Decide(conf, t, results, first) != Alert
    {
      if Truthy(Recipients(conf, t)) && !Fresh(conf, t, Current(t, results).value) {
        assert Stamps(Decide(conf, t, results, previous));
        StampedTargetNotRealerted(conf, t, results, previous, results);
      }
    }
    RunAlertsFacts(conf, results, Some(RunAlerts(conf, results, previous).results));
    PlannedOnlyAlerts(conf, conf.composes, results, first);
    forall j | 0 <= j < |conf.composes|
      ensures Decide(conf, conf.composes[j], results, first) != Alert
    {
      assert conf.composes[j] in conf.composes;
    }
  }

  /** On a later day the stamps of the previous run no longer hold a target
      back: every target with recipients and no fresh finished compose is
      mailed again, provided the previous run started from unstamped results. */
  lemma NextDayAlertsAgain(conf: Conf, t: TargetConf, results: RunResult, previous: Option<RunResult>,
                           d1: Date, later: RunResult, d2: Date)
    requires Valid(d1) && Valid(d2) && Before(d1, d2)
    requires results.date == FormatStamp(d1) && later.date == FormatStamp(d2)
    requires forall i :: 0 <= i < |results.composes| ==> results.composes[i].alertDate.None?
    requires AllEvaluable(conf, conf.composes, results, previous)
    requires Evaluable(conf, t, later, Some(RunAlerts(conf, results, previous).results))
    ensures Decide(conf, t, later, Some(RunAlerts(conf, results, previous).results)) != AlreadyAlerted
  {
    var out := RunAlerts(conf, results, previous).results;
    RunAlertsFacts(conf, results, previous);
    StampOrder(d1, d2);
    NeverStampFirst(d2);
    match FindIndex(out.composes, t.url, t.name, t.version)
    case Some(i) =>
      assert out.composes[i].alertDate.None? || out.composes[i].alertDate == Some(FormatStamp(d1));
    case None =>
  }

  /** The threshold with a five-day `alert_days`: a finished compose 3 days
      old holds the alert back, one 10 days old lets it through to the
      stamp check. */
  lemma ThresholdExample(conf: Conf, t: TargetConf, result: TargetResult, rec: ComposeRecord)
    requires Threshold(conf, t) == Int(5) && result.slots.finished == Some(rec)
    ensures rec.age == 3 ==> Fresh(conf, t, result)
    ensures rec.age == 10 ==> !Fresh(conf, t, result)
  {
  }
}
