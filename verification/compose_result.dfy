/** Result aggregation (`get_compose_result`) and result lookup
    (`find_compose_result`). The per-compose fetches of `get_compose_status`
    are an input: `probe(id)` is what the STATUS file and the composeinfo
    metadata yielded for that ID, None where a fetch failed. */
module ComposeResult {
  import opened Outcomes
  import opened Text
  import opened Numerals
  import opened Calendar
  import opened Search
  import opened ComposeIds

  /** The decoded text of `{url}/{id}/STATUS` and the `payload.compose.date`
      of `{url}/{id}/compose/metadata/composeinfo.json`. */
  datatype Probe = Probe(statusText: Option<string>, metadataDate: Option<string>)

  /** One examined compose (`comp_info`). */
  datatype ComposeRecord = ComposeRecord(id: string, url: string, status: Option<string>, date: string, age: int)

  datatype Slot = Attempted | Finished | Incomplete

  const FinishedStatus: string := "FINISHED"
  const IncompleteStatus: string := "FINISHED_INCOMPLETE"

  /** Which records a slot takes: any for `latest_attempted`, and an exact,
      case-sensitive status for the other two. */
  predicate Qualifies(slot: Slot, rec: ComposeRecord) {
    match slot
    case Attempted => true
    case Finished => rec.status == Some(FinishedStatus)
    case Incomplete => rec.status == Some(IncompleteStatus)
  }

  function Accepts(slot: Slot): ComposeRecord -> bool {
    rec => Qualifies(slot, rec)
  }

  /** `latest_attempted`, `latest_finished` and `latest_incomplete`; None is
      the empty dict the source starts each slot with. */
  datatype Slots = Slots(attempted: Option<ComposeRecord>, finished: Option<ComposeRecord>, incomplete: Option<ComposeRecord>) {
    function Get(slot: Slot): Option<ComposeRecord> {
      match slot
      case Attempted => attempted
      case Finished => finished
      case Incomplete => incomplete
    }
  }

  const EmptySlots := Slots(None, None, None)

  /** The result for one target; `alertDate` is the `alert_date` stamp the
      alerting pass adds. */
  datatype TargetResult = TargetResult(
    url: string, name: string, version: string, description: string,
    slots: Slots, alertDate: Option<string>)

  /** A run's output: its `YYYYMMDD` date and one result per target. */
  datatype RunResult = RunResult(date: string, composes: seq<TargetResult>)

  /** Why a run stops: the listing page of a target cannot be fetched
      (`urlopen` raises outside any `try`), a compose has no date (the
      source calls the missing `logger.notice`), or a date `strptime`
      rejects. */
  datatype Error = ListingUnavailable(url: string) | DateMissing(id: string) | DateUnparseable(id: string, date: string)

  /** `description`, or `{name}-{version} composes` when it is empty or None:
      the result is never empty, and a non-empty configured description is
      kept as it is. */
  function Description(name: string, version: string, description: Option<string>): (r: string)
    ensures r != ""
    ensures description.Some? && description.value != "" ==> r == description.value
    ensures (description.None? || description.value == "") ==> r == name + "-" + version + " composes"
  {
    if description.Some? && description.value != "" then description.value
    else name + "-" + version + " composes"
  }

  /** The status: None when the STATUS fetch failed, else the STATUS text
      without its trailing whitespace, which is a start of that text. */
  function StatusOf(probe: Probe): (r: Option<string>)
    ensures r.Some? <==> probe.statusText.Some?
    ensures r.Some? ==> StartsWith(probe.statusText.value, r.value)
    ensures r.Some? ==> (|r.value| == 0 || !IsSpace(r.value[|r.value| - 1]))
    ensures r.Some? ==> forall i :: |r.value| <= i < |probe.statusText.value| ==> IsSpace(probe.statusText.value[i])
  {
    match probe.statusText
    case Some(text) => Some(RStrip(text))
    case None => None
  }

  /** What `.*$` accepts: no line break, except possibly as the last character. */
  predicate SingleLine(rest: string) {
    forall i :: 0 <= i < |rest| - 1 ==> rest[i] != '\n'
  }

  /** The date group of `^{name}-{version}-(\d{8})\..*$` matched against `id`. */
  function IdDate(id: string, name: string, version: string): (r: Option<string>)
    ensures r.Some? ==> |r.value| == 8 && AllDigits(r.value)
    ensures r.Some? ==>
      var p := IdPrefix(name, version);
      |id| >= |p| + 9 && id == p + r.value + "." + id[|p| + 9..] && SingleLine(id[|p| + 9..])
  {
    var p := IdPrefix(name, version);
    if StartsWith(id, p) && |id| >= |p| + 9 && AllDigits(id[|p|..|p| + 8])
       && id[|p| + 8] == '.' && SingleLine(id[|p| + 9..])
    then
      assert id == p + id[|p|..|p| + 8] + "." + id[|p| + 9..];
      Some(id[|p|..|p| + 8])
    else
      None
  }

  /** An ID laid out as `{name}-{version}-DDDDDDDD.<rest>` yields its eight digits. */
  lemma IdDateOfLayout(name: string, version: string, digits: string, rest: string)
    requires |digits| == 8 && AllDigits(digits) && SingleLine(rest)
    ensures IdDate(IdPrefix(name, version) + digits + "." + rest, name, version) == Some(digits)
  {
    var p := IdPrefix(name, version);
    var id := p + digits + "." + rest;
    assert id[..|p|] == p;
    assert id[|p|..|p| + 8] == digits;
    assert id[|p| + 9..] == rest;
  }

  /** The date text of a record: the metadata date, else the date in the ID;
      a date taken from the ID is eight digits, and the only error is
      `DateMissing` for this ID. */
  function RecordDate(id: string, name: string, version: string, probe: Probe): (r: Result<string, Error>)
    ensures r.Failure? <==> probe.metadataDate.None? && IdDate(id, name, version).None?
    ensures r.Failure? ==> r.error == DateMissing(id)
    ensures r.Success? ==> Some(r.value) == probe.metadataDate || Some(r.value) == IdDate(id, name, version)
  {
    match probe.metadataDate
    case Some(date) => Success(date)
    case None =>
      match IdDate(id, name, version)
      case Some(date) => Success(date)
      case None => Failure(DateMissing(id))
  }

  /** The record the loop body builds for one ID, or the error that ends the
      run. The record links to `<url>/<id>/`, carries the stripped status
      and the derived date, which always parses, and its age is the number
      of days from that date to `today`. */
  function MakeRecord(url: string, name: string, version: string, today: Date, id: string, probe: Probe)
    : (r: Result<ComposeRecord, Error>)
    requires Valid(today)
    ensures r.Success? ==> r.value.id == id && ParseStamp(r.value.date).Some?
    ensures r.Success? ==> r.value.age == Age(today, ParseStamp(r.value.date).value)
    ensures r.Success? <==> RecordDate(id, name, version, probe).Success?
                            && ParseStamp(RecordDate(id, name, version, probe).value).Some?
    ensures r.Success? ==> r.value.date == RecordDate(id, name, version, probe).value
    ensures r.Success? ==> r.value.status == StatusOf(probe) && r.value.url == url + "/" + id + "/"
    ensures r.Failure? && RecordDate(id, name, version, probe).Success? ==>
      r.error == DateUnparseable(id, RecordDate(id, name, version, probe).value)
  {
    var date :- RecordDate(id, name, version, probe);
    match ParseStamp(date)
    case None => Failure(DateUnparseable(id, date))
    case Some(d) =>
      ParseFormat(date);
      Success(ComposeRecord(id, url + "/" + id + "/", StatusOf(probe), date, Age(today, d)))
  }

  /** The records of all IDs in order, or the error of the first ID that has none. */
  function MakeRecords(url: string, name: string, version: string, today: Date, ids: seq<string>, probe: string -> Probe)
    : (r: Result<seq<ComposeRecord>, Error>)
    requires Valid(today)
    ensures r.Success? <==> forall i :: 0 <= i < |ids| ==> MakeRecord(url, name, version, today, ids[i], probe(ids[i])).Success?
    ensures r.Success? ==> |r.value| == |ids|
    ensures r.Success? ==> forall i :: 0 <= i < |ids| ==> r.value[i] == MakeRecord(url, name, version, today, ids[i], probe(ids[i])).value
    ensures r.Failure? ==> FailsFirstAt(url, name, version, today, ids, probe, r.error)
    decreases |ids|
  {
    if |ids| == 0 then Success([])
    else
      var head := MakeRecord(url, name, version, today, ids[0], probe(ids[0]));
      if head.Failure? then
        assert FailsAt(url, name, version, today, ids, probe, head.error, 0);
        Failure(head.error)
      else
      var rest := MakeRecords(url, name, version, today, ids[1..], probe);
      if rest.Failure? then
        FailsFirstAtShift(url, name, version, today, ids, probe, rest.error);
        Failure(rest.error)
      else
        Success([head.value] + rest.value)
  }

  /** `e` is the error of some ID whose predecessors all have records. */
  ghost predicate FailsFirstAt(url: string, name: string, version: string, today: Date, ids: seq<string>, probe: string -> Probe, e: Error)
    requires Valid(today)
  {
    exists i :: 0 <= i < |ids| && FailsAt(url, name, version, today, ids, probe, e, i)
  }

  ghost predicate FailsAt(url: string, name: string, version: string, today: Date, ids: seq<string>, probe: string -> Probe, e: Error, i: int)
    requires Valid(today) && 0 <= i < |ids|
  {
    && MakeRecord(url, name, version, today, ids[i], probe(ids[i])) == Failure(e)
    && forall j :: 0 <= j < i ==> MakeRecord(url, name, version, today, ids[j], probe(ids[j])).Success?
  }

  lemma FailsFirstAtShift(url: string, name: string, version: string, today: Date, ids: seq<string>, probe: string -> Probe, e: Error)
    requires Valid(today) && |ids| > 0
    requires MakeRecord(url, name, version, today, ids[0], probe(ids[0])).Success?
    requires FailsFirstAt(url, name, version, today, ids[1..], probe, e)
    ensures FailsFirstAt(url, name, version, today, ids, probe, e)
  {
    var i :| 0 <= i < |ids[1..]| && FailsAt(url, name, version, today, ids[1..], probe, e, i);
    assert ids[i + 1] == ids[1..][i];
    forall j | 0 <= j < i + 1
      ensures MakeRecord(url, name, version, today, ids[j], probe(ids[j])).Success?
    {
      if j > 0 {
        assert ids[j] == ids[1..][j - 1];
      }
    }
    assert FailsAt(url, name, version, today, ids, probe, e, i + 1);
  }

  /** The first record a slot accepts, in list order. */
  function FirstRecord(recs: seq<ComposeRecord>, slot: Slot): Option<ComposeRecord> {
    match FirstIndex(recs, Accepts(slot))
    case Some(i) => Some(recs[i])
    case None => None
  }

  /** One pass of the loop body: each empty slot that accepts the record takes it. */
  function Absorb(s: Slots, rec: ComposeRecord): Slots {
    Slots(
      if s.attempted.None? then Some(rec) else s.attempted,
      if rec.status == Some(FinishedStatus) && s.finished.None? then Some(rec) else s.finished,
      if rec.status == Some(IncompleteStatus) && s.incomplete.None? then Some(rec) else s.incomplete)
  }

  /** A slot takes the record exactly when it is empty and accepts it. */
  lemma AbsorbGet(s: Slots, rec: ComposeRecord, slot: Slot)
    ensures Absorb(s, rec).Get(slot) == if s.Get(slot).None? && Qualifies(slot, rec) then Some(rec) else s.Get(slot)
  {
  }

  /** The loop over the records, first write wins: a filled slot is never
      overwritten, and an empty one ends up holding the first record it accepts. */
  function Fill(s: Slots, recs: seq<ComposeRecord>): (r: Slots)
    ensures forall slot :: s.Get(slot).Some? ==> r.Get(slot) == s.Get(slot)
    ensures forall slot :: s.Get(slot).None? ==> r.Get(slot) == FirstRecord(recs, slot)
    decreases |recs|
  {
    if |recs| == 0 then s
    else
      var r := Fill(Absorb(s, recs[0]), recs[1..]);
      forall slot
        ensures s.Get(slot).Some? ==> r.Get(slot) == s.Get(slot)
        ensures s.Get(slot).None? ==> r.Get(slot) == FirstRecord(recs, slot)
      {
        AbsorbGet(s, recs[0], slot);
        FirstRecordStep(recs, slot);
      }
      r
  }

  /** The first record a slot accepts is the head when it accepts the head,
      and otherwise the first one it accepts in the tail. */
  lemma FirstRecordStep(recs: seq<ComposeRecord>, slot: Slot)
    requires |recs| > 0
    ensures FirstRecord(recs, slot) == if Qualifies(slot, recs[0]) then Some(recs[0]) else FirstRecord(recs[1..], slot)
  {
    if !Qualifies(slot, recs[0]) {
      match FirstIndex(recs[1..], Accepts(slot))
      case Some(i) =>
        assert recs[1..][i] == recs[i + 1];
      case None =>
    }
  }

  /** `get_compose_result` for one target, once the listing's hrefs and the
      per-compose fetches are known: the run fails exactly when some ID has
      no usable date; otherwise each slot holds the first record (newest ID
      first) it accepts, so `latest_attempted` is the newest ID and every
      slot is empty when no ID matched. */
  function GetComposeResult(
    url: string, name: string, version: string, description: Option<string>,
    today: Date, hrefs: seq<string>, probe: string -> Probe)
    : (r: Result<TargetResult, Error>)
    requires Valid(today)
    ensures var ids := GetComposeIds(hrefs, name, version);
      r.Success? <==> forall i :: 0 <= i < |ids| ==> MakeRecord(url, name, version, today, ids[i], probe(ids[i])).Success?
    ensures r.Success? ==> r.value.url == url && r.value.name == name && r.value.version == version
    ensures r.Success? ==> r.value.description == Description(name, version, description) && r.value.alertDate.None?
    ensures r.Success? ==> var recs := MakeRecords(url, name, version, today, GetComposeIds(hrefs, name, version), probe).value;
      forall slot :: r.value.slots.Get(slot) == FirstRecord(recs, slot)
    ensures r.Success? && |GetComposeIds(hrefs, name, version)| == 0 ==> r.value.slots == EmptySlots
    ensures r.Success? && |GetComposeIds(hrefs, name, version)| > 0 ==>
      r.value.slots.attempted.Some? && r.value.slots.attempted.value.id == GetComposeIds(hrefs, name, version)[0]
  {
    var ids := GetComposeIds(hrefs, name, version);
    var recs :- MakeRecords(url, name, version, today, ids, probe);
    FillFromEmpty(recs);
    Success(TargetResult(url, name, version, Description(name, version, description), Fill(EmptySlots, recs), None))
  }

  /** The loop started from three empty slots: each slot holds the first
      record it accepts, the first record is the latest attempted, and no
      record leaves every slot empty. */
  lemma FillFromEmpty(recs: seq<ComposeRecord>)
    ensures forall slot :: Fill(EmptySlots, recs).Get(slot) == FirstRecord(recs, slot)
    ensures |recs| == 0 ==> Fill(EmptySlots, recs) == EmptySlots
    ensures |recs| > 0 ==> Fill(EmptySlots, recs).attempted == Some(recs[0])
  {
    var slots := Fill(EmptySlots, recs);
    assert EmptySlots.Get(Attempted).None? && EmptySlots.Get(Finished).None? && EmptySlots.Get(Incomplete).None?;
    assert slots.attempted == slots.Get(Attempted);
    assert slots.finished == slots.Get(Finished);
    assert slots.incomplete == slots.Get(Incomplete);
  }

  /** Where a record's date comes from: the metadata date wins; without it
      the date in the ID is used; without either the run fails. */
  lemma RecordDateSources(id: string, name: string, version: string, probe: Probe)
    ensures probe.metadataDate.Some? ==> RecordDate(id, name, version, probe) == Success(probe.metadataDate.value)
    ensures probe.metadataDate.None? && IdDate(id, name, version).Some? ==>
      RecordDate(id, name, version, probe) == Success(IdDate(id, name, version).value)
    ensures probe.metadataDate.None? && IdDate(id, name, version).None? ==>
      RecordDate(id, name, version, probe) == Failure(DateMissing(id))
  {
  }

  /** The status of a built record is compared after `rstrip()` and
      case-sensitively: the record counts as finished exactly when its
      STATUS file was fetched and reads `FINISHED` up to trailing
      whitespace, and as incomplete exactly when it reads
      `FINISHED_INCOMPLETE` so; a failed fetch counts as neither. */
  lemma StatusComparison(url: string, name: string, version: string, today: Date, id: string, probe: Probe)
    requires Valid(today) && MakeRecord(url, name, version, today, id, probe).Success?
    ensures Qualifies(Finished, MakeRecord(url, name, version, today, id, probe).value)
            <==> probe.statusText.Some? && RStrip(probe.statusText.value) == "FINISHED"
    ensures Qualifies(Incomplete, MakeRecord(url, name, version, today, id, probe).value)
            <==> probe.statusText.Some? && RStrip(probe.statusText.value) == "FINISHED_INCOMPLETE"
    ensures probe.statusText == Some("FINISHED\n") ==> Qualifies(Finished, MakeRecord(url, name, version, today, id, probe).value)
    ensures probe.statusText == Some("finished") ==> !Qualifies(Finished, MakeRecord(url, name, version, today, id, probe).value)
  {
    assert RStrip("FINISHED\n") == "FINISHED" by {
      assert "FINISHED\n"[..8] == "FINISHED";
    }
  }

  /** A finished compose newer than an incomplete one: `latest_finished`
      takes the former and `latest_incomplete` the latter, and the newest
      record is the latest attempted whatever its status. */
  lemma FinishedThenIncomplete(failed: ComposeRecord, done: ComposeRecord, partial: ComposeRecord, older: ComposeRecord)
    requires failed.status == Some("DOOMED")
    requires done.status == Some(FinishedStatus) && partial.status == Some(IncompleteStatus)
    ensures Fill(EmptySlots, [failed, done, partial, older]) == Slots(Some(failed), Some(done), Some(partial))
  {
    var recs := [failed, done, partial, older];
    var r := Fill(EmptySlots, recs);
    assert EmptySlots.Get(Attempted).None? && EmptySlots.Get(Finished).None? && EmptySlots.Get(Incomplete).None?;
    assert r.attempted == r.Get(Attempted) == Some(failed);
    assert FirstIndex(recs, Accepts(Finished)) == Some(1) by {
      assert !Accepts(Finished)(recs[0]) && Accepts(Finished)(recs[1]);
    }
    assert r.finished == r.Get(Finished) == Some(done);
    assert FirstIndex(recs, Accepts(Incomplete)) == Some(2) by {
      assert !Accepts(Incomplete)(recs[0]) && !Accepts(Incomplete)(recs[1]) && Accepts(Incomplete)(recs[2]);
    }
    assert r.incomplete == r.Get(Incomplete) == Some(partial);
  }

  predicate IsFor(r: TargetResult, url: string, name: string, version: string) {
    r.url == url && r.name == name && r.version == version
  }

  function Targets(url: string, name: string, version: string): TargetResult -> bool {
    r => IsFor(r, url, name, version)
  }

  /** The position of the first result for the (url, name, version) triple. */
  function FindIndex(composes: seq<TargetResult>, url: string, name: string, version: string): Option<nat> {
    FirstIndex(composes, Targets(url, name, version))
  }

  /** `find_compose_result`: the first result whose url, name and version all
      match, and None when there are no results or none matches. */
  function FindComposeResult(url: string, name: string, version: string, results: Option<RunResult>)
    : (r: Option<TargetResult>)
    ensures results.None? ==> r.None?
    ensures r.Some? ==> r.value in results.value.composes && IsFor(r.value, url, name, version)
    ensures r.Some? ==> exists i :: (0 <= i < |results.value.composes| && results.value.composes[i] == r.value
      && forall j :: 0 <= j < i ==> !IsFor(results.value.composes[j], url, name, version))
    ensures results.Some? && r.None? ==> forall c :: c in results.value.composes ==> !IsFor(c, url, name, version)
  {
    match results
    case None => None
    case Some(run) =>
      match FindIndex(run.composes, url, name, version)
      case Some(i) =>
        assert Targets(url, name, version)(run.composes[i]);
        assert forall j :: 0 <= j < i ==> !Targets(url, name, version)(run.composes[j]);
        Some(run.composes[i])
      case None =>
        assert forall j :: 0 <= j < |run.composes| ==> !Targets(url, name, version)(run.composes[j]);
        None
  }
}
