# Compose monitor decision core, in Dafny

The compose monitor checks compose servers: for each configured target
(`url`, `name`, `version`) it lists the compose IDs on the server, reads
each compose's `STATUS` file and `composeinfo.json` date, and keeps three
slots: the latest attempted, the latest finished and the latest
incomplete compose. When a target has gone too long without a finished
compose, it mails the configured recipients at most once per calendar day.
It saves its results for the next run, and renders them through templates.

This project models the deterministic core of
`scripts/compose_monitor/compose_check.py`. It also covers the older variant
`scripts/compose_monitor/compose-check.py`, whose `get_compose_ids`,
`get_compose_result` and `render` are line-for-line the same functions. The
same modules serve both files. Every fetch becomes an input value:

- the hrefs of a listing page, an `Option<seq<string>>` that is `None` where the fetch failed;
- the STATUS text and the metadata date of a compose, a `Probe` whose fields are `None` where a fetch failed;
- `today`, a `Date` parameter.

| module | file | models |
|---|---|---|
| `Outcomes` | outcomes.dfy | `Option`, and `Result` for the exceptions that end a run |
| `Text` | text.dfy | Python `str` operations the core uses: `<`, `lower`, `startswith`, `split`/`join` on one character, `rstrip()` |
| `Numerals` | numerals.dfy | zero-padded decimal strings, and `str(int)` |
| `Calendar` | calendar.dfy | `datetime.date`: `toordinal`, date subtraction, `strftime("%Y%m%d")`, `strptime(…, "%Y%m%d")` |
| `ComposeIds` | compose_ids.dfy | `get_compose_ids` after the fetch: prefix match, cut at `/`, stable descending case-insensitive sort |
| `Search` | search.dfy | first index with a property, the "first match wins" rule |
| `ComposeResult` | compose_result.dfy | `get_compose_result` (records, date fallback, first-write-wins slots) and `find_compose_result` |
| `Config` | config.dfy | YAML values, truthiness, `get_compose_config_prop` |
| `Alerts` | alerts.dfy | `alerts`: per-target verdict, `alert_date` stamping, the field map and subject of `send_alert` |
| `Render` | render.dfy | the template filter and the output names of `render` |
| `Monitor` | monitor.dfy | the run `cli` assembles: results under today's stamp, then the alert pass |

Three behaviours of the source that its log messages do not suggest; the model follows the code as written:

- A compose with neither a metadata date nor a dated ID is not skipped. The
  source calls `logger.notice`, which a standard `Logger` does not have, and
  the `next` after it does nothing. So the run ends with an error;
  `ComposeResult.RecordDate` returns `Failure(DateMissing(id))`.
- The `alert_date` stamp is written both when an alert is sent and when it
  was already sent today, not only after sending.
- A listing page that cannot be fetched is not treated as "no composes".
  `get_compose_ids` calls `urlopen` outside any `try`, so the run ends;
  `Monitor.ResultFor` returns `Failure(ListingUnavailable(url))`.

## Model

| member | source | states |
|---|---|---|
| Text.LessTotal | scripts/compose_monitor/compose_check.py:50 | Python string order is total: two strings are equal or one is below the other |
| Text.LessTransitive | scripts/compose_monitor/compose_check.py:50 | Python string order is transitive, so the descending sort is well defined |
| Text.LowerFacts | scripts/compose_monitor/compose_check.py:50 | `str.lower` keeps the length, maps each ASCII capital to its small letter, keeps every other character, and leaves no ASCII capital |
| Text.RStrip | scripts/compose_monitor/compose_check.py:68 | `rstrip()` removes a tail made only of whitespace and leaves a string that does not end in whitespace |
| Text.Split | scripts/compose_monitor/compose_check.py:334 | `split(sep)` gives at least one piece, no piece holds the separator, and joining the pieces gives the input back |
| Text.SplitJoin | scripts/compose_monitor/compose_check.py:335 | splitting what `join` built from separator-free pieces returns exactly those pieces |
| Text.SplitAround | scripts/compose_monitor/compose_check.py:335 | splitting `x + sep + y` gives the pieces of `x` followed by those of `y` |
| Numerals.ValueOfPad | scripts/compose_monitor/compose_check.py:423 | reading back a zero-padded number gives the number |
| Numerals.PadValueOf | scripts/compose_monitor/compose_check.py:128 | every digit string is the zero-padded form of its value |
| Numerals.PadLess | scripts/compose_monitor/compose_check.py:309 | for equal-width zero-padded numbers, string `<` is numeric `<` |
| Numerals.Digits | scripts/compose_monitor/compose_check.py:244 | the decimal text of a non-negative number reads back as that number and has no leading zero, `0` itself being the single digit `0` |
| Numerals.IntToStringFacts | scripts/compose_monitor/compose_check.py:244 | `str(age)` starts with a minus sign exactly for a negative age, and the rest is the magnitude's digits without a leading zero |
| Calendar.ParseStamp | scripts/compose_monitor/compose_check.py:128 | a date parses only from eight ASCII digits and only to a valid calendar date |
| Calendar.Age | scripts/compose_monitor/compose_check.py:129 | `(today - parsed_date).days` is 0 exactly on the compose's own day and positive exactly for an earlier date |
| Calendar.NextDay | scripts/compose_monitor/compose_check.py:129 | the next calendar day is a valid later date whose ordinal is one more |
| Calendar.OrdinalOrder | scripts/compose_monitor/compose_check.py:129 | the day ordinal orders dates chronologically and is injective |
| Calendar.AgeSigns | scripts/compose_monitor/compose_check.py:129 | age is 0 exactly on the compose's own day, negative exactly for a future date, positive exactly for a past one; nothing clamps it |
| Calendar.AgeNextDay | scripts/compose_monitor/compose_check.py:129 | each passing day adds one to every age |
| Calendar.ParseExample | scripts/compose_monitor/compose_check.py:128 | `20240301` parses to 2024-03-01 |
| Calendar.AgeExample | scripts/compose_monitor/compose_check.py:129 | a compose from 2024-03-01 is 9 days old on 2024-03-10 |
| Calendar.FormatStamp | scripts/compose_monitor/compose_check.py:423 | `strftime("%Y%m%d")` is eight ASCII digits |
| Calendar.FormatParse | scripts/compose_monitor/compose_check.py:128 | parsing a formatted date gives the date back |
| Calendar.ParseFormat | scripts/compose_monitor/compose_check.py:128 | every string that parses is the formatted form of the date it parses to |
| Calendar.StampOrder | scripts/compose_monitor/compose_check.py:309 | for `YYYYMMDD` stamps, string `<` holds exactly when the first date is earlier |
| Calendar.NeverStampFirst | scripts/compose_monitor/compose_check.py:304-309 | the default stamp `00000000` is below the stamp of every real date |
| ComposeIds.MatchId | scripts/compose_monitor/compose_check.py:34-47 | an href matches exactly when it starts with `name-version-`; the ID is the longest start of the href with no `/` after the prefix |
| ComposeIds.ExtractIds | scripts/compose_monitor/compose_check.py:44-48 | every extracted string is an ID of the target, and there are no more IDs than hrefs |
| ComposeIds.ExtractIdsOne | scripts/compose_monitor/compose_check.py:40-48 | one href yields its match exactly when it starts with `name-version-`, and nothing otherwise |
| ComposeIds.ExtractIdsMembers | scripts/compose_monitor/compose_check.py:40-48 | a string is extracted exactly when it is the match of some href of the listing |
| ComposeIds.ExtractIdsAppend | scripts/compose_monitor/compose_check.py:44-48 | extraction handles each href on its own, in listing order |
| ComposeIds.InsertFacts | scripts/compose_monitor/compose_check.py:50 | inserting into a sorted list adds exactly one element, keeps the list sorted and puts the element ahead of its equal-key peers |
| ComposeIds.SortDesc | scripts/compose_monitor/compose_check.py:50 | the sort is a permutation, non-increasing by lower-cased ID, and stable |
| ComposeIds.SortedArrangementUnique | scripts/compose_monitor/compose_check.py:50 | two sorted lists that keep every key's IDs in the same order are equal |
| ComposeIds.GetComposeIds | scripts/compose_monitor/compose-check.py:23-49 | the IDs are a permutation of the matches with duplicates kept, non-increasing by lower-cased ID, stable, and all IDs of the target |
| ComposeIds.GetComposeIdsIsTheStableOrder | scripts/compose_monitor/compose_check.py:50 | the returned order is the only stable non-increasing arrangement of the matches |
| Search.FirstIndex | scripts/compose_monitor/compose_check.py:164-172 | the first match: the least index with the property, or none when no element has it |
| ComposeResult.Description | scripts/compose_monitor/compose_check.py:101-103 | the description is never empty: a non-empty configured one is kept, else it is `name-version composes` |
| ComposeResult.StatusOf | scripts/compose_monitor/compose_check.py:62-71 | the status is None exactly when the STATUS fetch failed; otherwise it is the STATUS text minus a tail made only of whitespace, ending in no whitespace |
| ComposeResult.IdDate | scripts/compose_monitor/compose_check.py:117-122 | a date from the ID is eight digits that follow `name-version-` and precede a `.` and a rest with no inner line break |
| ComposeResult.IdDateOfLayout | scripts/compose_monitor/compose-check.py:116-121 | an ID laid out as `name-version-DDDDDDDD.<rest>` yields its eight digits |
| ComposeResult.RecordDate | scripts/compose_monitor/compose_check.py:114-126 | a record's date text is the metadata date or the ID's date; it is missing exactly when both are, and then the error is `DateMissing` for that ID |
| ComposeResult.RecordDateSources | scripts/compose_monitor/compose-check.py:114-127 | the metadata date wins, else the ID's date, else the run fails with `DateMissing` |
| ComposeResult.MakeRecord | scripts/compose_monitor/compose_check.py:112-139 | a record exists exactly when a date is derivable and parses; it then holds the ID, the link `<url>/<id>/`, the stripped status, the derived date and that date's age on today; an unparseable date fails with `DateUnparseable` |
| ComposeResult.MakeRecords | scripts/compose_monitor/compose_check.py:112-128 | all records exist or the run fails; a failure is the error of the first ID without a record |
| ComposeResult.FirstRecordStep | scripts/compose_monitor/compose_check.py:141-148 | the first record a slot accepts is the head if it accepts the head, else the first accepted in the tail |
| ComposeResult.Fill | scripts/compose_monitor/compose_check.py:141-148 | first write wins: a filled slot is never overwritten; an empty slot ends up with the first record it accepts |
| ComposeResult.StatusComparison | scripts/compose_monitor/compose_check.py:143-147 | a built record is finished exactly when its STATUS text was fetched and reads `FINISHED` up to trailing whitespace, and incomplete exactly when it reads `FINISHED_INCOMPLETE` so; the comparison is case-sensitive |
| ComposeResult.FinishedThenIncomplete | scripts/compose_monitor/compose-check.py:140-147 | the newest record is the latest attempted whatever its status; the first finished and first incomplete records fill their slots |
| ComposeResult.FillFromEmpty | scripts/compose_monitor/compose_check.py:105-147 | starting from three empty slots, each slot ends with the first record it accepts, the newest record is the latest attempted, and no records leave all slots empty |
| ComposeResult.GetComposeResult | scripts/compose_monitor/compose_check.py:86-150 | fails exactly when some ID lacks a usable date; otherwise keeps url/name/version, defaults the description, fills each slot with the first accepting record, all slots empty without IDs |
| ComposeResult.FindComposeResult | scripts/compose_monitor/compose_check.py:153-172 | the first result whose url, name and version all match; None without results or without a match |
| Config.ConfigProp | scripts/compose_monitor/compose_check.py:175-189 | the target's value unless it is None, else the defaults value, else None; any non-None answer comes from one of the two |
| Config.FalsyOverrideWins | scripts/compose_monitor/compose_check.py:183-184 | a present falsy target value such as `""` or `0` shadows the default |
| Config.Number | scripts/compose_monitor/compose_check.py:296 | an age compares with an integer `alert_days` by value and with a boolean as 0 or 1; None, strings and lists do not compare |
| Alerts.PreviousStamp | scripts/compose_monitor/compose_check.py:304-307 | without a previous run the stamp is `00000000`; a stamp other than that is the `alert_date` of a previous result for the target, the first matching result's stamp when it has one, and `00000000` when that result has none |
| Alerts.StampReadBack | scripts/compose_monitor/compose_check.py:304-316 | the next run, reading the results a stamp wrote, finds today's date as the target's previous stamp |
| Alerts.Decide | scripts/compose_monitor/compose_check.py:280-316 | a target is skipped exactly without recipients, held back exactly when its finished compose is under the threshold, and mailed exactly when it passes both and the previous stamp is before today |
| Alerts.ThresholdExample | scripts/compose_monitor/compose_check.py:294-302 | with `alert_days` 5, a finished compose 3 days old holds the alert back and one 10 days old does not |
| Alerts.ExtraText | scripts/compose_monitor/compose_check.py:239-242 | `extra` is empty exactly when the configured value is falsy, and otherwise is the heading, the value and a newline |
| Alerts.AlertFor | scripts/compose_monitor/compose_check.py:231-246 | the mail goes from the configured sender to the recipients, shows each slot's property or `unknown-<prop>`, and its subject names the description and the finished age or `unknown-age` |
| Alerts.UnknownExactlyWhenEmpty | scripts/compose_monitor/compose_check.py:235-237 | a slot's age field is a number, and its ID field differs from `unknown-id`, exactly when the slot holds a record |
| Alerts.Stamp | scripts/compose_monitor/compose_check.py:316 | stamping sets the date on the first result for the target and on no other; nothing but stamps changes |
| Alerts.SameScanDecisions | scripts/compose_monitor/compose_check.py:289-316 | on results that differ only in stamps, every target finds the same entry, gets the same verdict and the same mail |
| Alerts.PlannedUnderScan | scripts/compose_monitor/compose_check.py:280-316 | stamps do not change which mails a pass plans |
| Alerts.AlertsFrom | scripts/compose_monitor/compose_check.py:280-316 | the loop mails at most once per target and keeps the run's date and number of results |
| Alerts.AlertsFromFacts | scripts/compose_monitor/compose_check.py:280-316 | the pass mails exactly the Alert targets in config order; a result is stamped with today exactly when a target with an Alert or AlreadyAlerted verdict finds it; other stamps stay |
| Alerts.RunAlerts | scripts/compose_monitor/compose_check.py:268-316 | `alerts` mails at most once per configured target and keeps the run's date and number of results |
| Alerts.RunAlertsFacts | scripts/compose_monitor/compose_check.py:268-316 | the same for `alerts` over the configured targets |
| Alerts.PlannedOnlyAlerts | scripts/compose_monitor/compose_check.py:284-302 | a pass mails nothing exactly when no target has the Alert verdict, and never more mails than targets |
| Alerts.StampedTargetNotRealerted | scripts/compose_monitor/compose_check.py:304-316 | a target mailed or found already mailed is not mailed again by a later run on the same day that reads the results this pass saved |
| Alerts.SameDayRerunSendsNothing | scripts/compose_monitor/compose_check.py:304-316 | rerunning the pass the same day on what the first pass saved mails nothing |
| Alerts.NextDayAlertsAgain | scripts/compose_monitor/compose_check.py:304-316 | on a later day no target is held back by the previous run's stamps |
| Render.ExtensionFilter | scripts/compose_monitor/compose_check.py:331 | the listing keeps a name whose text after the last dot is a substring of `j2`: `j2`, `j`, `2` or nothing |
| Render.SelectTemplates | scripts/compose_monitor/compose_check.py:333-335 | `all` keeps every template; otherwise a template is kept exactly when its second-to-last dot component is one of the comma-separated formats |
| Render.SelectAppend | scripts/compose_monitor/compose_check.py:335 | the selection from a concatenation is the concatenation of the selections, so the original order is kept |
| Render.SelectOne | scripts/compose_monitor/compose-check.py:270-272 | a single template is kept exactly when it is selected |
| Render.OutputName | scripts/compose_monitor/compose_check.py:338-341 | the output name drops the last three characters, so a `.j2` name plus `.j2` gives the template name back |
| Render.TemplateLayout | scripts/compose_monitor/compose-check.py:272-277 | `<base>.<format>.j2` has format `<format>` and is written to `<base>.<format>` |
| Render.SelectedByLayout | scripts/compose_monitor/compose_check.py:333-335 | `<base>.<format>.j2` is selected exactly when `fmt` is `all` or lists `<format>` |
| Render.HtmlXmlExample | scripts/compose_monitor/compose_check.py:333-335 | with `fmt` `html,xml`, exactly the html and xml templates are selected |
| Monitor.ResultFor | scripts/compose_monitor/compose_check.py:34-50 | a target whose listing page cannot be fetched fails with `ListingUnavailable`; otherwise its result is the one built from the page's hrefs |
| Monitor.CollectFrom | scripts/compose_monitor/compose_check.py:438-446 | the results of all targets in config order, or, when some target fails, the error of the first one that does |
| Monitor.CollectResults | scripts/compose_monitor/compose_check.py:422-446 | the run is dated with today's stamp and holds, in config order, each target's own unstamped `get_compose_result` value |
| Monitor.ListingFailureEndsRun | scripts/compose_monitor/compose_check.py:438-446 | one target whose listing page cannot be fetched ends the whole run |
| Monitor.CollectedTargetsFound | scripts/compose_monitor/compose_check.py:289 | every configured target finds a result in its own run |
| Monitor.Check | scripts/compose_monitor/compose_check.py:438-450 | a run fails exactly when collection fails; otherwise it mails the planned alerts and changes nothing but stamps |
| Monitor.OncePerDay | scripts/compose_monitor/compose_check.py:304-316 | across two whole runs on one day, the second mails no target the first mailed or found already mailed |
| Monitor.LaterDayAlertsAgain | scripts/compose_monitor/compose_check.py:304-316 | on a later day a target is mailed exactly when it has recipients and no finished compose under its threshold |

## Left out

- Network and parsing: the HTTP fetches, BeautifulSoup, JSON decoding and charset detection. Their outcomes are inputs (`listing`, `fetch`, `Probe`).
- E-mail transport (`send_email`, the `mail` subprocess) and the literal body text of `send_alert`. A mail is modelled by its sender, recipients, subject and the values its body is formatted with.
- Jinja2 rendering, `os.makedirs`, file writes, YAML load and dump, the click CLI, logging, `results["now"]` and `datetime.now()`. Today is a parameter.
- The older variant's `results["today"] = str(today)` (compose-check.py:229), which it writes instead of the `YYYYMMDD` date. That variant has no alerting pass.
- scripts/last_good/report.py, a fetch-and-print script whose computations repeat the ones modelled here.
- Text.LowerFacts: lower-cases ASCII letters only, not all of Unicode.
- ComposeIds.MatchId: takes `name` and `version` literally. The source puts them into the regular expression unescaped, so a `.` in a version would match any character.
- ComposeResult.IdDate: reads only ASCII digits. Python's `\d` also matches other Unicode decimal digits, which `strptime` then accepts; an ID dated in such digits and without a metadata date gives `DateMissing` in the model where the source makes a record.
- ComposeResult.GetComposeResult: the STATUS and metadata fetches are a function `probe` of the compose ID, so an ID listed twice gets the same outcome both times. The source fetches once per occurrence, and two fetches of one URL may differ; the duplicate records themselves are kept.
- Monitor.CollectResults: the listing fetch is a function `listing` of the URL, so two targets on the same server see the same page. The source fetches the page once per target, and the two fetches may differ.
- Calendar.ParseStamp: accepts exactly eight ASCII digits forming a real date with a year from 1. `strptime`'s leniency on shorter fields and Unicode digits is not modelled; such dates are refused.
- Calendar.FormatStamp: always pads the year to four digits. For years below 1000 the C library's `%Y` may not pad; such years are outside the model's use.
- Alerts.Decide: requires `Evaluable`. Most of it excludes inputs on which the source crashes: a target with recipients but no result; a finished compose with an `alert_days` that does not compare with an int; a mailed target whose sender is not a string (`"from=" + sender` raises TypeError before the stamp); recipients that `",".join` refuses. These crashes are not modelled. One exclusion is a choice of the model, not a crash: a mailed target may not have a list `extra`.
- Alerts.AlertFor: requires a non-list `extra`. The source formats a list through Python's `repr`, which is not modelled.
- Monitor.Check: requires `WellTyped`: every target with recipients has a numeric `alert_days`, a string sender, string recipients and a non-list `extra`. The source needs these only for targets that have a finished compose or are mailed.
- Config.Number: YAML floats are not modelled, so a float `alert_days` is not covered.
- A configured target without a `description` key makes the source raise KeyError. `TargetConf` always carries the key, which may be null.
- `alert_date` values in the previous run's saved file are taken to be strings.
