# HMT333-PICO weather station: a Dafny model of the station core

The HMT333-PICO firmware runs on a Raspberry Pi Pico W. Once a minute it
polls a Vaisala HMT333 temperature probe over a serial line. It reads the
temperature out of the probe's reply line and corrects it with the probe's
calibration certificate. It keeps a running daily maximum, minimum and
reading count, and mirrors that triple to `temps.json` after every accepted
reading. It sends reports to the Met Office WOW (Weather Observations
Website) API: an hourly one at minute 50 and a daily one at 09:00. Each
report is POSTed with up to three retries and, after a transport error, one
Wi-Fi reconnect.

This project models that core in five modules:

- `Common` (`common.dfy`) holds Python's None (`Option`) and `str()` of an
  integer, with its digits read back.
- `ReadHmt` (`read_hmt.dfy`) covers the probe. It models:
  - the calibration band chain;
  - the regular-expression search `[-+]?\d*\.\d+|\d+` over the reply line;
  - one `get_hmt_temp` call, as a class `Hmt`. Its fields are the replies
    the serial port will give and the commands written to it.
- `TempsFile` (`temps_file.dfy`) covers `load_temps` and `save_temps`, on a
  class `TempsStore`. Its fields are the file's content and its
  modification time.
- `MetofficeWow` (`metoffice_wow.dfy`) covers `format_time`, the report
  payload and `send_wow`, on a class `WowClient`. Its fields are the
  payloads POSTed so far and the reconnects made. The network is an oracle:
  `respond(n)` is what the n-th POST meets. The Wi-Fi status values are
  inputs.
- `Station` (`station.dfy`) covers `main.py`'s boot seeding and one pass of
  its main loop, on a class `Program` that holds the program's variables. A
  pure function `Next` specifies one pass. The lemmas about `Next` state
  the reporting rules, and `Program.Tick` is proved to follow `Next`.

Temperatures are integers in tenths of a degree Celsius. Python's None is
`None`. A `TypeError` that Python would raise ends a pass with
`crashed == true`.

The behaviour is defined by a few specification functions, and the
lemmas and methods are stated against them:

- `ReadHmt.ReadingOf` is the temperature one reply yields (`read_hmt.py:34-46`).
  It uses `ReadHmt.Search`, the leftmost match of the pattern
  (`read_hmt.py:22`, `read_hmt.py:37`), and `ReadHmt.TokenTenths`, the
  matched text's value (`read_hmt.py:39`).
- `MetofficeWow.Timestamp` is the string `format_time` builds
  (`metoffice_wow.py:107-111`), and `MetofficeWow.Report` is the payload
  (`metoffice_wow.py:29-43`).
- `MetofficeWow.RunRetries` is one POST-and-retry block
  (`metoffice_wow.py:55-66`, repeated at `metoffice_wow.py:78-92`).
  `MetofficeWow.Send` is the whole `send_wow` (`metoffice_wow.py:52-95`).
- `Station.Seed` is boot seeding (`main.py:107-118`). `Station.Fold` is
  folding a reading into the aggregate (`main.py:142-146`).
- `Station.Sample`, `Station.HourlyStep` and `Station.DailyStep` are the
  three parts of a pass (`main.py:133-155`, `main.py:158-166`,
  `main.py:169-186`). `Station.Next` composes them.

Some of the code's behaviour departs from what its comments and
docstrings suggest. The model follows the code:

- **Boot seeding.** The comment at `main.py:105-106` says the extremes are
  set from recent readings when available. Boot tests only that the loaded
  extremes are truthy, not that they are ordered. An empty or stale file
  with no reading at boot leaves them None, and the first accepted reading
  then raises `TypeError` at `main.py:143`. The lemmas
  `Station.BootWithoutReadingCrashes`, `Station.ResetWithoutReadingCrashes`
  and `Station.SeedKeepsUnorderedRecord` cover these cases.
- **Saving.** `save_temps` overwrites `temps.json` in place.
- **Probe retries.** The `get_hmt_temp` docstring and messages speak of
  retrying. The recursive retry's result is dropped, so a timeout or
  OSError makes the call return None.
- **Reconnect.** The `send_wow` docstring promises a reconnect when there
  is no Wi-Fi connection. With a link status of 0, 1 or 2 after a transport
  error, `send_wow` tries no reconnect and falls off its end, returning None.

## Model

| member | source | states |
|---|---|---|
| ReadHmt.FirstBandFrom | read_hmt.py:64-81 | the band chosen from band i on is the first whose threshold the reading meets: it meets that threshold and is below every earlier one |
| ReadHmt.ApplyCalibration | read_hmt.py:54-82 | the calibrated reading is the reading plus the coefficient of the first band (highest first) whose threshold it meets |
| ReadHmt.BandTies | read_hmt.py:64-79 | a reading exactly on a threshold takes that band's coefficient; one tenth below takes the next band down |
| ReadHmt.CalibrationAtBoundaries | read_hmt.py:64-81 | 45.0 takes corr50 and 44.9 corr40; -25.0 takes corrM20 and -25.1 corrM30 |
| ReadHmt.BandMonotone | read_hmt.py:64-81 | a warmer reading never selects a colder band |
| ReadHmt.DigitRun | read_hmt.py:22 | the run of digits at a position is maximal: every character in it is a digit, and the one after it is not |
| ReadHmt.DecimalAt | read_hmt.py:22 | the `\d*\.\d+` alternative at a position yields an unsigned, well-formed token with a non-empty fraction that fits in the line |
| ReadHmt.DecimalAtGreedy | read_hmt.py:22 | the decimal alternative is found exactly when the digit run is followed by a point and a digit; its whole part is the entire run and its fraction is not followed by a digit |
| ReadHmt.DecimalAtStands | read_hmt.py:22 | a decimal token stands on exactly its digits, a point and its digits |
| ReadHmt.MatchAt | read_hmt.py:22 | a match tried at a position starts there, is well formed (a sign only with a decimal point) and ends within the line |
| ReadHmt.MatchAtFound | read_hmt.py:22 | the pattern matches at a position exactly when a digit, an unsigned decimal or a sign followed by a decimal starts there |
| ReadHmt.MatchAtPreference | read_hmt.py:22 | the alternatives win in the pattern's order: a sign is taken exactly when a decimal follows it, and an integer is matched only where no decimal starts |
| ReadHmt.MatchAtMaximal | read_hmt.py:22 | a match is never followed by a digit: it takes every digit it can |
| ReadHmt.MatchText | read_hmt.py:22 | the characters a match covers are exactly its token's text |
| ReadHmt.SearchFrom | read_hmt.py:37 | the search returns the leftmost position where the pattern matches, and no position before it matches |
| ReadHmt.SearchReplyLine | read_hmt.py:21-37 | on a reply line "T= [-]digits.digits 'C", the match is the whole number with its sign, starting right after "T= " |
| ReadHmt.ReplyPrefixNoMatch | read_hmt.py:21-37 | nothing matches in the "T= " that opens the reply, and the search passes over it |
| ReadHmt.ReadProbeLine | read_hmt.py:34-40 | every temperature the probe reports in its own format is read back exactly and then calibrated |
| ReadHmt.SearchProbeExample | read_hmt.py:21-22 | "T= 19.5 'C" matches 19.5 at position 3 |
| ReadHmt.SearchSignedDecimalExample | read_hmt.py:22 | "T= -3.5 'C" matches -3.5, sign included |
| ReadHmt.SearchSignedIntegerExample | read_hmt.py:22 | in "-5" the sign is not taken, because the signed alternative needs a point; the match is 5 |
| ReadHmt.NoDigitNoReading | read_hmt.py:36-40 | a line yields no reading exactly when it holds no digit |
| ReadHmt.SearchNoNumberExample | read_hmt.py:36-40 | the line "Err" yields None |
| ReadHmt.Polls | read_hmt.py:33 | the commands written are n copies of the poll command |
| ReadHmt.Consumed | read_hmt.py:41-50 | one call reads replies up to and including the first line: every reply before it was a timeout or an OSError |
| ReadHmt.Hmt.GetTemp | read_hmt.py:25-51 | the result is the calibrated leftmost number of the first reply if that reply is a line with a number, else None; the replies up to the first line are consumed, with one poll written per reply |
| TempsFile.TempsStore.Load | temps_file.py:9-28 | a record younger than 600 s is returned as saved; a malformed young file lets ValueError escape, in both directions; anything else (missing, unreadable, too old) gives (None, None, 0) |
| TempsFile.TempsStore.Save | temps_file.py:31-38 | the file then holds exactly the three values, stamped with the current time |
| TempsFile.SaveThenLoad | temps_file.py:6-38 | a save followed by a load within 600 s gives the saved triple back; after 600 s, (None, None, 0) |
| MetofficeWow.PadEach | metoffice_wow.py:101-106 | the loop pads every element of the local time, in order, with a '0' before any value below 10 |
| MetofficeWow.FormatTime | metoffice_wow.py:98-111 | the result is the timestamp of the first six padded fields, whose shape and read-back TimestampDecodes states |
| MetofficeWow.TimestampDecodes | metoffice_wow.py:98-111 | for a four-digit year and two-digit other fields, the timestamp has the shape "YYYY-MM-DDThh:mm:ss+00:00" and reads back as the six fields |
| MetofficeWow.PadTwoDigits | metoffice_wow.py:103-106 | a field in [0, 100) becomes exactly two digits that read back as it |
| MetofficeWow.PadYear | metoffice_wow.py:105-106 | a four-digit year is written as its four digits |
| MetofficeWow.TimestampExample | metoffice_wow.py:98-111 | 7 March 2024 09:05:00 is written "2024-03-07T09:05:00+00:00" |
| MetofficeWow.Report | metoffice_wow.py:29-43 | the payload has the nine fixed fields, plus the daily maximum and minimum fields exactly when they are given |
| MetofficeWow.ReportIdentity | metoffice_wow.py:30-34 | the start and end times are both the formatted local time; the site id and key are the ones given |
| MetofficeWow.ReportObservation | metoffice_wow.py:35-43 | the temperature is sent (null when None); the public and latest-version flags are "true"; collection and observation type are 1 |
| MetofficeWow.ReportExtremes | metoffice_wow.py:38-41 | a given maximum or minimum is sent as given |
| MetofficeWow.RetriesBounded | metoffice_wow.py:55-66 | a POST-and-retry block makes at least one POST and at most 1 + max_retries |
| MetofficeWow.RetriesStop | metoffice_wow.py:55-66 | the block stops at the first 201, the first exception or when the retries run out; every POST before the last got a status other than 201; the status returned is the last one |
| MetofficeWow.RetriesEndAt | metoffice_wow.py:61-65 | a block whose POSTs got non-201 statuses up to POST n, where POST n raises, gets 201 or is the last allowed, ends after n + 1 POSTs with that outcome |
| MetofficeWow.SendWithoutTemperature | metoffice_wow.py:53-69 | without a temperature nothing is posted and the fixed message is returned |
| MetofficeWow.SendNormalPath | metoffice_wow.py:52-66 | when no POST raises, 1 to 4 POSTs are made, all but the last got a status other than 201, and the text of the last status is returned |
| MetofficeWow.SendReconnect | metoffice_wow.py:70-95 | a reconnect is made exactly when a POST raised and the link status is negative or at least 3; status 0, 1 or 2 returns None; the failure message comes back exactly when the reconnect left the link down; at most 8 POSTs |
| MetofficeWow.IntToStringNotFailed | metoffice_wow.py:66-95 | no status code's text is the failure message, so the two results are told apart |
| MetofficeWow.SendRetriesUntilCreated | metoffice_wow.py:55-66 | statuses 500, 500, 500, 201 give "201" after four POSTs |
| MetofficeWow.SendGivesUpAfterRetries | metoffice_wow.py:8-66 | four statuses other than 201 give the text of the last one, not an exception |
| MetofficeWow.WowClient.Post | metoffice_wow.py:56 | the payload is appended to what was posted, and the outcome is the one the next POST meets |
| MetofficeWow.WowClient.PostWithRetries | metoffice_wow.py:55-65 | the loop follows the retry specification, and the payload was posted exactly as many times as the block made POSTs |
| MetofficeWow.WowClient.Transmit | metoffice_wow.py:52-95 | the result, the POSTs made and the reconnect count follow the send specification |
| MetofficeWow.WowClient.SendWow | metoffice_wow.py:12-95 | the report built from the formatted local time is posted as the send specification says, and its result is returned |
| Station.SeedCases | main.py:107-118 | at boot the loaded triple is kept when the reading and both loaded extremes are truthy; otherwise a reading seeds (temp, temp, 1); without a reading the loaded triple stays |
| Station.SeedConsistent | main.py:107-118 | a boot with a reading leaves the extremes present and ordered, as long as a record with truthy extremes is itself ordered (as every record a pass saves is) |
| Station.SeedKeepsUnorderedRecord | main.py:107-110 | boot checks only that the loaded extremes are truthy: a recent record with maximum 0.1 and minimum 0.9 is kept unordered |
| Station.SeedZeroReading | main.py:107-116 | a reading of exactly 0.0 is false, so it discards even a recent record |
| Station.FoldExtremes | main.py:142-146 | on ordered extremes, folding a reading raises the count by one, makes the extremes the max and min with it, and keeps them ordered |
| Station.FoldRaises | main.py:143-146 | the fold raises exactly when the maximum is None, or when the reading is not above the maximum and the minimum is None |
| Station.FoldAllBounds | main.py:140-146 | folding any run of readings into ordered extremes never raises, counts each reading once, and ends with extremes that bound every reading |
| Station.SampleNotDue | main.py:133-134 | before 60000 ms have passed nothing is read or saved |
| Station.SampleNoReading | main.py:134-140 | a None reading changes only temp; count, extremes and last reading time stay; nothing is saved; the next pass reads again |
| Station.SampleAccepted | main.py:134-155 | an accepted reading raises the count, widens the extremes to take it in, stamps the reading time, and the new triple is saved |
| Station.HourlyRule | main.py:158-166 | the hourly report is sent exactly on a new hour at minute 50 under schedule 3, carrying only the current temperature, and only then does last_hour move |
| Station.HourlyOncePerHour | main.py:160-166 | after an hourly report, another pass in the same hour sends none |
| Station.DailyRule | main.py:169-186 | the daily report is sent exactly on a new day at 09:00 with more than 100 readings; schedule 1 sends the maximum only, the others both extremes; the aggregate then restarts as (temp, temp, 0) |
| Station.DailyWaitsForData | main.py:170-171 | with 100 readings or fewer at 09:00 nothing changes, so the report waits |
| Station.AtMostOneReport | main.py:160-171 | a pass sends at most one report |
| Station.ResetNotSaved | main.py:140-186 | the triple saved in a pass is the one before the daily reset, so the reset reaches the file only with the next accepted reading |
| Station.ReportAfterFailedReading | main.py:136-164 | a report carries the latest read attempt's temperature, None after a failed read |
| Station.NextKeepsConsistent | main.py:140-186 | from ordered extremes, a pass whose reading is not None never raises, leaves the extremes ordered and saves only ordered records |
| Station.BootWithoutReadingCrashes | main.py:103-146 | a boot with no reading and no recent record leaves the extremes None, and the first accepted reading raises TypeError |
| Station.ResetWithoutReadingCrashes | main.py:140-186 | a daily reset while temp is None leaves the extremes None, and the next accepted reading raises TypeError |
| Station.Program.Boot | main.py:84-118 | the markers start at the boot tick and at the hour and day before the current ones; the aggregate is seeded from the reading and the loaded triple |
| Station.Program.SampleTasks | main.py:133-155 | the sampling part of a pass follows its specification; the file holds the saved triple when one is saved and is unchanged otherwise |
| Station.Program.HourlyTasks | main.py:157-166 | the hourly part of a pass follows its specification |
| Station.Program.DailyTasks | main.py:168-186 | the daily part of a pass follows its specification |
| Station.Program.Tick | main.py:127-192 | one pass changes the variables, makes the report requests and saves the file as the pass specification says; a TypeError stops the pass |

## Left out

- Floating point. Temperatures and calibration coefficients are whole tenths of a degree. The float addition and `round` are not modelled beyond that.
- ReadHmt.TokenTenths: the value of a matched token with more than one decimal is rounded half away from zero on its second decimal. This stands in for `round(float(...), 1)` and its binary rounding.
- Character classes: `\d` is taken as the ASCII digits.
- The serial line, the LED, the UART console, `print` and `gc`: replies are a queue of values, and only the poll command written to the probe is recorded.
- ReadHmt.Hmt.GetTemp: the recursion stops when the queue of replies is empty, where the source would block or recurse without bound. A reply stands for both a failed write and a failed read.
- Sleeps and delays: the 1 s tick, the 5 s retry delay and the sleep after a reading take no part in the model.
- TempsFile.TempsStore.Load: the `count` key is taken to be present in a saved record, so the count is never None.
- A crash in the middle of `save_temps`, and `save_temps` raising OSError: the save always completes.
- Clocks: `utime.ticks_ms` and `utime.time` are inputs. `ticks_diff` wrap-around is not modelled.
- Local time: it is read once per pass for the hour, minute and day. Station.Program.Tick takes them as inputs.
- Station.Program.Boot takes the third boot reading and what `load_temps` returned as inputs. A ValueError escaping `load_temps` at boot is not modelled.
- Station.Program.Tick returns the send requests of a pass rather than calling `send_wow`, and assumes each send returns a string. `send_wow` can also return None when the link status is 0, 1 or 2; the concatenation at `main.py:165-182` then raises TypeError. It can also raise, when a POST inside the reconnect's retry block fails (`MetofficeWow.SendRaised`). Either way the loop ends before `last_hour = current_hour` (`main.py:166`) or the daily reset (`main.py:183-186`), so Station.HourlyRule and Station.DailyRule describe a pass only when `send_wow` returns a string.
- The daily NTP resync (`main.py:189`), Wi-Fi bring-up and the reset on failure (`main.py:14-82`), the LED flashes and `setup.py`'s settings dialogue are left out. They are I/O with no bearing on the aggregate.
- JSON encoding: the payload is a map from field to value, before `json.dumps`. The `data` truthiness test at `metoffice_wow.py:53` is always true, because the encoded text is never empty.
- MetofficeWow.WowClient.Transmit: `wlan.status()` is read once for the test at `metoffice_wow.py:72`, where the source calls it twice. `wlan.disconnect`, `wlan.connect` and `response.close` are not modelled.
- MetofficeWow.FormatTime requires at least six fields, which `utime.localtime()` always provides.
- Calibration coefficients come from `calibration.py`, which is not part of this model. They are parameters.
