# A Dafny model of the structural-monitoring backend

The backend takes readings from gateways (over HTTP and as CSV files dropped over FTP), stores them
exactly once, flags their quality, raises alerts, compares vibration spectra to baselines, and runs
the accounts around all that: sessions, subscriptions, invitations, an audit log and a rate limiter.
This project models the code that carries a promise over unbounded inputs or whole runs, and proves
those promises, each in a module of its own. `dafny verify dfyconfig.toml` checks the project.

| module | what it models |
|---|---|
| `Csv`, `ReadingHeader`, `FileName`, `Calendar`, `Envelope` | the gateway's text layer: the quote-aware scanner against an automaton without look-ahead, the exporter as its printer, column headers, file names, local dates and zones, and a sensor file turned into a push |
| `EventId`, `GatewayLock`, `Discovery`, `Ingest`, `Quality` | a push: its idempotency key, the promise chain that serialises it, the devices and sensors it discovers, the three stores it feeds, and the quality window |
| `FtpDrop` | the file drop: ledger, moves between directories, faults at every operation |
| `Severity`, `Alerts`, `Detection` | severity derivation, the judgement of a batch, folding into open alerts, the life of an alert; what a batch raises, said of its readings alone |
| `Matching`, `SampleRate` | greedy baseline matching, the median sampling rate |
| `RateLimit`, `RefreshTokens`, `Billing`, `Invitations`, `Audit` | stateful protocols |
| `Wrappers`, `JsText`, `Joined`, `Reals` | options; trimming, digits and numerals; joining and splitting; absolute value and extremes |

Code that changes things step by step is a class or a method with loops; its contract ties the new
state to a specification function of the old one, and the lemmas are about runs of that function.
Where the sources interleave (the rate limiter's Redis commands, the lock's microtasks) the model is
a state machine over the single steps, in any order. Everywhere else an operation is one step.

What comes from outside is a parameter: the clock (`now`, `receivedAt`), faults, the caller's scope,
known node ids, lower-casing, reading a number, and which of two rows an unordered query returns.
Hashes are injective, so what is hashed stands for the hash. Readings, frequencies and ratios are
real numbers; instants are integers.

## Where the code does less, or other, than its comments say

The model follows the code. Each of these has a lemma with the exact condition or a concrete input.

- The exporter does not quote a field whose only special character is a CR, so such a table is not
  read back (`Csv.UnfaithfulCr`). As functions, writer and reader also disagree on a table whose text starts
  with a byte-order mark (`Csv.UnfaithfulBom`); an export starts with a fixed header and never does.
- Years below 100 are read as 19xx: their order among themselves survives, the leap day of year 0 apart,
  but not their order against later years (`Calendar.TwoDigitYears`, `Calendar.OrderSurvives`).
- The gateway lock's clean-up compares with a promise made on the spot and never deletes an entry
  (`GatewayLock.NeverCleanedUp`).
- Two node ids of a gateway can end in one device when one is spelled as the other with the
  gateway's key and a colon in front (`Discovery.NodesShare`); a serial cut to 255 characters is not
  found again, and with a device under each of a node's serials the answer is the database's choice
  (`Discovery.NodeKeepsDevice`).
- Gateway keys are unique as spelled, and event ids lower-case them: of two gateways whose keys differ in
  letter case only, matching readings count as duplicates (`EventId.GatewaysShare`, `Ingest.TwinDropped`).
- A null among a sensor's five latest rows hides a flat line that its values show
  (`Quality.NullHidesFlatline`).
- A batch that mixes new and duplicate readings is published whole (`Ingest.PublishesNewsOnly`); two
  equal event ids in one push are both written to `sensor_data`, and an event whose first write there
  failed is never written (`Ingest.SensorDataCount`).
- A file whose ledger row exists is never processed again, so a throw between that insert and the ingest
  loses it (`FtpDrop.LookupLoses`), although the scan's comment says that the next pass retries it; it does
  so exactly when the insert itself threw (`FtpDrop.RetryIngests`).
- The unique index on (dedupeKey, status) does not keep one active alert per condition when a resolved
  alert is reopened (`Alerts.ReopeningBreaks`, `Alerts.OneActiveAlong`), and it caps a condition at five
  alerts for ever (`Alerts.FiveAlertsPerCondition`). A closed alert can still be assigned
  (`Alerts.ClosedIsFrozen`).
- A webhook whose application threw is answered as a duplicate on redelivery
  (`Billing.RecordedIsOver`). A failed payment grants grace whatever the status before it
  (`Billing.FailureGrantsGrace`); a cancellation after a lapsed grace gives access back for what is left of
  the paid period (`Billing.CancelKeepsPaidPeriod`).
- Resending also revives a revoked invitation, beside a live one for the same slot
  (`Invitations.RevivalBreaks`, `Invitations.OnePendingAlong`).
- A decrement whose key is gone by its second command makes a key at -1 with no expiry, and one whose key
  was replaced is taken off the next window (`RateLimit.StrayDecrement`).
- The check that ends a family when an expired token is presented is never reached while signature and row
  are given one lifetime: the signature has expired by then (`RefreshTokens.ExpiredChangesNothing`). For up
  to a second before its row's end, or a little more, a token is refused although the console shows it as
  active (`RefreshTokens.ActiveToTheEnd`).

## Model

| member | source | states |
|---|---|---|
| `Csv.ParseCsv` | backend/src/modules/ingestion/ackcio-csv.ts:47-92 | The look-ahead loop returns what a four-mode automaton without look-ahead accepts, BOM stripped, rows of one blank field dropped |
| `Csv.RoundTrip` | backend/src/modules/exports/exports.service.ts:519-524 | Parsing a rendered table, its lines ended by LF, CRLF or CR, gives the table back if and only if no row is empty or a lone blank field, no field has a CR without a quote, comma or LF, and the text starts with no BOM (section 2 of RFC 4180) |
| `Csv.FileRoundTrip` | backend/src/modules/ingestion/ackcio-csv.ts:85-91 | The same for a file whose last line is ended too |
| `Csv.FileSpelled` | backend/src/modules/ingestion/ackcio-csv.ts:56-91 | Any text made of lines, each ended in any of the three ways, and of cells spelled as bare and quoted pieces in any mixture, parses to the values of its cells, lone blanks dropped |
| `Csv.OutsideIsEven` | backend/src/modules/ingestion/ackcio-csv.ts:58-72 | The scanner is outside quotes exactly after an even number of quotes |
| `Csv.UnfaithfulCr` | backend/src/modules/exports/exports.service.ts:522-522 | A field with a CR that nothing else makes the writer quote is never read back, wherever it stands |
| `Csv.UnfaithfulBom` | backend/src/modules/ingestion/ackcio-csv.ts:53-54 | A first field that starts with an unquoted byte-order mark loses it |
| `Csv.FoldTable` | backend/src/modules/exports/exports.service.ts:620-625 | Rows joined by any of the three line ends, read from a row start, are appended exactly as they are |
| `Csv.FoldRow` | backend/src/modules/exports/exports.service.ts:621-624 | Escaped fields joined by commas are read as those fields, the last one still open |
| `Csv.FoldField` | backend/src/modules/exports/exports.service.ts:519-524 | One escaped field, read at the start of a cell, is that field and touches no other |
| `Csv.ParsedRows` | backend/src/modules/ingestion/ackcio-csv.ts:90-91 | Whatever the text, no returned row is empty or a lone blank |
| `Csv.Lines` | backend/src/modules/ingestion/ackcio-csv.ts:76-84 | Two texts joined outside quotes by LF, CRLF or CR parse to the rows of the first followed by those of the second, unless a CR would meet a LF |
| `Csv.FinalLineEnd` | backend/src/modules/ingestion/ackcio-csv.ts:85-91 | A final line end of any kind changes nothing if and only if it falls outside quotes or into an open row that is blank anyway |
| `ReadingHeader.HeaderRoundTrip` | backend/src/modules/ingestion/ackcio-csv.ts:217-229 | A printed column header parses to its code, kind, type and unit if and only if no mark starts later than the one written, nothing needs trimming, everything is on one line and the type has no opening parenthesis |
| `ReadingHeader.MarkIs` | backend/src/modules/ingestion/ackcio-csv.ts:219-221 | A header is cut at the last mark of either kind |
| `ReadingHeader.LabelReads` | backend/src/modules/ingestion/ackcio-csv.ts:224-226 | The lazy type and greedy unit groups split a safe label exactly between type and unit |
| `ReadingHeader.LabelReadsOnlySafe` | backend/src/modules/ingestion/ackcio-csv.ts:224-226 | No other label is split back into what it was made from |
| `FileName.NothingLost` | backend/src/modules/ingestion/ackcio-csv.ts:113-163 | When a sensor file name parses, type, gateway, project, node, node name and label rejoined with underscores are the whole base name |
| `FileName.BaseNameIs` | backend/src/modules/ingestion/ackcio-csv.ts:114-114 | The base name is what is left without directories, in either notation, and the extension, in either case |
| `FileName.PrintParse` | backend/src/modules/ingestion/ackcio-csv.ts:113-163 | A printed name parses back if and only if no path separator stands on its first line, the gateway key is one trimmed segment, the project is not empty, node id and node name hold no underscore, and the node is the surest segment, the first among equals |
| `FileName.PathLost` | backend/src/modules/ingestion/ackcio-csv.ts:114-114 | A name with a directory in front of it loses its type, so its parts never come back |
| `FileName.NodeIndexIs` | backend/src/modules/ingestion/ackcio-csv.ts:133-147 | The cut falls on the surest segment, the first among equals: a known node before a hexadecimal id before a short one before anything else |
| `FileName.KnownNodeIndex` | backend/src/modules/ingestion/ackcio-csv.ts:133-147 | With a known node that is so exactly when no later project segment is a known node too |
| `FileName.CutElsewhere` | backend/src/modules/ingestion/ackcio-csv.ts:147-163 | No other place to cut gives the printed parts back |
| `FileName.GatewaySegment` | backend/src/modules/ingestion/ackcio-csv.ts:121-124 | A parsed gateway key is never empty and never holds an underscore |
| `Calendar.OrderEmbedding` | backend/src/modules/ingestion/ackcio-csv.ts:187-204 | For every pair of accepted dates, at one offset: smaller epoch seconds exactly when earlier in the calendar once days are rolled forward and years 0 to 99 taken as 19xx, and equal seconds exactly when equal then |
| `Calendar.OrderSurvives` | backend/src/modules/ingestion/ackcio-csv.ts:202-202 | Which real dates keep their order: both from year 100 on; both of years 0 to 99, except the leap day of year 0 against the day after; one of each exactly when the later date is still later than the 19xx date the other is read as |
| `Calendar.DaysMonotone` | backend/src/modules/ingestion/ackcio-csv.ts:202-202 | The closed day formula of `Date.UTC` numbers real dates in calendar order |
| `Calendar.CountsDays` | backend/src/modules/ingestion/ackcio-csv.ts:202-202 | 1 January 1970 is day 0 and each next Gregorian day is one more |
| `Calendar.DateOfDay` | backend/src/modules/ingestion/ackcio-csv.ts:202-202 | Every day number from 0 on belongs to a real date |
| `Calendar.TwoDigitYears` | backend/src/modules/ingestion/ackcio-csv.ts:202-202 | Year 99 reads later than year 100, and 29 February 0 as the instant of 1 March 0 |
| `Calendar.OverflowRollsForward` | backend/src/modules/ingestion/ackcio-csv.ts:201-203 | Every accepted date reads as a real one: a day past the end of its month, up to 31, as that many days into the next month |
| `Calendar.OffsetShift` | backend/src/modules/ingestion/ackcio-csv.ts:187-204 | Moving the zone by k minutes moves every readable text by exactly -60k seconds and refuses the same texts |
| `Calendar.SpellingsAgree` | backend/src/modules/ingestion/ackcio-csv.ts:187-204 | All spellings of a date, year or day first, dash or slash, space or T, padded or not, with seconds or without, read as the one instant they denote |
| `Calendar.RefusedExactly` | backend/src/modules/ingestion/ackcio-csv.ts:189-201 | A text is refused exactly if it has neither shape or names a month, day, hour, minute or second there is none of |
| `Calendar.HeaderNamesZone` | backend/src/modules/ingestion/ackcio-csv.ts:168-180 | A header that names a zone up to 99:59, in any of its spellings, is read as that many minutes east |
| `Calendar.HoursMinutesOnly` | backend/src/modules/ingestion/ackcio-csv.ts:168-174 | Only one or two digits of hours with two of minutes, or none, are read as an offset |
| `Calendar.InstantOfColumn` | backend/src/modules/ingestion/ackcio-csv.ts:177-204 | A local date under a header that names its zone reads as the UTC instant it denotes |
| `Envelope.CsvToEnvelope` | backend/src/modules/ingestion/ackcio-csv.ts:275-366 | Name, scanner, header zone, grouping and rows put together; each way to refuse a file is told apart |
| `Envelope.GroupColumns` | backend/src/modules/ingestion/ackcio-csv.ts:314-330 | The loop over columns with its nested ordered maps computes the grouping |
| `Envelope.PlaceColumn` | backend/src/modules/ingestion/ackcio-csv.ts:317-329 | One column is placed into its sensor and channel, new or existing |
| `Envelope.CodesInOrder` | backend/src/modules/ingestion/ackcio-csv.ts:305-318 | Sensor codes stand in order of first appearance, once each |
| `Envelope.TypesInOrder` | backend/src/modules/ingestion/ackcio-csv.ts:305-331 | Within a code, channel types stand in order of first appearance, once each |
| `Envelope.ChannelIs` | backend/src/modules/ingestion/ackcio-csv.ts:319-331 | A channel's reading, raw and description columns are the last that offer one, whatever came between |
| `Envelope.ColumnKept` | backend/src/modules/ingestion/ackcio-csv.ts:319-331 | Every reading column has a channel, and is the column read for it if and only if no later column has its code, type and kind |
| `Envelope.ChannelIdsStable` | backend/src/modules/ingestion/ackcio-csv.ts:336-352 | Columns added on the right leave every channel id, which is part of the idempotency key, as it was |
| `Envelope.ReadRows` | backend/src/modules/ingestion/ackcio-csv.ts:332-365 | The loops over rows and sensors give the telemetries in row order and the numbers of the skipped lines |
| `Envelope.ReadRow` | backend/src/modules/ingestion/ackcio-csv.ts:335-364 | A dated row gives one telemetry for each sensor, in sensor order |
| `Envelope.RowsAccounted` | backend/src/modules/ingestion/ackcio-csv.ts:332-365 | Telemetries are sensors times the rows not skipped |
| `Envelope.SkippedIs` | backend/src/modules/ingestion/ackcio-csv.ts:297-301 | A line is skipped exactly when its date cannot be read |
| `Envelope.CellArrives` | backend/src/modules/ingestion/ackcio-csv.ts:332-365 | A number in a dated row under a column not superseded arrives at that instant, under its sensor's index and code, channel id and type, as reading or raw value |
| `Envelope.NothingInvented` | backend/src/modules/ingestion/ackcio-csv.ts:332-365 | Conversely, every number in a telemetry stands in a row of its instant under a column of its sensor and type that nothing supersedes |
| `Envelope.TelemetryTells` | backend/src/modules/ingestion/ackcio-csv.ts:332-365 | For each dated row and sensor code, in order, there is one telemetry, and all it tells: instant, index, group, and for each channel type the numbers, units and description of its columns with their stand-ins |
| `Envelope.ConversionIs` | backend/src/modules/ingestion/ackcio-csv.ts:275-366 | What any converted file is: its name's parts, its rows counted and the unreadable ones skipped, and the caller's zone where the header names none |
| `Envelope.ConversionTells` | backend/src/modules/ingestion/ackcio-csv.ts:275-366 | The telemetries of any converted file, each in its place, and all they tell |
| `Envelope.ReadingsApart` | backend/src/modules/ingestion/ackcio-csv.ts:336-352 | Two readings of one file share an event id if and only if they agree on instant, channel id and sensor index, so sensors that are told apart stay apart |
| `Envelope.FileConverts` | backend/src/modules/ingestion/ackcio-csv.ts:275-366 | A file written from safe names, headers and a faithful table, with any line ends, converts to its own name's parts and the telemetries of exactly its own columns and rows, in the zone its header names or else the caller's |
| `Envelope.NumberArrives` | backend/src/modules/ingestion/ackcio-csv.ts:275-366 | End to end: a number under a column not superseded arrives in the push's envelope for its sensor index and code, channel, type and kind at the UTC instant that its row's date denotes in the file's zone |
| `Envelope.StoredAsConverted` | backend/src/modules/ackcio/ackcio.types.ts:54-58 | A converted date is stored as the instant it denotes exactly from 1 to 10^11 seconds, in UTC up to 16 November 5138, 9:46:40; earlier ones are dropped and later ones stored as a thousandth |
| `EventId.MaterialInjective` | backend/src/modules/ackcio/ackcio.service.ts:123-140 | Equal key material means equal gateway (lower-cased), node, sensor, channel, time and kind, unless one gateway key is the other with a separator and more behind it; node ids may hold separators |
| `EventId.KeysCollide` | backend/src/modules/ackcio/ackcio.service.ts:131-138 | For keys as arbitrary texts, already lower-cased: two of them have different readings with the same material if and only if one is the other followed by the separator and more; no registered key holds the separator |
| `EventId.SameEventId` | backend/src/modules/ackcio/ackcio.service.ts:123-140 | Two readings of registered gateways have one event id if and only if they agree on node, sensor, channel, time and kind, and on the key up to letter case |
| `EventId.GatewaysShare` | backend/src/modules/ackcio/ackcio.service.ts:131-138 | Two registered gateways have different readings with one event id if and only if their keys differ in letter case only |
| `EventId.CaseTwins` | backend/src/modules/gateways/gateways.service.ts:192-203 | Registration takes both GW1 and gw1, and then two such gateways there are |
| `EventId.SameTail` | backend/src/modules/ackcio/ackcio.service.ts:131-138 | Without that condition, sensor, channel, time and kind are still determined |
| `GatewayLock.FirstCome` | backend/src/modules/ackcio/ackcio.service.ts:99-103 | In every interleaving a task that has started leaves no earlier task of its gateway unfinished |
| `GatewayLock.MutualExclusion` | backend/src/modules/ackcio/ackcio.service.ts:91-103 | No two tasks of one gateway run at the same time |
| `GatewayLock.GatewayMoves` | backend/src/modules/ackcio/ackcio.service.ts:100-105 | While a task is unfinished, its own gateway has a step to take: it waits for no other gateway, and not on a predecessor that threw |
| `GatewayLock.NothingLeftBehind` | backend/src/modules/ackcio/ackcio.service.ts:99-107 | A state nothing can leave has no unfinished task |
| `GatewayLock.EveryRunDrains` | backend/src/modules/ackcio/ackcio.service.ts:99-107 | Without new calls, whatever order is taken, a run can go on for exactly as many steps as its tasks have left, and it stops exactly when every task has run, let its successor go and returned |
| `GatewayLock.StepsRunOut` | backend/src/modules/ackcio/ackcio.service.ts:99-107 | Every step but a new call uses up one of four that each task ever takes |
| `GatewayLock.ThrowingChangesNothing` | backend/src/modules/ackcio/ackcio.service.ts:101-102 | A run in which tasks throw goes step by step as the run in which they return |
| `GatewayLock.OutcomeKept` | backend/src/modules/ackcio/ackcio.service.ts:99-107 | A task ends as its own function ended, and no later step changes that |
| `GatewayLock.GatewaysIndependent` | backend/src/modules/ackcio/ackcio.service.ts:97-102 | A step of one gateway neither enables nor disables a step of another |
| `GatewayLock.NeverCleanedUp` | backend/src/modules/ackcio/ackcio.service.ts:103-107 | The map holds an entry for exactly the gateways that ever called |
| `GatewayLock.InvAlways` | backend/src/modules/ackcio/ackcio.service.ts:99-107 | In every run each task waits for the guard of its gateway's previous task and the map points at the last |
| `Discovery.DiscoveryService.ResolveNodeDevice` | backend/src/modules/ackcio/ackcio.service.ts:187-277 | Lookup under the gateway, adoption of an orphan, creation under a fresh serial, or refusal by the unique index |
| `Discovery.DiscoveryService.ResolveChannelSensor` | backend/src/modules/ackcio/ackcio.service.ts:312-362 | The mapped sensor while it exists, else a new one mapped to the channel |
| `Discovery.OwnDevicesOnly` | backend/src/modules/ackcio/ackcio.service.ts:178-226 | A push is only answered with a live device linked to its own gateway and of its organization; a device linked elsewhere is untouched |
| `Discovery.AdoptedWhen` | backend/src/modules/ackcio/ackcio.service.ts:209-230 | An unlinked device is adopted exactly when it is live, under the node's serial, of the gateway's organization and names the gateway, and the node has no device yet |
| `Discovery.CreatedWhen` | backend/src/modules/ackcio/ackcio.service.ts:231-262 | Otherwise the node gets a new device under its own serial, prefixed if that is taken and cut to 255 characters, or is refused where that is taken too |
| `Discovery.DevicesAlways` | backend/src/modules/ackcio/ackcio.service.ts:198-256 | In any run serials stay unique, and serial, organization and, once set, gateway of a device never change |
| `Discovery.NodesShare` | backend/src/modules/ackcio/ackcio.service.ts:198-235 | Some run resolves two node ids of a gateway to one device, the first one first, if and only if a serial the first can get is one the second is looked up by |
| `Discovery.CapturesWhenShort` | backend/src/modules/ackcio/ackcio.service.ts:203-235 | For ids that fit 255 characters: if and only if one is the other prefixed with the gateway's key and a colon |
| `Discovery.NodeKeepsDevice` | backend/src/modules/ackcio/ackcio.service.ts:198-242 | Unless the device is retired, a node is answered with the same device ever after, whatever row the query prefers, if and only if its serial was not cut and no second live device of the gateway stands under its other serial |
| `Discovery.UnambiguousAlways` | backend/src/modules/ackcio/ackcio.service.ts:198-242 | In any run in which no node that captures this one reports on the gateway, there never is such a second device |
| `Discovery.SameSensor` | backend/src/modules/ackcio/ackcio.service.ts:301-346 | Two readings at any two times land on one sensor if and only if device, sensor index and channel id agree and the sensor was not dropped between |
| `Discovery.ChannelNumbersDiffer` | backend/src/modules/ackcio/ackcio.service.ts:301-304 | The dotted channel number determines both of its parts |
| `Ingest.IngestService.HandleSensorData` | backend/src/modules/ackcio/ackcio.service.ts:542-586 | One push: stored + duplicates = rows sent, the readings store grows by exactly the stored ones, and all three stores are as specified |
| `Ingest.IngestService.MeasureDevices` | backend/src/modules/ackcio/ackcio.service.ts:561-575 | Each device's batch is measured in order of first appearance; one that fails costs only itself |
| `Ingest.IngestService.IngestMeasurements` | backend/src/modules/measurements/ingest.service.ts:260-286 | accepted + duplicates = batch, the store grows by accepted, and the batch is published if any was accepted |
| `Ingest.GroupByDevice` | backend/src/modules/ackcio/ackcio.service.ts:515-539 | The first loop groups rows by device in order and collects the rows for the legacy table |
| `Ingest.EventIdIsKey` | backend/src/modules/ackcio/ackcio.service.ts:463-470 | For rows as they are built the event id alone determines the store key, timestamp included |
| `Ingest.TwinDropped` | backend/src/modules/ackcio/ackcio.service.ts:463-559 | Of two new readings of registered gateways the second is dropped as a duplicate if and only if they agree on everything but device, payload and the letter case of the key |
| `Ingest.GroupingForgotten` | backend/src/modules/ackcio/ackcio.service.ts:554-559 | After any pushes the readings store is one insertion of everything ever sent |
| `Ingest.OrderFree` | backend/src/modules/ackcio/ackcio.service.ts:554-559 | Histories with the same rows store the same events in whatever order, grouping or repetition, and the same rows if no event had two contents |
| `Ingest.FullReplay` | backend/src/modules/ackcio/ackcio.service.ts:542-586 | Replaying at any later time what an earlier push carried without failure changes no store and publishes nothing |
| `Ingest.ReplayChangesNothing` | backend/src/modules/ackcio/ackcio.service.ts:542-586 | A push changes no store and publishes nothing if and only if all its keys are stored and, where its pipeline is up, measured |
| `Ingest.Measured` | backend/src/modules/ackcio/ackcio.service.ts:561-575 | A device whose pipeline is up has all its rows of the push measured |
| `Ingest.PublishesNewsOnly` | backend/src/modules/measurements/ingest.service.ts:268-286 | What is published is the batch if anything in it is new and nothing otherwise, so it is only news if and only if the batch is all new or all known |
| `Ingest.PublishedOnce` | backend/src/modules/ackcio/ackcio.service.ts:561-575 | No push publishes a row more often than it holds it, nor any of a device whose pipeline is down |
| `Ingest.SensorDataCount` | backend/src/modules/ackcio/ackcio.service.ts:577-586 | In any run an event stands in `sensor_data` as often as the first push that mentioned it had eligible rows for it, and never if that write failed |
| `Ingest.OncePerEligibleEvent` | backend/src/modules/ackcio/ackcio.service.ts:577-586 | With distinct ids in that push: once if eligible when first seen, else never |
| `Quality.AssessBatch` | backend/src/modules/measurements/ingest.service.ts:197-258 | The loop with its in-place windows flags every reading as its sensor's whole history demands, and counts flags and flagged readings exactly |
| `Quality.Remember` | backend/src/modules/measurements/ingest.service.ts:251-257 | The window becomes the first five of the new finite value and the old window; the sequence number is the last one seen |
| `Quality.CountUp` | backend/src/modules/measurements/ingest.service.ts:229-232 | Each flag of the row is counted once and the row once if it has any |
| `Quality.CountsRows` | backend/src/modules/measurements/ingest.service.ts:229-232 | The counts of a batch are those of its rows with any flag and of its rows with this one |
| `Quality.RememberOne` | backend/src/modules/measurements/ingest.service.ts:251-257 | Five values updated in place are the first five of the unbounded history |
| `Quality.FlatlineExactly` | backend/src/modules/measurements/ingest.service.ts:115-151 | Over batches: a reading carries FLATLINE if and only if its sender said so, or it equals the five finite values of the sensor before it and five of those come from its batch and the five latest stored rows |
| `Quality.NullHidesFlatline` | backend/src/modules/measurements/ingest.service.ts:147-151 | Six stored rows, the latest a null and the others equal: the next equal value is not flagged |
| `Quality.FlatlineCount` | backend/src/modules/measurements/quality.ts:51-52 | From an empty window n equal values give exactly max(0, n - 5) flatlines |
| `Quality.AnalysisGradeExactly` | backend/src/modules/measurements/quality.ts:170-188 | A reading may feed a statistic if and only if it is finite, in range, not equal to the five values before it in its batch and the numbers of the five latest stored rows, and not disowned by its sender |
| `Quality.FlaggedAsIfAlone` | backend/src/modules/measurements/ingest.service.ts:199-258 | Interleaved sensors are flagged as if each were processed alone |
| `Quality.FindingsDistinct` | backend/src/modules/measurements/ingest.service.ts:225-227 | No flag is recorded twice for one reading |
| `Quality.FlagsExactly` | backend/src/modules/measurements/quality.ts:87-157 | Every flag of a reading that has a number, exactly: what its sender said, or what the number, its time, the last sequence number seen and its calibration deserve |
| `Quality.NotFiniteExactly` | backend/src/modules/measurements/quality.ts:90-95 | A reading without a number is flagged as not finite, and nothing more is said of it |
| `FtpDrop.IngestionService.UniqueDestination` | backend/src/modules/ingestion/ingestion.service.ts:51-64 | The probing loop ends within directory size + 1 probes at the first free name and never names an existing file |
| `FtpDrop.IngestionService.MoveTo` | backend/src/modules/ingestion/ingestion.service.ts:66-72 | A rename to a free destination, or nothing |
| `FtpDrop.IngestionService.FinishFile` | backend/src/modules/ingestion/ingestion.service.ts:153-163 | Move, then ledger; a fault between leaves the file moved and the row as it was |
| `FtpDrop.IngestionService.ProcessFile` | backend/src/modules/ingestion/ingestion.service.ts:104-228 | What each combination of file and faults does to files, ledger and ingest, and what is answered; ingest is called only once the CSV has been converted |
| `FtpDrop.HandleIngests` | backend/src/modules/ingestion/ingestion.service.ts:126-197 | When exactly one pass over a file ingests, with any faults: the file is there and new, its gateway known, its CSV convertible, and neither the insert nor the lookup throws |
| `FtpDrop.IngestionService.ScanOnce` | backend/src/modules/ingestion/ingestion.service.ts:235-262 | A pass computes the state and the results that the specification of a pass gives |
| `FtpDrop.ScanIsRun` | backend/src/modules/ingestion/ingestion.service.ts:240-260 | For a listing of distinct names: a pass handles each listed file that is there and not young, once and in order, and reports of each file there, in order, that it is young or what handling it came to |
| `FtpDrop.PassClears` | backend/src/modules/ingestion/ingestion.service.ts:235-262 | After a pass in which nothing throws no settled listed file is left in incoming; each is in the ledger, a new one with the status its kind demands, and ingested exactly if it was or is new and can be; young files are where they were |
| `FtpDrop.CandidatesFit` | backend/src/modules/ingestion/ingestion.service.ts:53-60 | Candidates that are all taken are no more than the names in the directory |
| `FtpDrop.NumberBeforeExtension` | backend/src/modules/ingestion/ingestion.service.ts:53-60 | A further candidate has its number before the extension, what stands from the last dot on |
| `FtpDrop.HandlingConserves` | backend/src/modules/ingestion/ingestion.service.ts:66-72 | Whatever throws, handling a file keeps the number of files of every content and overwrites none |
| `FtpDrop.AtMostOnce` | backend/src/modules/ingestion/ingestion.service.ts:126-151 | In any run with any faults a (name, content) pair is ingested at most once |
| `FtpDrop.NeverRetried` | backend/src/modules/ingestion/ingestion.service.ts:144-149 | Once a pair has its ledger row, it is ingested no more and no less ever after |
| `FtpDrop.RetryIngests` | backend/src/modules/ingestion/ingestion.service.ts:126-228 | After a pass over a new file with any faults and one more without: ingested if and only if its gateway is known, its CSV converts, and the first pass threw at the insert or not at the lookup |
| `FtpDrop.LookupLoses` | backend/src/modules/ingestion/ingestion.service.ts:144-260 | A run that loses a file: only the lookup throws, the pass reports it failed and leaves it in incoming, and no continuation ingests it |
| `FtpDrop.SettledAlways` | backend/src/modules/ingestion/ingestion.service.ts:153-163 | In a fault-free run every entered file rests, with its content, where its row says and its status demands |
| `FtpDrop.ExactlyOnce` | backend/src/modules/ingestion/ingestion.service.ts:173-228 | In a fault-free run a file is ingested exactly once if its gateway is known and its CSV can be converted, and never otherwise |
| `Severity.JudgeBound` | backend/src/modules/alerts/alerts.service.ts:112-155 | The counting loop and the reduction raise exactly when the trailing run reaches the requirement, about the reading farthest from the limit |
| `Severity.Reduce` | backend/src/modules/alerts/alerts.service.ts:132-137 | The first farthest breaching reading, and whether any is suspect |
| `Severity.RunIsSuffix` | backend/src/modules/alerts/alerts.service.ts:121-129 | The counter is the length of the longest breaching suffix |
| `Severity.WorstThenDerive` | backend/src/modules/alerts/alerts.service.ts:132-155 | The severity of the worst reading is the maximum of the severities of all breaching readings |
| `Severity.OneMoreNeverLowers` | backend/src/modules/alerts/alerts.service.ts:116-155 | One more unflagged breaching reading lowers neither severity nor confidence |
| `Severity.FlagsCostOneLevel` | backend/src/modules/alerts/alerts.service.ts:116-155 | Flags raise and suppress nothing and change neither run nor worst reading; one on a breaching reading costs exactly one level, not below the bottom, and others cost nothing |
| `Severity.AtMostOneBound` | backend/src/modules/alerts/alerts.service.ts:109-153 | Some batch raises for both bounds of a rule if and only if its lower limit is above its upper one |
| `Severity.LevelExactly` | backend/src/modules/alerts/severity.ts:82-123 | The level counts the bands the exceedance reaches, one more for lasting as long as required, one more for twice as long in the second highest band, capped for instruments and one less for suspect readings |
| `Severity.RatioIs` | backend/src/modules/alerts/severity.ts:152-167 | The ratio in units of the limit, or of one where that is all but zero, is the distance past it, and nought inside |
| `Severity.ConfidenceExactly` | backend/src/modules/alerts/severity.ts:60-80 | Confidence is the nearest hundredth of a half, three tenths for the share of samples seen and up to two for more, a quarter less for suspect ones; and 0.99 where that is total |
| `Severity.SeverityMonotone` | backend/src/modules/alerts/severity.ts:82-123 | A larger exceedance or a longer run never lowers the severity |
| `Severity.ConfidenceMonotone` | backend/src/modules/alerts/severity.ts:60-80 | Confidence stays in 0.05 to 0.99, grows with the run and shrinks with suspicion |
| `Severity.RatioMonotone` | backend/src/modules/alerts/severity.ts:152-167 | Of two readings past the same limit the farther has the larger exceedance ratio |
| `Alerts.AlertService.EvaluateReadings` | backend/src/modules/alerts/alerts.service.ts:82-181 | Every selected rule and bound folds at most one verdict, in order; raised + updated counts them and raised counts the new alerts |
| `Alerts.AlertService.EvaluateRule` | backend/src/modules/alerts/alerts.service.ts:101-178 | A rule looks at the readings it concerns, each bound by itself |
| `Alerts.AlertService.EvaluateBound` | backend/src/modules/alerts/alerts.service.ts:112-177 | One bound folds its judgement into the condition's alert, or does nothing |
| `Detection.BoundTells` | backend/src/modules/alerts/alerts.service.ts:112-177 | One bound folds a verdict exactly when its limit is set and the last readings the rule watches, as many as it asks and at least one, all exist and lie beyond it; which verdict, about which reading and under which key |
| `Detection.RuleTells` | backend/src/modules/alerts/alerts.service.ts:109-113 | A rule in force folds one verdict for each bound that raises, the lower first |
| `Detection.BatchCounts` | backend/src/modules/alerts/alerts.service.ts:89-180 | A batch folds as many verdicts as there are rules in force and bounds that raise |
| `Detection.BatchTells` | backend/src/modules/alerts/alerts.service.ts:89-180 | And each of those has its verdict among them |
| `Detection.InsideIsQuiet` | backend/src/modules/alerts/alerts.service.ts:116-119 | A batch whose readings lie inside the limits of the rules that watch them folds nothing |
| `Alerts.AlertService.UpsertAlert` | backend/src/modules/alerts/alerts.service.ts:183-302 | A verdict is folded into an active alert of the condition, whichever the query returns, or raises a new one, keeping the invariant |
| `Alerts.AlertService.TransitionAlert` | backend/src/modules/alerts/alerts.service.ts:332-392 | A move goes through exactly when it is visible, permitted, explained and free under the unique index; otherwise nothing changes |
| `Alerts.AlertService.AssignAlert` | backend/src/modules/alerts/alerts.service.ts:394-423 | Assignment goes through exactly for a visible alert and a member, whatever the status |
| `Alerts.OnlyForward` | backend/src/modules/alerts/alerts.service.ts:324-330 | Permitted moves are exactly those forward, with closing from resolved alone, and from resolved back to investigating |
| `Alerts.MovesWhen` | backend/src/modules/alerts/alerts.service.ts:332-357 | A move goes through exactly if the caller may touch the alert, it is permitted, explained and not taken by another alert of the condition |
| `Alerts.MoveTells` | backend/src/modules/alerts/alerts.service.ts:359-377 | Then status, assignee and explanation are as asked for, and nothing else and no other alert changes |
| `Alerts.RunningMaxima` | backend/src/modules/alerts/alerts.service.ts:223-239 | In any run severity and confidence are the maxima of the verdicts folded in, and the occurrence count is their number |
| `Alerts.LifeOfAnAlert` | backend/src/modules/alerts/alerts.service.ts:317-392 | In any run the event trail is a path of permitted changes from the raising to the stored status, at most four events are escalations, and resolved or closed implies a non-blank note |
| `Alerts.ClosedWasResolved` | backend/src/modules/alerts/alerts.service.ts:324-330 | No alert is closed except from resolved |
| `Alerts.ClosedIsFrozen` | backend/src/modules/alerts/alerts.service.ts:324-330 | A closed alert keeps status, severity, confidence, count, times and note for ever; only its assignee changes |
| `Alerts.OneActiveUnlessReopened` | backend/src/modules/alerts/alerts.service.ts:196-198 | One active alert per condition survives an operation if and only if it does not reopen a resolved alert beside an active one |
| `Alerts.OneActiveAlong` | backend/src/modules/alerts/alerts.service.ts:196-198 | In any run a condition has one active alert all along if and only if no step reopens a resolved alert beside an active one |
| `Alerts.ReopeningBreaks` | backend/src/modules/alerts/alerts.service.ts:317-330 | A run from the empty table that ends with two: raise, resolve, raise again, reopen the first |
| `Alerts.FiveAlertsPerCondition` | backend/prisma/schema.prisma:1033-1033 | A condition never has more than five alerts, and after one is closed no other can be |
| `Alerts.KeysAreIdentities` | backend/src/modules/alerts/alerts.service.ts:55-75 | Different tenant, rule, sensor, category or bound give different dedupe keys |
| `Alerts.InvAlways` | backend/src/modules/alerts/alerts.service.ts:183-423 | Every run from an empty table keeps trails, notes, escalations and the unique index in order |
| `Matching.CompareToBaseline` | python_shm_service/shm/spectral.py:258-336 | The three lists report one pairing, in which every current peak took the nearest free baseline peak in its window, the first among equals |
| `Matching.BestIndex` | python_shm_service/shm/spectral.py:288-296 | One scan finds the nearest free baseline peak in the window, the first among equals, or none only if there is none |
| `Matching.EntriesAre` | python_shm_service/shm/spectral.py:298-318 | The reported list holds one entry for each matched current peak, in their order: both frequencies, that peak's resolution, and numbers that belong together |
| `Matching.ShiftsBalance` | python_shm_service/shm/spectral.py:304-317 | In every entry baseline plus shift is the current frequency, the percentage says the same and is missing exactly for a baseline of zero, and the shift counts as real exactly when it is larger than the resolution |
| `Matching.Deterministic` | python_shm_service/shm/spectral.py:278-302 | That rule fixes the pairing |
| `Matching.OneToOne` | python_shm_service/shm/spectral.py:276-302 | No baseline peak is taken twice |
| `Matching.NothingBetterLeft` | python_shm_service/shm/spectral.py:284-305 | No unmatched peak has a leftover in its window, and no matched one a strictly nearer leftover |
| `Matching.WithinWindow` | python_shm_service/shm/spectral.py:281-304 | Every matched pair is within the tolerance given, or else within 5 % of the current frequency or two resolutions |
| `Matching.Conserved` | python_shm_service/shm/spectral.py:298-328 | On both sides matched and unmatched together are all the peaks, as multisets |
| `Matching.SelfComparison` | python_shm_service/shm/spectral.py:278-302 | A list compared with itself, duplicates included, matches every peak with zero shift if and only if no window is negative; with the default window non-negative frequencies are enough |
| `SampleRate.InferSampleRate` | backend/src/modules/analysis/analysis.service.ts:113-137 | A rate exists exactly when there are three instants and a positive interval, and it and the jitter are read off the quartiles |
| `SampleRate.GapsAre` | backend/src/modules/analysis/analysis.service.ts:116-121 | The intervals are the differences of neighbouring instants, those that are positive, each as often as it occurs |
| `SampleRate.JitterIsSpread` | backend/src/modules/analysis/analysis.service.ts:126-136 | The rate times the middle interval is 1000, and the jitter is the spread of the middle half of the intervals over it, never negative |
| `SampleRate.EvenSampling` | backend/src/modules/analysis/analysis.service.ts:113-137 | Instants evenly d milliseconds apart give 1000/d and no jitter |
| `SampleRate.EstimateRobust` | backend/src/modules/analysis/analysis.service.ts:104-127 | The estimated rate lies in [1000/hi, 1000/lo] whenever more than half of the positive intervals lie in [lo, hi] |
| `SampleRate.RateRobust` | backend/src/modules/analysis/analysis.service.ts:104-127 | If more than half of the positive intervals lie in [lo, hi] the rate lies in [1000/hi, 1000/lo], however extreme the rest |
| `SampleRate.MedianBounds` | backend/src/modules/analysis/analysis.service.ts:126-127 | The chosen interval is at most x if and only if more than half the intervals are |
| `SampleRate.OrderFree` | backend/src/modules/analysis/analysis.service.ts:126-134 | Lists with the same intervals have the same one value at each position, in whatever order the intervals came |
| `SampleRate.SortedUnique` | backend/src/modules/analysis/analysis.service.ts:126-126 | A sorted arrangement of given values is unique, so any correct sort gives this result |
| `SampleRate.Rank` | backend/src/modules/analysis/analysis.service.ts:126-133 | In a sorted list position k holds at most x exactly when more than k elements do |
| `RateLimit.CountsSinceCreation` | backend/src/config/redisStore.ts:77-95 | In any interleaving, crashes included, the count is the increments less decrements since the window's key was created |
| `RateLimit.CompletedHasDeadline` | backend/src/config/redisStore.ts:107-118 | A completed increment leaves a deadline at most one window away, or no key at all |
| `RateLimit.DeadlinesNear` | backend/src/config/redisStore.ts:82-115 | In every reachable state a deadline is neither past nor more than one window away |
| `RateLimit.WindowEnds` | backend/src/config/redisStore.ts:77-118 | From its first increment on a window counts one, lasts exactly the configured whole seconds, at least one, and then its key is gone |
| `RateLimit.StrandedUntilCompleted` | backend/src/config/redisStore.ts:96-115 | A key without expiry stays so until it is deleted or the next increment completes, and that repairs it |
| `RateLimit.StrandingNeedsACrash` | backend/src/config/redisStore.ts:96-115 | Without a crash or a decrement, a key without expiry has a client about to give it one |
| `RateLimit.OnlyRepairersMove` | backend/src/config/redisStore.ts:107-115 | A live deadline is only moved by a client whose latest increment was answered that there was none |
| `RateLimit.ExpiringSawNone` | backend/src/config/redisStore.ts:92-113 | A client about to set the expiry has been about to ever since it counted itself on a key that had none |
| `RateLimit.StrayDecrement` | backend/src/config/redisStore.ts:125-135 | Whatever the others do between its two commands, a decrement makes a key, at -1 with no expiry, if and only if there is none just before the second, and takes one off the window it read if and only if that key was there all the time |
| `RateLimit.StrayExample` | backend/src/config/redisStore.ts:125-135 | A key deleted between the two commands is back at -1 with no expiry |
| `RateLimit.RedisRateLimitStore.Increment` | backend/src/config/redisStore.ts:77-118 | Undisturbed: the count goes up by one, a live deadline stays, a missing one is set, and the reset time is right to half a second |
| `RateLimit.RedisRateLimitStore.IncrTtl` | backend/src/config/redisStore.ts:88-94 | The pipeline counts and reads the time to live in one step |
| `RateLimit.RedisRateLimitStore.SetExpiry` | backend/src/config/redisStore.ts:112-115 | The second command sets the deadline one window ahead |
| `RateLimit.RedisRateLimitStore.Get` | backend/src/config/redisStore.ts:60-70 | Undisturbed between its two commands, the count is shown exactly while the key has a deadline at least half a second away |
| `RateLimit.RedisRateLimitStore.Decrement` | backend/src/config/redisStore.ts:125-135 | Undisturbed, a positive count goes down by one |
| `RateLimit.RedisRateLimitStore.ResetKey` | backend/src/config/redisStore.ts:141-146 | The key is gone |
| `RefreshTokens.RefreshTokenService.RotateRefreshToken` | backend/src/modules/auth/refresh-token.service.ts:60-110 | A new token exactly for a stored, unrevoked, unconsumed, unexpired one whose signature stands; a used one whose signature stands revokes the family, and so would a row that expires before its signature |
| `RefreshTokens.RefreshTokenService.IssueRefreshToken` | backend/src/modules/auth/refresh-token.service.ts:14-28 | A fresh token in a fresh family |
| `RefreshTokens.RefreshTokenService.RevokeFamily` | backend/src/modules/auth/refresh-token.service.ts:49-54 | Exactly the unrevoked rows of the family end |
| `RefreshTokens.RefreshTokenService.RevokeRefreshToken` | backend/src/modules/auth/refresh-token.service.ts:30-40 | Exactly that row ends, if it was live |
| `RefreshTokens.RefreshTokenService.RevokeAllUserTokens` | backend/src/modules/auth/refresh-token.service.ts:42-47 | Exactly the user's live rows end |
| `RefreshTokens.AtMostOneLive` | backend/src/modules/auth/refresh-token.service.ts:60-110 | In any run a family has at most one live token |
| `RefreshTokens.OthersUntouched` | backend/src/modules/auth/refresh-token.service.ts:30-107 | Rotation changes rows of its token's family only, revocation its token, and signing out everywhere that user's live rows |
| `RefreshTokens.ReplayEndsFamily` | backend/src/modules/auth/refresh-token.service.ts:56-88 | Presenting a used member while its signature stands revokes the whole family; no continuation brings it back or rotates any of its tokens |
| `RefreshTokens.ExpiryEndsFamily` | backend/src/modules/auth/refresh-token.service.ts:65-83 | A row's expiry can end its family, at some instant, if and only if its signature outlasts it by more than a millisecond |
| `RefreshTokens.ExpiredChangesNothing` | backend/src/modules/auth/refresh-token.service.ts:65-83 | In any run whose signatures are for no longer than the rows, presenting an expired token, used before or not, changes nothing: a family ends exactly for a used, unrevoked member whose signature stands |
| `RefreshTokens.OverForever` | backend/src/modules/auth/refresh-token.service.ts:77-107 | A family with no live token never has one again |
| `RefreshTokens.FamilySize` | backend/src/modules/auth/refresh-token.service.ts:92-107 | A family has one token more than its successful rotations |
| `RefreshTokens.RotatesWhatIsActive` | backend/src/modules/platform/platform-users.service.ts:19-30 | Rotation accepts exactly what the console calls active while its signature stands, and besides a live row at its last instant if the signature outlasts it |
| `RefreshTokens.RotatesOnlyActive` | backend/src/modules/platform/platform-users.service.ts:19-30 | In any run whose signatures are for no longer than the rows: exactly what the console calls active while its signature stands |
| `RefreshTokens.ActiveToTheEnd` | backend/src/utils/jwt.ts:24-43 | A fresh token is refused while shown as active exactly from the second its signature ends to the end of its row; with one lifetime for both that never happens if and only if it was signed on a full second and stored in the same millisecond |
| `RefreshTokens.InvAlways` | backend/src/modules/auth/refresh-token.service.ts:14-110 | In any run a family has one owner and at most one live token |
| `Billing.BillingService.HandleWebhook` | backend/src/modules/billing/billing.service.ts:155-201 | A duplicate exactly when the id is recorded; otherwise recorded first and applied as far as the throw allows |
| `Billing.BillingService.ApplyEvent` | backend/src/modules/billing/billing.service.ts:203-328 | The event changes its one subscription, found by provider id or our own, and no other |
| `Billing.NewEvent` | backend/src/modules/billing/billing.service.ts:168-201 | A new event leaves a row that says whether it was processed, and its effect on its own subscription or none |
| `Billing.TargetIs` | backend/src/modules/billing/billing.service.ts:210-228 | The provider's own subscription id counts before ours, and an event without either changes nothing |
| `Billing.BillingService.ExpireLapsedSubscriptions` | backend/src/modules/billing/billing.service.ts:337-349 | Exactly the lapsed subscriptions expire, and their number is returned |
| `Billing.AppliedOnce` | backend/src/modules/billing/billing.service.ts:147-184 | In any run each provider event takes effect at most once, throws and redeliveries included |
| `Billing.RecordedIsOver` | backend/src/modules/billing/billing.service.ts:168-184 | A recorded event never takes effect again, even if its application threw |
| `Billing.SuccessGrantsPeriod` | backend/src/modules/billing/billing.service.ts:231-245 | After a payment access lasts exactly to the end of the period paid for, thirty days if none is named, whatever was before |
| `Billing.UpdateMovesPeriod` | backend/src/modules/billing/billing.service.ts:300-311 | A new period end moves the end of paid access and no other |
| `Billing.GraceFromFirstFailure` | backend/src/modules/billing/billing.service.ts:285-296 | In any run a grace end is seven days after the first failure since the last success: no success follows that failure, and any failure before it was followed by a success before it |
| `Billing.GraceIsFixed` | backend/src/modules/billing/billing.service.ts:285-296 | Once in arrears, without a success or cancellation nothing moves the grace end, and from it on there is no entitlement |
| `Billing.NeverTurnsBackOn` | backend/src/modules/billing/billing.service.ts:52-138 | Left alone, a subscription that is not entitled never becomes so |
| `Billing.SweepChangesNothing` | backend/src/modules/billing/billing.service.ts:330-349 | The sweep changes no entitlement from its instant on, and earlier ones exactly inside the grace it ends |
| `Invitations.InvitationService.CreateInvitation` | backend/src/modules/invitations/invitations.service.ts:125-179 | Revokes what is pending for the slot and adds one, unless the project is gone or the address holds the slot already |
| `Invitations.InvitationService.ResendInvitation` | backend/src/modules/invitations/invitations.service.ts:271-300 | A new code resets attempts and verification, for any invitation not accepted |
| `Invitations.InvitationService.RevokeInvitation` | backend/src/modules/invitations/invitations.service.ts:324-346 | Revokes any invitation of the project not accepted |
| `Invitations.InvitationService.VerifyInvitationOtp` | backend/src/modules/invitations/invitations.service.ts:392-418 | Succeeds exactly for a usable, unlocked invitation and its trimmed code; a wrong code burns an attempt |
| `Invitations.InvitationService.CompleteInvitation` | backend/src/modules/invitations/invitations.service.ts:447-583 | Succeeds exactly for a usable verified invitation with an account or a profile |
| `Invitations.InvitationService.RemoveStakeholder` | backend/src/modules/invitations/invitations.service.ts:627-675 | Empties the slot and reports whether the membership went with it |
| `Invitations.RefusedWhen` | backend/src/modules/invitations/invitations.service.ts:125-150 | An invitation changes nothing exactly for a project that is gone or an address whose account holds the slot |
| `Invitations.InvitationWorks` | backend/src/modules/invitations/invitations.service.ts:125-583 | The whole way: sent, read back and completed, it goes through exactly if the code is right, both steps fall within seven days and the address can join; then that account holds the slot and is a member |
| `Invitations.AcceptedIsFinal` | backend/src/modules/invitations/invitations.service.ts:333-340 | In any run an accepted invitation never changes |
| `Invitations.VerifiedWasReadBack` | backend/src/modules/invitations/invitations.service.ts:454-459 | In any run a verified (so every accepted) invitation was verified by reading back the code it has now |
| `Invitations.AttemptsBounded` | backend/src/modules/invitations/invitations.service.ts:399-412 | In any run attempts never exceed five, and at five no code changes anything |
| `Invitations.LockedAfterFive` | backend/src/modules/invitations/invitations.service.ts:392-418 | After any wrong codes in a row the right one still verifies exactly if there were fewer than five |
| `Invitations.ResendingReopens` | backend/src/modules/invitations/invitations.service.ts:271-300 | A new code opens the way again for seven days, whatever was before short of acceptance |
| `Invitations.OnePendingUnlessRevived` | backend/src/modules/invitations/invitations.service.ts:280-299 | One pending invitation per slot survives an operation if and only if it does not revive a revoked one beside a pending one |
| `Invitations.OnePendingAlong` | backend/src/modules/invitations/invitations.service.ts:280-299 | In any run a slot has one pending invitation all along if and only if no step revives a revoked one beside a pending one |
| `Invitations.RevivalBreaks` | backend/src/modules/invitations/invitations.service.ts:280-299 | From any state: invite twice, resend the first, and the slot has two |
| `Invitations.SlotAlways` | backend/src/modules/invitations/invitations.service.ts:564-575 | In any run, slot by slot: one that is empty, or whose holder an accepted invitation names, stays so, whatever other slots are like |
| `Invitations.SeatedAlways` | backend/src/modules/invitations/invitations.service.ts:649-675 | In any run, slot by slot: the holder in a live project, if a member of its tenant, stays one, removals from other slots included, and so does whoever takes the place |
| `Invitations.RowsAlways` | backend/src/modules/invitations/invitations.service.ts:125-583 | In any run attempts stay bounded, accepted invitations are verified and name an account, and every invitation is of its project's tenant |
| `Invitations.RemovalEvicts` | backend/src/modules/invitations/invitations.service.ts:655-675 | A removal empties the slot and takes the membership of exactly those with no other engagement in the tenant, administrators excepted, and nobody else's |
| `Audit.ListAuditLog` | backend/src/modules/audit/audit.service.ts:43-109 | Building the filter step by step gives the answer specified |
| `Audit.AnswerIs` | backend/src/modules/audit/audit.service.ts:43-109 | A caller who may not look gets nothing; others the newest rows that every filter given fits, at most 1 to 200 of them or 50, and a cursor, the last id, exactly when there are more |
| `Audit.SelectedIs` | backend/src/modules/audit/audit.service.ts:69-84 | A query selects exactly the fitting rows below the cursor, once each, newest first |
| `Audit.SelectedFrom` | backend/src/modules/audit/audit.service.ts:69-107 | Continuing from the last id of a page selects what was left |
| `Audit.PagingIsStable` | backend/src/modules/audit/audit.service.ts:69-108 | Following the cursor with any limits while larger ids arrive yields every row there at the first call once, in order, and no later row, and it ends |
| `Audit.WalkFrom` | backend/src/modules/audit/audit.service.ts:69-108 | From any cursor a walk covers what is below it, one row or more per call |
| `Audit.Scope` | backend/src/modules/audit/audit.service.ts:49-62 | A caller sees rows of its tenant's members, unless an actor was asked for, who replaces them |
| `Joined.SplitJoin` | backend/src/modules/alerts/alerts.service.ts:68-74 | Parts without the separator, joined and split, come back |
| `Joined.JoinSplit` | backend/src/modules/ingestion/ackcio-csv.ts:116-116 | Any text split and rejoined comes back |

## Left out

- Routes, cookies, JWT signing, e-mail, uploads and the web frontend: plumbing.
- The database: tables are maps and sequences; its unique indexes are part of the operations that rely
  on them, and transactions are atomic. Code that reads and then writes without a lock (token rotation,
  invitation completion, two scans, an alert and its event row) is one step here, so races between
  processes are not captured, nor is the `skipped` answer of a lost race to raise an alert.
- Redis: `INCR`, `TTL`, `EXPIRE` and expiry behave as documented; the in-memory fallback is not modelled.
- Floating point: readings, frequencies, ratios and confidences are reals, and confidence is rounded to
  the nearest hundredth.
- Strings are sequences of characters: no surrogate pairs or encodings. Lower-casing is any
  function, except of registered gateway keys, which are ASCII.
- Reading numbers from CSV cells: a parameter. `sensorIndexForCode` reduces a hash and is a parameter too.
- Display strings: titles, rationales, alert evidence, log lines, the wording of errors and notes.
- Node, network and heartbeat reports, over HTTP and as files: they are stored without further logic.
- The names, types, owners and channel lists of discovered devices and sensors, and hand-made edits of
  links and channel mappings other than registering, retiring and dropping.
- Telemetries that a push skips as malformed or as another gateway's, and the choice of the project that
  makes a reading eligible: rows reach `Ingest` after both.
- Invoices, plans and owner activation on payment: a throw there is a late throw in `Billing`.
- A user's global role on completing an invitation, passwords, profile fields, and whether a membership is
  active or disabled.
- Dashboards, history buckets, device paging, role tables, and `compute_spectrum`, whose work is in a
  library that is not part of this model.
- Other writers of the modelled tables, which the runs do not contain: creating or editing a project fills its
  contractor and authority straight from the form, without invitation or membership, so the results about
  invitations ask nothing of slots and those about slots are slot by slot; switching the plan makes a
  subscription active whatever its arrears; creating a gateway links devices that name it.
- The reading of the token lifetime setting by the two libraries: `RefreshTokens` takes both results as given
  and says what follows when they agree and when not.
- `Envelope.CsvToEnvelope`: node, network and heartbeat files are one answer, because what they become is
  stored without further logic.
- `Ingest.IngestService.HandleSensorData`: one push is one step. A push that dies between its stores leaves
  what failing devices and a failed legacy write leave, which is modelled; a process that dies between a
  measurement insert and its publication is not.
- `FtpDrop.AtMostOnce`: with faults no more than that holds, because a row entered before a fault ends all
  later ingestion (`FtpDrop.NeverRetried`); `FtpDrop.ExactlyOnce` is about runs in which nothing throws.
- `Discovery.DiscoveryService.ResolveNodeDevice`: the per-push cache of nodes answers as the lookup would
  and is not modelled.
