# Verified model of the V2Ray config pipeline

The repository collects V2Ray share links ("configs") from channels and subscriptions, removes
duplicates, validates them, puts a watermark on them, stores them, publishes them through a queue and a
pool of workers, and exports them with clean IPs. This project models that pipeline in Dafny and proves
what it keeps: over every text, every interleaving of the validators, every sequence of jobs, every
behaviour of the queue and its workers, and every run of the rate limiter, the cache and the migration
ledger. `dafny verify dfyconfig.toml` checks everything.

How the files follow the source:

- `RateLimiter` is the sliding-window limiter in front of the geo lookup. Time is real-valued; a clock
  that never runs backwards and sleeps that last at least as long as requested are assumed
  (`Plausible`), nothing else.
- `Text`, `Regex`, `ConfigPattern`, `HostPattern`, `PortPattern` model Python's string methods and its
  backtracking regular expressions. `Regex.Ends` is the order in which the engine tries matches; the
  three patterns of the source are written down as regular expressions, and fast scanners are proved
  equal to them.
- `Utf8`, `Base64`, `Json`, `Vmess` model the codec behind vmess links, with the lenient Base64 decoder
  of CPython (foreign characters are dropped) and with JSON string escapes.
- `ConfigUtils`, `IpManager`, `RoundRobin`, `Watermark`, `Dedup`, `Extraction`, `Subscription` are the
  readers and rewriters of configs.
- `Validator` is concurrent validation: one step is one validation going from one await to the next, a
  schedule is any list of such steps in which validations start in the order of the batch. `Races` says
  exactly when a batch can accept one hash twice. `Pipeline` puts validation, the table of stored
  configs and the publish queue together to whole runs of jobs that can fail anywhere, and `Job` is
  these runs with the functions that the job uses.
- `PublishQueue`, `Broadcaster`, `Sender` are the bounded queue, its worker pool and the retries of one
  message. `Delivery` joins the jobs and the pool.
- `CacheService`, `Migrations`, `Sources`, `Retry` are the remaining state machines; `Division` holds
  the arithmetic of `RoundRobin`.

Objects that the source updates in place are classes here. Each method is proved equal to a step of a
function, and the theorems about whole runs are about these functions.

MD5 (`md5`), `html.unescape` (`unescape`), the watermark text, network answers, random numbers and the
clock are parameters: every result holds for all of them, unless it says otherwise.

Where the code does not do what its comments say, the model follows the code:

- The limiter allows 2N - 1 calls in a minute, not N, because the whole list is cleared after a wait
  (`RateLimiter.AtMostTwiceLimitLessOne`, `RateLimiter.BoundIsTight`). It keeps what it promises
  exactly for N = 1 (`RateLimiter.PromiseIffOne`).
- Uniqueness of stored hashes does not come from `batch_save_configs`, whose comment promises strict
  idempotency by hash: it does not look for repetitions inside a batch (`Pipeline.SaveKeepsDistinct`).
  Nor does it come from the validator, which can accept two configs with one hash
  (`Races.AcceptedOnceIffNoRace` says exactly when). It comes from the scrapers.
- A config whose save failed is not stored from any later source of the same job either
  (`Pipeline.FailedSaveHides`), and one whose commit went unseen is stored but never published
  (`Pipeline.UnseenCommitIsNeverPublished`).
- Two jobs at once, which the first job started outside the scheduler makes possible, store a hash twice
  when both want it (`Pipeline.OverlappingTurns` says exactly when).
- A decodable vmess link is hashed differently after it was watermarked, unless it carried that very
  watermark before (`Watermark.WatermarkKeepsKeyIff`). So where MD5 tells the two apart and no other row
  has the new hash, the channel's own vmess link comes back as a new row of the next job that finds it
  (`Job.OwnVmessLinkIsStoredAgain` is the exact condition, `Job.StoredTwiceExample` two such jobs). This
  happens once for each watermark (`Job.OwnVmessLinkIsFixed`), and never to a link with a remark
  (`Job.OwnRemarkLinkStaysOut`).
- The last IP does not always win, because an IP that a remark mentions is replaced there
  (`IpManager.LastIpWinsWithRemark`, `IpManager.LastIpExample`), nor does the last watermark, because a
  remark can complete the Base64 of a vmess link (`Watermark.LastRemarkWinsIff`,
  `Watermark.LastRemarkExample`).
- The second extraction pass of a subscription runs on unescaped HTML, so that a link written with
  `&amp;` comes out twice (`Subscription.EntityComesTwice`; `Subscription.RoundTripIff` gives the exact
  condition, config by config).
- A commit that goes unseen leaves the migration table ahead of the memory when it applies a migration,
  and the memory ahead of the table when it rolls one back (`Migrations.StepKeepsInStep`).
- `manager.py` itself is found as a migration without `upgrade`, so pending migrations never run out
  (`Migrations.NeverNothingPending`).
- One stop signal stops one of three workers (`Broadcaster.OneLeavesPerStop`).

## Model

| member | source | states |
|---|---|---|
| RateLimiter.GeoRateLimiter.Acquire | core/utils.py:173-191 | One acquire keeps the stamps of the last 60 s, sleeps until the oldest is 60.1 s old if the limit is reached, then clears the list, and records the grant |
| RateLimiter.PruneIsTail | core/utils.py:181-182 | On stamps in time order pruning drops exactly those at least 60 s old, which form a prefix |
| RateLimiter.AtMostTwiceLimitLessOne | core/utils.py:161-191 | In every run, any half-open 60 s window holds at most 2N - 1 grants |
| RateLimiter.AtMostLimitBetweenClears | core/utils.py:161-191 | Among grants without a clear after the first of them, any 60 s window holds at most N: the advertised limit |
| RateLimiter.BoundIsTight | core/utils.py:185-191 | For every N there is a run with exactly 2N - 1 grants in one window |
| RateLimiter.PromiseIffOne | core/utils.py:161-166 | "At most N in a minute" holds in every run and window if and only if N is 1 |
| RateLimiter.TooManyMeansClear | core/utils.py:185-191 | A window with more than N grants contains a clear, and a grant before it |
| RateLimiter.ClearsAreFarApart | core/utils.py:185-191 | Two successive clears are at least 60.1 s apart |
| RateLimiter.WaitingIsAmortised | core/utils.py:185-188 | Of the first k calls at most (k - 1) / N wait, each sleep is in (0.1, 60.1], and the total is bounded accordingly |
| ConfigPattern.ScanIsPattern | constants.py:44-54 | On every text the linear scanner reports what the nine alternatives of CONFIG_PATTERN report under backtracking |
| Extraction.ExtractedAreConfigs | core/utils.py:123-137 | Everything findall returns is matched from its first to its last character |
| Extraction.ConfigHasNoSpace | constants.py:44-54 | An extracted config has no whitespace |
| Extraction.ExtractAppend | constants.py:44-54 | At whitespace a text can be cut and extracted in two parts |
| Extraction.ExtractOfParts | core/ip_manager.py:201-211 | Joining any texts with blank lines neither makes nor breaks a config |
| Extraction.ExtractOfJoin | core/ip_manager.py:201-211 | Configs joined by blank lines are extracted again whole and in order |
| Utf8.RoundTrip | processor/parser.py:105 | Decoding the encoding of any text gives the text |
| Utf8.IgnoringAgrees | core/utils.py:83 | Dropping malformed bytes changes nothing where strict decoding succeeds |
| Base64.RoundTrip | processor/parser.py:105 | The lenient decoder inverts the encoder on all byte strings |
| Base64.RepairRestores | core/utils.py:78-82 | After dropping any number of trailing '=' the len % 4 padding rule makes the decoder return the original bytes |
| Json.GetAfterPut | processor/parser.py:104 | Assigning a key changes what is read for that key and for no other |
| Json.PutsCommute | core/ip_manager.py:142 | Two assignments to different keys commute exactly when one of the keys was there |
| Json.RoundTrip | processor/parser.py:103-105 | json.loads of json.dumps gives the same object, for all strings with all escapes, integers, booleans and null |
| Vmess.StrictIsLenient | core/utils.py:80-83 | What the rewriters decode, the readers decode to the same object |
| Vmess.RoundTrip | processor/parser.py:98-106 | A link made from an object decodes to that object, strictly and leniently |
| Vmess.PutRoundTrip | core/ip_manager.py:135-149 | Decode, assign, encode: decoding again gives the assigned object |
| Vmess.DecodeStartsWith | processor/parser.py:98-103 | A decodable link that begins with a written one decodes to the written object, whatever follows |
| HostPattern.SearchHostIsPattern | core/utils.py:72 | The host scanner finds what re.search finds |
| HostPattern.SubHostIsPattern | core/ip_manager.py:94 | The rewriting function is re.sub with that pattern |
| HostPattern.OnlyHostsChange | core/ip_manager.py:94 | The text is its pieces outside the matches and the matched hosts; rewriting swaps each host and touches nothing else |
| HostPattern.LastHostWins | core/ip_manager.py:94 | Rewriting twice is rewriting with the last host, if the first is not empty and has no ':' |
| HostPattern.NewHostIsFound | core/ip_manager.py:94 | The first host found after a rewriting is the new one, if there was any |
| PortPattern.SearchPortIsPattern | core/utils.py:115 | The port scanner finds what re.search finds |
| PortPattern.SubHostKeepsPort | core/ip_manager.py:94 | Rewriting hosts keeps the port that is found in the text |
| PortPattern.PortBeforeRemark | core/utils.py:115 | A port in front of a remark is the one found; otherwise the remark decides |
| ConfigUtils.SchemeDecidesProtocol | core/utils.py:36-53 | The protocol reported depends on the scheme alone, and is the scheme's |
| ConfigUtils.ParseIntOfDigits | core/utils.py:112 | A port written in decimal is read as that number, with its sign |
| ConfigUtils.FieldsAfterPut | core/utils.py:76-84 | After assigning a field of a vmess link, readers see the new value there and the old values elsewhere |
| IpManager.AppliedHostIsRead | core/ip_manager.py:85-112 | On a URI link whose base names a server, the server read after applying an IP is that IP if and only if the IP is not empty and has no ':' |
| IpManager.OutcomeParts | core/ip_manager.py:90-112 | The result is the rewritten base followed by nothing or by a remark |
| IpManager.CountryServerRemarkFollows | core/ip_manager.py:96-109 | A remark country-server gets the new server too |
| IpManager.AppliedKeepsPort | core/ip_manager.py:90-112 | The port that the base names is read from the result as before |
| IpManager.ApplyAgainIsIdle | core/ip_manager.py:94-112 | Applying the same address to a changed link changes nothing and reports so |
| IpManager.AppliedVmess | core/ip_manager.py:119-149 | On a decodable vmess link exactly "add" is assigned; the IP is read back and the port stays |
| IpManager.AppliedVmessKeepsFields | core/ip_manager.py:141-149 | All other fields stay |
| IpManager.LastIpWinsVmess | core/ip_manager.py:141-149 | Two IPs in a row give what the last alone gives, byte for byte |
| IpManager.LastIpWinsWithRemark | core/ip_manager.py:94-110 | On a URI link with a remark two addresses in a row give what the last alone gives if and only if they are equal, or the base names no server, or the remark does not mention the first address apart from where it names the server |
| IpManager.LastIpWinsWithoutRemark | core/ip_manager.py:94-112 | Without a remark, if and only if the link does not end in '#', or the first address changes nothing, or the last changes something |
| IpManager.LastIpExample | core/ip_manager.py:104-107 | vless://u@h:1#x-9-h with 9 and then 8 is a link where it does not |
| IpManager.AppliedLineIsRead | core/ip_manager.py:184-191 | The line output for a URI link that names a server is read with its IP |
| RoundRobin.ApplyIpsToConfigs | core/ip_manager.py:155-198 | The output has one line per pair dealt, each the config with the pair's IP applied, or the config itself; empty lists give nothing |
| RoundRobin.DealLength | core/ip_manager.py:182-191 | There are ips * per lines |
| RoundRobin.EveryLine | core/ip_manager.py:182-191 | Line k pairs IP k / per with config (k mod per) mod n |
| RoundRobin.UsesAreFair | core/ip_manager.py:183-184 | For each IP every config is used per / n times, the first per mod n once more |
| RoundRobin.LineHasItsIp | core/ip_manager.py:182-191 | A line whose config is a URI link with a server is read back with the IP it was paired with |
| Watermark.QuoteRoundTrip | processor/parser.py:77 | Percent-decoding the remark gives the watermark, and the remark has no '#', '@', ':' or whitespace |
| Watermark.WatermarkedIsConfig | processor/parser.py:72-110 | A watermarked config is again matched whole by CONFIG_PATTERN, has no whitespace and a known protocol |
| Watermark.WatermarkedProtocol | processor/parser.py:72-110 | ... and the protocol it had |
| Watermark.ExportIsReadBack | core/ip_manager.py:201-211 | An export of watermarked configs is extracted again whole and in order |
| Watermark.WatermarkKeepsHash | core/utils.py:277-278 | Where the watermark is a remark the dedup hash stays |
| Watermark.WatermarkKeepsKeyIff | core/utils.py:277-278 | The text that is hashed stays exactly when the watermark is a remark, or the key is the written form of the object the link decodes to and that has this watermark as "ps" |
| Watermark.KeyChangesWithoutPs | core/utils.py:277-278 | So it changes for every written vmess link without "ps", whatever the watermark |
| Watermark.KeyChangesExample | core/utils.py:277-278 | The link of {"add": "1.2.3.4"} is one |
| Watermark.WatermarkedVmess | processor/parser.py:98-106 | On a decodable vmess link exactly "ps" is assigned; server and port are read as before |
| Watermark.WatermarkedVmessKeepsFields | processor/parser.py:103-106 | All other fields stay |
| Watermark.LastWatermarkWins | processor/parser.py:103-106 | On decodable vmess links the last watermark wins, byte for byte |
| Watermark.LastRemarkWinsIff | processor/parser.py:75-110 | Where the first watermark is a remark, the last wins if and only if the link with that remark still is no decodable vmess link |
| Watermark.LastRemarkWins | processor/parser.py:75-78 | So it wins on all other schemes |
| Watermark.LastRemarkExample | processor/parser.py:98-110 | vmess://eyAg with the watermark fSAg is a link where it does not |
| Watermark.WatermarkAndIpCommute | core/ip_manager.py:142 | Watermarking and applying an IP commute on a decodable vmess link exactly when it has "ps" or "add" |
| Watermark.WatermarkedUriHost | processor/parser.py:75-78 | On URI links the server read afterwards is the one the base names |
| Watermark.WatermarkedUriPort | processor/parser.py:75-78 | ... and so is the port |
| Dedup.RemarkIsIgnored | core/utils.py:266-278 | Configs that differ only in the remark have one hash |
| Dedup.KeepUnseen | scraper/base.py:211-228 | One pass of the loop keeps the first config of each hash and knows the hashes seen |
| Dedup.ParseConfigs | scraper/base.py:200-230 | Both passes together keep the first occurrences of all candidates, with pairwise distinct hashes |
| Dedup.SameHashes | scraper/base.py:211-230 | No hash is lost by deduplication |
| Dedup.KeptWholeIffDistinct | scraper/base.py:211-230 | A list is kept whole exactly when no hash repeats in it |
| Dedup.MoreInput | scraper/subscription.py:176-189 | More input only adds at the end, and nothing exactly when it brings no new hash |
| Subscription.ExtractConfigs | scraper/subscription.py:160-189 | The result is the first occurrences among the matches in the decoded text and in the unescaped text |
| Subscription.WrappedIsDecoded | scraper/subscription.py:125-158 | Base64 content with any line breaks, spaces and missing padding is decoded to the text, if that mentions a scheme |
| Subscription.ListIsDecoded | scraper/subscription.py:125-158 | Content that lists configs, plain or encoded, is decoded to their joined text |
| Subscription.RoundTrip | scraper/subscription.py:116-189 | For every list of configs, plain or encoded and wrapped: its first occurrences come first, and nothing else comes exactly when the unescaped text brings no new hash |
| Subscription.RoundTripIff | scraper/subscription.py:160-189 | If entities do not reach over line breaks, nothing else comes exactly when no config, unescaped by itself, shows a hash that the list lacks |
| Subscription.EntityComesTwice | scraper/subscription.py:171-187 | A link written with one &amp; comes out in both spellings, for every hash that tells them apart |
| Subscription.EntityExample | scraper/subscription.py:171-187 | vless://u@h:1?x=1&amp;y=2 is such a link |
| Subscription.RoundTripWithoutEntities | scraper/subscription.py:116-189 | Without '&' the result is exactly the first occurrences of the list |
| Validator.ConfigValidator.StartOne | processor/validator.py:94-138 | A validation from its start to its first await: rejected, waiting for a ping, waiting for the geo lookup, or accepted, with the shared state it leaves |
| Validator.ConfigValidator.ResumeFromPing | processor/validator.py:109-138 | The same from the ping's answer on |
| Validator.ConfigValidator.ResumeFromFetch | processor/validator.py:121-138 | The same from the geo lookup's answer on, which fills the country cache |
| Validator.RunTasks | processor/validator.py:161-169 | Running a schedule on the shared object is the run that the theorems are about |
| Validator.CollectResults | processor/validator.py:171-177 | The results are the accepted entries, in the order of the batch |
| Validator.InFlightIsBounded | processor/validator.py:161-165 | At most max_concurrent validations are suspended at any time |
| Validator.StepDoesWork | processor/validator.py:71-138 | Every step brings the batch nearer to its end |
| Validator.NeverStuck | processor/validator.py:161-169 | With a permit, some validation can move until all are done |
| Validator.EveryScheduleCanFinish | processor/validator.py:161-169 | Every schedule can be continued until all validations are done |
| Validator.EveryScheduleFilters | processor/validator.py:94-177 | For a batch without repeated hashes every finished schedule accepts exactly the configs with a known protocol, alive if pinged, and not seen before the batch, in order |
| Validator.CountriesFit | processor/validator.py:114-122 | In every schedule an accepted config has a country that was cached or fetched for its own server, or "UN" when it names none |
| Races.EveryRunReaches | processor/validator.py:94-138 | In every schedule tasks start in order, the set of seen hashes is exact, and each task is where it is for a reason |
| Races.NoRaceNoDuplicate | processor/validator.py:101-128 | With one permit, or when no hash has two acceptable configs of which the first can be made to wait, no schedule accepts a hash twice |
| Races.RaceAcceptsTwice | processor/validator.py:101-128 | Otherwise a schedule that looks at network answers only when nothing can start ends with a hash accepted twice |
| Races.AcceptedOnceIffNoRace | processor/validator.py:101-128 | So the condition is exact, over all schedules and over these alone: the first acceptable config of a hash is pinged, or has an uncached server that fewer than max_concurrent earlier ones must be fetching |
| Pipeline.ConfigTable.BatchExistsHashes | database/crud.py:518-532 | The answer is the requested hashes that are stored |
| Pipeline.ConfigTable.BatchSaveConfigs | database/crud.py:535-583 | Exactly the entries with unstored hashes are appended and returned; a failed transaction changes nothing, and a commit that goes unseen appends them and raises |
| Pipeline.SaveKeepsDistinct | database/crud.py:561-583 | Stored hashes stay distinct through a save exactly when the new part of the batch has no repetition |
| Pipeline.OverlappingSaves | database/crud.py:561-583 | Two saves that both look the table up before either commits keep the hashes distinct exactly when the batches share no hash that the table lacks |
| Pipeline.SaveTwice | database/crud.py:557-565 | Saving the same batch again finds nothing new |
| Pipeline.Enqueue | main.py:144-147 | The items put are the saved configs in order, up to where a put does not complete |
| Pipeline.ProcessSource | main.py:123-151 | One source's turn is one step of the run |
| Pipeline.ScraperJob | main.py:95-161 | A job leaves in the table and puts on the queue what the run over its sources does |
| Pipeline.StoredStayDistinct | main.py:123-151 | Over every sequence of serial jobs with failures anywhere, stored hashes stay pairwise distinct |
| Pipeline.PublishedAreStoredOnce | main.py:139-147 | Every item ever enqueued carries a row that the run stored, in row order, and no hash is enqueued twice |
| Pipeline.AllStoredArePublished | main.py:139-147 | When nothing fails, the queue gets exactly the rows that the run stored |
| Pipeline.StoredAfterTurn | main.py:128-147 | A hash is stored after a source's turn if and only if it was before, or it belongs to a known config among the first twenty and was not accepted earlier in the job |
| Pipeline.OverlappingTurns | main.py:194 | Two turns of overlapping jobs keep the hashes distinct exactly when there is no hash that both want and the table lacks |
| Pipeline.SeenStaysOut | processor/validator.py:101-128 | What a job's validator has seen and the table lacks is not stored by any later source of the job, whatever happens |
| Pipeline.FailedSaveHides | processor/validator.py:128 | So after a failed save no later source of the job, disturbed or not, gets the config stored |
| Pipeline.UnseenCommitIsNeverPublished | main.py:139-151 | After a commit that went unseen the rows are in the table, and no later item of any job carries one of their hashes |
| Pipeline.NewRowIffNotStored | main.py:128-147 | A wanted config becomes a new row exactly when its hash is not stored |
| Pipeline.TurnExists | main.py:123-151 | For every source, answers and earlier run there is an undisturbed turn |
| Job.JobParamsAreJob | processor/validator.py:94-125 | The functions of the job are the modelled protocol test, hash, server and watermark, without pings |
| Job.StoredAreWatermarked | main.py:128-147 | Every stored row has its config's hash and watermarked form, which is a config of known protocol and, where the watermark is a remark, has the stored hash |
| Job.PublishedAreWatermarked | main.py:139-147 | Every enqueued item is the watermarked form of the config of a row stored under the config's hash, and no hash is enqueued twice |
| Job.EveryJobRun | main.py:95-161 | All of this for whole runs of the job itself |
| Job.StoredAfterJobTurn | main.py:128-147 | For extracted candidates, a hash is stored after a turn if and only if it was before, or it is one of the first twenty's and was not accepted earlier in the job |
| Job.OwnRemarkLinkStaysOut | core/utils.py:266-278 | A published link with a remark is never stored again by any job |
| Job.OwnVmessLinkComesBack | processor/parser.py:98-106 | A watermarked vmess link that decoded is hashed whole, and the next job that finds it adds a row with it exactly when the table lacks that hash |
| Job.OwnVmessLinkIsStoredAgain | processor/parser.py:98-106 | When the link was published for a stored row and MD5 tells it from the row's key, that is exactly when the link did not have this watermark before and no other row has its hash |
| Job.LinkIsStoredTwice | main.py:95-161 | For every vmess link whose hash the watermark changes there are two jobs, one that finds it and one that finds what was published for it, and each stores a row |
| Job.StoredTwiceExample | main.py:95-161 | The link of {"add": "1.2.3.4"} is one |
| Job.OwnVmessLinkIsFixed | processor/parser.py:98-106 | Watermarked the same again it stays as it is, and no other row ever has that link |
| Job.PairRaces | processor/validator.py:101-128 | Two acceptable configs with one hash can race exactly when the first is pinged or has an uncached server, and there are two permits |
| Job.OrderDecides | processor/validator.py:161-169 | A link without a server and the same link with one in its remark: in this order no schedule accepts both, in the other some schedule does |
| Job.OrderExample | processor/validator.py:161-169 | vless://x and vless://x#@h:1 are such links |
| PublishQueue.PublishQueue.Put | publisher/queue.py:66-75 | Appends one item and counts it, or waits when the queue is full |
| PublishQueue.PublishQueue.PutStop | publisher/queue.py:92-97 | The same for the stop signal |
| PublishQueue.PublishQueue.GetItem | publisher/queue.py:77-86 | Takes the oldest message, or waits when there is none |
| PublishQueue.PublishQueue.TaskDone | publisher/queue.py:88-90 | Counts one down, and fails when there is nothing to count down |
| Broadcaster.PublishWorker.TakeItem | publisher/broadcaster.py:92-97 | A worker with a message either holds an item or marks the stop signal done and leaves |
| Broadcaster.PublishWorker.MarkDone | publisher/broadcaster.py:104-107 | After sending the worker marks the item done and sleeps |
| Broadcaster.LengthIsBounded | publisher/queue.py:35-42 | The queue never exceeds maxsize |
| Broadcaster.TakenThenQueued | publisher/queue.py:66-86 | The put sequence is the taken sequence followed by the queue |
| Broadcaster.EveryTakenHasOneOwner | publisher/broadcaster.py:89-109 | The taken messages are dealt out to the workers, each to exactly one, and each worker got its share in order |
| Broadcaster.UnfinishedIsExact | publisher/queue.py:88-90 | The unfinished count is queued plus held plus abandoned by cancelled workers, and no task_done fails |
| Broadcaster.AllDoneIffZero | publisher/queue.py:88-90 | It is zero exactly when nothing is queued, held or abandoned |
| Broadcaster.OneLeavesPerStop | publisher/broadcaster.py:93-97 | As many workers have left as stop signals were taken, and no more than were put |
| Broadcaster.LeavingComesAfterTheItems | publisher/broadcaster.py:93-97 | When a worker has left, every item put before the first stop signal has been taken |
| Broadcaster.WorkIsFinite | publisher/broadcaster.py:92-109 | Without puts every worker step uses up effort |
| Broadcaster.IdleMeansDrained | publisher/broadcaster.py:92-109 | When no worker can move and one is left, everything put has been taken |
| Broadcaster.TakesAreThrottled | publisher/broadcaster.py:104-109 | In any closed window of W seconds a pool takes at most workers * (W / 2.2 + 1) messages |
| Broadcaster.ThreePerStart | publisher/broadcaster.py:117-120 | Each start adds three workers |
| Broadcaster.OnePoolIsThrottled | publisher/broadcaster.py:104-120 | So a pool started once takes at most 3 * (W / 2.2 + 1) |
| Delivery.NoHashIsTakenTwice | publisher/broadcaster.py:89-109 | When the items put are those of a run of jobs, each item a worker takes carries a row the run stored, and no hash is taken twice, by one worker or by two |
| Delivery.EveryRowIsTakenOnce | publisher/broadcaster.py:89-109 | When moreover nothing failed and the queue has run empty, every row the run stored was taken, by exactly one worker |
| Sender.SendsFrom | publisher/broadcaster.py:43-70 | From any retry on: between one and the remaining number of posts, all but the last answered by 429 or a network error |
| Sender.PostsUntilSettled | publisher/broadcaster.py:43-70 | A message is posted until the first other answer or until the retries are used up, and counts as sent exactly when the last answer is 200 |
| Sender.SixPostsAtMost | publisher/broadcaster.py:43-70 | With five retries that is at most six times |
| CacheService.CacheService.Get | services/cache_service.py:72-101 | Returns the value that is stored and not expired, else the default, and drops an expired one |
| CacheService.CacheService.Exists | services/cache_service.py:138-162 | The same as a yes or no |
| CacheService.CacheService.Set | services/cache_service.py:103-110 | Stores the value until now + ttl, where no ttl and zero mean an hour |
| CacheService.CacheService.Delete | services/cache_service.py:122-129 | Removes the key from both dictionaries |
| CacheService.CacheService.Clear | services/cache_service.py:164-167 | Empties both |
| CacheService.KeysAgree | services/cache_service.py:31-33 | The two dictionaries always have the same keys |
| CacheService.LookupIsAnswer | services/cache_service.py:72-167 | After any calls in time order a lookup answers with the last set that was not deleted, cleared or expired |
| CacheService.ReadsLeaveNoTrace | services/cache_service.py:82-84 | Lazy deletion never changes a later answer |
| Migrations.MigrationManager.ReadLedger | database/migrations/manager.py:33-46 | Memory becomes what the table holds |
| Migrations.MigrationManager.GetPending | database/migrations/manager.py:64-74 | The files whose version is not in memory, in order |
| Migrations.MigrationManager.ApplyOne | database/migrations/manager.py:76-104 | One migration, with a failure possible at import, upgrade and record |
| Migrations.MigrationManager.RollbackOne | database/migrations/manager.py:106-134 | One rollback, likewise |
| Migrations.MigrationManager.ApplyAllPending | database/migrations/manager.py:136-147 | All pending ones up to the first failure |
| Migrations.StepKeepsInStep | database/migrations/manager.py:76-134 | One apply or rollback keeps memory and table equal exactly when it does not change the table by a commit that goes unseen |
| Migrations.MemoryIsTable | database/migrations/manager.py:33-146 | After any applies, rollbacks and failures without an unseen commit the versions in memory are those in the table |
| Migrations.FailedRun | database/migrations/manager.py:136-147 | A run that fails at file k has added exactly the earlier pending files with upgrade, in name order; the table has file k as well when just its commit went unseen |
| Migrations.RollbackUndoesApply | database/migrations/manager.py:76-134 | Rolling back a migration just applied restores the ledger in memory and in the table |
| Migrations.SuccessfulRun | database/migrations/manager.py:136-147 | A run without failure ran each pending upgrade once and leaves pending exactly the files without upgrade |
| Migrations.SecondRunIsIdle | database/migrations/manager.py:136-147 | Another run then changes nothing |
| Migrations.NeverNothingPending | database/migrations/manager.py:50-62 | A file without upgrade stays pending after every run |
| Sources.SourceTable.AddSource | database/crud.py:409-444 | Adds a row unless the url, then the name, is taken, and says which |
| Sources.SourceTable.RemoveSource | database/crud.py:447-464 | Removes the row with the id, if there is one |
| Sources.SourceTable.ToggleSource | database/crud.py:497-515 | Flips is_active of that row and changes nothing else |
| Sources.ReachableIsUnique | database/crud.py:409-515 | In every reachable table ids, urls and names are distinct, so that no lookup meets two rows |
| Sources.AddAnswers | database/crud.py:427-439 | An addition is refused as a duplicate url exactly when the url is there, and as a duplicate name exactly when only the name is |
| Sources.ChangesOneRow | database/crud.py:447-515 | Removing takes out exactly the row with the id, toggling flips exactly its is_active, and the other rows stay in order |
| Sources.TogglesCancel | database/crud.py:497-515 | Toggling twice restores the table |
| Sources.RemoveUndoesAdd | database/crud.py:409-464 | Removing a source just added restores the rows |
| Sources.ScrapeAll | scraper/base.py:319-353 | The loop fills the result map and the total as stated below |
| Sources.NothingOverwritten | scraper/base.py:333-347 | Each source of a known type finds its own result under its name, empty if it failed; other types have none |
| Sources.TotalIsSum | scraper/base.py:334-353 | The total is the sum of the lengths in the map |
| Sources.ReachableScrape | scraper/base.py:319-353 | Both hold for whatever rows of a reachable table are scraped |
| Retry.WithRetry | database/connection.py:87-112 | At most retries + 1 calls; the first success is returned, other errors are raised at once, the last connection error only after retries + 1 failures; sleep k lasts 0.5 * 2^k plus its jitter, in all [0.5(2^m - 1), 0.5(2^m - 1) + 0.5m] for m sleeps |
| Retry.FetchWithRetry | scraper/base.py:97-115 | The same with every exception retried; sleep k lasts (0.8 + random) * 2^k, in all [0.8(2^m - 1), 1.8(2^m - 1)] |
| Retry.SettlesOnce | scraper/subscription.py:80-114 | These promises determine the number of calls and the outcome |
| Retry.FirstSuccessWins | scraper/subscription.py:80-114 | The first success within the allowed calls is returned, after exactly that many calls |

## Left out

- RateLimiter.GeoRateLimiter.Acquire: a limit of 0, with which the source indexes an empty list; and clocks that run backwards, which time.time can.
- IpManager.AppliedHostIsRead: IPs with a backslash, which re.sub would read as a template escape; every caller passes addresses that is_valid_ip accepted.
- IpManager.ApplyAgainIsIdle: addresses with '#', ':' or whitespace.
- IpManager.LastIpWinsWithRemark: first addresses with '-', and links with whitespace at an end, which extraction never yields.
- Json.RoundTrip: nested values, floats and lone surrogate escapes; objects with them count as undecodable. Integers above 4300 digits, which Python refuses, are not treated apart.
- ConfigUtils.ParseIntOfDigits: digits outside ASCII, which int() reads too.
- PortPattern.SearchPortIsPattern: \d stands for ASCII digits; Python's also matches other decimal digits.
- Validator.RunTasks: exceptions inside one validation, which gather returns and the loop skips; hosts that Python identifies as dictionary keys although they differ (True and 1). For a server that is truthy but not a string, the geo lookup fails and answers "UN" without suspending, unless the limiter waits; here every lookup suspends.
- Pipeline.ScraperJob: whole runs of overlapping jobs; what two overlapping turns do is in `Pipeline.OverlappingTurns`. The columns protocol, host, is_valid and created_at.
- Delivery.NoHashIsTakenTwice: the times of the jobs and of the pool; only the order of the puts joins them.
- Sources.ReachableIsUnique: two additions at the same time; ids come from a counter that never goes back.
- Pipeline.Enqueue: waiting on a full queue and the workers that empty it meanwhile; only how many puts complete enters a run, and `Broadcaster` has the queue itself.
- Broadcaster.OnePoolIsThrottled: what Telegram does with the posts; one message may be posted six times between two takes.
- Migrations.SuccessfulRun: what upgrades do to the schema; the order in which glob lists files is taken after the sort by name.
- Sources.ScrapeAll: the built-in source lists that are used when the table is empty, and the statistics written per source.
- CONFIG_REGEX in scraper/base.py, a case-insensitive variant of the same grammar, and the text nodes and URLs that BeautifulSoup finds.
- save_config, which stores without a uniqueness check and is not called by the job.
- format_message, get_flag, sanitize_filename, generate_config and the ping tools: single expressions.
- The Redis branches of the cache, which no setting can reach.
- Telegram handlers, menus, export files, users, admins and VIPs: user interface and plain table access.
- HTTP, DNS, geo lookup answers and SQLAlchemy sessions: they appear as arbitrary answers and failures.
- services/publisher_service.py, services/scraper_service.py and the second entry points, which duplicate main.py or do not load.
