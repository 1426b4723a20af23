# cpumon and the fivis library, modelled in Dafny

cpumon samples the CPU time counters of `/proc/stat` every 12 seconds on a
sampling thread. It turns each reading into the per-interval delta against
the previous one. Once a minute the main thread drains the finished samples
and sends them as one JSON request to the FIVIS ingestion endpoint. It sends
the schema of the signals with every request until one succeeds. It retries
a failed request while enough empty samples remain. Then it returns the
samples to the pool. Below it sits the small fivis C library:

- an intrusive circular doubly-linked list (`list.h`);
- a growable string buffer (`sbuf.c`);
- typed entries that print `"name": value` and `"name": "type"` fragments
  (`entry.c`, `entry.h`);
- the request serialiser and the classification of request results
  (`fivis.c`);
- the `align_pow2` helper (`util.h`).

The model follows the C code file by file:

| file | module | what it holds |
|---|---|---|
| util.dfy | `Util` | `Option`, 2^64 arithmetic, `align_pow2` with its size_t wrap-around |
| decimal.dfy | `Decimal` | decimal and zero-padded printing of integers, with read-back lemmas |
| list.dfy | `IntrusiveList` | class `Arena`: `prev`/`next` index arrays and a ghost map from each head to the items it links, in order |
| sbuf.dfy | `StringBuffer` | class `SBuf` with `data`, `size` and `next`, and a ghost `contents` |
| entry.dfy | `Entries` | the value union, the entry record, the text of every formatter, and `entry_destroy` over the arena |
| fivis.dfy | `Fivis` | `format_schema`, `format_data` and `fivis_signals_format_request` appending into an `SBuf`; reference texts for their output; result classification |
| procstat.dfy | `ProcStat` | the three `/proc/stat` readers as loops over the text, each against a specification function |
| procstat_rows.dfy | `ProcStatRows` | what those readers return on text laid out the way the kernel writes it |
| signals.dfy | `Signals` | cpu, time and signal names, and the row-major creation of the time signals |
| samples.dfy | `Samples` | `compare_timespec`, delta arithmetic modulo 2^64, and the in-place copy, subtraction and zeroing of a sample |
| pool.dfy | `SamplePool` | class `Pool`: the `empty` and `full` lists, the held sample and the batch, with one atomic method per mutex-protected region |
| producer.dfy | `Producer` | class `Cpumon`: one pass of the sampling loop, with the two-slot last-sample buffer |
| iterator.dfy | `NextValue` | class `State`: the `cpumon_next_value` callback |
| publisher.dfy | `Publisher` | the send/wait/drop policy and class `Flusher`, one turn of the flush loop |

The inputs the C code gets from its surroundings are parameters:

- the clock reading and the `/proc/stat` text of a pass;
- what each request send returns, and the empty-sample counts met while
  waiting;
- `gmtime_r` and the `%f` rendering of a double (`Entries.Env`);
- the text `vsnprintf` formats;
- whether `realloc` succeeds.

Where the C code and a plain reading of its purpose differ, the model
follows the code, with one exception: the record id. Its `%011d` defect is
modelled on its own (see "## Findings"), and requests carry the id as
intended.

- After a short parse the producer keeps its held sample and fills it again
  on the next pass. It does not leak it (`Producer.Cpumon.Cycle`).
- `last_ts` is recorded before the text is parsed, but only after a read
  that returned at least one byte. An empty read is retried like a failed
  one. A pass that then parses
  short still moves `last_ts` on.
- Every result other than `FIVIS_OK` is retried, not only network errors.
- The retry is not limited to one 20-second window. After every wait in
  which each of the four counts is above 30, the request is sent again. This
  repeats until a send succeeds or a count falls to 30 or below
  (`Publisher.Publish`).
- Draining and recycling walk the lists one item at a time under the mutex.
  They are not O(1) splices.
- `align_pow2` rounds up to a multiple of 2^power, not to a power of two.

## Model

| member | source | states |
|---|---|---|
| Util.AlignIsMultiple | include/fivis/util.h:29-32 | `align_pow2(v, p)` is a multiple of 2^p, wrap-around included |
| Util.AlignRoundsUp | include/fivis/util.h:29-32 | when `v + 2^p - 1` does not wrap, the result is at least `v` and less than `v + 2^p` |
| Util.AlignKeepsMultiples | include/fivis/util.h:25-32 | a value that is already a multiple of 2^p comes back unchanged |
| Util.AlignIdempotent | include/fivis/util.h:25-32 | aligning twice gives the same as aligning once |
| IntrusiveList.Arena.constructor | include/fivis/list.h:45 | `LIST_INIT`/`list_init`: every node is self-linked, an empty list |
| IntrusiveList.Arena.IsEmpty | include/fivis/list.h:162-166 | `list_is_empty` is true exactly for an empty head or an item that is linked nowhere |
| IntrusiveList.Arena.SelfLinkedMeansEmpty | include/fivis/list.h:153-166 | `prev == next == n` holds exactly when n heads an empty list |
| IntrusiveList.Arena.InsertBetween | include/fivis/list.h:96-106 | the item is linked in at ring position p; every list stays a well-formed ring |
| IntrusiveList.Arena.AddFirst | include/fivis/list.h:223-227 | the list s becomes [item] + s; no other list changes |
| IntrusiveList.Arena.AddLast | include/fivis/list.h:256-260 | the list s becomes s + [item]; no other list changes |
| IntrusiveList.Arena.InsertAfter | include/fivis/list.h:207-211 | the item goes right after the given node; the other items keep their order |
| IntrusiveList.Arena.InsertBefore | include/fivis/list.h:239-243 | the item goes right before the given node; the other items keep their order |
| IntrusiveList.Arena.Remove | include/fivis/list.h:270-277 | the item leaves its list, the rest keep their order, and the item is left self-linked (empty); an unlinked item changes nothing |
| IntrusiveList.Arena.RemoveAfter | include/fivis/list.h:287-291 | on a head: removes and returns the first item; an empty head returns itself and changes nothing |
| IntrusiveList.Arena.RemoveBefore | include/fivis/list.h:301-305 | on a head: removes and returns the last item; an empty head returns itself and changes nothing |
| IntrusiveList.Arena.Size | include/fivis/list.h:470-482 | the count of the walk equals the length of the list |
| IntrusiveList.Arena.Find | include/fivis/list.h:449-461 | None exactly when no item matches; otherwise the first matching item |
| IntrusiveList.Arena.Destroy | include/fivis/list.h:404-411 | the destroy callback gets every item once, front to back; the head ends empty and each item self-linked |
| StringBuffer.SBuf.constructor | include/fivis/sbuf.h:37 | `SBUF_INIT`: data NULL, size 0, next 0, the empty string |
| StringBuffer.SBuf.Init | src/fivis/sbuf.c:69-73 | resets to data NULL, size 0, next 0 |
| StringBuffer.SBuf.Destroy | src/fivis/sbuf.c:76-85 | releases the memory and leaves a valid empty buffer that can be reused |
| StringBuffer.SBuf.String | src/fivis/sbuf.c:88-92 | the held characters, and "" when no memory is allocated |
| StringBuffer.SBuf.IsEmpty | include/fivis/sbuf.h:92-95 | true exactly when the string is empty |
| StringBuffer.SBuf.Length | include/fivis/sbuf.h:106-109 | `next`, the string length, which stays below the capacity |
| StringBuffer.SBuf.Clear | src/fivis/sbuf.c:95-104 | `next` becomes 0 and the string "", with the memory kept |
| StringBuffer.SBuf.EnsureCapacity | src/fivis/sbuf.c:40-66 | with fewer than `capacity` bytes left, the size grows to `align_pow2(next + capacity, 6)` and the old bytes are kept; otherwise, or when realloc fails, data and size are unchanged |
| StringBuffer.SBuf.Format | src/fivis/sbuf.c:107-159 | a formatted text is appended exactly; the earlier contents are kept and `next < size` still holds; a formatting error changes nothing |
| StringBuffer.SBuf.Append | src/fivis/sbuf.c:162-166 | succeeds exactly when the string's length fits `vsnprintf`'s `int`, and then the contents grow by exactly the string; otherwise nothing changes |
| StringBuffer.SBuf.SetFormat | src/fivis/sbuf.c:169-188 | the buffer holds exactly the formatted text, or "" on a formatting error |
| StringBuffer.SBuf.Set | src/fivis/sbuf.c:191-195 | the buffer holds exactly a copy of the string, or "" when its length does not fit `vsnprintf`'s `int` |
| StringBuffer.FormatString | src/fivis/sbuf.c:198-213 | the result is exactly the formatted text, or NULL on a formatting error |
| Entries.Generic | include/fivis/entry.h:48-59 | `entry_generic` gives a non-NULL name that the fragments print, and keeps both formatters |
| Entries.TypedEntriesAgree | include/fivis/entry.h:67-69 | each typed constructor pairs a value formatter with the type formatter of the same kind |
| Entries.FragmentsShareKey | include/fivis/entry.h:136-145 | both fragments of an entry begin with the key `"<name>": ` |
| Entries.BooleanText | src/fivis/entry.c:9-16 | a boolean prints as `"<name>": true` or `"<name>": false`, and `true` exactly when it holds |
| Entries.SignedText | src/fivis/entry.c:28-33 | a signed value prints as decimal digits, with a sign when negative, that read back as the value |
| Entries.StringText | src/fivis/entry.c:58-63 | a string prints between quotes, unescaped |
| Entries.DateLayout | src/fivis/entry.c:81-84 | the date prints as `YYYY-MM-DDT`, zero-padded, and each field reads back |
| Entries.ClockLayout | src/fivis/entry.c:81-84 | the clock prints as `HH:MM:SS.mmmZ`, zero-padded, and each field reads back |
| Entries.DatetimeLayout | src/fivis/entry.c:73-86 | the datetime is 24 characters; the milliseconds are `tv_nsec / 1000000`, truncated |
| Entries.FormatValue | include/fivis/entry.h:136-139 | succeeds exactly when the entry's own value fragment fits `vsnprintf`'s `int`, and then appends that fragment; otherwise the buffer is unchanged |
| Entries.FormatType | include/fivis/entry.h:142-145 | succeeds exactly when the entry's own type fragment fits `vsnprintf`'s `int`, and then appends that fragment; otherwise the buffer is unchanged |
| Entries.DestroyEntry | src/fivis/entry.c:96-109 | a linked entry leaves its list and nothing else changes; an unlinked one changes no list; the name becomes NULL |
| Entries.IdDigitsWrapAt2038 | src/cpumon/cpumon.c:553-558 | from 2^31 seconds on, `%011d` of the seconds as written prints a negative number, not the seconds |
| Entries.IdDigitsReadBack | src/cpumon/cpumon.c:553-558 | the id as intended is eleven digits that read back as the seconds |
| Fivis.SchemaEmpty | src/fivis/fivis.c:33 | an empty schema list appends nothing |
| Fivis.SchemaIsJoin | src/fivis/fivis.c:34-46 | the appends of `format_schema` add up to the type fragments joined by ", " |
| Fivis.FormatSchema | src/fivis/fivis.c:26-47 | walking the links appends the type fragments of the list, in order, joined by ", " |
| Fivis.DataEnds | src/fivis/fivis.c:56-79 | non-empty data opens with "\n{ " and the id fragment, and ends with " }\n" |
| Fivis.WholeRecord | src/fivis/fivis.c:56-79 | a record of one value per signal plus the id closes with " }," when values follow and with " }\n" when none do |
| Fivis.FormatData | src/fivis/fivis.c:50-81 | the loop appends the data text of all remaining values and leaves the cursor exhausted |
| Fivis.RequestIsText | src/fivis/fivis.c:91-109 | the appends of the request add up to the request text after the existing contents |
| Fivis.FormatRequest | src/fivis/fivis.c:84-110 | the request is appended to the buffer without clearing it, and the result is the buffer's string |
| Fivis.SchemaOnlyInserts | src/fivis/fivis.c:96-100 | a schema inserts exactly the schema block between the header and the data; without one there is none |
| Fivis.NoCallbackNoData | src/fivis/fivis.c:102-106 | without `next_value` the data member is `[]` |
| Fivis.RequestOpens | src/fivis/fivis.c:91-94 | every request opens with `{`; when each id member fits `vsnprintf`'s `int`, the partner and signal set ids follow |
| Fivis.RequestCloses | src/fivis/fivis.c:106-108 | every request ends with `\n}\n` |
| Fivis.ClassifyCases | src/fivis/fivis.c:312-348 | request error exactly when an option cannot be set; network error exactly for the resolve and connect failures; server error for an HTTP error; general error for any other failure; location error for a 3xx; otherwise OK |
| ProcStat.CpuCount | src/cpumon/cpumon.c:95-115 | the loop counts the leading lines that open with three characters from {c, p, u}, not followed by a fourth, and end in a newline |
| ProcStat.TimeCount | src/cpumon/cpumon.c:118-137 | the loop counts the numbers after the first "cpu " |
| ProcStat.ParseTimes | src/cpumon/cpumon.c:140-181 | writes at most `count` values into consecutive slots, returns how many, and leaves the other slots alone |
| ProcStatRows.ParseWellFormed | src/cpumon/cpumon.c:140-181 | on well-formed text the values are the columns of all cpu lines, row after row, cut at `count` |
| ProcStatRows.CpuLinesWellFormed | src/cpumon/cpumon.c:95-115 | on well-formed text the cpu count is the number of cpu lines |
| ProcStatRows.TimeColumnsWellFormed | src/cpumon/cpumon.c:118-137 | on well-formed text the time count is the number of columns of the summary line |
| ProcStatRows.SampleAccepted | src/cpumon/cpumon.c:408-417 | with every line as wide as the summary line, the parse returns exactly the expected count |
| Signals.CreateTimeSignals | src/cpumon/cpumon.c:216-243 | the signals of every cpu line and time column are appended in row-major order |
| Signals.SignalAt | src/cpumon/cpumon.c:230-243 | the signal at position c·T + t is a double entry named "<cpu c>_<time t>" |
| Signals.CpuNameDigits | src/cpumon/cpumon.c:184-188 | cpu 0 is "cpu"; cpu i > 0 is "cpu" and the decimal of i - 1 |
| Signals.TimeNameDigits | src/cpumon/cpumon.c:191-203 | time columns past the ten known names are "time" and the decimal of the index |
| Signals.SignalNamesDistinct | src/cpumon/cpumon.c:184-243 | no two signals share a name |
| Samples.Compare | src/cpumon/cpumon.c:268-282 | returns -1, 0 or 1; 0 exactly when both fields are equal; negative exactly when (sec, nsec) is lexicographically smaller |
| Samples.CompareAntisymmetric | src/cpumon/cpumon.c:268-282 | swapping the arguments negates the result |
| Samples.CopyFrom | src/cpumon/cpumon.c:293-297 | the first `count` values are copied and the rest are untouched |
| Samples.DiffUnsigned | src/cpumon/cpumon.c:299-304 | `dst[i] := (dst[i] - src[i]) mod 2^64` for i < count; nothing else changes |
| Samples.ZeroTimes | src/cpumon/cpumon.c:306-310 | the first `count` values become 0 |
| Samples.DeltaRestores | src/cpumon/cpumon.c:299-304 | adding back what was subtracted restores the reading modulo 2^64 |
| Samples.DeltaFromZeros | src/cpumon/cpumon.c:337-339 | the first delta, taken against the zeroed last sample, is the reading itself |
| Samples.Telescope | src/cpumon/cpumon.c:424-429 | the published deltas add up to the latest reading modulo 2^64 |
| SamplePool.Pool.constructor | src/cpumon/cpumon.c:630-633 | 300 samples are allocated into `empty`, in order |
| SamplePool.Pool.Acquire | src/cpumon/cpumon.c:377-397 | takes the first empty sample; with none, waits and changes nothing |
| SamplePool.Pool.Wake | src/cpumon/cpumon.c:380-389 | a stop seen in the wait exits without touching `empty` |
| SamplePool.Pool.Publish | src/cpumon/cpumon.c:438-442 | the held sample goes to the end of `full` |
| SamplePool.Pool.Drain | src/cpumon/cpumon.c:665-668 | all of `full` moves to the end of the batch, in order, and `full` ends empty |
| SamplePool.Pool.Recycle | src/cpumon/cpumon.c:742-745 | the batch moves to the end of `empty`, in order, and the batch ends empty |
| SamplePool.Conservation | src/cpumon/cpumon.c:630-633 | the four places hold 300 samples between them, each sample exactly once |
| Producer.Cpumon.constructor | src/cpumon/cpumon.c:334-339 | the loop starts at time 0 from a zeroed last sample |
| Producer.Cpumon.Cycle | src/cpumon/cpumon.c:344-443 | a pass proceeds only for a clock strictly later than `last_ts` and a read of at least one byte, and then records the clock before parsing; a failed or empty read changes nothing; it keeps the held sample after a short parse; otherwise it publishes the delta against the previous reading; a pass that fills no sample changes no sample and not the batch, and the one it fills is the only sample that changes |
| Producer.Cpumon.Accept | src/cpumon/cpumon.c:369-442 | `last_ts` becomes the clock; the pass waits exactly when no sample is held and `empty` is empty, and then changes no sample, no list and not the batch |
| Producer.Cpumon.Proceed | src/cpumon/cpumon.c:377-442 | a held sample is filled again; otherwise the first empty one is taken and filled; with none the pass waits and changes no sample, no list and not the batch |
| Producer.Cpumon.Start | src/cpumon/cpumon.c:377-397 | the first empty sample is taken and filled; with none the pass waits and changes no sample, no list and not the batch |
| Producer.Cpumon.Wake | src/cpumon/cpumon.c:380-397 | a stop ends the thread, and a wake with `empty` still empty waits again; both leave the thread's state, every sample, the four places and the batch unchanged; otherwise the pass goes on with the first empty sample and the time and text it had read |
| Producer.Cpumon.Snapshot | src/cpumon/cpumon.c:424-429 | `last_index` toggles; the other slot saves the reading, and the sample becomes the delta against the last reading |
| Producer.DeltasAddUp | src/cpumon/cpumon.c:424-442 | every published delta, summed modulo 2^64, gives the reading in the last-sample buffer |
| NextValue.FlattenLength | src/cpumon/cpumon.c:509-550 | K samples of M values yield K·(M + 2) values |
| NextValue.Exhausted | src/cpumon/cpumon.c:509-550 | once NULL is reached, or for an empty batch, every value has been served |
| NextValue.State.Next | src/cpumon/cpumon.c:509-550 | each call yields the next of id, ts and the time values of each sample, in list order; after the last one, NULL on every call |
| Publisher.WaitCases | src/cpumon/cpumon.c:716-731 | the wait drops the batch exactly at the first count of at most 30 among its four, and resends when all four are above |
| Publisher.SentExactly | src/cpumon/cpumon.c:702-732 | the batch goes out at send n exactly when send n returns OK, every earlier send failed, and every count of every earlier wait was above 30 |
| Publisher.DroppedAt | src/cpumon/cpumon.c:702-732 | a drop at count c after send n means every send failed, count c was at most 30, and every earlier count was above it |
| Publisher.PerformWithRetry | src/cpumon/cpumon.c:702-732 | the nested loops reach the verdict of the retry policy |
| Publisher.Flusher.Flush | src/cpumon/cpumon.c:658-747 | the full samples become the batch; the request carries the schema block only while no request has succeeded; a success clears the schema; whether sent or dropped, the batch returns to the end of `empty` |
| Publisher.SchemaOnce | src/cpumon/cpumon.c:686-712 | a request carries the schema block exactly when no earlier request succeeded |

## Left out

- Threads, the mutex and the condition variable: each locked region is one
  atomic method of `SamplePool.Pool`. Interleavings are not modelled.
- Sleeping and the clocks (`nanosleep_secs`, `clock_gettime`,
  `clock_nanosleep`): the clock reading of a pass is an input. So are the
  results of the sends and the empty counts, in the order the loops meet
  them.
- `convert_times_to_percentages` and the `%f` of
  `entry_format_double_value`: floating point. The converted values of each
  sample are an input to `Publisher.Flusher.Flush`, and `%f` is a function
  in `Entries.Env`.
- `gmtime_r` is an uninterpreted function in `Entries.Env`.
- The curl plumbing of `fivis.c` (`fivis_init`, headers, URL, global
  init/cleanup, `last_error`): only the classification of the curl codes is
  kept, over an abstract `CurlCode`.
- `procfile.c`: the readers take the text of `/proc/stat` as a string, and a
  failed read is `None`.
  The text holds no NUL byte, as `/proc/stat` does not: the C library
  scans stop at the first NUL, and the model's scans stop only at the end
  of the string.
- The `vsnprintf` engine: the formatted text is an input string.
- `StringBuffer.SBuf.Format`: memory allocation is taken to succeed. When
  realloc keeps failing, the C loop spins forever.
- `StringBuffer.SBuf.Format`: `next + |text| + 64` must stay below 2^64. The
  wrap of `next + capacity` in size_t is not modelled there.
- `StringBuffer.SBuf.Append`: requires `next + |str| + 64` below 2^64, the
  size_t range, which no buffer in memory reaches.
- `Entries.FormatValue`: requires the buffer plus the fragment to stay below
  2^64 bytes, the size_t range. A fragment longer than `INT_MAX` is a
  modelled failure.
- `Entries.FormatType`: the same size_t bound as `Entries.FormatValue`.
- `Fivis.FormatSchema`: requires the whole schema text to stay below 2^64
  bytes, and each type fragment to fit in an `int`. The C asserts the
  latter (src/fivis/fivis.c:36 and 43).
- `Fivis.FormatData`: requires the data text to stay below 2^64 bytes. A
  value fragment longer than `INT_MAX` is appended as nothing, as
  `sbuf_format` does.
- `Fivis.FormatRequest`: requires the request text to stay below 2^64 bytes,
  and each schema type fragment to fit in an `int`, as `format_schema`
  asserts.
- `Entries.Generic`: the entry's `link` is not part of the value. The C sets
  it to point at the local copy inside `entry_generic`, which dangles once
  the struct is returned. In the model each entry's node starts
  self-linked. cpumon never reads the stale pointers: every entry it
  destroys was added to a list first, which overwrites them, and the
  unlinked `id` entry is never destroyed.
- `Entries.ValueOnly`: the id entry prints the seconds as intended, eleven
  digits (`Entries.IdDigits`). From 2^31 seconds on, the C's `%011d` prints
  a negative number instead (`Entries.IdDigitsAsWritten`). So
  `Entries.FormatValue`, `Fivis.FormatData`, `Fivis.FormatRequest` and
  `Publisher.Flusher.Flush` carry the corrected id text from then on.
- `Entries.ValueOnly`: a formatter handed a value of another kind prints
  nothing here. The C would read another member of the union.
- `collect_strings` and `free_strings`: only the names they produce are
  modelled (`Signals.CollectStrings`). Allocation failure is not modelled.
- Malformed `/proc/stat` text: `ProcStat.ParseTimes` proves the bound and
  the consecutive writes on any text. Exact results are proved only on text
  laid out as the kernel writes it (`ProcStatRows`).
- `list_walk`, the `list_for_each*` macros and `list_alloc`: the walks are
  the loops of `Size`, `Find` and the serialiser. Allocation is not modelled.
- Nodes are indexes into the arena, and an entry's link is its node. The
  `container_of` pointer arithmetic is not modelled.
- `NextValue.State.Next`: the callback reads a snapshot of the batch (the
  converted samples in list order), not the linked sample structures
  themselves.
- `Publisher.Flusher.Flush`: the request is stated by `Fivis.RequestText`,
  whose link to the buffer appends is proved by `Fivis.FormatRequest`.
  Flush does not itself drive `FormatRequest` through the callback.
- `Publisher.Publish`: a send sequence that runs out of inputs ends in
  `Retrying`. The C loop would go on sending.
- The `while (!cpumon_stop)` test at the top of the sampling loop: a stop is
  modelled only in the wait for an empty sample (`Producer.Cpumon.Wake`).
- `mksigset`, the logging, error and debug helpers, and the `config.h`
  constants.

## Findings

| source | as written | input that shows it | evidently intended | confidence | as-written member | corrected member |
|---|---|---|---|---|---|---|
| src/cpumon/cpumon.c:557 | `%011d` is given the 64-bit `tv_sec`, so `printf` reads only its low 32 bits as an `int` | `tv_sec` = 2147483648 (2038-01-19T03:14:08Z) prints `-2147483648` | the seconds as eleven digits, `02147483648` | not executed; on x86-64 the low 32 bits are read, and C leaves it undefined | Entries.IdDigitsWrapAt2038 | Entries.IdDigitsReadBack |
