# Coverage blocks and the fragment depth map

This project models the intron-coverage core of NxtIRFcore,
`src/ReadBlockProcessor_CoverageBlocks.cpp`, in Dafny and proves properties of
that model.

The core has two parts.

- **`FragmentsMap`** collects the aligned blocks of every fragment as `+1`/`-1`
  depth events. There are three classes of track per chromosome: forward strand,
  reverse strand and both strands together.
  - It compacts the events into sorted partial sums every million fragments.
  - On request it finalises each track into a run list: `(position, depth)`
    pairs whose depth holds up to the next pair.
  - From the finalised tracks it answers two queries:
    - a depth histogram over an interval (`updateCoverageHist`);
    - the intervals whose depth is at most a threshold (the mappability
      exclusions, `WriteOutput`).
- **`CoverageBlocks`** loads a reference of BED12 records (`loadRef`).
  - Introns are the records whose name starts with `dir/` or `nd/`.
  - For each intron, `CoverageBlocksIRFinder::WriteOutput` produces one report
    row with these columns:
    - depth statistics from a histogram of the fragment map over the record's
      blocks (coverage, trimmed mean, percentiles);
    - the same statistics over 50-base flanks;
    - junction and span counts at the intron's ends;
    - the intron-retention ratio;
    - a warning.
  - It also produces three totals of intron depth by cleanliness class.
  - The records are cut into one contiguous shard per worker thread.

## Modules, one file each

| file | module | what it holds |
|---|---|---|
| `wrappers.dfy` | `Wrappers` | `Option` |
| `unsigned.dfy` | `Unsigned` | `U32`: conversion to `unsigned int` (modulo 2^32) |
| `streams.dfy` | `Streams` | `std::istringstream`, `getline`, `ignore`, `stoul`/`stol` |
| `chromosomes.dfy` | `Chromosomes` | `chr_entry` and the `find_if` lookup by name |
| `tracks.dfy` | `Tracks` | See below. |
| `histograms.dfy` | `Histograms` | `std::map<unsigned,unsigned>`: a strictly ascending sequence of buckets |
| `hist_stats.dfy` | `HistStats` | mean, coverage, percentile and trimmed mean of a histogram |
| `fragments_map.dfy` | `FragmentsMaps` | class `FragmentsMap` |
| `bed_records.dfy` | `BedRecords` | `loadRef`'s line reader |
| `coverage_blocks.dfy` | `CoverageBlocks` | class `CoverageBlocks`, name parsing, statistics per intron, sharding, totals |

`tracks.dfy` (module `Tracks`) holds:

- depth events;
- the depth function of a list of events;
- run lists;
- the `std::sort` model;
- the two collapse loops.

### How the model is structured

Each statistic and each collapse loop has two forms:

- a specification function that says what the result means;
- a method with the source's loop, proved equal to that function.

Each class keeps the source's fields, and its methods state the new state.

Depths are stated through one function of an event list: `DepthAt(es, p)` is the
sum of the values of the events at or before `p`.

- A compacted track has the same depth function as the events it replaced.
- A finalised track is the unique run list of its events' depth function.

Every later result is stated in these terms: histograms, exclusion intervals and
report rows.

### Observable behaviour the model keeps

- **Unknown chromosome.** When `refID` is past the last track, a histogram query
  inserts only an empty depth-0 bucket. So the trimmed mean and the coverage of
  such an intron are NaN (`None`).
- **End of the run list.** When `upper_bound` finds no run after `start`, every
  base of the interval is counted at depth 0, even if the last run's depth is
  not 0.
- **Bases before the first run.** These are counted at the first run's depth.
- **Negative depth.** The `(unsigned int)depth` cast is taken modulo 2^32.
- **Reversed interval.** For `start > end`, `end - start` wraps.
- **Name-parsing buffers.** Name parsing reuses buffers: when the name has too
  few `/` fields, a failed `getline` leaves the previous field's text in its
  buffer.
  - Example: `intronEnd` is then parsed from the same text as `intronStart`.
  - An empty numeric field makes `stol` throw. The row is skipped.
- **Chromosome cache.** A worker's chromosome cache starts at the empty name
  with `refID` 0.
  - Records with an empty chromosome name that come before the first named
    record of a shard therefore use track 0.
  - After a named record, an empty name is looked up like any other. No entry
    has it, so it gets `refID` equal to the number of chromosomes.
- **Record coordinates.** `loadRef` stores a record's start and end and every
  block's `start + offset` and `start + offset + length` in `unsigned int`.
  They are taken modulo 2^32.
- **Empty reference.** `loadRef` fails on an empty input: `stoul` reads the
  empty buffer and throws.
- **Unterminated last line.** `loadRef` drops a last line that has no newline.
- **Combining maps.** `Combine` of two maps where only one is finalised merges
  nothing.
- **Finalising after a combine.** After two finalised maps are combined,
  finalising again rebuilds every track from the (empty) pending events. Every
  track becomes `[(0, 0)]`.

## Model

| member | source | states |
|---|---|---|
| Unsigned.U32Mod | src/ReadBlockProcessor_CoverageBlocks.cpp:314-319 | storing a `long` into an `unsigned int` keeps its value modulo 2^32 |
| Streams.GetLinePrefix | src/ReadBlockProcessor_CoverageBlocks.cpp:55 | `getline` with a delimiter yields the text before the first delimiter and resumes just after it |
| Streams.GetLineAbsent | src/ReadBlockProcessor_CoverageBlocks.cpp:78 | `getline` on text without the delimiter yields all of it and leaves the stream at its end |
| Streams.GetLineFailed | src/ReadBlockProcessor_CoverageBlocks.cpp:315-320 | `getline` on an exhausted stream leaves the buffer as it was (the stale-buffer behaviour) |
| Streams.ReadFieldsJoin | src/ReadBlockProcessor_CoverageBlocks.cpp:306-320 | a sequence of `getline`/`ignore` reads over fields joined by a delimiter delivers exactly those fields in order |
| Streams.ReadFieldsFailed | src/ReadBlockProcessor_CoverageBlocks.cpp:306-320 | once the stream is exhausted every further read keeps its buffer's earlier text |
| Streams.StoulShow | src/ReadBlockProcessor_CoverageBlocks.cpp:57 | `stoul` of a decimal numeral no larger than `ULONG_MAX` gives back its value |
| Streams.StolShow | src/ReadBlockProcessor_CoverageBlocks.cpp:314 | `stol` of a decimal numeral no larger than `LONG_MAX` gives back its value |
| Streams.StoulEmpty | src/ReadBlockProcessor_CoverageBlocks.cpp:314 | `stoul` and `stol` of empty text fail (they throw `invalid_argument`) |
| Chromosomes.FirstNamed | src/ReadBlockProcessor_CoverageBlocks.cpp:327-328 | `find_if` returns the first entry with the name, every entry before it has another name, and the end when there is none |
| Chromosomes.LookupRefID | src/ReadBlockProcessor_CoverageBlocks.cpp:327-333 | the reference index of the first entry named so, or the number of entries when no entry has the name |
| Tracks.DepthAtAppend | src/ReadBlockProcessor_CoverageBlocks.cpp:522-527 | depth at a position is additive over concatenated event lists |
| Tracks.DepthAtPermutation | src/ReadBlockProcessor_CoverageBlocks.cpp:543-546 | reordering events (as `std::sort` does) leaves the depth at every position unchanged |
| Tracks.Sort | src/ReadBlockProcessor_CoverageBlocks.cpp:543-546 | the sorted events are ordered by position then value and are a permutation of the input |
| Tracks.SortSameDepth | src/ReadBlockProcessor_CoverageBlocks.cpp:543-546 | the sorted list has the same depth function as the input |
| Tracks.CollapseSorted | src/ReadBlockProcessor_CoverageBlocks.cpp:548-560 | summing equal positions (dropping zero sums except the last) yields strictly increasing positions with the same depth everywhere |
| Tracks.CompactTrack | src/ReadBlockProcessor_CoverageBlocks.cpp:540-566 | the pending list keeps its prefix and gains a collapse of the temporary events, which are cleared; an empty temporary list changes nothing |
| Tracks.FinalizeTrack | src/ReadBlockProcessor_CoverageBlocks.cpp:585-622 | the sweep yields the run list of the pending events: a list of depth changes, starting at 0, whose depth at every position is the events' depth |
| Tracks.RunListsUnique | src/ReadBlockProcessor_CoverageBlocks.cpp:600-621 | two run lists with the same depth at every position are equal |
| Tracks.FinalRunsDetermined | src/ReadBlockProcessor_CoverageBlocks.cpp:573-628 | finalised tracks of event lists with equal depth functions are equal |
| Tracks.FinalRunsOrderFree | src/ReadBlockProcessor_CoverageBlocks.cpp:573-628 | the finalised track does not depend on the order in which events were collected |
| Tracks.RunValueIsDepth | src/ReadBlockProcessor_CoverageBlocks.cpp:603-620 | every run's value is the events' depth at the run's position |
| Histograms.AddCount | src/ReadBlockProcessor_CoverageBlocks.cpp:671 | `hist[d] += n` keeps the keys strictly ascending, and the least key is the smaller of the old least key and `d` |
| Histograms.AddCountKeys | src/ReadBlockProcessor_CoverageBlocks.cpp:684-687 | after `hist[d] += n` the keys are the old keys plus `d` |
| Histograms.AddCountCounts | src/ReadBlockProcessor_CoverageBlocks.cpp:684-687 | `hist[d] += n` adds `n` to the count at `d` and leaves every other count as it was |
| Histograms.AddCountTotal | src/ReadBlockProcessor_CoverageBlocks.cpp:684-687 | `hist[d] += n` adds `n` to the number of bases counted |
| Histograms.HistExtensional | src/ReadBlockProcessor_CoverageBlocks.cpp:345 | two maps with the same keys and the same counts are the same map |
| Histograms.AddCountMerges | src/ReadBlockProcessor_CoverageBlocks.cpp:655 | two additions at one depth are one addition of their sum (so repeated `insert({0,0})` is idempotent) |
| Histograms.AddCountCommutes | src/ReadBlockProcessor_CoverageBlocks.cpp:117-119 | additions at two depths commute, so the histogram does not depend on the order blocks are visited |
| HistStats.MeanFromHist | src/ReadBlockProcessor_CoverageBlocks.cpp:132-141 | the loop returns the mean depth of the counted bases, NaN when none is counted |
| HistStats.MeanBetween | src/ReadBlockProcessor_CoverageBlocks.cpp:132-141 | the mean lies between the least and greatest depth present |
| HistStats.MeanAsWrittenWraps | src/ReadBlockProcessor_CoverageBlocks.cpp:137 | with the 32-bit product as written, 65536 bases at depth 65536 report a mean of 0 instead of 65536 |
| HistStats.CoverageFromHist | src/ReadBlockProcessor_CoverageBlocks.cpp:143-152 | the loop returns the fraction of bases with non-zero depth, 1 when depth 0 is absent, NaN when depth 0 is present but nothing is counted |
| HistStats.CoverageBounds | src/ReadBlockProcessor_CoverageBlocks.cpp:143-152 | coverage of a non-empty histogram is in [0, 1] and is 1 exactly when no base has depth 0 |
| HistStats.PercentileFromHist | src/ReadBlockProcessor_CoverageBlocks.cpp:155-179 | the two loops return the percentile defined on the bases in depth order (rank `floor((size+1)·p/100)`, interpolated by the fraction) |
| HistStats.PercentileAtInterpolates | src/ReadBlockProcessor_CoverageBlocks.cpp:167-175 | for a rank inside the histogram the result interpolates between the depths of the bases at ranks `idx-1` and `idx` |
| HistStats.PercentileBeyond | src/ReadBlockProcessor_CoverageBlocks.cpp:178 | a rank past the last base gives NaN |
| HistStats.SumCounts | src/ReadBlockProcessor_CoverageBlocks.cpp:156-159 | the loop returns the number of bases counted |
| HistStats.SkipBound | src/ReadBlockProcessor_CoverageBlocks.cpp:187-188 | the bases skipped at both ends never exceed the histogram's size |
| HistStats.TrimmedMeanFromHist | src/ReadBlockProcessor_CoverageBlocks.cpp:181-215 | the loop returns the mean depth of the bases ranked in `[skip, size-skip)` (or the depth at rank `skip` when that window is empty, NaN for an empty map) |
| HistStats.TrimmedMeanWithOneBucket | src/ReadBlockProcessor_CoverageBlocks.cpp:194-201 | when one bucket spans the whole kept window the trimmed mean is that bucket's depth |
| HistStats.TrimmedMeanBetween | src/ReadBlockProcessor_CoverageBlocks.cpp:181-215 | the trimmed mean is a number exactly when some base is counted, and then lies between the least and greatest depth present |
| HistStats.TrimmedMeanAsWrittenWraps | src/ReadBlockProcessor_CoverageBlocks.cpp:198-210 | with the 32-bit products as written, 262144 bases at depth 0 and 393216 at depth 65536 report a trimmed mean of 0 instead of 49152 |
| HistStats.TrimmedMeanAll | src/ReadBlockProcessor_CoverageBlocks.cpp:181-215 | keeping 100 percent makes the trimmed mean the plain mean |
| HistStats.TrimmedMeanExample | src/ReadBlockProcessor_CoverageBlocks.cpp:181-215 | the central half of 10 bases at depth 1, 80 at 2 and 10 at 3 has trimmed mean 2 |
| FragmentsMaps.FragmentDepth | src/ReadBlockProcessor_CoverageBlocks.cpp:517-529 | the events a fragment adds raise the depth at a position by the number of its blocks covering that position and sum to zero |
| FragmentsMaps.UpperBound | src/ReadBlockProcessor_CoverageBlocks.cpp:660-667 | the search returns the first run whose position is after `start` |
| FragmentsMaps.CoverageHist | src/ReadBlockProcessor_CoverageBlocks.cpp:652-691 | the histogram stays ascending and, for `start <= end < 2^32`, gains exactly `end - start` bases |
| FragmentsMaps.AddRunCoverage | src/ReadBlockProcessor_CoverageBlocks.cpp:659-690 | the `upper_bound` walk adds to the histogram what the specification adds |
| FragmentsMaps.CoverageCountsDepths | src/ReadBlockProcessor_CoverageBlocks.cpp:652-691 | over a finalised track, every base of `[start, end)` is counted once at its depth (modulo 2^32) |
| FragmentsMaps.LowCoverIntervalsExact | src/ReadBlockProcessor_CoverageBlocks.cpp:758-785 | a position below the chromosome length is in an excluded interval exactly when its depth is at most the threshold |
| FragmentsMaps.LowCoverScan | src/ReadBlockProcessor_CoverageBlocks.cpp:758-785 | the scan over a run list writes the specified intervals |
| FragmentsMaps.ExclusionScan | src/ReadBlockProcessor_CoverageBlocks.cpp:754-787 | the loop over chromosomes writes each chromosome's intervals, named, in registry order |
| FragmentsMaps.StampMore | src/ReadBlockProcessor_CoverageBlocks.cpp:518-528 | adding a fragment's events block by block equals adding them all at once to its strand track and to the combined track |
| FragmentsMaps.StampFragment | src/ReadBlockProcessor_CoverageBlocks.cpp:518-529 | a fragment's events are appended to its strand's track and to the combined track of its chromosome, and nowhere else |
| FragmentsMaps.CompactAll | src/ReadBlockProcessor_CoverageBlocks.cpp:536-571 | every track is compacted: pending keeps its prefix and gains a collapse of the temporary events, which are cleared |
| FragmentsMaps.CompactedDepth | src/ReadBlockProcessor_CoverageBlocks.cpp:536-571 | compaction leaves the depth function of pending plus temporary events unchanged |
| FragmentsMaps.MergedDepth | src/ReadBlockProcessor_CoverageBlocks.cpp:633-639 | merging two compacted maps adds their depth functions |
| FragmentsMaps.FinaliseAll | src/ReadBlockProcessor_CoverageBlocks.cpp:581-624 | every final track becomes the run list of its pending events and pending is cleared |
| FragmentsMaps.RunsOfNothing | src/ReadBlockProcessor_CoverageBlocks.cpp:618 | finalising no events gives the single run `(0, 0)` |
| FragmentsMaps.AppendTracks | src/ReadBlockProcessor_CoverageBlocks.cpp:634-646 | every track of the result is the first map's track followed by the second's |
| FragmentsMaps.ExampleFinalRuns | src/ReadBlockProcessor_CoverageBlocks.cpp:573-628 | fragments `[100,200)` and `[150,250)` finalise to runs 0, 1 at 100, 2 at 150, 1 at 200, 0 at 250 |
| FragmentsMaps.ExampleCoverage | src/ReadBlockProcessor_CoverageBlocks.cpp:652-691 | over those runs, `[100,250)` counts 100 bases at depth 1 and 50 at depth 2, mean 4/3 |
| FragmentsMaps.FragmentsMap.constructor | src/ReadBlockProcessor_CoverageBlocks.cpp:498-515 | a new map has no chromosomes, no tracks and no fragments and is not finalised |
| FragmentsMaps.FragmentsMap.ChrMapUpdate | src/ReadBlockProcessor_CoverageBlocks.cpp:498-515 | for a map whose registry is still empty, as it is on a newly constructed map, every track of the three classes is reset to the single pair `(0, 0)`, one per chromosome, and the registry becomes the given one |
| FragmentsMaps.FragmentsMap.ProcessBlocks | src/ReadBlockProcessor_CoverageBlocks.cpp:517-534 | the fragment's events are stamped onto the temporary tracks, the counter grows by one and every millionth fragment compacts |
| FragmentsMaps.FragmentsMap.SortAndCollapseTemp | src/ReadBlockProcessor_CoverageBlocks.cpp:536-571 | every pending/temporary pair is compacted, and nothing else changes |
| FragmentsMaps.FragmentsMap.SortAndCollapseFinal | src/ReadBlockProcessor_CoverageBlocks.cpp:573-628 | when not yet finalised, every final track becomes the run list of all events collected and the pending and temporary lists are emptied; otherwise nothing changes |
| FragmentsMaps.FragmentsMap.Combine | src/ReadBlockProcessor_CoverageBlocks.cpp:630-649 | both maps compact; two unfinalised maps merge pending events, two finalised maps concatenate final tracks and drop the finalised flag, mixed states merge nothing |
| FragmentsMaps.FragmentsMap.UpdateCoverageHist | src/ReadBlockProcessor_CoverageBlocks.cpp:652-691 | an unknown chromosome inserts only an empty depth-0 bucket; otherwise the result is the specified coverage histogram of the finalised track |
| FragmentsMaps.FragmentsMap.WriteMappability | src/ReadBlockProcessor_CoverageBlocks.cpp:725-789 | finalises when needed, then writes, per chromosome in registry order, exactly the intervals whose combined depth is at most the threshold |
| BedRecords.ReadBlockList | src/ReadBlockProcessor_CoverageBlocks.cpp:85-94 | the loop reads the block offsets and lengths as the specification does |
| BedRecords.ParseReference | src/ReadBlockProcessor_CoverageBlocks.cpp:27-99 | the line loop returns the records and the success flag of the specified reading |
| BedRecords.WrittenBlocks | src/ReadBlockProcessor_CoverageBlocks.cpp:85-94 | comma-separated offsets and lengths read back as blocks `[start+offset, start+offset+length)` |
| BedRecords.ReadHeadText | src/ReadBlockProcessor_CoverageBlocks.cpp:55-71 | a well-formed line's twelve columns read back as its chromosome, start, end, name, strand, block count and lengths |
| BedRecords.LoadLine | src/ReadBlockProcessor_CoverageBlocks.cpp:48-96 | a well-formed line followed by a newline loads as its record, then the rest is read |
| BedRecords.LoadFile | src/ReadBlockProcessor_CoverageBlocks.cpp:27-99 | a file of newline-terminated well-formed lines loads as exactly their records, in order, and fails only when empty |
| BedRecords.LoadEmpty | src/ReadBlockProcessor_CoverageBlocks.cpp:56-57 | an empty input loads nothing and succeeds only if the stale number buffer still parses |
| BedRecords.LoadDropsUnterminated | src/ReadBlockProcessor_CoverageBlocks.cpp:73-77 | a last line without a newline is read but not stored |
| CoverageBlocks.ParseNameText | src/ReadBlockProcessor_CoverageBlocks.cpp:306-320 | a `/`-separated name yields gene name (field 1), id (field 2), intron start and end (fields 5 and 6), excluded bases (field 8) and tag (field 9), the numbers modulo 2^32 |
| CoverageBlocks.ParseNameRefuses | src/ReadBlockProcessor_CoverageBlocks.cpp:314 | an empty intron-start field makes parsing fail (the record is skipped) |
| CoverageBlocks.TrackOf | src/ReadBlockProcessor_CoverageBlocks.cpp:346-350 | a track class below 3, and the combined class exactly for non-directional runs |
| CoverageBlocks.LookupStrand | src/ReadBlockProcessor_CoverageBlocks.cpp:377-413 | the strand-free lookups are used exactly for non-directional runs |
| CoverageBlocks.MeasuredTrack | src/ReadBlockProcessor_CoverageBlocks.cpp:339-350 | reverse-stranded runs measure the opposite strand's track, forward-stranded runs the record's own |
| CoverageBlocks.CoverageBlocks.FillHist | src/ReadBlockProcessor_CoverageBlocks.cpp:113-129 | the loop over blocks builds the specified histogram of the chosen track |
| CoverageBlocks.BlocksHistTotal | src/ReadBlockProcessor_CoverageBlocks.cpp:113-129 | for a known chromosome the histogram counts every base of every block once |
| CoverageBlocks.BlocksHistUnknown | src/ReadBlockProcessor_CoverageBlocks.cpp:654-656 | for an unknown chromosome the histogram is a single empty depth-0 bucket |
| CoverageBlocks.UnknownChromosomeStats | src/ReadBlockProcessor_CoverageBlocks.cpp:351-352 | an intron on an unknown chromosome reports NaN depth and NaN coverage |
| CoverageBlocks.IRRatioBounds | src/ReadBlockProcessor_CoverageBlocks.cpp:414-420 | the retention ratio is in [0, 1], is 1 only without junction reads and is positive once the depth is at least 1 |
| CoverageBlocks.WarningMeaning | src/ReadBlockProcessor_CoverageBlocks.cpp:435-447 | LowCover exactly when depth plus exact splices is below 10; LowSplicing implies fewer than 4 exact splices (and depth at least 7 when it is a number); MinorIsoform implies at least 4 exact splices and an end with at least 6; the last two imply the exact splices are not a minor part, and no warning implies the larger span count is close to the depth |
| CoverageBlocks.StatsNonneg | src/ReadBlockProcessor_CoverageBlocks.cpp:351-352 | depth is never negative and coverage is in [0, 1] |
| CoverageBlocks.ScoreRatio | src/ReadBlockProcessor_CoverageBlocks.cpp:345-447 | every report row's retention ratio is in [0, 1], is 1 only without junction reads at either end, and is positive when the row's depth is at least 1 |
| CoverageBlocks.CoverageBlocks.ScoreRecord | src/ReadBlockProcessor_CoverageBlocks.cpp:339-447 | the statements for one intron compute the specified row |
| CoverageBlocks.ResolveLooksUp | src/ReadBlockProcessor_CoverageBlocks.cpp:325-334 | with a non-empty chromosome name the per-worker cache yields the registry's lookup and stays consistent |
| CoverageBlocks.ResolveEmptyName | src/ReadBlockProcessor_CoverageBlocks.cpp:281-282 | a record with an empty chromosome name at the start of a shard uses reference 0 |
| CoverageBlocks.ScanShardRows | src/ReadBlockProcessor_CoverageBlocks.cpp:284-465 | when every chromosome name is non-empty, a shard scanned with the cache gives the rows computed without it |
| CoverageBlocks.AllRowsAppend | src/ReadBlockProcessor_CoverageBlocks.cpp:284-465 | the rows of concatenated records are the concatenation of their rows |
| CoverageBlocks.JobsCover | src/ReadBlockProcessor_CoverageBlocks.cpp:274 | `n_threads` shards of `1 + size/n_threads` records cover all records |
| CoverageBlocks.ShardIndex | src/ReadBlockProcessor_CoverageBlocks.cpp:280-284 | every record falls in exactly one worker's shard, the one of index `j / n_jobs` |
| CoverageBlocks.ShardedPrefix | src/ReadBlockProcessor_CoverageBlocks.cpp:487-490 | the rows of the first `i` shards are the rows of the first `i·n_jobs` records |
| CoverageBlocks.ShardedAsOne | src/ReadBlockProcessor_CoverageBlocks.cpp:487-490 | concatenating all shards' rows in worker order gives the rows of a single pass over all records |
| CoverageBlocks.TotalsAppend | src/ReadBlockProcessor_CoverageBlocks.cpp:360-375 | the depth totals of concatenated rows are the sums of their totals |
| CoverageBlocks.TotalsOrderFree | src/ReadBlockProcessor_CoverageBlocks.cpp:360-375 | the totals do not depend on the order workers add to them |
| CoverageBlocks.TotalsNoAntisense | src/ReadBlockProcessor_CoverageBlocks.cpp:370-375 | directional runs never add to the anti-sense total |
| CoverageBlocks.OutputNone | src/ReadBlockProcessor_CoverageBlocks.cpp:256 | fewer than one thread produces no report |
| CoverageBlocks.CoverageBlocks.constructor | src/ReadBlockProcessor_CoverageBlocks.cpp:27 | a new reference has no records and no chromosomes |
| CoverageBlocks.CoverageBlocks.LoadRef | src/ReadBlockProcessor_CoverageBlocks.cpp:27-99 | the file's records are appended to the stored ones, the result is the reading's success, the chromosome registry is unchanged |
| CoverageBlocks.CoverageBlocks.ChrMapUpdate | src/ReadBlockProcessor_CoverageBlocks.cpp:101-105 | the given chromosomes are appended to the registry and the records are unchanged |
| CoverageBlocks.CoverageBlocks.ScanRecord | src/ReadBlockProcessor_CoverageBlocks.cpp:287-462 | one record: skipped unless selected, skipped when its name does not parse, otherwise the specified row, with the cache updated |
| CoverageBlocks.CoverageBlocks.ScanWorker | src/ReadBlockProcessor_CoverageBlocks.cpp:280-465 | worker `i` emits the rows of its shard and adds their depths to the running totals |
| CoverageBlocks.CoverageBlocks.WriteOutput | src/ReadBlockProcessor_CoverageBlocks.cpp:252-495 | the report is none for fewer than one thread, and otherwise the shards' rows in worker order with the totals of those rows |

## Left out

- OpenMP. Workers are run one after another in index order.
  - The rows and the totals are proved not to depend on that order:
    ShardedAsOne, TotalsOrderFree and AddCountCommutes.
  - Threads are not modelled.
- Text rendering of the report and of the exclusions: tab layout, the column
  headers, the QC lines, and number formatting by `ostream`.
  - The model returns the values written, as `Row`, `Totals` and `Exclusion`.
- `FragmentsMap::WriteBinary` (the COV writer). It is a binary file format
  written through a separate writer class, and that class is not part of this
  model.
- Junction and span counts. `JunctionCount` and `SpansPoint` are not part of
  this model.
  - Their lookups are function parameters (`Lookups`) whose values are
    unbounded naturals.
- `CoverageBlocks::WriteOutput` (the debug listing of histograms).
  - It only prints.
  - `CoverageBlocks::ProcessBlocks` and `CoverageBlocksIRFinder::Combine` do
    nothing in the source.
- Progress meters and `verbose` or `debug` printing.
- Floating point is modelled as exact reals, with NaN as `None`. The constant
  1.33333333 is kept exactly.
  - IEEE rounding is not modelled. This affects the percentile fraction, the
    skip count `floor(size·(100-c)/2/100)`, sums of NaN-free totals, and the
    intron-retention ratio.
- CoverageBlocks.CoverageBlocks.WriteOutput: the shard bounds `i·n_jobs` are
  exact naturals.
  - In the source they are `unsigned int` and wrap once records plus threads
    reach 2^32.
- HistStats.TrimmedMeanFromHist: the base counts are exact naturals.
  - The source's `unsigned int` `size` and `count` wrap past 2^32 bases.
  - Its 32-bit products are recorded under "## Findings". The model uses the
    intended mean.
- HistStats.MeanFromHist: the base count is an exact natural.
  - The source's `unsigned int count` wraps past 2^32 bases.
- Histograms.AddCount: counts are exact naturals.
  - `hist[d] += n` on a `std::map<unsigned int, unsigned int>` wraps a count
    past 2^32.
- HistStats.CoverageFromHist and HistStats.PercentileFromHist: the base count
  is an exact natural.
  - The source's `unsigned int` count wraps past 2^32 bases.
- FragmentsMaps.FragmentsMap.ProcessBlocks: block coordinates are exact
  naturals. Depth values are unbounded integers, not 32-bit `int`.
- Streams: `stoul` and `stol` read base 10 with the C locale's white space.
  - Other locales are not modelled.
- FragmentsMaps.FragmentsMap.WriteMappability: requires every chromosome's
  reference index to name an existing track.
  - With any other index, the source's `.at` throws `out_of_range`, and no
    caller handles it.
- HistStats.PercentileFromHist: when interpolation needs the bucket after the
  last one, the source reads past the end of the map (undefined behaviour).
  The model returns NaN there.
- FragmentsMaps.AddRunCoverage: the source's inner walk reads `it_pos->first`
  before it tests `it_pos != end()`, which is undefined behaviour at the end of
  the run list.
  - The model stops at the end of the list. That is what the second test forces
    whenever the read does not fault.
- FragmentsMaps.FragmentsMap.ChrMapUpdate: requires the registry to be empty,
  as it is on a newly constructed map.
  - The source appends the entries to the registry on every call, while it
    resets the tracks to one per new entry.
  - After a second call the registry is longer than the tracks. The `.at(i)`
    in `sort_and_collapse_final` then throws `out_of_range`. The model does
    not cover that case.
- FragmentsMaps.FragmentsMap.ProcessBlocks: requires the fragment's chromosome
  index to be below the number of chromosomes.
  - With any other index the source's `.at(chr_id)` throws `out_of_range`.
- FragmentsMaps.FragmentsMap.Combine: requires two distinct maps, and the child
  to have at least as many chromosomes as the parent.
  - With a shorter child the source's `.at(i)` throws `out_of_range`.
  - A map combined with itself inserts a vector into itself. The model does
    not cover either case.
- FragmentsMaps.FragmentsMap.UpdateCoverageHist: requires the queried track to
  have strictly increasing positions, as every finalised track has.
  - There is one case this excludes. Two finalised maps are combined and then
    queried before they are finalised again.
  - The source then runs `upper_bound` over the concatenated, unsorted runs.
    The model does not cover that query.
- CoverageBlocks.CoverageBlocks.FillHist, CoverageBlocks.CoverageBlocks.ScoreRecord
  and CoverageBlocks.CoverageBlocks.WriteOutput: require every track of the
  fragment map to have strictly increasing positions.
  - This excludes the same query after such a combine.

## Findings

| source | as written | input that shows it | evidently intended | confidence | as-written member | corrected member |
|---|---|---|---|---|---|---|
| src/ReadBlockProcessor_CoverageBlocks.cpp:137 | `total += h.first * h.second` multiplies two `unsigned int`s, so the product wraps modulo 2^32 before it reaches the 64-bit total | 65536 bases at depth 65536 give a mean of 0 | the mean depth of the counted bases (65536 here), which is why `total` is `unsigned long long` | not executed | HistStats.MeanAsWrittenWraps | HistStats.MeanBetween |
| src/ReadBlockProcessor_CoverageBlocks.cpp:198-210 | `total += h.first * (size - skip - count)`, `h.first * h.second` and `h.first * (count + h.second - skip)` multiply two `unsigned int`s, so each product wraps modulo 2^32 before it reaches the 64-bit total; the result is the report's IntronDepth column | 262144 bases at depth 0 and 393216 at depth 65536 with the central 40 percent kept give a trimmed mean of 0 | the mean depth of the kept bases (49152 here), which lies between the least and greatest depth present | not executed | HistStats.TrimmedMeanAsWrittenWraps | HistStats.TrimmedMeanBetween |
