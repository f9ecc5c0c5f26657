# Linear back-splice reads: a Dafny model

This project models `workflow/scripts/_extract_linear_reads.py` from CHARLIE, the circular-RNA
pipeline. The script reads a BAM file of alignments, together with:

- a table of back-splice junctions (BSJs), one per line (chromosome, start, end);
- a lookup from read name to junction id;
- a regions file that sorts reference sequences into host, additive and virus regions.

It makes two passes over the alignments.

**Phase 1** is the state machine of lines 169-251. It counts:

- the reads that survive the filters;
- the spliced reads (their CIGAR has a match followed by a reference skip);
- the "linear" reads that have a junction;
- the reads spliced at their junction.

It files each linear read under its junction and writes every surviving alignment of such a
read to the main output, tagged with its junction id. It also writes the alignment to the per-region output
of the junction's host or virus region when that output is open.

**Phase 2** (lines 259-265) copies the alignments of spliced reads to one output, and those of
reads spliced at their junction to another, tagged again.

At the end the script writes one report row per junction of the table. The row holds the
number of distinct linear reads and the number of distinct spliced-at-junction reads filed
under that junction.

The model is split by the program's own structure:

| module (file) | part of the script |
|---|---|
| `Outcomes` (outcomes.dfy) | the ways the program stops: `exit` calls and uncaught exceptions |
| `Collections` (collections.dfy) | Python dict key order (`Dedup`) and sums over dict values |
| `Decimal` (decimal.dfy) | `str(int)` and `int(str)` on the canonical decimal text |
| `JunctionIds` (junction_ids.dfy) | the junction id `chrom##start##end` (line 123) and `split("##")` (205, 274) |
| `Junctions` (junctions.dfy) | the junction index (116-127) and the counts report (272-280) |
| `Regions` (regions.dfy) | `read_regions` and the two for/else lookups (10-46) |
| `Routing` (routing.dfy) | the `hosts`/`viruses` loop (135-144), the per-region outputs (150-159), routing (214-219) |
| `Cigar` (cigar.dfy) | truncation, `cigarstringorder`, the "03" test and count, splice spans (185-196, 222-249) |
| `Classifier` (classifier.dfy) | phase 1 as a function `Step` over a `State` value, its invariants and what a whole run computes |
| `Extraction` (extractor.dfy) | the class `ReadClassifier` that updates its fields in place as the script does; phase 2; the report writer; `main` as `Extract` |

**Phase 1 as a class.** The mutable dicts and counters of `main` are the fields of
`Extraction.ReadClassifier`. Each of its methods is proved against a pure function:

- the stage methods `AdmitRead`, `MarkSpliced`, `FileLinear`, `WriteRegions` and
  `FileAtJunction` change the fields as `Classifier.Admit`, `NoteSplice`, `NoteLinear`,
  `NoteRegions` and `NoteAtJunction` say;
- `LinkRead` as `Classifier.Link`, `Process` as `Classifier.Step`, `RunPhase1` as `Classifier.Run`;
- `Phase2` returns `Classifier.SplicedStream` and `Classifier.BsjStream`;
- `Report` returns `Junctions.CountsReport`.

The properties of phase 1 are proved about `Step` and `Run`:

- the invariant `Inv` holds on every reachable state;
- when an iteration, and so the pass, stops the program, and with which failure;
- what each alignment adds to each set and to the outputs;
- which reads end up in which set after a whole run.

Line 252 prints `count1`, `len(spliced)`, `count2` and `len(splicedbsj)`. `Inv` proves that
`len(spliced)` is `count3` and `len(splicedbsj)` is `count4`, and `Classifier.CountOrder` that
`count3` and `count2` never exceed `count1` and `count4` never exceeds either. Then
`Extraction.ReportTotals` connects the report to these counters: the report's linear column
adds up to `count2` and its spliced column to `count4`.

**Stopping the program.** An `exit` or an uncaught exception of the script is a `Failure` value:

| failure | where the script stops |
|---|---|
| `UnknownRegion` | line 28 |
| `NoRegion` | lines 39 and 46, including the lookup at line 215 |
| `NoMatchOp` | `list.index` raises at line 187 |
| `BadJunctionId` | at lines 205-208 and 274-277: indexing `x[1]` or `x[2]` raises `IndexError` when `split("##")` gives fewer than three parts, and `int` raises `ValueError` on a part that is not a number (`split` itself never raises) |
| `UnknownJunction` | the `KeyError` at line 210 |

Functions return these in `Result.Err`, and methods that change state return them as
`Option<Failure>`.

**Behaviour of the script worth knowing.** The model keeps each of these as the code has it:

- The report prints the start stored in the junction id as it is (line 276) and the stored end
  plus one (line 277). The stored end is the table's end minus one (line 122), so the report's
  end is the table's end, and its start is the table's start.
- The single-splice case (lines 230-232) measures CIGAR operations 0 and 1, whatever they are.
  `Cigar.SpliceDecision` and the `Step` transition keep this behaviour. `Cigar.SingleSpliceAtFront`
  shows it agrees with trying every splice when the one splice is at the front.
  `Cigar.SingleSpliceMisplaced` shows an input where it does not: an insertion before the only
  skip means a skip lying exactly on the junction is not counted.
- The multi-splice scan (lines 241-242) adds up the lengths of every operation up to and
  including the match before the skip, insertions and soft clips included.
- `split("##")` at line 205 cuts at every `##`, scanning from the left, so a junction id built
  at line 123 splits back into its parts only when the chromosome name has no `##` and does not
  end in `#`. `JunctionIds.TrailingHashChrom` and `JunctionIds.InnerSeparatorChrom` show what
  happens otherwise.

## Model

| member | source | states |
|---|---|---|
| Collections.Dedup | workflow/scripts/_extract_linear_reads.py:116-126 | the key order of a dict filled by repeated assignment: no key twice, and exactly the assigned keys |
| Collections.DedupPrefix | workflow/scripts/_extract_linear_reads.py:116-126 | an id placed in the key order by an earlier line keeps its place when later lines are read |
| Decimal.ParseIntToString | workflow/scripts/_extract_linear_reads.py:122-123 | `int(str(n)) == n` for every integer, negative ones included |
| Decimal.IntToString | workflow/scripts/_extract_linear_reads.py:122-123 | `str(n)` is a non-empty string of digits and minus signs; `ParseIntToString` reads it back |
| Decimal.ParseInt | workflow/scripts/_extract_linear_reads.py:207-208 | `int(s)` on canonical decimal text; no contract of its own, `ParseIntToString` states that it inverts `IntToString` |
| JunctionIds.Split | workflow/scripts/_extract_linear_reads.py:205 | `split("##")` always yields at least one part |
| JunctionIds.SplitFirst | workflow/scripts/_extract_linear_reads.py:205 | the first part of `split("##")` starts the string, and when there are more parts it is followed by `##` |
| JunctionIds.SplitCuts | workflow/scripts/_extract_linear_reads.py:205 | no part of `split("##")` contains `##`, and every part but the last is a chromosome name that splits back: it does not end in `#` |
| JunctionIds.JoinSplit | workflow/scripts/_extract_linear_reads.py:205 | joining the parts of `split("##")` with `##` gives back the string |
| JunctionIds.Encode | workflow/scripts/_extract_linear_reads.py:123 | the id `chrom##start##end` splits at line 205 into exactly the chromosome and the two numbers written in decimal, whenever the chromosome has no `##` and no trailing `#` |
| JunctionIds.Decode | workflow/scripts/_extract_linear_reads.py:205-208 | a decoded chromosome has no `##` and no trailing `#`, and the chromosome followed by `##` is a prefix of the id; an id whose chromosome holds `##` can still decode, to the text before its first `##` |
| JunctionIds.DecodeEncode | workflow/scripts/_extract_linear_reads.py:123 | a junction id built at line 123 splits back (lines 205-208) into its chromosome, start and end, when the chromosome has no `##` and no trailing `#` |
| JunctionIds.EncodeInjective | workflow/scripts/_extract_linear_reads.py:123 | under that condition, distinct junctions get distinct ids, so no table line overwrites another's entry unless it is the same junction |
| JunctionIds.TrailingHashChrom | workflow/scripts/_extract_linear_reads.py:123 | a chromosome ending in `#` gives an id that does not split back into three parts |
| JunctionIds.InnerSeparatorChrom | workflow/scripts/_extract_linear_reads.py:205-208 | a chromosome containing `##` gives an id that splits into a different junction |
| Junctions.LineKeysMembers | workflow/scripts/_extract_linear_reads.py:116-123 | an id is built exactly when some non-header line of the table produces it |
| Junctions.LineKey | workflow/scripts/_extract_linear_reads.py:120-123 | the id of one table line with the end lowered by one; no contract of its own, `JunctionIds.DecodeEncode` states that it splits back into the line's chromosome, start and end - 1 |
| Junctions.TableKeysSnoc | workflow/scripts/_extract_linear_reads.py:116-126 | a table line appends its id to the key order unless the id is already a key |
| Junctions.TableKeys | workflow/scripts/_extract_linear_reads.py:116-126 | the key order of `junction_counts`; no contract of its own beyond `Dedup`'s (no id twice, exactly the lines' ids), with `TableKeysSnoc` and `KeyOrigin` stating how lines fill it |
| Junctions.Register | workflow/scripts/_extract_linear_reads.py:123-126 | after one line, the id is a key of both dicts with an empty set, and the key order gains the id only if it is new |
| Junctions.IndexJunctions | workflow/scripts/_extract_linear_reads.py:116-127 | the loop yields the table's ids in first-seen order, each mapped to an empty set in both dicts, and no other keys |
| Junctions.CountsReport | workflow/scripts/_extract_linear_reads.py:272-280 | the report succeeds exactly when every id splits back; it then has one row per id, in key order, with the id's chromosome, start, end + 1 and the sizes of its two sets |
| Junctions.ReportRow | workflow/scripts/_extract_linear_reads.py:274-280 | one report row; no contract of its own, `CountsReport` states its chromosome, start, end + 1 and set sizes |
| Junctions.CountsReportFailure | workflow/scripts/_extract_linear_reads.py:273-277 | a failing report names the first id that does not split back |
| Junctions.KeyOrigin | workflow/scripts/_extract_linear_reads.py:116-126 | every key comes from a table line, and splits back into that line's chromosome, start and end - 1 |
| Junctions.TableReportOk | workflow/scripts/_extract_linear_reads.py:273-277 | the report never fails on the keys the table built when no chromosome has `##` or a trailing `#` |
| Junctions.ReportRowsFromTable | workflow/scripts/_extract_linear_reads.py:272-280 | every report row repeats a table line's chromosome, start and end, and no two rows repeat the same one |
| Junctions.TableLinesReported | workflow/scripts/_extract_linear_reads.py:116-127 | every junction line of the table appears as a report row |
| Junctions.ColumnSums | workflow/scripts/_extract_linear_reads.py:278-279 | the report's fourth and fifth columns add up to the sums of the set sizes over the keys |
| Regions.BuildCatalog | workflow/scripts/_extract_linear_reads.py:10-32 | a regions file that is read completely gives a well-formed catalog: every listed name has a region |
| Regions.Classify | workflow/scripts/_extract_linear_reads.py:21-28 | a name has a category exactly when some list holds it; it is Host exactly when the host list holds it, Additive exactly when the additive list holds it and the host list does not, and otherwise Virus |
| Regions.BuildCatalogStops | workflow/scripts/_extract_linear_reads.py:16-28 | once a line stops the read, later lines change nothing |
| Regions.ReadRegions | workflow/scripts/_extract_linear_reads.py:10-32 | the loop over the regions file computes `BuildCatalog` |
| Regions.BuildCatalogFailure | workflow/scripts/_extract_linear_reads.py:21-28 | reading stops exactly when some region name is in none of the three lists, and it names the first such region |
| Regions.CatalogNames | workflow/scripts/_extract_linear_reads.py:15-19 | the regions are kept in the order of their first line, each once |
| Regions.CatalogRegions | workflow/scripts/_extract_linear_reads.py:18-31 | a region's entry comes from its last line: its category from the lists (host first, then additive, then virus) and its sequence names |
| Regions.FindFrom | workflow/scripts/_extract_linear_reads.py:41-46 | the search finds the first region, in dict order, that lists the sequence, or shows that none does |
| Regions.RegionOf | workflow/scripts/_extract_linear_reads.py:41-46 | a found region lists the sequence; otherwise no region lists it and the program stops naming it |
| Regions.RegionOfIsFirst | workflow/scripts/_extract_linear_reads.py:41-46 | the region found is the first one in dict order that lists the sequence |
| Regions.CategoryFromAgrees | workflow/scripts/_extract_linear_reads.py:34-46 | the category search stops at the same region as the region-name search |
| Regions.CategoryOfRegion | workflow/scripts/_extract_linear_reads.py:34-46 | the category lookup fails exactly when the region lookup fails, with the same failure, and otherwise gives the category of the region found |
| Regions.CategoryOf | workflow/scripts/_extract_linear_reads.py:34-39 | a found category is that of a region listing the sequence; otherwise no region lists it and the program stops naming it |
| Routing.PartitionStops | workflow/scripts/_extract_linear_reads.py:135-144 | once a header sequence stops the loop, later sequences change nothing |
| Routing.PartitionRegions | workflow/scripts/_extract_linear_reads.py:135-144 | every region in `hosts` is a host region and every region in `viruses` a virus region; the loop stops naming a sequence that no region lists |
| Routing.ClassifyHeader | workflow/scripts/_extract_linear_reads.py:135-144 | the loop over the header computes `PartitionRegions` |
| Routing.PartitionFailure | workflow/scripts/_extract_linear_reads.py:135-144 | the loop stops exactly when some header sequence is listed by no region, and it names the first one |
| Routing.PartitionMembers | workflow/scripts/_extract_linear_reads.py:135-144 | `hosts` (`viruses`) holds exactly the host (virus) regions that list some header sequence |
| Routing.PartitionSnoc | workflow/scripts/_extract_linear_reads.py:135-144 | one more header sequence adds its region to `hosts` (`viruses`) exactly when that region is a host (virus) region, and nothing else |
| Routing.PartitionDisjoint | workflow/scripts/_extract_linear_reads.py:135-144 | no region is in both `hosts` and `viruses` |
| Routing.RouteJunction | workflow/scripts/_extract_linear_reads.py:214-219 | with some per-region output open, routing fails exactly when no region lists the chromosome; a read goes exactly to the open output of its chromosome's region |
| Routing.RouteTargets | workflow/scripts/_extract_linear_reads.py:150-159 | with the sets the header loop builds, an alignment is written to at most one per-region output, of a host region only with host output on and of a virus region only with virus output on, never of an additive region |
| Routing.OpenStreams | workflow/scripts/_extract_linear_reads.py:150-158 | the regions with an open per-region output; no contract of its own, `RouteTargets` states which regions they are and `RouteJunction` that only they receive writes |
| Cigar.MatchFrom | workflow/scripts/_extract_linear_reads.py:187 | `index(0)` finds the first match operation |
| Cigar.Truncate | workflow/scripts/_extract_linear_reads.py:187 | the truncated list starts with a match, is a suffix of the original, and only the non-match operations before the first match are dropped |
| Cigar.CodeString | workflow/scripts/_extract_linear_reads.py:188-190 | `cigarstringorder` has one digit per operation, that operation's code |
| Cigar.CodeOrder | workflow/scripts/_extract_linear_reads.py:188-190 | the loop builds `CodeString` |
| Cigar.Occurs03 | workflow/scripts/_extract_linear_reads.py:194 | `"03" in cigarstringorder`; no contract of its own, `SpliceTestAgrees` states that it holds exactly when a match is directly followed by a skip |
| Cigar.Count03 | workflow/scripts/_extract_linear_reads.py:229 | `cigarstringorder.count("03")`, left to right without overlaps; no contract of its own, `SpliceCountAgrees` states that it counts the match-then-skip pairs |
| Cigar.TransitionCountPositive | workflow/scripts/_extract_linear_reads.py:229-230 | the number of match-then-skip pairs is positive exactly when the alignment is spliced |
| Cigar.SpliceTestAgrees | workflow/scripts/_extract_linear_reads.py:194 | `"03" in cigarstringorder` holds exactly when some match operation is directly followed by a skip |
| Cigar.SpliceCountAgrees | workflow/scripts/_extract_linear_reads.py:229 | `cigarstringorder.count("03")` is the number of match-then-skip pairs |
| Cigar.PrefixLength | workflow/scripts/_extract_linear_reads.py:240-242 | `add_coords` is the sum of the lengths of operations 0..j |
| Cigar.SumLengths | workflow/scripts/_extract_linear_reads.py:240-242 | the sum of the operation lengths of every kind; no contract of its own, `PrefixLength` states that `add_coords` is this sum over ops 0..j |
| Cigar.BoundaryAt | workflow/scripts/_extract_linear_reads.py:243-244 | the reference span of the skip at a transition; no contract of its own, `BoundaryMonotone` and `FirstSpliceNear` state its properties |
| Cigar.SingleSpan | workflow/scripts/_extract_linear_reads.py:231-232 | the span measured from ops 0 and 1; no contract of its own, `SingleSpliceAtFront` states that it is the front splice's span when there is one |
| Cigar.Near | workflow/scripts/_extract_linear_reads.py:233 | within two bases of the junction's start or end; no contract of its own, used by `FirstSpliceNear` and `SplicedAtJunction` |
| Cigar.BoundaryMonotone | workflow/scripts/_extract_linear_reads.py:238-244 | later splices never start earlier on the reference |
| Cigar.FirstSpliceNear | workflow/scripts/_extract_linear_reads.py:237-249 | the scan hits exactly when some splice lies within two bases of the junction; the hit is the first such splice |
| Cigar.SplicedAtJunction | workflow/scripts/_extract_linear_reads.py:229-249 | whenever operations 0 and 1 are a match and a skip, the script's test agrees with trying every splice for one within two bases of the junction |
| Cigar.SpliceDecision | workflow/scripts/_extract_linear_reads.py:229-249 | the loop computes `SplicedAtJunction`: with one "03" the span of operations 0 and 1, otherwise the first splice near the junction |
| Cigar.SingleSpliceAtFront | workflow/scripts/_extract_linear_reads.py:230-236 | with one splice at the front, the span of operations 0 and 1 is that splice, and the shortcut hits exactly when some splice is within two bases of the junction |
| Cigar.SingleSpliceMisplaced | workflow/scripts/_extract_linear_reads.py:230-233 | with one splice after an insertion, a read spliced exactly at the junction is not counted as spliced at it |
| Classifier.Link | workflow/scripts/_extract_linear_reads.py:198-249 | handling a read with a junction leaves the junctions indexed unchanged; `LinkFailure` states exactly when it stops |
| Classifier.Survives | workflow/scripts/_extract_linear_reads.py:174-176 | in paired-end mode an alignment survives exactly when its mate is on the same reference, it is a proper pair, and it is primary, not supplementary and mapped; in single-end mode exactly when the last three hold |
| Classifier.Initial | workflow/scripts/_extract_linear_reads.py:162-170 | the state before the first alignment; no contract of its own, `InitialInv` states that it satisfies the invariants |
| Classifier.Admit | workflow/scripts/_extract_linear_reads.py:179-181 | counting a read; no contract of its own, `AdmitInv` and `StepEffect` state what it keeps and adds |
| Classifier.NoteSplice | workflow/scripts/_extract_linear_reads.py:193-196 | marking a read spliced; no contract of its own, `NoteSpliceInv` and `StepEffect` state what it keeps and adds |
| Classifier.NoteLinear | workflow/scripts/_extract_linear_reads.py:200-213 | filing a linear read and writing it to the main output; no contract of its own, `NoteLinearInv` and `StepEffect` state what it keeps and adds |
| Classifier.NoteRegions | workflow/scripts/_extract_linear_reads.py:216-219 | the per-region writes of one alignment; no contract of its own, `NoteRegionsInv` and `StepRegionWrites` state what it keeps and adds |
| Classifier.NoteAtJunction | workflow/scripts/_extract_linear_reads.py:234-236 | filing a read spliced at its junction (also 246-248); no contract of its own, `NoteAtJunctionInv` and `StepEffect` state what it keeps and adds |
| Classifier.Step | workflow/scripts/_extract_linear_reads.py:173-249 | a filtered-out alignment changes nothing and never stops the program; the junctions indexed never change; `StepFailure` states exactly when it stops |
| Classifier.LinkEffect | workflow/scripts/_extract_linear_reads.py:198-249 | for a read with a junction: the id splits back and routing succeeds; the read becomes linear; the alignment goes tagged to the main output and to its per-region outputs; the read becomes spliced at its junction when it is spliced and this alignment's splice is at the junction |
| Classifier.StepEffect | workflow/scripts/_extract_linear_reads.py:173-249 | one alignment adds its read to the counted, spliced, linear and spliced-at-junction sets exactly when it survives, splices, has a junction, and splices at it; it goes to the main output exactly when it survives and has a junction |
| Classifier.LinkFailure | workflow/scripts/_extract_linear_reads.py:205-215 | for a read with a junction, the program stops with `BadJunctionId` when the id does not split back (205-208), else with `UnknownJunction` when the table lacks it (210), else with `NoRegion` of the chromosome exactly when some per-region output is open and no region lists the chromosome (214-215); otherwise it goes on |
| Classifier.StepFailure | workflow/scripts/_extract_linear_reads.py:173-215 | an iteration stops the program exactly when the alignment survives and either has no match operation (`NoMatchOp`, line 187) or has a junction for which one of the checks of `LinkFailure` fails, with the failure of the first failing check; in every other case it goes on |
| Classifier.Run | workflow/scripts/_extract_linear_reads.py:173-249 | the pass over all alignments leaves the junctions indexed unchanged; `RunFailure` states exactly when it stops |
| Classifier.RunFailure | workflow/scripts/_extract_linear_reads.py:173-249 | the pass stops exactly when some alignment stops the program after all earlier ones went on, and it stops with that alignment's failure |
| Classifier.InitialInv | workflow/scripts/_extract_linear_reads.py:162-170 | the invariants hold before the first alignment |
| Classifier.AdmitInv | workflow/scripts/_extract_linear_reads.py:179-181 | counting a read keeps the invariants (`count1` is the number of distinct reads) |
| Classifier.NoteSpliceInv | workflow/scripts/_extract_linear_reads.py:193-196 | marking a read spliced keeps the invariants (`count3` is the number of spliced reads) |
| Classifier.LinearFiledAdd | workflow/scripts/_extract_linear_reads.py:200-211 | filing a linear read under its own junction keeps every linear read filed under exactly that junction |
| Classifier.SplicedFiledGrow | workflow/scripts/_extract_linear_reads.py:210-211 | filing a linear read keeps every spliced-at-junction set inside its junction's linear set |
| Classifier.PrimaryTaggedSnoc | workflow/scripts/_extract_linear_reads.py:212-213 | a main-output write tagged with the read's own junction keeps every tag correct |
| Classifier.NoteLinearInv | workflow/scripts/_extract_linear_reads.py:200-213 | filing a linear read keeps the invariants (`count2` is the number of linear reads) |
| Classifier.NoteRegionsInv | workflow/scripts/_extract_linear_reads.py:214-219 | per-region writes keep the invariants |
| Classifier.NoteAtJunctionInv | workflow/scripts/_extract_linear_reads.py:222-236 | marking a new spliced linear read as spliced at its junction keeps the invariants (`count4` is their number) |
| Classifier.StepInv | workflow/scripts/_extract_linear_reads.py:173-249 | every iteration keeps the invariants |
| Classifier.RunInv | workflow/scripts/_extract_linear_reads.py:173-249 | the invariants hold after the whole pass |
| Classifier.CountOrder | workflow/scripts/_extract_linear_reads.py:179-236 | `count3` and `count2` are at most `count1`, and `count4` at most `count3` and `count2`, as the sets they count are nested |
| Classifier.StepMarks | workflow/scripts/_extract_linear_reads.py:173-249 | each of the four sets gains exactly this alignment's read when the alignment qualifies for it |
| Classifier.RunMarks | workflow/scripts/_extract_linear_reads.py:173-249 | after the pass, a read is in each of the four sets exactly when it was before or one of its alignments qualifies |
| Classifier.PrimaryWritesMembers | workflow/scripts/_extract_linear_reads.py:198-213 | the main output receives exactly the surviving alignments of reads with a junction, each tagged with its read's junction |
| Classifier.PrimaryWrites | workflow/scripts/_extract_linear_reads.py:212-213 | the main output of a pass; no contract of its own, `PrimaryWritesMembers` and `RunPrimary` state its contents and order |
| Classifier.RunPrimary | workflow/scripts/_extract_linear_reads.py:173-213 | the main output of the pass is those alignments in file order |
| Classifier.JunctionTotals | workflow/scripts/_extract_linear_reads.py:200-236 | summed over the table's junctions, the linear sets have `count2` names and the spliced-at-junction sets have `count4`: each read is filed under one junction only |
| Classifier.RoutedWritesProper | workflow/scripts/_extract_linear_reads.py:212-219 | an alignment is written to at most one per-region output, which is open and belongs to the region of its junction's chromosome, tagged with the read's junction id |
| Classifier.StepRegionWrites | workflow/scripts/_extract_linear_reads.py:212-219 | one alignment appends at most one per-region write, of itself tagged with its junction id, to an open output of its junction's region |
| Classifier.RunRegionWrites | workflow/scripts/_extract_linear_reads.py:173-219 | all per-region writes of the pass are of processed alignments, tagged with their read's junction id, each to an open output of the region of its junction's chromosome |
| Classifier.SplicedStream | workflow/scripts/_extract_linear_reads.py:259-261 | the spliced output receives exactly the alignments of spliced reads, taken from every alignment of the file, filtered or not |
| Classifier.BsjStream | workflow/scripts/_extract_linear_reads.py:262-265 | the spliced-at-junction output receives exactly the alignments of reads spliced at their junction, each tagged with that junction |
| Extraction.WriteCounts | workflow/scripts/_extract_linear_reads.py:272-281 | the loop writes the rows of `CountsReport`, or stops at the first id that does not split back |
| Extraction.ReadClassifier.constructor | workflow/scripts/_extract_linear_reads.py:109-127 | the classifier starts with the table's ids in order, empty sets and zero counters, and satisfies its invariant |
| Extraction.ReadClassifier.AdmitRead | workflow/scripts/_extract_linear_reads.py:179-181 | the fields change as `Admit` says |
| Extraction.ReadClassifier.MarkSpliced | workflow/scripts/_extract_linear_reads.py:193-196 | the fields change as `NoteSplice` says |
| Extraction.ReadClassifier.FileLinear | workflow/scripts/_extract_linear_reads.py:200-213 | the fields change as `NoteLinear` says |
| Extraction.ReadClassifier.WriteRegions | workflow/scripts/_extract_linear_reads.py:212-219 | the per-region writes grow by one write per chosen output, in order, each of the alignment tagged with its junction id |
| Extraction.ReadClassifier.FileAtJunction | workflow/scripts/_extract_linear_reads.py:234-236 | the fields change as `NoteAtJunction` says |
| Extraction.ReadClassifier.LinkRead | workflow/scripts/_extract_linear_reads.py:198-249 | the fields change as `Link` says, or the program stops with `Link`'s failure |
| Extraction.ReadClassifier.Process | workflow/scripts/_extract_linear_reads.py:173-249 | one iteration changes the fields as `Step` says and keeps the invariant, or stops with `Step`'s failure |
| Extraction.ReadClassifier.RunPhase1 | workflow/scripts/_extract_linear_reads.py:173-251 | the pass changes the fields as `Run` says and keeps the invariant, or stops with `Run`'s failure |
| Extraction.ReadClassifier.Phase2 | workflow/scripts/_extract_linear_reads.py:259-265 | the second pass produces the spliced and spliced-at-junction streams; every read spliced at a junction has a junction id, so line 263 never fails |
| Extraction.ReadClassifier.Report | workflow/scripts/_extract_linear_reads.py:272-281 | the report written from the fields is `CountsReport` of the table's ids |
| Extraction.Extract | workflow/scripts/_extract_linear_reads.py:134-281 | `main` computes `Pipeline`: the same outputs and the same failure |
| Extraction.Pipeline | workflow/scripts/_extract_linear_reads.py:134-281 | a completed run has one report row per junction of the table, and its counters are ordered: `count3` and `count2` at most `count1`, `count4` at most both |
| Extraction.ReportTotals | workflow/scripts/_extract_linear_reads.py:252-280 | in every completed run, the report's linear column adds up to `count2` and its spliced column to `count4` |

## Left out

- Reading and writing files are not modelled: the BAM file, the gzip lookup, the table and
  regions files, and the report file. Their contents are parameters: `Inputs.header`,
  `Inputs.regionRows`, `Inputs.table`, `Inputs.rid2jid` and `Inputs.alignments`. The outputs are
  sequences of writes (`Outputs`).
- Building the read-to-junction lookup (lines 97-104) is not modelled. The lookup is given as a map.
- Parsing text lines is not modelled:
  - splitting on tabs and on `split()`;
  - the `IndexError` of a short line;
  - the comma splitting of `--host`, `--additives` and `--viruses`.
  Table lines come already parsed as `TableLine`.
- The junction table's header line, the one containing `read_count`, is a `Skipped` line. The
  model does not search the raw text for `read_count`.
- The start column is modelled as an integer rendered canonically. The script keeps the table's
  text as written (line 121), so a start written `007` gives an id that the model would write `7`.
- Python's `int()` leniency is not modelled: surrounding blanks, `+`, and `_` digit separators.
  `Decimal.ParseInt` accepts exactly an optional `-` followed by digits.
- The read-group header entries (line 124), `argparse`, file names, `os.path.join` and the
  progress and summary prints (97-110, 145, 161, 168, 250-252, 257, 271, 282) are not modelled.
- Opening and closing the outputs is not modelled (147-159, 253-256, 267-270, 281). Only which
  outputs exist (`Routing.OpenStreams`) and what is written to them are.
- `seqname2regionname` (lines 131, 139, 143) is filled but never read, so it is not modelled.
- The filters of lines 174-176 read `reference_id`, `next_reference_id`, `is_proper_pair`,
  `is_secondary`, `is_supplementary` and `is_unmapped` as plain fields of `Classifier.Record`.
  How pysam derives them from the BAM flags is not modelled.
- `Classifier.Link`: the script counts a read as linear (lines 200-202) before it splits the
  junction id (205-208) and looks the id up (210). The model splits and looks up first. The two
  differ only in the state left behind when the program stops, and that state is not modelled.
- `Extraction.Extract`: after a failure, what the script has already written (partial outputs,
  printed counts) is not modelled. Only the failure is.
