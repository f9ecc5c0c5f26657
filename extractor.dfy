/** The body of `main` in workflow/scripts/_extract_linear_reads.py as imperative code: the
    variables of the two passes over the alignments live in one object whose methods update
    them in place, each method proved against the specification in module Classifier. */
module Extraction {
  import opened Outcomes
  import opened Collections
  import opened JunctionIds
  import opened Junctions
  import opened Regions
  import opened Cigar
  import opened Routing
  import opened Classifier

  /** Lines 272-280: the counts report, one row per junction in table order. */
  method WriteCounts(keys: seq<string>, linear: map<string, set<string>>, splicedLinear: map<string, set<string>>)
    returns (r: Result<seq<CountsRow>, Failure>)
    requires forall k :: k in keys ==> k in linear && k in splicedLinear
    ensures r == CountsReport(keys, linear, splicedLinear)
  {
    var rows: seq<CountsRow> := [];
    for i := 0 to |keys|
      invariant forall p :: 0 <= p < i ==> Decode(keys[p]).Some?
      invariant |rows| == i
      invariant forall p :: 0 <= p < i ==> rows[p] == ReportRow(keys[p], linear, splicedLinear)
    {
      var jid := keys[i];
      var x := Decode(jid);
      if x.None? {
        CountsReportFailure(keys, linear, splicedLinear);
        return Err(BadJunctionId(jid));
      }
      rows := rows + [ReportRow(jid, linear, splicedLinear)];
    }
    var all := CountsReport(keys, linear, splicedLinear).value;
    assert rows == all;
    return Ok(rows);
  }

  class ReadClassifier {
    const cfg: Config
    /** The keys of `junction_counts` in dict order. */
    const keys: seq<string>
    var counted1: set<string>
    var counted2: set<string>
    var spliced: set<string>
    var splicedBsj: set<string>
    var junctionCounts: map<string, set<string>>
    var splicedBsjJid: map<string, set<string>>
    var count1: nat
    var count2: nat
    var count3: nat
    var count4: nat
    var primary: seq<Tagged>
    var regionWrites: seq<RegionWrite>

    /** The object's variables as a value of the specification. */
    function Snapshot(): State
      reads this
    {
      State(counted1, counted2, spliced, splicedBsj, junctionCounts, splicedBsjJid,
            count1, count2, count3, count4, primary, regionWrites)
    }

    predicate Valid()
      reads this
    {
      && WellFormed(cfg.catalog)
      && Inv(cfg, Snapshot())
      && Distinct(keys)
      && junctionCounts.Keys == set k | k in keys
    }

    /** Lines 111-127 and 164-170: the junction table registers its ids, and every set and
        counter starts empty. */
    constructor (cfg: Config, lines: seq<TableLine>)
      requires WellFormed(cfg.catalog)
      ensures this.cfg == cfg && keys == TableKeys(lines)
      ensures Snapshot() == Initial(keys)
      ensures Valid()
    {
      this.cfg := cfg;
      var ks, linear, splicedLinear := IndexJunctions(lines);
      keys := ks;
      counted1, counted2, spliced, splicedBsj := {}, {}, {}, {};
      junctionCounts, splicedBsjJid := linear, splicedLinear;
      count1, count2, count3, count4 := 0, 0, 0, 0;
      primary, regionWrites := [], [];
      new;
      InitialInv(cfg, keys);
    }

    // The stage methods below neither need nor keep Valid(): each states its whole new
    // Snapshot(), and Process restores Valid() after the last stage through StepInv.

    /** Lines 179-181: the read is counted the first time one of its alignments survives. */
    method AdmitRead(rid: string)
      modifies this
      ensures Snapshot() == Admit(old(Snapshot()), rid)
    {
      if rid !in counted1 {
        counted1 := counted1 + {rid};
        count1 := count1 + 1;
      }
    }

    /** Lines 193-196: a read not yet known as spliced becomes spliced when this alignment is. */
    method MarkSpliced(rid: string, splices: bool)
      modifies this
      ensures Snapshot() == NoteSplice(old(Snapshot()), rid, splices)
    {
      if rid !in spliced && splices {
        count3 := count3 + 1;
        spliced := spliced + {rid};
      }
    }

    /** Lines 200-213: the read is counted as linear the first time, filed under its junction,
        and the alignment goes to the main output tagged with that junction. */
    method FileLinear(rec: Record, jid: string)
      requires jid in junctionCounts
      modifies this
      ensures Snapshot() == NoteLinear(old(Snapshot()), rec, jid)
    {
      if rec.name !in counted2 {
        counted2 := counted2 + {rec.name};
        count2 := count2 + 1;
      }
      junctionCounts := junctionCounts[jid := junctionCounts[jid] + {rec.name}];
      primary := primary + [Tagged(rec, jid)];
    }

    /** Lines 216-219: the alignment, tagged with its junction at line 212, goes to each chosen
        per-region output. */
    method WriteRegions(rec: Record, jid: string, targets: seq<string>)
      modifies this
      ensures Snapshot() == NoteRegions(old(Snapshot()), rec, jid, targets)
    {
      for i := 0 to |targets|
        invariant regionWrites == old(regionWrites) + Writes(rec, jid, targets[..i])
        invariant Snapshot() == old(Snapshot()).(regionWrites := regionWrites)
      {
        regionWrites := regionWrites + [RegionWrite(targets[i], Tagged(rec, jid))];
      }
    }

    /** Lines 234-236 and 246-248: the read is spliced at its junction. */
    method FileAtJunction(rid: string, jid: string)
      requires jid in splicedBsjJid
      modifies this
      ensures Snapshot() == NoteAtJunction(old(Snapshot()), rid, jid)
    {
      splicedBsj := splicedBsj + {rid};
      count4 := count4 + 1;
      splicedBsjJid := splicedBsjJid[jid := splicedBsjJid[jid] + {rid}];
    }

    /** Lines 198-249: the part of an iteration for a read with a junction. */
    method LinkRead(rec: Record, t: seq<CigarOp>, order: string, splices: bool) returns (stop: Option<Failure>)
      requires WellFormed(cfg.catalog) && junctionCounts.Keys == splicedBsjJid.Keys
      requires rec.name in cfg.rid2jid
      requires order == CodeString(t) && splices == HasSplice(t)
      modifies this
      ensures stop == FailureOf(Link(cfg, old(Snapshot()), rec, t))
      ensures stop.None? ==> Snapshot() == Link(cfg, old(Snapshot()), rec, t).value
    {
      var rid := rec.name;
      var jid := cfg.rid2jid[rid];
      var x := Decode(jid);
      if x.None? {
        return Some(BadJunctionId(jid));
      }
      var j := x.value;
      if jid !in junctionCounts {
        return Some(UnknownJunction(jid));
      }
      FileLinear(rec, jid);
      var route := RouteJunction(cfg.catalog, cfg.partition, cfg.hostOut, cfg.virusOut, j.chrom);
      if route.Err? {
        return Some(route.error);
      }
      WriteRegions(rec, jid, route.value);
      if rid in spliced && splices && rid !in splicedBsj {
        var hit := SpliceDecision(rec.refStart, t, order, j.start, j.endIncl);
        if hit {
          FileAtJunction(rid, jid);
        }
      }
      return None;
    }

    /** One iteration of the loop of lines 173-249. A failure stops the program (see Step),
        after which the variables are of no further interest. */
    method Process(rec: Record) returns (stop: Option<Failure>)
      requires Valid()
      modifies this
      ensures stop == FailureOf(Step(cfg, old(Snapshot()), rec))
      ensures stop.None? ==> Snapshot() == Step(cfg, old(Snapshot()), rec).value && Valid()
    {
      ghost var st := Snapshot();
      if cfg.paired && rec.refId != rec.mateRefId {
        return None;
      }
      if cfg.paired && !rec.properPair {
        return None;
      }
      if rec.secondary || rec.supplementary || rec.unmapped {
        return None;
      }
      var rid := rec.name;
      AdmitRead(rid);
      if !HasMatch(rec.ops) {
        return Some(NoMatchOp(rid));
      }
      var t := Truncate(rec.ops);
      var order := CodeOrder(t);
      SpliceTestAgrees(t);
      var splices := Occurs03(order);
      MarkSpliced(rid, splices);
      if rid in cfg.rid2jid {
        stop := LinkRead(rec, t, order, splices);
        if stop.Some? {
          return;
        }
      }
      StepInv(cfg, st, rec);
      return None;
    }

    /** The whole first pass: the alignments in file order, stopping at the first one that
        stops the program. */
    method RunPhase1(recs: seq<Record>) returns (stop: Option<Failure>)
      requires Valid()
      modifies this
      ensures stop == FailureOf(Run(cfg, old(Snapshot()), recs))
      ensures stop.None? ==> Snapshot() == Run(cfg, old(Snapshot()), recs).value && Valid()
    {
      ghost var st0 := Snapshot();
      var i := 0;
      while i < |recs|
        invariant 0 <= i <= |recs|
        invariant Valid()
        invariant Run(cfg, st0, recs) == Run(cfg, Snapshot(), recs[i..])
      {
        assert recs[i..][1..] == recs[i + 1..];
        stop := Process(recs[i]);
        if stop.Some? {
          return;
        }
        i := i + 1;
      }
      return None;
    }

    /** Lines 258-265: the second pass over the same alignments. Every alignment of a spliced
        read goes to the spliced output, and every alignment of a spliced-at-junction read goes
        to that output tagged with its read's junction; no alignment is filtered out. */
    method Phase2(recs: seq<Record>) returns (splicedOut: seq<Record>, bsjOut: seq<Tagged>)
      requires Valid()
      ensures splicedBsj <= cfg.rid2jid.Keys
      ensures splicedOut == SplicedStream(spliced, recs)
      ensures bsjOut == BsjStream(cfg.rid2jid, splicedBsj, recs)
    {
      splicedOut, bsjOut := [], [];
      for i := 0 to |recs|
        invariant splicedOut == SplicedStream(spliced, recs[..i])
        invariant bsjOut == BsjStream(cfg.rid2jid, splicedBsj, recs[..i])
      {
        assert recs[..i + 1][..i] == recs[..i];
        var rec := recs[i];
        var rid := rec.name;
        if rid in spliced {
          splicedOut := splicedOut + [rec];
        }
        if rid in splicedBsj {
          var jid := cfg.rid2jid[rid];
          bsjOut := bsjOut + [Tagged(rec, jid)];
        }
      }
      assert recs[..|recs|] == recs;
    }

    /** Lines 272-280: the counts report, one row per junction in table order. */
    method Report() returns (r: Result<seq<CountsRow>, Failure>)
      requires forall k :: k in keys ==> k in junctionCounts && k in splicedBsjJid
      ensures r == CountsReport(keys, junctionCounts, splicedBsjJid)
    {
      r := WriteCounts(keys, junctionCounts, splicedBsjJid);
    }
  }

  /** The program's inputs, already parsed: the flags, the --host/--additives/--viruses lists,
      the regions file, the reference names of the BAM header, the junction table, the
      read-to-junction lookup and the alignments in file order. */
  datatype Inputs = Inputs(
    paired: bool,
    hostOut: bool,
    virusOut: bool,
    lists: Lists,
    regionRows: seq<RegionRow>,
    header: seq<string>,
    table: seq<TableLine>,
    rid2jid: map<string, string>,
    alignments: seq<Record>)

  /** What the program writes: the main output, the per-region outputs, the spliced and
      spliced-at-junction outputs, the counts report, and the four totals it prints. */
  datatype Outputs = Outputs(
    primary: seq<Tagged>,
    regionWrites: seq<RegionWrite>,
    splicedOut: seq<Record>,
    bsjOut: seq<Tagged>,
    report: seq<CountsRow>,
    count1: nat,
    count2: nat,
    count3: nat,
    count4: nat)

  /** The run of `main` as a whole: the regions file is read (stopping on an unknown region),
      the header's sequences are sorted into host and virus regions, the first pass runs over
      the alignments, the second pass picks the spliced ones, and the report is built. */
  function Pipeline(inp: Inputs): (r: Result<Outputs, Failure>)
    ensures r.Ok? ==> |r.value.report| == |TableKeys(inp.table)|
    ensures r.Ok? ==> r.value.count3 <= r.value.count1 && r.value.count2 <= r.value.count1
    ensures r.Ok? ==> r.value.count4 <= r.value.count3 && r.value.count4 <= r.value.count2
  {
    match BuildCatalog(inp.lists, inp.regionRows)
    case Err(e) => Err(e)
    case Ok(catalog) =>
      match PartitionRegions(catalog, inp.header)
      case Err(e) => Err(e)
      case Ok(partition) =>
        var cfg := Config(inp.paired, inp.rid2jid, catalog, partition, inp.hostOut, inp.virusOut);
        var keys := TableKeys(inp.table);
        InitialInv(cfg, keys);
        match Run(cfg, Initial(keys), inp.alignments)
        case Err(e) => Err(e)
        case Ok(fin) =>
          RunInv(cfg, Initial(keys), inp.alignments);
          CountOrder(cfg, fin);
          match CountsReport(keys, fin.junctionCounts, fin.splicedBsjJid)
          case Err(e) => Err(e)
          case Ok(report) =>
            Ok(Outputs(fin.primary, fin.regionWrites, SplicedStream(fin.spliced, inp.alignments),
                       BsjStream(inp.rid2jid, fin.splicedBsj, inp.alignments), report,
                       fin.count1, fin.count2, fin.count3, fin.count4))
  }

  /** `main`: the steps in the program's order, each stopping the run on its own failures. */
  method Extract(inp: Inputs) returns (r: Result<Outputs, Failure>)
    ensures r == Pipeline(inp)
  {
    var catalog := ReadRegions(inp.lists, inp.regionRows);
    if catalog.Err? {
      return Err(catalog.error);
    }
    var partition := ClassifyHeader(catalog.value, inp.header);
    if partition.Err? {
      return Err(partition.error);
    }
    var cfg := Config(inp.paired, inp.rid2jid, catalog.value, partition.value, inp.hostOut, inp.virusOut);
    var classifier := new ReadClassifier(cfg, inp.table);
    var stop := classifier.RunPhase1(inp.alignments);
    if stop.Some? {
      return Err(stop.value);
    }
    var splicedOut, bsjOut := classifier.Phase2(inp.alignments);
    var report := classifier.Report();
    if report.Err? {
      return Err(report.error);
    }
    return Ok(Outputs(classifier.primary, classifier.regionWrites, splicedOut, bsjOut, report.value,
                      classifier.count1, classifier.count2, classifier.count3, classifier.count4));
  }

  /** In every completed run, the report's fourth column adds up to the number of distinct
      linear reads near a junction, and its fifth column to the number of distinct reads
      spliced at their junction: each such read is counted under exactly one junction. */
  lemma ReportTotals(inp: Inputs)
    requires Pipeline(inp).Ok?
    ensures LinearColumn(Pipeline(inp).value.report) == Pipeline(inp).value.count2
    ensures SplicedColumn(Pipeline(inp).value.report) == Pipeline(inp).value.count4
  {
    var catalog := BuildCatalog(inp.lists, inp.regionRows).value;
    var partition := PartitionRegions(catalog, inp.header).value;
    var cfg := Config(inp.paired, inp.rid2jid, catalog, partition, inp.hostOut, inp.virusOut);
    var keys := TableKeys(inp.table);
    InitialInv(cfg, keys);
    RunInv(cfg, Initial(keys), inp.alignments);
    var fin := Run(cfg, Initial(keys), inp.alignments).value;
    ColumnSums(keys, fin.junctionCounts, fin.splicedBsjJid);
    JunctionTotals(cfg, keys, fin);
  }
}
