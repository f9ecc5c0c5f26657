/** The first pass over the alignments (workflow/scripts/_extract_linear_reads.py:169-251) as a
    specification: one step per alignment over a value holding the six dicts and four counters,
    the invariants every step keeps, and what a whole pass leaves in each set. */
module Classifier {
  import opened Outcomes
  import opened Collections
  import opened JunctionIds
  import opened Regions
  import opened Cigar
  import opened Routing

  /** One alignment as the BAM reader yields it. */
  datatype Record = Record(
    name: string,            // query_name: the read (pair) name
    refId: int,              // reference_id
    mateRefId: int,          // next_reference_id
    secondary: bool,
    supplementary: bool,
    unmapped: bool,
    properPair: bool,
    refStart: int,           // reference_start, 0-based
    ops: seq<CigarOp>)       // cigartuples

  /** An alignment written with its RG tag set to a junction id. */
  datatype Tagged = Tagged(rec: Record, jid: string)

  /** A tagged alignment written to the output of one region. */
  datatype RegionWrite = RegionWrite(region: string, tagged: Tagged)

  /** What the pass reads but never changes: the --pe flag, the read-to-junction lookup, the
      region catalog, the host and virus region sets and the per-region output flags. */
  datatype Config = Config(
    paired: bool,
    rid2jid: map<string, string>,
    catalog: Catalog,
    partition: Partition,
    hostOut: bool,
    virusOut: bool)

  /** The variables the pass updates, and the records written to the main output and to the
      per-region outputs so far. */
  datatype State = State(
    counted1: set<string>,                      // mate_already_counted1
    counted2: set<string>,                      // mate_already_counted2
    spliced: set<string>,
    splicedBsj: set<string>,                    // splicedbsj
    junctionCounts: map<string, set<string>>,   // junction_counts: jid -> linear read names
    splicedBsjJid: map<string, set<string>>,    // splicedbsjjid: jid -> spliced read names
    count1: nat,
    count2: nat,
    count3: nat,
    count4: nat,
    primary: seq<Tagged>,                       // outbam
    regionWrites: seq<RegionWrite>)             // outputbams[...]

  /** The state before the first alignment: the table's ids with empty sets. */
  function Initial(keys: seq<string>): State
  {
    var empty := map k | k in keys :: {};
    State({}, {}, {}, {}, empty, empty, 0, 0, 0, 0, [], [])
  }

  /** Lines 174-176: the alignments the pass looks at. Only primary, mapped alignments pass;
      with --pe, only properly paired ones whose mate is on the same reference; without it,
      the flags of line 176 are the only filter. */
  function Survives(paired: bool, rec: Record): (r: bool)
    ensures r ==> !rec.secondary && !rec.supplementary && !rec.unmapped
    ensures r && paired ==> rec.properPair && rec.refId == rec.mateRefId
    ensures !paired ==> (r <==> !rec.secondary && !rec.supplementary && !rec.unmapped)
    ensures paired ==> (r <==> rec.refId == rec.mateRefId && rec.properPair &&
                               !rec.secondary && !rec.supplementary && !rec.unmapped)
  {
    && !(paired && rec.refId != rec.mateRefId)
    && !(paired && !rec.properPair)
    && !(rec.secondary || rec.supplementary || rec.unmapped)
  }

  /** A surviving alignment whose truncated CIGAR has a match followed by a skip. */
  predicate SplicesHere(paired: bool, rec: Record)
  {
    Survives(paired, rec) && HasMatch(rec.ops) && HasSplice(Truncate(rec.ops))
  }

  /** A surviving alignment whose read has a back-splice junction. */
  predicate Linked(cfg: Config, rec: Record)
  {
    Survives(cfg.paired, rec) && rec.name in cfg.rid2jid
  }

  /** A surviving, spliced alignment of a read with a junction, whose splice the decision of
      lines 229-249 places at that junction. */
  predicate AtJunction(cfg: Config, rec: Record)
  {
    && SplicesHere(cfg.paired, rec)
    && rec.name in cfg.rid2jid
    && match Decode(cfg.rid2jid[rec.name])
       case None => false
       case Some(j) => SplicedAtJunction(rec.refStart, Truncate(rec.ops), j.start, j.endIncl)
  }

  /** Lines 179-181: the read is counted the first time one of its alignments survives. */
  function Admit(st: State, name: string): State
  {
    st.(counted1 := st.counted1 + {name}, count1 := if name in st.counted1 then st.count1 else st.count1 + 1)
  }

  /** Lines 193-196: a read not yet known as spliced becomes spliced when this alignment is. */
  function NoteSplice(st: State, name: string, splices: bool): State
  {
    if name !in st.spliced && splices then st.(spliced := st.spliced + {name}, count3 := st.count3 + 1) else st
  }

  /** Lines 200-213: the read is counted as linear the first time, filed under its junction,
      and the alignment goes to the main output tagged with that junction. */
  function NoteLinear(st: State, rec: Record, jid: string): State
    requires jid in st.junctionCounts
  {
    st.(counted2 := st.counted2 + {rec.name},
        count2 := if rec.name in st.counted2 then st.count2 else st.count2 + 1,
        junctionCounts := st.junctionCounts[jid := st.junctionCounts[jid] + {rec.name}],
        primary := st.primary + [Tagged(rec, jid)])
  }

  /** The writes of one alignment to the chosen per-region outputs, in order. */
  function Writes(rec: Record, jid: string, targets: seq<string>): seq<RegionWrite>
  {
    seq(|targets|, i requires 0 <= i < |targets| => RegionWrite(targets[i], Tagged(rec, jid)))
  }

  /** Lines 216-219: the alignment, tagged with its junction at line 212, goes to each chosen
      per-region output. */
  function NoteRegions(st: State, rec: Record, jid: string, targets: seq<string>): State
  {
    st.(regionWrites := st.regionWrites + Writes(rec, jid, targets))
  }

  /** Lines 234-236 and 246-248: the read is spliced at its junction. */
  function NoteAtJunction(st: State, name: string, jid: string): State
    requires jid in st.splicedBsjJid
  {
    st.(splicedBsj := st.splicedBsj + {name},
        count4 := st.count4 + 1,
        splicedBsjJid := st.splicedBsjJid[jid := st.splicedBsjJid[jid] + {name}])
  }

  /** Lines 198-249 for a surviving alignment of a read with a junction: the junction id is
      split (stopping the program if it does not split back) and looked up in the table
      (stopping it if absent), the read is filed as linear and routed, and a spliced alignment
      is compared with the junction. */
  function Link(cfg: Config, st: State, rec: Record, t: seq<CigarOp>): (r: Result<State, Failure>)
    requires WellFormed(cfg.catalog)
    requires st.junctionCounts.Keys == st.splicedBsjJid.Keys
    requires rec.name in cfg.rid2jid
    ensures r.Ok? ==> r.value.junctionCounts.Keys == st.junctionCounts.Keys
    ensures r.Ok? ==> r.value.splicedBsjJid.Keys == st.splicedBsjJid.Keys
  {
    var jid := cfg.rid2jid[rec.name];
    match Decode(jid)
    case None => Err(BadJunctionId(jid))
    case Some(j) =>
      if jid !in st.junctionCounts then Err(UnknownJunction(jid))
      else
        match RouteJunction(cfg.catalog, cfg.partition, cfg.hostOut, cfg.virusOut, j.chrom)
        case Err(e) => Err(e)
        case Ok(targets) =>
          var s5 := NoteRegions(NoteLinear(st, rec, jid), rec, jid, targets);
          if rec.name in s5.spliced && HasSplice(t) && rec.name !in s5.splicedBsj
             && SplicedAtJunction(rec.refStart, t, j.start, j.endIncl)
          then Ok(NoteAtJunction(s5, rec.name, jid))
          else Ok(s5)
  }

  /** One iteration of the loop of lines 173-249. The program stops on an alignment without a
      match operation (line 187), on a junction id that does not split back (205-208) or is not
      in the table (210), and on a junction chromosome that no region lists (215). */
  function Step(cfg: Config, st: State, rec: Record): (r: Result<State, Failure>)
    requires WellFormed(cfg.catalog)
    requires st.junctionCounts.Keys == st.splicedBsjJid.Keys
    ensures !Survives(cfg.paired, rec) ==> r == Ok(st)
    ensures r.Err? ==> Survives(cfg.paired, rec)
    ensures r.Ok? ==> r.value.junctionCounts.Keys == st.junctionCounts.Keys
    ensures r.Ok? ==> r.value.splicedBsjJid.Keys == st.splicedBsjJid.Keys
  {
    if !Survives(cfg.paired, rec) then Ok(st)
    else if !HasMatch(rec.ops) then Err(NoMatchOp(rec.name))
    else
      var t := Truncate(rec.ops);
      var s2 := NoteSplice(Admit(st, rec.name), rec.name, HasSplice(t));
      if rec.name !in cfg.rid2jid then Ok(s2) else Link(cfg, s2, rec, t)
  }

  /** What the junction half of an iteration adds: the read is linear, the alignment goes to
      the main output and its per-region outputs, and the read is spliced at its junction when
      it is spliced and this alignment's splice is near the junction. */
  lemma LinkEffect(cfg: Config, st: State, rec: Record, t: seq<CigarOp>)
    requires WellFormed(cfg.catalog)
    requires st.junctionCounts.Keys == st.splicedBsjJid.Keys
    requires rec.name in cfg.rid2jid
    requires Link(cfg, st, rec, t).Ok?
    ensures Decode(cfg.rid2jid[rec.name]).Some?
    ensures var j := Decode(cfg.rid2jid[rec.name]).value;
      RouteJunction(cfg.catalog, cfg.partition, cfg.hostOut, cfg.virusOut, j.chrom).Ok?
    ensures var next := Link(cfg, st, rec, t).value;
      var j := Decode(cfg.rid2jid[rec.name]).value;
      var targets := RouteJunction(cfg.catalog, cfg.partition, cfg.hostOut, cfg.virusOut, j.chrom).value;
      && next.counted1 == st.counted1
      && next.spliced == st.spliced
      && next.counted2 == st.counted2 + {rec.name}
      && next.splicedBsj == st.splicedBsj +
           (if rec.name in st.spliced && HasSplice(t) && SplicedAtJunction(rec.refStart, t, j.start, j.endIncl)
            then {rec.name} else {})
      && next.primary == st.primary + [Tagged(rec, cfg.rid2jid[rec.name])]
      && next.regionWrites == st.regionWrites + Writes(rec, cfg.rid2jid[rec.name], targets)
  {
  }

  /** What one alignment adds to each set and to the main output. */
  lemma StepEffect(cfg: Config, st: State, rec: Record)
    requires WellFormed(cfg.catalog)
    requires st.junctionCounts.Keys == st.splicedBsjJid.Keys
    requires Step(cfg, st, rec).Ok?
    ensures var next := Step(cfg, st, rec).value;
      && next.counted1 == st.counted1 + (if Survives(cfg.paired, rec) then {rec.name} else {})
      && next.spliced == st.spliced + (if SplicesHere(cfg.paired, rec) then {rec.name} else {})
      && next.counted2 == st.counted2 + (if Linked(cfg, rec) then {rec.name} else {})
      && next.splicedBsj == st.splicedBsj + (if AtJunction(cfg, rec) then {rec.name} else {})
      && next.primary == st.primary + (if Linked(cfg, rec) then [Tagged(rec, cfg.rid2jid[rec.name])] else [])
  {
    if Survives(cfg.paired, rec) {
      var t := Truncate(rec.ops);
      var s2 := NoteSplice(Admit(st, rec.name), rec.name, HasSplice(t));
      assert s2.spliced == st.spliced + (if SplicesHere(cfg.paired, rec) then {rec.name} else {});
      assert Step(cfg, st, rec) == if rec.name in cfg.rid2jid then Link(cfg, s2, rec, t) else Ok(s2);
      if rec.name in cfg.rid2jid {
        LinkEffect(cfg, s2, rec, t);
      }
    }
  }

  /** When the junction half of an iteration stops the program, and with which failure, in the
      order of the script: an id that does not split back (lines 205-208), an id missing from
      the table (210), and, with some per-region output open (214), a chromosome that no region
      lists (215). It goes on in every other case. */
  lemma LinkFailure(cfg: Config, st: State, rec: Record, t: seq<CigarOp>)
    requires WellFormed(cfg.catalog)
    requires st.junctionCounts.Keys == st.splicedBsjJid.Keys
    requires rec.name in cfg.rid2jid
    ensures var jid := cfg.rid2jid[rec.name];
      Decode(jid).None? ==> Link(cfg, st, rec, t) == Err(BadJunctionId(jid))
    ensures var jid := cfg.rid2jid[rec.name];
      Decode(jid).Some? && jid !in st.junctionCounts ==> Link(cfg, st, rec, t) == Err(UnknownJunction(jid))
    ensures var jid := cfg.rid2jid[rec.name];
      Decode(jid).Some? && jid in st.junctionCounts ==>
        var chrom := Decode(jid).value.chrom;
        && (Link(cfg, st, rec, t).Err? <==>
              OpenStreams(cfg.partition, cfg.hostOut, cfg.virusOut) != {} &&
              !exists n :: n in cfg.catalog.regions && chrom in cfg.catalog.regions[n].sequences)
        && (Link(cfg, st, rec, t).Err? ==> Link(cfg, st, rec, t) == Err(NoRegion(chrom)))
  {
    var jid := cfg.rid2jid[rec.name];
    if Decode(jid).Some? && jid in st.junctionCounts {
      var chrom := Decode(jid).value.chrom;
      var found := RegionOf(cfg.catalog, chrom);
      if found.Ok? {
        assert found.value in cfg.catalog.regions && chrom in cfg.catalog.regions[found.value].sequences;
      }
    }
  }

  /** When an iteration stops the program, and with which failure, in the order of the script:
      a surviving alignment without a match operation (line 187), then the failures of the
      junction half for a read with a junction. A filtered-out alignment never stops it, and
      neither does one that passes all of these checks. */
  lemma StepFailure(cfg: Config, st: State, rec: Record)
    requires WellFormed(cfg.catalog)
    requires st.junctionCounts.Keys == st.splicedBsjJid.Keys
    ensures Survives(cfg.paired, rec) && !HasMatch(rec.ops) ==> Step(cfg, st, rec) == Err(NoMatchOp(rec.name))
    ensures Step(cfg, st, rec).Err? <==>
      Survives(cfg.paired, rec) &&
      (!HasMatch(rec.ops) ||
       (rec.name in cfg.rid2jid &&
        var jid := cfg.rid2jid[rec.name];
        (Decode(jid).None? || jid !in st.junctionCounts ||
         (OpenStreams(cfg.partition, cfg.hostOut, cfg.virusOut) != {} &&
          !exists n :: n in cfg.catalog.regions && Decode(jid).value.chrom in cfg.catalog.regions[n].sequences))))
    ensures Survives(cfg.paired, rec) && HasMatch(rec.ops) && rec.name in cfg.rid2jid ==>
      var jid := cfg.rid2jid[rec.name];
      && (Decode(jid).None? ==> Step(cfg, st, rec) == Err(BadJunctionId(jid)))
      && (Decode(jid).Some? && jid !in st.junctionCounts ==> Step(cfg, st, rec) == Err(UnknownJunction(jid)))
      && (Decode(jid).Some? && jid in st.junctionCounts && Step(cfg, st, rec).Err? ==>
            Step(cfg, st, rec) == Err(NoRegion(Decode(jid).value.chrom)))
  {
    if Survives(cfg.paired, rec) && HasMatch(rec.ops) && rec.name in cfg.rid2jid {
      var t := Truncate(rec.ops);
      var s2 := NoteSplice(Admit(st, rec.name), rec.name, HasSplice(t));
      assert s2.junctionCounts == st.junctionCounts;
      LinkFailure(cfg, s2, rec, t);
    }
  }

  /** The whole loop over the alignments, in file order. */
  function Run(cfg: Config, st: State, recs: seq<Record>): (r: Result<State, Failure>)
    requires WellFormed(cfg.catalog)
    requires st.junctionCounts.Keys == st.splicedBsjJid.Keys
    ensures r.Ok? ==> r.value.junctionCounts.Keys == st.junctionCounts.Keys
    ensures r.Ok? ==> r.value.splicedBsjJid.Keys == st.splicedBsjJid.Keys
    decreases |recs|
  {
    if |recs| == 0 then Ok(st)
    else
      match Step(cfg, st, recs[0])
      case Err(e) => Err(e)
      case Ok(next) => Run(cfg, next, recs[1..])
  }

  /** The pass reaches alignment i, and that alignment stops the program. */
  predicate FailsAt(cfg: Config, st: State, recs: seq<Record>, i: int)
    requires WellFormed(cfg.catalog)
    requires st.junctionCounts.Keys == st.splicedBsjJid.Keys
    requires 0 <= i < |recs|
  {
    Run(cfg, st, recs[..i]).Ok? && Step(cfg, Run(cfg, st, recs[..i]).value, recs[i]).Err?
  }

  /** After an alignment that goes on, the pass over the first i alignments is the pass over
      the rest of them from the state that alignment leaves. */
  lemma RunShift(cfg: Config, st: State, recs: seq<Record>, i: int)
    requires WellFormed(cfg.catalog)
    requires st.junctionCounts.Keys == st.splicedBsjJid.Keys
    requires 0 < i <= |recs|
    requires Step(cfg, st, recs[0]).Ok?
    ensures Run(cfg, st, recs[..i]) == Run(cfg, Step(cfg, st, recs[0]).value, recs[1..][..i - 1])
  {
    assert recs[..i][0] == recs[0];
    assert recs[..i][1..] == recs[1..][..i - 1];
  }

  /** The pass stops exactly when one of its alignments stops the program, and it stops with
      the failure of the first such alignment: every earlier one went on. */
  lemma {:induction false} RunFailure(cfg: Config, st: State, recs: seq<Record>)
    requires WellFormed(cfg.catalog)
    requires st.junctionCounts.Keys == st.splicedBsjJid.Keys
    ensures Run(cfg, st, recs).Err? <==> exists i :: 0 <= i < |recs| && FailsAt(cfg, st, recs, i)
    ensures forall i :: 0 <= i < |recs| && FailsAt(cfg, st, recs, i) ==>
      Run(cfg, st, recs) == Err(Step(cfg, Run(cfg, st, recs[..i]).value, recs[i]).error)
    decreases |recs|
  {
    if |recs| > 0 {
      assert recs[..0] == [];
      match Step(cfg, st, recs[0])
      case Err(e) =>
        assert FailsAt(cfg, st, recs, 0);
        forall i | 0 < i < |recs| ensures !FailsAt(cfg, st, recs, i) {
          assert recs[..i][0] == recs[0];
        }
      case Ok(next) =>
        var rest := recs[1..];
        RunFailure(cfg, next, rest);
        assert Run(cfg, st, recs) == Run(cfg, next, rest);
        forall i | 0 < i < |recs|
          ensures Run(cfg, st, recs[..i]) == Run(cfg, next, rest[..i - 1])
          ensures FailsAt(cfg, st, recs, i) <==> FailsAt(cfg, next, rest, i - 1)
        {
          RunShift(cfg, st, recs, i);
          assert recs[i] == rest[i - 1];
        }
        if exists i :: 0 <= i < |rest| && FailsAt(cfg, next, rest, i) {
          var i :| 0 <= i < |rest| && FailsAt(cfg, next, rest, i);
          assert FailsAt(cfg, st, recs, i + 1);
        }
    }
  }

  /** Every linear read is filed under the junction its read maps to, and nothing else is filed. */
  predicate LinearFiled(rid2jid: map<string, string>, counted2: set<string>, jc: map<string, set<string>>)
  {
    && (forall r :: r in counted2 ==> r in rid2jid && rid2jid[r] in jc && r in jc[rid2jid[r]])
    && (forall k, r :: k in jc && r in jc[k] ==> r in counted2 && r in rid2jid && rid2jid[r] == k)
  }

  /** Every spliced-at-junction read is filed under its junction's spliced set, and every name in
      such a set is a spliced-at-junction read that the same junction's linear set also holds. */
  predicate SplicedFiled(rid2jid: map<string, string>, splicedBsj: set<string>,
                         sbj: map<string, set<string>>, jc: map<string, set<string>>)
  {
    && (forall r :: r in splicedBsj ==> r in rid2jid && rid2jid[r] in sbj && r in sbj[rid2jid[r]])
    && (forall k :: k in sbj ==> k in jc && sbj[k] <= jc[k] && sbj[k] <= splicedBsj)
  }

  /** Every write to the main output carries the junction of its read. */
  predicate PrimaryTagged(rid2jid: map<string, string>, primary: seq<Tagged>)
  {
    forall i :: 0 <= i < |primary| ==> primary[i].rec.name in rid2jid && primary[i].jid == rid2jid[primary[i].rec.name]
  }

  /** The invariants of the pass: each counter is the size of its set; a spliced read was
      counted, a spliced-at-junction read is spliced and linear; the per-junction sets hold
      exactly the linear reads, each under the junction its read maps to, and the spliced ones
      also under the spliced sets; every write to the main output carries its read's junction. */
  predicate Inv(cfg: Config, st: State)
  {
    && st.count1 == |st.counted1|
    && st.count2 == |st.counted2|
    && st.count3 == |st.spliced|
    && st.count4 == |st.splicedBsj|
    && st.junctionCounts.Keys == st.splicedBsjJid.Keys
    && st.counted2 <= st.counted1
    && st.spliced <= st.counted1
    && st.splicedBsj <= st.spliced
    && st.splicedBsj <= st.counted2
    && LinearFiled(cfg.rid2jid, st.counted2, st.junctionCounts)
    && SplicedFiled(cfg.rid2jid, st.splicedBsj, st.splicedBsjJid, st.junctionCounts)
    && PrimaryTagged(cfg.rid2jid, st.primary)
  }

  lemma InitialInv(cfg: Config, keys: seq<string>)
    ensures Inv(cfg, Initial(keys))
  {
  }

  lemma AdmitInv(cfg: Config, st: State, name: string)
    requires Inv(cfg, st)
    ensures Inv(cfg, Admit(st, name))
  {
    if name in st.counted1 {
      assert st.counted1 + {name} == st.counted1;
    }
  }

  lemma NoteSpliceInv(cfg: Config, st: State, name: string, splices: bool)
    requires Inv(cfg, st) && name in st.counted1
    ensures Inv(cfg, NoteSplice(st, name, splices))
  {
    if name !in st.spliced && splices {
      assert |st.spliced + {name}| == |st.spliced| + 1;
    }
  }

  lemma LinearFiledAdd(rid2jid: map<string, string>, counted2: set<string>, jc: map<string, set<string>>,
                        name: string, jid: string)
    requires LinearFiled(rid2jid, counted2, jc)
    requires name in rid2jid && jid == rid2jid[name] && jid in jc
    ensures LinearFiled(rid2jid, counted2 + {name}, jc[jid := jc[jid] + {name}])
  {
    var jc' := jc[jid := jc[jid] + {name}];
    forall k, r | k in jc' && r in jc'[k]
      ensures r in counted2 + {name} && r in rid2jid && rid2jid[r] == k
    {
      if !(k == jid && r == name) {
        assert r in jc[k];
      }
    }
  }

  lemma SplicedFiledGrow(rid2jid: map<string, string>, splicedBsj: set<string>,
                         sbj: map<string, set<string>>, jc: map<string, set<string>>, name: string, jid: string)
    requires SplicedFiled(rid2jid, splicedBsj, sbj, jc) && jid in jc
    ensures SplicedFiled(rid2jid, splicedBsj, sbj, jc[jid := jc[jid] + {name}])
  {
    var jc' := jc[jid := jc[jid] + {name}];
    forall k | k in sbj ensures k in jc' && sbj[k] <= jc'[k] {
      assert sbj[k] <= jc[k];
    }
  }

  lemma PrimaryTaggedSnoc(rid2jid: map<string, string>, primary: seq<Tagged>, rec: Record, jid: string)
    requires PrimaryTagged(rid2jid, primary)
    requires rec.name in rid2jid && jid == rid2jid[rec.name]
    ensures PrimaryTagged(rid2jid, primary + [Tagged(rec, jid)])
  {
    assert forall i :: 0 <= i < |primary| ==> (primary + [Tagged(rec, jid)])[i] == primary[i];
  }

  lemma NoteLinearInv(cfg: Config, st: State, rec: Record, jid: string)
    requires Inv(cfg, st) && rec.name in st.counted1
    requires rec.name in cfg.rid2jid && jid == cfg.rid2jid[rec.name] && jid in st.junctionCounts
    ensures Inv(cfg, NoteLinear(st, rec, jid))
  {
    LinearFiledAdd(cfg.rid2jid, st.counted2, st.junctionCounts, rec.name, jid);
    SplicedFiledGrow(cfg.rid2jid, st.splicedBsj, st.splicedBsjJid, st.junctionCounts, rec.name, jid);
    PrimaryTaggedSnoc(cfg.rid2jid, st.primary, rec, jid);
    if rec.name in st.counted2 {
      assert st.counted2 + {rec.name} == st.counted2;
    }
  }

  lemma NoteRegionsInv(cfg: Config, st: State, rec: Record, jid: string, targets: seq<string>)
    requires Inv(cfg, st)
    ensures Inv(cfg, NoteRegions(st, rec, jid, targets))
  {
  }

  lemma NoteAtJunctionInv(cfg: Config, st: State, name: string, jid: string)
    requires Inv(cfg, st) && name in st.spliced && name in st.counted2 && name !in st.splicedBsj
    requires name in cfg.rid2jid && jid == cfg.rid2jid[name] && jid in st.splicedBsjJid
    ensures Inv(cfg, NoteAtJunction(st, name, jid))
  {
    var next := NoteAtJunction(st, name, jid);
    assert |next.splicedBsj| == |st.splicedBsj| + 1;
    var sbj, sbj' := st.splicedBsjJid, next.splicedBsjJid;
    forall k | k in sbj'
      ensures k in st.junctionCounts && sbj'[k] <= st.junctionCounts[k] && sbj'[k] <= next.splicedBsj
    {
      assert sbj[k] <= st.junctionCounts[k];
    }
  }

  /** Every step keeps the invariants. */
  lemma StepInv(cfg: Config, st: State, rec: Record)
    requires WellFormed(cfg.catalog)
    requires Inv(cfg, st)
    requires Step(cfg, st, rec).Ok?
    ensures Inv(cfg, Step(cfg, st, rec).value)
  {
    if Survives(cfg.paired, rec) {
      var name := rec.name;
      var t := Truncate(rec.ops);
      var s1 := Admit(st, name);
      AdmitInv(cfg, st, name);
      var s2 := NoteSplice(s1, name, HasSplice(t));
      NoteSpliceInv(cfg, s1, name, HasSplice(t));
      if name in cfg.rid2jid {
        var jid := cfg.rid2jid[name];
        var j := Decode(jid).value;
        var targets := RouteJunction(cfg.catalog, cfg.partition, cfg.hostOut, cfg.virusOut, j.chrom).value;
        var s4 := NoteLinear(s2, rec, jid);
        NoteLinearInv(cfg, s2, rec, jid);
        var s5 := NoteRegions(s4, rec, jid, targets);
        NoteRegionsInv(cfg, s4, rec, jid, targets);
        if name in s5.spliced && HasSplice(t) && name !in s5.splicedBsj
           && SplicedAtJunction(rec.refStart, t, j.start, j.endIncl) {
          NoteAtJunctionInv(cfg, s5, name, jid);
        }
      }
    }
  }

  lemma {:induction false} RunInv(cfg: Config, st: State, recs: seq<Record>)
    requires WellFormed(cfg.catalog)
    requires Inv(cfg, st)
    requires Run(cfg, st, recs).Ok?
    ensures Inv(cfg, Run(cfg, st, recs).value)
    decreases |recs|
  {
    if |recs| > 0 {
      StepInv(cfg, st, recs[0]);
      RunInv(cfg, Step(cfg, st, recs[0]).value, recs[1..]);
    }
  }

  /** The four name sets phase 1 fills: `counted1`, `spliced`, `counted2`, `spliced_bsj`. */
  datatype Mark = Counted1 | Spliced | Counted2 | SplicedBsj

  function Marked(st: State, m: Mark): set<string>
  {
    match m
    case Counted1 => st.counted1
    case Spliced => st.spliced
    case Counted2 => st.counted2
    case SplicedBsj => st.splicedBsj
  }

  /** The condition under which an alignment puts its read's name in a set. */
  predicate Puts(cfg: Config, rec: Record, m: Mark)
    requires WellFormed(cfg.catalog)
  {
    match m
    case Counted1 => Survives(cfg.paired, rec)
    case Spliced => SplicesHere(cfg.paired, rec)
    case Counted2 => Linked(cfg, rec)
    case SplicedBsj => AtJunction(cfg, rec)
  }

  lemma StepMarks(cfg: Config, st: State, rec: Record, m: Mark)
    requires WellFormed(cfg.catalog)
    requires st.junctionCounts.Keys == st.splicedBsjJid.Keys
    requires Step(cfg, st, rec).Ok?
    ensures Marked(Step(cfg, st, rec).value, m) == Marked(st, m) + (if Puts(cfg, rec, m) then {rec.name} else {})
  {
    StepEffect(cfg, st, rec);
  }

  /** Some alignment of recs puts the name x in the set m. */
  predicate PutBy(cfg: Config, recs: seq<Record>, m: Mark, x: string)
    requires WellFormed(cfg.catalog)
  {
    exists i :: 0 <= i < |recs| && Puts(cfg, recs[i], m) && recs[i].name == x
  }

  lemma PutByCons(cfg: Config, recs: seq<Record>, m: Mark, x: string)
    requires WellFormed(cfg.catalog)
    requires |recs| > 0
    ensures PutBy(cfg, recs, m, x) <==>
      (Puts(cfg, recs[0], m) && recs[0].name == x) || PutBy(cfg, recs[1..], m, x)
  {
    var rest := recs[1..];
    if PutBy(cfg, rest, m, x) {
      var i :| 0 <= i < |rest| && Puts(cfg, rest[i], m) && rest[i].name == x;
      assert recs[i + 1] == rest[i];
    }
    if PutBy(cfg, recs, m, x) {
      var i :| 0 <= i < |recs| && Puts(cfg, recs[i], m) && recs[i].name == x;
      if i > 0 {
        assert rest[i - 1] == recs[i];
      }
    }
  }

  /** What a whole pass leaves in each set: a name is there exactly when it was there before or
      some alignment of the pass puts it there. Entries are never removed. */
  lemma {:induction false} RunMarks(cfg: Config, st: State, recs: seq<Record>, m: Mark, x: string)
    requires WellFormed(cfg.catalog)
    requires st.junctionCounts.Keys == st.splicedBsjJid.Keys
    requires Run(cfg, st, recs).Ok?
    ensures x in Marked(Run(cfg, st, recs).value, m) <==> x in Marked(st, m) || PutBy(cfg, recs, m, x)
    decreases |recs|
  {
    if |recs| > 0 {
      var next := Step(cfg, st, recs[0]).value;
      StepMarks(cfg, st, recs[0], m);
      RunMarks(cfg, next, recs[1..], m, x);
      assert Run(cfg, st, recs) == Run(cfg, next, recs[1..]);
      PutByCons(cfg, recs, m, x);
    }
  }

  /** The main output in order: every surviving alignment of a read that has a junction, each
      occurrence written again, tagged with the read's junction. */
  function PrimaryWrites(cfg: Config, recs: seq<Record>): seq<Tagged>
  {
    if |recs| == 0 then []
    else
      (if Linked(cfg, recs[0]) then [Tagged(recs[0], cfg.rid2jid[recs[0].name])] else [])
      + PrimaryWrites(cfg, recs[1..])
  }

  lemma {:induction false} PrimaryWritesMembers(cfg: Config, recs: seq<Record>, w: Tagged)
    ensures w in PrimaryWrites(cfg, recs) <==>
      w.rec in recs && Linked(cfg, w.rec) && w.jid == cfg.rid2jid[w.rec.name]
    decreases |recs|
  {
    if |recs| > 0 {
      PrimaryWritesMembers(cfg, recs[1..], w);
      assert recs == [recs[0]] + recs[1..];
    }
  }

  /** A pass appends exactly those writes to the main output. */
  lemma {:induction false} RunPrimary(cfg: Config, st: State, recs: seq<Record>)
    requires WellFormed(cfg.catalog)
    requires st.junctionCounts.Keys == st.splicedBsjJid.Keys
    requires Run(cfg, st, recs).Ok?
    ensures Run(cfg, st, recs).value.primary == st.primary + PrimaryWrites(cfg, recs)
    decreases |recs|
  {
    if |recs| > 0 {
      var next := Step(cfg, st, recs[0]).value;
      StepEffect(cfg, st, recs[0]);
      RunPrimary(cfg, next, recs[1..]);
      assert Run(cfg, st, recs) == Run(cfg, next, recs[1..]);
      var first := if Linked(cfg, recs[0]) then [Tagged(recs[0], cfg.rid2jid[recs[0].name])] else [];
      assert next.primary == st.primary + first;
      assert PrimaryWrites(cfg, recs) == first + PrimaryWrites(cfg, recs[1..]);
    }
  }

  /** The counters are ordered as the sets they count are nested: spliced and linear reads are
      counted reads, and reads spliced at their junction are both. */
  lemma CountOrder(cfg: Config, st: State)
    requires Inv(cfg, st)
    ensures st.count3 <= st.count1 && st.count2 <= st.count1
    ensures st.count4 <= st.count3 && st.count4 <= st.count2
  {
    SubsetSize(st.spliced, st.counted1);
    SubsetSize(st.counted2, st.counted1);
    SubsetSize(st.splicedBsj, st.spliced);
    SubsetSize(st.splicedBsj, st.counted2);
  }

  /** The per-junction sets split the linear reads, and the spliced-at-junction reads, among
      the junctions: their sizes add up to count2 and to count4. */
  lemma JunctionTotals(cfg: Config, keys: seq<string>, st: State)
    requires Inv(cfg, st)
    requires Distinct(keys) && st.junctionCounts.Keys == set k | k in keys
    ensures SumSizes(keys, st.junctionCounts) == st.count2
    ensures SumSizes(keys, st.splicedBsjJid) == st.count4
  {
    var jc, sbj := st.junctionCounts, st.splicedBsjJid;
    SumSizesOfPartition(keys, jc, cfg.rid2jid);
    forall v | v in UnionOf(keys, jc) ensures v in st.counted2 {
      UnionMembers(keys, jc, v);
    }
    forall v | v in st.counted2 ensures v in UnionOf(keys, jc) {
      UnionIncludes(keys, jc, cfg.rid2jid[v], v);
    }
    assert UnionOf(keys, jc) == st.counted2;
    forall k, v | k in sbj && v in sbj[k] ensures v in cfg.rid2jid && cfg.rid2jid[v] == k {
      assert v in jc[k];
    }
    SumSizesOfPartition(keys, sbj, cfg.rid2jid);
    forall v | v in UnionOf(keys, sbj) ensures v in st.splicedBsj {
      UnionMembers(keys, sbj, v);
    }
    forall v | v in st.splicedBsj ensures v in UnionOf(keys, sbj) {
      UnionIncludes(keys, sbj, cfg.rid2jid[v], v);
    }
    assert UnionOf(keys, sbj) == st.splicedBsj;
  }

  /** A write to a per-region output as the source makes it: the alignment is one of a read with
      a junction and carries that junction as its tag (set at line 212), the output is open, its
      region is the first one listing the chromosome of the read's junction (not the chromosome
      the read aligned to), and that region is a host or virus region, never an additive one. */
  predicate ProperWrite(cfg: Config, w: RegionWrite)
    requires WellFormed(cfg.catalog)
  {
    && Linked(cfg, w.tagged.rec)
    && w.tagged.jid == cfg.rid2jid[w.tagged.rec.name]
    && Decode(w.tagged.jid).Some?
    && RegionOf(cfg.catalog, Decode(w.tagged.jid).value.chrom) == Ok(w.region)
    && w.region in OpenStreams(cfg.partition, cfg.hostOut, cfg.virusOut)
    && cfg.catalog.regions[w.region].category != Additive
  }

  /** The writes the routing of lines 214-219 makes for an alignment of a read with a junction
      are proper, and there is at most one. */
  lemma RoutedWritesProper(cfg: Config, seqs: seq<string>, rec: Record)
    requires WellFormed(cfg.catalog)
    requires PartitionRegions(cfg.catalog, seqs) == Ok(cfg.partition)
    requires Linked(cfg, rec) && Decode(cfg.rid2jid[rec.name]).Some?
    requires RouteJunction(cfg.catalog, cfg.partition, cfg.hostOut, cfg.virusOut,
                           Decode(cfg.rid2jid[rec.name]).value.chrom).Ok?
    ensures var targets := RouteJunction(cfg.catalog, cfg.partition, cfg.hostOut, cfg.virusOut,
                                         Decode(cfg.rid2jid[rec.name]).value.chrom).value;
      && |Writes(rec, cfg.rid2jid[rec.name], targets)| <= 1
      && forall w :: w in Writes(rec, cfg.rid2jid[rec.name], targets) ==> w.tagged.rec == rec && ProperWrite(cfg, w)
  {
    RouteTargets(cfg.catalog, seqs, cfg.hostOut, cfg.virusOut, Decode(cfg.rid2jid[rec.name]).value.chrom);
  }

  lemma StepRegionWrites(cfg: Config, seqs: seq<string>, st: State, rec: Record)
    requires WellFormed(cfg.catalog)
    requires PartitionRegions(cfg.catalog, seqs) == Ok(cfg.partition)
    requires st.junctionCounts.Keys == st.splicedBsjJid.Keys
    requires Step(cfg, st, rec).Ok?
    ensures var next := Step(cfg, st, rec).value;
      && st.regionWrites <= next.regionWrites
      && |next.regionWrites| <= |st.regionWrites| + 1
      && forall w :: w in next.regionWrites[|st.regionWrites|..] ==> w.tagged.rec == rec && ProperWrite(cfg, w)
  {
    var next := Step(cfg, st, rec).value;
    if Survives(cfg.paired, rec) && rec.name in cfg.rid2jid {
      var t := Truncate(rec.ops);
      var s2 := NoteSplice(Admit(st, rec.name), rec.name, HasSplice(t));
      LinkEffect(cfg, s2, rec, t);
      var j := Decode(cfg.rid2jid[rec.name]).value;
      var targets := RouteJunction(cfg.catalog, cfg.partition, cfg.hostOut, cfg.virusOut, j.chrom).value;
      assert next.regionWrites[|st.regionWrites|..] == Writes(rec, cfg.rid2jid[rec.name], targets);
      RoutedWritesProper(cfg, seqs, rec);
    } else {
      assert next.regionWrites[|st.regionWrites|..] == [];
    }
  }

  /** Over a pass, the per-region outputs only grow, and every new write is proper and carries
      an alignment of the pass. */
  lemma {:induction false} RunRegionWrites(cfg: Config, seqs: seq<string>, st: State, recs: seq<Record>)
    requires WellFormed(cfg.catalog)
    requires PartitionRegions(cfg.catalog, seqs) == Ok(cfg.partition)
    requires st.junctionCounts.Keys == st.splicedBsjJid.Keys
    requires Run(cfg, st, recs).Ok?
    ensures var fin := Run(cfg, st, recs).value;
      && st.regionWrites <= fin.regionWrites
      && forall w :: w in fin.regionWrites[|st.regionWrites|..] ==> w.tagged.rec in recs && ProperWrite(cfg, w)
    decreases |recs|
  {
    var fin := Run(cfg, st, recs).value;
    if |recs| > 0 {
      var next := Step(cfg, st, recs[0]).value;
      StepRegionWrites(cfg, seqs, st, recs[0]);
      RunRegionWrites(cfg, seqs, next, recs[1..]);
      GainSplit(st.regionWrites, next.regionWrites, fin.regionWrites);
      forall w | w in fin.regionWrites[|next.regionWrites|..] ensures w.tagged.rec in recs {
        assert w.tagged.rec in recs[1..];
      }
    } else {
      assert fin.regionWrites[|st.regionWrites|..] == [];
    }
  }

  /** Lines 259-261: every alignment of a spliced read, in file order, with no filter at all
      (secondary, supplementary and improperly paired alignments included): exactly the
      alignments whose read is spliced. */
  function SplicedStream(spliced: set<string>, recs: seq<Record>): (out: seq<Record>)
    ensures |out| <= |recs|
    ensures forall rec :: rec in out <==> rec in recs && rec.name in spliced
  {
    if |recs| == 0 then []
    else
      var init, last := recs[..|recs| - 1], recs[|recs| - 1];
      assert recs == init + [last];
      SplicedStream(spliced, init) + (if last.name in spliced then [last] else [])
  }

  /** Lines 262-265: every alignment of a spliced-at-junction read, in file order, with no
      filter, tagged with the read's junction: exactly those alignments, each with its read's
      junction id. */
  function BsjStream(rid2jid: map<string, string>, splicedBsj: set<string>, recs: seq<Record>): (out: seq<Tagged>)
    requires splicedBsj <= rid2jid.Keys
    ensures |out| <= |recs|
    ensures forall w :: w in out <==> w.rec in recs && w.rec.name in splicedBsj && w.jid == rid2jid[w.rec.name]
  {
    if |recs| == 0 then []
    else
      var init, last := recs[..|recs| - 1], recs[|recs| - 1];
      assert recs == init + [last];
      BsjStream(rid2jid, splicedBsj, init)
      + (if last.name in splicedBsj then [Tagged(last, rid2jid[last.name])] else [])
  }
}
