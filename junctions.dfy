/** The per-sample junction table and the counts report built from it
    (workflow/scripts/_extract_linear_reads.py:116-127 and 272-280). */
module Junctions {
  import opened Outcomes
  import opened Collections
  import opened JunctionIds

  /** A line of the junction table, already split at tabs. */
  datatype TableLine =
    | Skipped                                        // a line containing "read_count": the header
    | Junction(chrom: string, start: int, end: int)  // end is exclusive

  /** The id line 123 files a junction line under: its end is made inclusive. */
  function LineKey(line: TableLine): string
    requires line.Junction?
  {
    Encode(Jid(line.chrom, line.start, line.end - 1))
  }

  /** The ids of the junction lines, one per line, in table order. */
  function LineKeys(lines: seq<TableLine>): seq<string>
  {
    if |lines| == 0 then []
    else
      var last := lines[|lines| - 1];
      LineKeys(lines[..|lines| - 1]) + (if last.Junction? then [LineKey(last)] else [])
  }

  /** An id is listed exactly when some junction line of the table is filed under it. */
  lemma {:induction false} LineKeysMembers(lines: seq<TableLine>, k: string)
    ensures k in LineKeys(lines) <==> exists i :: 0 <= i < |lines| && lines[i].Junction? && LineKey(lines[i]) == k
  {
    if |lines| > 0 {
      var init, last := lines[..|lines| - 1], lines[|lines| - 1];
      LineKeysMembers(init, k);
      assert forall i :: 0 <= i < |init| ==> init[i] == lines[i];
      if k in LineKeys(lines) && k !in LineKeys(init) {
        assert lines[|lines| - 1].Junction? && LineKey(lines[|lines| - 1]) == k;
      }
    }
  }

  /** The keys of `junction_counts` in dict order: a repeated line files the same id again,
      which keeps its first position. */
  function TableKeys(lines: seq<TableLine>): seq<string>
  {
    Dedup(LineKeys(lines))
  }

  /** Reading one more line of the table: a new id goes to the end, a known id stays in place. */
  lemma TableKeysSnoc(lines: seq<TableLine>, i: nat)
    requires i < |lines|
    ensures TableKeys(lines[..i + 1]) ==
      if lines[i].Junction? && LineKey(lines[i]) !in TableKeys(lines[..i])
      then TableKeys(lines[..i]) + [LineKey(lines[i])]
      else TableKeys(lines[..i])
  {
    var before, after := lines[..i], lines[..i + 1];
    assert after[..i] == before && after[i] == lines[i];
    var added := if lines[i].Junction? then [LineKey(lines[i])] else [];
    assert LineKeys(after) == LineKeys(before) + added;
    if lines[i].Junction? {
      DedupSnoc(LineKeys(before), LineKey(lines[i]));
    } else {
      assert LineKeys(before) + added == LineKeys(before);
    }
  }

  /** The two dicts filled from the table: each holds exactly the ids listed, each with an
      empty set of reads. */
  ghost predicate EmptyIndex(keys: seq<string>, linear: map<string, set<string>>, splicedLinear: map<string, set<string>>)
  {
    forall k :: (k in linear <==> k in keys) && (k in splicedLinear <==> k in keys)
      && (k in linear ==> linear[k] == {} && splicedLinear[k] == {})
  }

  /** Lines 123-126 for one junction line: its id is registered, at the end of the dict if new,
      with empty sets of linear and spliced linear reads. */
  method Register(keys: seq<string>, linear: map<string, set<string>>, splicedLinear: map<string, set<string>>,
                  jid: string)
    returns (keys': seq<string>, linear': map<string, set<string>>, splicedLinear': map<string, set<string>>)
    requires EmptyIndex(keys, linear, splicedLinear)
    ensures keys' == if jid in keys then keys else keys + [jid]
    ensures EmptyIndex(keys', linear', splicedLinear')
  {
    keys' := keys;
    if jid !in keys {
      keys' := keys + [jid];
    }
    linear' := linear[jid := {}];
    splicedLinear' := splicedLinear[jid := {}];
  }

  /** The table loop: every junction line registers its id with an empty set of linear reads and
      an empty set of spliced linear reads (a repeated line resets both to empty). */
  method IndexJunctions(lines: seq<TableLine>)
    returns (keys: seq<string>, linear: map<string, set<string>>, splicedLinear: map<string, set<string>>)
    ensures keys == TableKeys(lines)
    ensures EmptyIndex(keys, linear, splicedLinear)
  {
    keys, linear, splicedLinear := [], map[], map[];
    var i := 0;
    while i < |lines|
      invariant 0 <= i <= |lines|
      invariant keys == TableKeys(lines[..i])
      invariant EmptyIndex(keys, linear, splicedLinear)
    {
      TableKeysSnoc(lines, i);
      var line := lines[i];
      if line.Junction? {
        keys, linear, splicedLinear := Register(keys, linear, splicedLinear, LineKey(line));
      }
      i := i + 1;
    }
    assert lines[..i] == lines;
  }

  /** One line of the counts report: chromosome, start and end as printed, then the number of
      distinct linear reads and of distinct spliced linear reads of the junction. */
  datatype CountsRow = CountsRow(chrom: string, start: int, end: int, linear: nat, splicedLinear: nat)

  /** The row of lines 274-280 for a key that splits back: the chromosome, the start as stored,
      the inclusive end plus one, and the sizes of the key's two sets. */
  function ReportRow(jid: string, linear: map<string, set<string>>, splicedLinear: map<string, set<string>>): CountsRow
    requires Decode(jid).Some? && jid in linear && jid in splicedLinear
  {
    var j := Decode(jid).value;
    CountsRow(j.chrom, j.start, j.endIncl + 1, |linear[jid]|, |splicedLinear[jid]|)
  }

  /** The report loop: one row per key in order, the key split back into chromosome, start and
      inclusive end, the start printed as stored and the end plus one. A key that does not split
      back stops the program at that key. */
  function CountsReport(keys: seq<string>, linear: map<string, set<string>>,
                        splicedLinear: map<string, set<string>>): (r: Result<seq<CountsRow>, Failure>)
    requires forall k :: k in keys ==> k in linear && k in splicedLinear
    ensures r.Ok? <==> forall i :: 0 <= i < |keys| ==> Decode(keys[i]).Some?
    ensures r.Ok? ==> |r.value| == |keys| && forall i :: 0 <= i < |keys| ==>
      && Decode(keys[i]) == Some(Jid(r.value[i].chrom, r.value[i].start, r.value[i].end - 1))
      && r.value[i].linear == |linear[keys[i]]|
      && r.value[i].splicedLinear == |splicedLinear[keys[i]]|
  {
    if |keys| == 0 then Ok([])
    else
      match Decode(keys[0])
      case None => Err(BadJunctionId(keys[0]))
      case Some(_) =>
        var row := ReportRow(keys[0], linear, splicedLinear);
        match CountsReport(keys[1..], linear, splicedLinear)
        case Err(e) => Err(e)
        case Ok(rows) => Ok([row] + rows)
  }

  /** The report stops at the first key that does not split back, and names it. */
  lemma {:induction false} CountsReportFailure(keys: seq<string>, linear: map<string, set<string>>,
                                               splicedLinear: map<string, set<string>>)
    requires forall k :: k in keys ==> k in linear && k in splicedLinear
    requires CountsReport(keys, linear, splicedLinear).Err?
    ensures exists i :: (0 <= i < |keys| && Decode(keys[i]).None? &&
      (forall j :: 0 <= j < i ==> Decode(keys[j]).Some?) &&
      CountsReport(keys, linear, splicedLinear).error == BadJunctionId(keys[i]))
  {
    if Decode(keys[0]).Some? {
      CountsReportFailure(keys[1..], linear, splicedLinear);
      var i :| 0 <= i < |keys| - 1 && Decode(keys[1..][i]).None? &&
        (forall j :: 0 <= j < i ==> Decode(keys[1..][j]).Some?) &&
        CountsReport(keys[1..], linear, splicedLinear).error == BadJunctionId(keys[1..][i]);
      assert forall j :: 1 <= j < i + 1 ==> keys[j] == keys[1..][j - 1];
    }
  }

  /** Every id of the table comes from a junction line, and reads back as that line's
      chromosome, start and inclusive end when the line's chromosome name is safe. */
  lemma KeyOrigin(lines: seq<TableLine>, k: string) returns (n: nat)
    requires forall i :: 0 <= i < |lines| && lines[i].Junction? ==> SafeChrom(lines[i].chrom)
    requires k in TableKeys(lines)
    ensures n < |lines| && lines[n].Junction? && LineKey(lines[n]) == k
    ensures Decode(k) == Some(Jid(lines[n].chrom, lines[n].start, lines[n].end - 1))
  {
    LineKeysMembers(lines, k);
    n :| 0 <= n < |lines| && lines[n].Junction? && LineKey(lines[n]) == k;
    DecodeEncode(Jid(lines[n].chrom, lines[n].start, lines[n].end - 1));
  }

  /** For a table whose chromosome names are safe, every id reads back, so the report is
      produced; it has one row per distinct junction, in first-appearance order. */
  lemma TableReportOk(lines: seq<TableLine>, linear: map<string, set<string>>,
                      splicedLinear: map<string, set<string>>)
    requires forall i :: 0 <= i < |lines| && lines[i].Junction? ==> SafeChrom(lines[i].chrom)
    requires forall k :: k in TableKeys(lines) ==> k in linear && k in splicedLinear
    ensures CountsReport(TableKeys(lines), linear, splicedLinear).Ok?
  {
    var keys := TableKeys(lines);
    forall i | 0 <= i < |keys| ensures Decode(keys[i]).Some? {
      var n := KeyOrigin(lines, keys[i]);
    }
  }

  /** Each row prints the chromosome, start and end of some junction line exactly as the table
      has them, and no two rows print the same junction. */
  lemma ReportRowsFromTable(lines: seq<TableLine>, linear: map<string, set<string>>,
                            splicedLinear: map<string, set<string>>)
    requires forall i :: 0 <= i < |lines| && lines[i].Junction? ==> SafeChrom(lines[i].chrom)
    requires forall k :: k in TableKeys(lines) ==> k in linear && k in splicedLinear
    requires CountsReport(TableKeys(lines), linear, splicedLinear).Ok?
    ensures var rows := CountsReport(TableKeys(lines), linear, splicedLinear).value;
      && (forall r :: r in rows ==> exists i :: 0 <= i < |lines| && lines[i] == Junction(r.chrom, r.start, r.end))
      && (forall a, b :: 0 <= a < b < |rows| ==>
            (rows[a].chrom, rows[a].start, rows[a].end) != (rows[b].chrom, rows[b].start, rows[b].end))
  {
    var keys := TableKeys(lines);
    var rows := CountsReport(keys, linear, splicedLinear).value;
    forall r | r in rows ensures exists i :: 0 <= i < |lines| && lines[i] == Junction(r.chrom, r.start, r.end) {
      var a :| 0 <= a < |rows| && rows[a] == r;
      var n := KeyOrigin(lines, keys[a]);
      assert lines[n] == Junction(r.chrom, r.start, r.end);
    }
    forall a, b | 0 <= a < b < |rows|
      ensures (rows[a].chrom, rows[a].start, rows[a].end) != (rows[b].chrom, rows[b].start, rows[b].end)
    {
      var n := KeyOrigin(lines, keys[a]);
      var m := KeyOrigin(lines, keys[b]);
      assert keys[a] != keys[b];
    }
  }

  /** Every junction line of the table has its row, whether or not any read reached it. */
  lemma TableLinesReported(lines: seq<TableLine>, linear: map<string, set<string>>,
                           splicedLinear: map<string, set<string>>)
    requires forall i :: 0 <= i < |lines| && lines[i].Junction? ==> SafeChrom(lines[i].chrom)
    requires forall k :: k in TableKeys(lines) ==> k in linear && k in splicedLinear
    requires CountsReport(TableKeys(lines), linear, splicedLinear).Ok?
    ensures var rows := CountsReport(TableKeys(lines), linear, splicedLinear).value;
      forall i :: 0 <= i < |lines| && lines[i].Junction? ==>
        exists r :: r in rows && lines[i] == Junction(r.chrom, r.start, r.end)
  {
    var keys := TableKeys(lines);
    var rows := CountsReport(keys, linear, splicedLinear).value;
    forall i | 0 <= i < |lines| && lines[i].Junction?
      ensures exists r :: r in rows && lines[i] == Junction(r.chrom, r.start, r.end)
    {
      var k := LineKey(lines[i]);
      LineKeysMembers(lines, k);
      assert k in keys;
      var a :| 0 <= a < |keys| && keys[a] == k;
      var j := Jid(lines[i].chrom, lines[i].start, lines[i].end - 1);
      DecodeEncode(j);
      assert Decode(k) == Some(j);
      assert rows[a] in rows && lines[i] == Junction(rows[a].chrom, rows[a].start, rows[a].end);
    }
  }

  /** The totals of the report's fourth and fifth columns. */
  function LinearColumn(rows: seq<CountsRow>): nat
  {
    if |rows| == 0 then 0 else rows[0].linear + LinearColumn(rows[1..])
  }

  function SplicedColumn(rows: seq<CountsRow>): nat
  {
    if |rows| == 0 then 0 else rows[0].splicedLinear + SplicedColumn(rows[1..])
  }

  /** The fourth column adds up the sizes of the linear sets of the junctions in the report,
      and the fifth those of the spliced linear sets. */
  lemma {:induction false} ColumnSums(keys: seq<string>, linear: map<string, set<string>>,
                                      splicedLinear: map<string, set<string>>)
    requires forall k :: k in keys ==> k in linear && k in splicedLinear
    requires CountsReport(keys, linear, splicedLinear).Ok?
    ensures LinearColumn(CountsReport(keys, linear, splicedLinear).value) == SumSizes(keys, linear)
    ensures SplicedColumn(CountsReport(keys, linear, splicedLinear).value) == SumSizes(keys, splicedLinear)
  {
    if |keys| > 0 {
      var rows := CountsReport(keys, linear, splicedLinear).value;
      ColumnSums(keys[1..], linear, splicedLinear);
      assert rows[1..] == CountsReport(keys[1..], linear, splicedLinear).value;
    }
  }
}
