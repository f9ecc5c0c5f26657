/** The region catalog: `read_regions` and the two for/else lookups over it
    (workflow/scripts/_extract_linear_reads.py:10-46). A region groups reference sequences
    (the host genome's chromosomes, an additive such as ERCC spike-ins, a virus genome). */
module Regions {
  import opened Outcomes
  import opened Collections

  datatype Category = Host | Additive | Virus

  /** A line of the regions file, already split: the region name, then its sequence names. */
  datatype RegionRow = RegionRow(name: string, sequences: seq<string>)

  /** The --host, --additives and --viruses values, each already split at commas. */
  datatype Lists = Lists(host: seq<string>, additives: seq<string>, viruses: seq<string>)

  /** What the `regions` dict holds under one name: its category and the set of its sequences. */
  datatype Region = Region(category: Category, sequences: set<string>)

  /** The `regions` dict: its names in insertion order, and the entry under each name. */
  datatype Catalog = Catalog(names: seq<string>, regions: map<string, Region>)

  predicate WellFormed(c: Catalog)
  {
    Distinct(c.names) && c.regions.Keys == set n | n in c.names
  }

  /** Lines 21-28: host before additive before virus; a name in none of the lists has no category. */
  function Classify(lists: Lists, name: string): (r: Option<Category>)
    ensures r.Some? <==> name in lists.host || name in lists.additives || name in lists.viruses
    ensures r == Some(Host) <==> name in lists.host
    ensures r == Some(Additive) <==> name !in lists.host && name in lists.additives
    ensures r == Some(Virus) ==> name !in lists.host && name !in lists.additives
  {
    if name in lists.host then Some(Host)
    else if name in lists.additives then Some(Additive)
    else if name in lists.viruses then Some(Virus)
    else None
  }

  /** The region names of the rows, in file order. */
  function RowNames(rows: seq<RegionRow>): seq<string>
  {
    if |rows| == 0 then [] else RowNames(rows[..|rows| - 1]) + [rows[|rows| - 1].name]
  }

  /** The catalog after reading the rows one by one; the first row whose name has no category
      stops the program. A repeated name keeps its place and takes the later row's entry. */
  function BuildCatalog(lists: Lists, rows: seq<RegionRow>): (r: Result<Catalog, Failure>)
    ensures r.Ok? ==> WellFormed(r.value)
  {
    if |rows| == 0 then Ok(Catalog([], map[]))
    else
      match BuildCatalog(lists, rows[..|rows| - 1])
      case Err(e) => Err(e)
      case Ok(c) =>
        var row := rows[|rows| - 1];
        match Classify(lists, row.name)
        case None => Err(UnknownRegion(row.name))
        case Some(cat) =>
          var names := if row.name in c.names then c.names else c.names + [row.name];
          Ok(Catalog(names, c.regions[row.name := Region(cat, set s | s in row.sequences)]))
  }

  /** Once a prefix of the file has stopped the program, the rest of the file is never read. */
  lemma {:induction false} BuildCatalogStops(lists: Lists, rows: seq<RegionRow>, k: nat)
    requires k <= |rows|
    requires BuildCatalog(lists, rows[..k]).Err?
    ensures BuildCatalog(lists, rows) == BuildCatalog(lists, rows[..k])
    decreases |rows|
  {
    if k < |rows| {
      var init := rows[..|rows| - 1];
      assert init[..k] == rows[..k];
      BuildCatalogStops(lists, init, k);
    } else {
      assert rows[..k] == rows;
    }
  }

  /** `read_regions` (lines 10-32): the loop over the file's rows. */
  method ReadRegions(lists: Lists, rows: seq<RegionRow>) returns (r: Result<Catalog, Failure>)
    ensures r == BuildCatalog(lists, rows)
  {
    var names: seq<string> := [];
    var regions: map<string, Region> := map[];
    var i := 0;
    while i < |rows|
      invariant 0 <= i <= |rows|
      invariant BuildCatalog(lists, rows[..i]) == Ok(Catalog(names, regions))
    {
      var row := rows[i];
      assert rows[..i + 1][..i] == rows[..i];
      var category: Category;
      if row.name in lists.host {
        category := Host;
      } else if row.name in lists.additives {
        category := Additive;
      } else if row.name in lists.viruses {
        category := Virus;
      } else {
        BuildCatalogStops(lists, rows, i + 1);
        return Err(UnknownRegion(row.name));
      }
      var sequences: set<string> := {};
      var j := 0;
      while j < |row.sequences|
        invariant 0 <= j <= |row.sequences|
        invariant sequences == set s | s in row.sequences[..j]
      {
        assert row.sequences[..j + 1] == row.sequences[..j] + [row.sequences[j]];
        sequences := sequences + {row.sequences[j]};
        j := j + 1;
      }
      assert row.sequences[..j] == row.sequences;
      if row.name !in names {
        names := names + [row.name];
      }
      regions := regions[row.name := Region(category, sequences)];
      i := i + 1;
    }
    assert rows[..i] == rows;
    return Ok(Catalog(names, regions));
  }

  /** The program stops exactly when some row's name is in none of the lists, and it names
      the first such row. */
  lemma {:induction false} BuildCatalogFailure(lists: Lists, rows: seq<RegionRow>)
    ensures BuildCatalog(lists, rows).Err? <==>
      exists i :: 0 <= i < |rows| && Classify(lists, rows[i].name).None?
    ensures BuildCatalog(lists, rows).Err? ==>
      exists i :: (0 <= i < |rows| && Classify(lists, rows[i].name).None? &&
        (forall j :: 0 <= j < i ==> Classify(lists, rows[j].name).Some?) &&
        BuildCatalog(lists, rows).error == UnknownRegion(rows[i].name))
  {
    if |rows| > 0 {
      var init := rows[..|rows| - 1];
      BuildCatalogFailure(lists, init);
      assert forall i :: 0 <= i < |init| ==> init[i] == rows[i];
      if BuildCatalog(lists, init).Err? {
        var i :| 0 <= i < |init| && Classify(lists, init[i].name).None? &&
          (forall j :: 0 <= j < i ==> Classify(lists, init[j].name).Some?) &&
          BuildCatalog(lists, init).error == UnknownRegion(init[i].name);
        assert Classify(lists, rows[i].name).None?;
      } else if Classify(lists, rows[|rows| - 1].name).Some? {
        forall i | 0 <= i < |rows| ensures Classify(lists, rows[i].name).Some? {
          if i < |init| {
            assert init[i] == rows[i];
          }
        }
      }
    }
  }

  /** The catalog's names are the rows' names in order of first appearance. */
  lemma {:induction false} CatalogNames(lists: Lists, rows: seq<RegionRow>)
    requires BuildCatalog(lists, rows).Ok?
    ensures BuildCatalog(lists, rows).value.names == Dedup(RowNames(rows))
  {
    if |rows| > 0 {
      var init := rows[..|rows| - 1];
      CatalogNames(lists, init);
      DedupSnoc(RowNames(init), rows[|rows| - 1].name);
    }
  }

  /** Each name holds the category its lists give it and the sequences of the LAST row
      that carries it. */
  lemma {:induction false} CatalogRegions(lists: Lists, rows: seq<RegionRow>, i: nat)
    requires BuildCatalog(lists, rows).Ok?
    requires i < |rows|
    requires forall j :: i < j < |rows| ==> rows[j].name != rows[i].name
    ensures Classify(lists, rows[i].name).Some?
    ensures rows[i].name in BuildCatalog(lists, rows).value.regions
    ensures BuildCatalog(lists, rows).value.regions[rows[i].name] ==
      Region(Classify(lists, rows[i].name).value, set s | s in rows[i].sequences)
  {
    var init := rows[..|rows| - 1];
    if i < |init| {
      assert init[i] == rows[i];
      CatalogRegions(lists, init, i);
    }
  }

  /** The for/else search of lines 35-39 and 42-46 from position `from` on: the index of the
      first name, in insertion order, whose region lists `s`. */
  function FindFrom(c: Catalog, s: string, from: nat): (r: Option<nat>)
    requires WellFormed(c)
    ensures r.Some? ==> from <= r.value < |c.names| && s in c.regions[c.names[r.value]].sequences
    ensures r.Some? ==> forall j :: from <= j < r.value ==> s !in c.regions[c.names[j]].sequences
    ensures r.None? ==> forall j :: from <= j < |c.names| ==> s !in c.regions[c.names[j]].sequences
    decreases |c.names| - from
  {
    if from >= |c.names| then None
    else if s in c.regions[c.names[from]].sequences then Some(from)
    else FindFrom(c, s, from + 1)
  }

  /** `_get_regionname_from_seqname` (lines 41-46): the name of the first region that lists the
      sequence; a sequence that no region lists stops the program. */
  function RegionOf(c: Catalog, s: string): (r: Result<string, Failure>)
    requires WellFormed(c)
    ensures r.Ok? ==> r.value in c.regions && s in c.regions[r.value].sequences
    ensures r.Err? ==> r.error == NoRegion(s) && forall n :: n in c.regions ==> s !in c.regions[n].sequences
  {
    match FindFrom(c, s, 0)
    case None => Err(NoRegion(s))
    case Some(i) => Ok(c.names[i])
  }

  /** The region found is the first in insertion order: no earlier region lists the sequence. */
  lemma RegionOfIsFirst(c: Catalog, s: string)
    requires WellFormed(c)
    requires RegionOf(c, s).Ok?
    ensures exists i :: (0 <= i < |c.names| && c.names[i] == RegionOf(c, s).value &&
      forall j :: 0 <= j < i ==> s !in c.regions[c.names[j]].sequences)
  {
    var i := FindFrom(c, s, 0).value;
    assert c.names[i] == RegionOf(c, s).value;
  }

  /** The category half of the same search, as `_get_host_additive_virus` (lines 34-39) runs it. */
  function CategoryFrom(c: Catalog, s: string, from: nat): Option<Category>
    requires WellFormed(c)
    decreases |c.names| - from
  {
    if from >= |c.names| then None
    else if s in c.regions[c.names[from]].sequences then Some(c.regions[c.names[from]].category)
    else CategoryFrom(c, s, from + 1)
  }

  /** `_get_host_additive_virus` (lines 34-39): the category of a region that lists the
      sequence; a sequence that no region lists stops the program. */
  function CategoryOf(c: Catalog, s: string): (r: Result<Category, Failure>)
    requires WellFormed(c)
    ensures r.Ok? ==> exists n :: n in c.regions && s in c.regions[n].sequences && c.regions[n].category == r.value
    ensures r.Err? ==> r.error == NoRegion(s) && forall n :: n in c.regions ==> s !in c.regions[n].sequences
  {
    CategoryFromAgrees(c, s, 0);
    match CategoryFrom(c, s, 0)
    case None => Err(NoRegion(s))
    case Some(cat) => Ok(cat)
  }

  lemma {:induction false} CategoryFromAgrees(c: Catalog, s: string, from: nat)
    requires WellFormed(c)
    ensures CategoryFrom(c, s, from) ==
      match FindFrom(c, s, from)
      case None => None
      case Some(i) => Some(c.regions[c.names[i]].category)
    decreases |c.names| - from
  {
    if from < |c.names| && s !in c.regions[c.names[from]].sequences {
      CategoryFromAgrees(c, s, from + 1);
    }
  }

  /** The two lookups walk the dict in the same order and stop at the same region: the category
      the program reads for a sequence is that of the region it later names for it, and both stop
      the program on the same sequences. */
  lemma CategoryOfRegion(c: Catalog, s: string)
    requires WellFormed(c)
    ensures CategoryOf(c, s).Ok? <==> RegionOf(c, s).Ok?
    ensures CategoryOf(c, s).Err? ==> CategoryOf(c, s) == Err(NoRegion(s))
    ensures RegionOf(c, s).Ok? ==> CategoryOf(c, s).value == c.regions[RegionOf(c, s).value].category
  {
    CategoryFromAgrees(c, s, 0);
  }
}
