/** Which regions get a BAM of their own: the `hosts` and `viruses` sets built from the BAM
    header (workflow/scripts/_extract_linear_reads.py:132-144), the per-region outputs opened
    for them (150-159), and the choice of per-region output for a read (214-219). */
module Routing {
  import opened Outcomes
  import opened Regions

  /** The `hosts` and `viruses` sets: region names. */
  datatype Partition = Partition(hosts: set<string>, viruses: set<string>)

  /** Lines 135-144 over the header's sequence names in order: each name's category is looked
      up, and a host or virus name adds its region to `hosts` or `viruses`. A sequence that no
      region lists stops the program. Only host regions of the catalog go to `hosts`, and only
      virus regions to `viruses`. */
  function PartitionRegions(c: Catalog, seqs: seq<string>): (r: Result<Partition, Failure>)
    requires WellFormed(c)
    ensures r.Ok? ==> forall n :: n in r.value.hosts ==> n in c.regions && c.regions[n].category == Host
    ensures r.Ok? ==> forall n :: n in r.value.viruses ==> n in c.regions && c.regions[n].category == Virus
  {
    if |seqs| == 0 then Ok(Partition({}, {}))
    else
      match PartitionRegions(c, seqs[..|seqs| - 1])
      case Err(e) => Err(e)
      case Ok(p) =>
        var s := seqs[|seqs| - 1];
        CategoryOfRegion(c, s);
        match CategoryOf(c, s)
        case Err(e) => Err(e)
        case Ok(hav) =>
          if hav == Host then
            match RegionOf(c, s)
            case Err(e) => Err(e)
            case Ok(n) => Ok(p.(hosts := p.hosts + {n}))
          else if hav == Virus then
            match RegionOf(c, s)
            case Err(e) => Err(e)
            case Ok(n) => Ok(p.(viruses := p.viruses + {n}))
          else Ok(p)
  }

  lemma {:induction false} PartitionStops(c: Catalog, seqs: seq<string>, k: nat)
    requires WellFormed(c)
    requires k <= |seqs|
    requires PartitionRegions(c, seqs[..k]).Err?
    ensures PartitionRegions(c, seqs) == PartitionRegions(c, seqs[..k])
    decreases |seqs|
  {
    if k < |seqs| {
      var init := seqs[..|seqs| - 1];
      assert init[..k] == seqs[..k];
      PartitionStops(c, init, k);
    } else {
      assert seqs[..k] == seqs;
    }
  }

  /** The header loop of lines 135-144. */
  method ClassifyHeader(c: Catalog, seqs: seq<string>) returns (r: Result<Partition, Failure>)
    requires WellFormed(c)
    ensures r == PartitionRegions(c, seqs)
  {
    var hosts: set<string> := {};
    var viruses: set<string> := {};
    for i := 0 to |seqs|
      invariant PartitionRegions(c, seqs[..i]) == Ok(Partition(hosts, viruses))
    {
      var s := seqs[i];
      assert seqs[..i + 1][..i] == seqs[..i];
      var hav := CategoryOf(c, s);
      if hav.Err? {
        PartitionStops(c, seqs, i + 1);
        return Err(hav.error);
      }
      if hav.value == Host {
        var hostname := RegionOf(c, s);
        if hostname.Err? {
          // the lookup of line 136 found a region that lists s, so this one does too
          assert false;
        }
        hosts := hosts + {hostname.value};
      }
      if hav.value == Virus {
        var virusname := RegionOf(c, s);
        if virusname.Err? {
          // the lookup of line 136 found a region that lists s, so this one does too
          assert false;
        }
        viruses := viruses + {virusname.value};
      }
    }
    assert seqs[..|seqs|] == seqs;
    return Ok(Partition(hosts, viruses));
  }

  /** The header loop stops the program exactly when some header sequence is listed by no
      region, and it names the first such sequence. */
  lemma {:induction false} PartitionFailure(c: Catalog, seqs: seq<string>)
    requires WellFormed(c)
    ensures PartitionRegions(c, seqs).Err? <==> exists i :: 0 <= i < |seqs| && RegionOf(c, seqs[i]).Err?
    ensures PartitionRegions(c, seqs).Err? ==>
      exists i :: (0 <= i < |seqs| && RegionOf(c, seqs[i]).Err? &&
        (forall j :: 0 <= j < i ==> RegionOf(c, seqs[j]).Ok?) &&
        PartitionRegions(c, seqs).error == NoRegion(seqs[i]))
  {
    if |seqs| > 0 {
      var init, s := seqs[..|seqs| - 1], seqs[|seqs| - 1];
      PartitionFailure(c, init);
      CategoryOfRegion(c, s);
      assert forall i :: 0 <= i < |init| ==> init[i] == seqs[i];
      if PartitionRegions(c, init).Err? {
        var i :| 0 <= i < |init| && RegionOf(c, init[i]).Err? &&
          (forall j :: 0 <= j < i ==> RegionOf(c, init[j]).Ok?) &&
          PartitionRegions(c, init).error == NoRegion(init[i]);
        assert RegionOf(c, seqs[i]).Err?;
      } else if RegionOf(c, s).Ok? {
        forall i | 0 <= i < |seqs| ensures RegionOf(c, seqs[i]).Ok? {
          if i < |init| {
            assert init[i] == seqs[i];
          }
        }
      }
    }
  }

  /** The set a category's regions go to: `hosts` or `viruses`; additive regions go nowhere. */
  function Side(p: Partition, cat: Category): set<string>
  {
    match cat
    case Host => p.hosts
    case Virus => p.viruses
    case Additive => {}
  }

  /** The last header sequence adds its region to the set of its category, and only to it. */
  lemma PartitionSnoc(c: Catalog, seqs: seq<string>, cat: Category)
    requires WellFormed(c)
    requires |seqs| > 0 && PartitionRegions(c, seqs).Ok?
    requires cat != Additive
    ensures PartitionRegions(c, seqs[..|seqs| - 1]).Ok? && RegionOf(c, seqs[|seqs| - 1]).Ok?
    ensures var n := RegionOf(c, seqs[|seqs| - 1]).value;
      Side(PartitionRegions(c, seqs).value, cat) ==
        Side(PartitionRegions(c, seqs[..|seqs| - 1]).value, cat) + (if c.regions[n].category == cat then {n} else {})
  {
    CategoryOfRegion(c, seqs[|seqs| - 1]);
  }

  /** `hosts` holds exactly the host regions that list some header sequence, and `viruses`
      exactly the virus regions that do. */
  lemma {:induction false} PartitionMembers(c: Catalog, seqs: seq<string>, n: string, cat: Category)
    requires WellFormed(c)
    requires PartitionRegions(c, seqs).Ok?
    requires cat != Additive
    ensures n in Side(PartitionRegions(c, seqs).value, cat) <==>
      exists i :: 0 <= i < |seqs| && RegionOf(c, seqs[i]) == Ok(n) && c.regions[n].category == cat
  {
    if |seqs| > 0 {
      var init, s := seqs[..|seqs| - 1], seqs[|seqs| - 1];
      PartitionSnoc(c, seqs, cat);
      PartitionMembers(c, init, n, cat);
      var before := Side(PartitionRegions(c, init).value, cat);
      if exists i :: 0 <= i < |seqs| && RegionOf(c, seqs[i]) == Ok(n) && c.regions[n].category == cat {
        var i :| 0 <= i < |seqs| && RegionOf(c, seqs[i]) == Ok(n) && c.regions[n].category == cat;
        if i < |init| {
          assert init[i] == seqs[i];
        }
      }
      if n in before {
        var i :| 0 <= i < |init| && RegionOf(c, init[i]) == Ok(n) && c.regions[n].category == cat;
        assert init[i] == seqs[i];
      }
    }
  }

  /** A region is never both a host and a virus region. */
  lemma PartitionDisjoint(c: Catalog, seqs: seq<string>)
    requires WellFormed(c)
    requires PartitionRegions(c, seqs).Ok?
    ensures PartitionRegions(c, seqs).value.hosts !! PartitionRegions(c, seqs).value.viruses
  {
    var p := PartitionRegions(c, seqs).value;
    forall n | n in p.hosts ensures n !in p.viruses {
      PartitionMembers(c, seqs, n, Host);
      PartitionMembers(c, seqs, n, Virus);
    }
  }

  /** The keys of `outputbams` (lines 150-158): the host regions when host output is on, and the
      virus regions when virus output is on. */
  function OpenStreams(p: Partition, hostOut: bool, virusOut: bool): set<string>
  {
    (if hostOut then p.hosts else {}) + (if virusOut then p.viruses else {})
  }

  /** Lines 214-219: when any per-region output is open, the region of the junction's
      chromosome is looked up (stopping the program if no region lists it), and the read goes
      to that region's output if the region is a host region with host output on or a virus
      region with virus output on. */
  function RouteJunction(c: Catalog, p: Partition, hostOut: bool, virusOut: bool, chrom: string)
    : (r: Result<seq<string>, Failure>)
    requires WellFormed(c)
    ensures r.Err? <==> OpenStreams(p, hostOut, virusOut) != {} && RegionOf(c, chrom).Err?
    ensures r.Ok? ==> forall n :: n in r.value <==>
      RegionOf(c, chrom) == Ok(n) && n in OpenStreams(p, hostOut, virusOut)
  {
    if OpenStreams(p, hostOut, virusOut) == {} then Ok([])
    else
      match RegionOf(c, chrom)
      case Err(e) => Err(e)
      case Ok(n) =>
        Ok((if n in p.hosts && hostOut then [n] else []) + (if n in p.viruses && virusOut then [n] else []))
  }

  /** With the sets the header loop builds, a read goes to at most one per-region output, that
      output exists, and it belongs to a host or virus region, never to an additive one. */
  lemma RouteTargets(c: Catalog, seqs: seq<string>, hostOut: bool, virusOut: bool, chrom: string)
    requires WellFormed(c)
    requires PartitionRegions(c, seqs).Ok?
    ensures var p := PartitionRegions(c, seqs).value;
      RouteJunction(c, p, hostOut, virusOut, chrom).Ok? ==>
        var targets := RouteJunction(c, p, hostOut, virusOut, chrom).value;
        && |targets| <= 1
        && forall n :: n in targets ==>
             && n in c.regions
             && c.regions[n].category != Additive
             && (c.regions[n].category == Host ==> hostOut)
             && (c.regions[n].category == Virus ==> virusOut)
  {
    var p := PartitionRegions(c, seqs).value;
    PartitionDisjoint(c, seqs);
    var r := RouteJunction(c, p, hostOut, virusOut, chrom);
    if r.Ok? {
      forall n | n in r.value
        ensures c.regions[n].category != Additive
        ensures c.regions[n].category == Host ==> hostOut
        ensures c.regions[n].category == Virus ==> virusOut
      {
        PartitionMembers(c, seqs, n, Host);
        PartitionMembers(c, seqs, n, Virus);
      }
    }
  }
}
