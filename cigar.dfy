/** CIGAR geometry: truncation at the first match, the operation-code string and its "03"
    test, and the boundaries of the reference skips that are compared with a back-splice
    junction (workflow/scripts/_extract_linear_reads.py:185-196 and 222-249). */
module Cigar {
  import opened Outcomes
  import opened Decimal

  /** A BAM CIGAR operation code: M=0, I=1, D=2, N=3, S=4, H=5, P=6, '='=7, X=8, B=9. */
  type OpCode = c: int | 0 <= c <= 9

  const MATCH: OpCode := 0
  const REF_SKIP: OpCode := 3

  /** One entry of `read.cigartuples`. */
  datatype CigarOp = CigarOp(code: OpCode, length: nat)

  predicate HasMatch(ops: seq<CigarOp>)
  {
    exists i :: 0 <= i < |ops| && ops[i].code == MATCH
  }

  /** The list `.index(0)` of line 187 from position `from` on: the first match at or after it. */
  function MatchFrom(ops: seq<CigarOp>, from: nat): (i: nat)
    requires exists i :: from <= i < |ops| && ops[i].code == MATCH
    ensures from <= i < |ops| && ops[i].code == MATCH
    ensures forall j :: from <= j < i ==> ops[j].code != MATCH
    decreases |ops| - from
  {
    if ops[from].code == MATCH then from else MatchFrom(ops, from + 1)
  }

  /** Line 187: the operations from the first match on. The list starts with a match, and it
      is a suffix of the operations with only non-match operations dropped before it. */
  function Truncate(ops: seq<CigarOp>): (t: seq<CigarOp>)
    requires HasMatch(ops)
    ensures |t| > 0 && t[0].code == MATCH
    ensures |t| <= |ops| && t == ops[|ops| - |t|..]
    ensures forall j :: 0 <= j < |ops| - |t| ==> ops[j].code != MATCH
  {
    ops[MatchFrom(ops, 0)..]
  }

  /** `cigarstringorder` (lines 188-190): the decimal text of each code, concatenated. */
  function CodeString(t: seq<CigarOp>): (s: string)
    ensures |s| == |t|
    ensures forall i :: 0 <= i < |t| ==> s[i] == DigitChar(t[i].code)
  {
    if |t| == 0 then "" else CodeString(t[..|t| - 1]) + NatToString(t[|t| - 1].code)
  }

  /** The loop of lines 188-190. */
  method CodeOrder(t: seq<CigarOp>) returns (order: string)
    ensures order == CodeString(t)
  {
    order := "";
    for j := 0 to |t|
      invariant order == CodeString(t[..j])
    {
      assert t[..j + 1][..j] == t[..j];
      order := order + NatToString(t[j].code);
    }
    assert t[..|t|] == t;
  }

  /** Python's `"03" in s`. */
  predicate Occurs03(s: string)
  {
    exists i :: 0 <= i < |s| - 1 && s[i] == '0' && s[i + 1] == '3'
  }

  /** Python's `s.count("03")`: occurrences found left to right, each search resuming after
      the occurrence just found. */
  function Count03(s: string): nat
  {
    if |s| < 2 then 0
    else if s[0] == '0' && s[1] == '3' then 1 + Count03(s[2..])
    else Count03(s[1..])
  }

  /** A match immediately followed by a reference skip, at index j. */
  predicate IsTransition(t: seq<CigarOp>, j: int)
  {
    0 <= j < |t| - 1 && t[j].code == MATCH && t[j + 1].code == REF_SKIP
  }

  predicate HasSplice(t: seq<CigarOp>)
  {
    exists j :: 0 <= j < |t| - 1 && IsTransition(t, j)
  }

  /** The number of match-then-skip transitions. */
  function TransitionCount(t: seq<CigarOp>): nat
  {
    if |t| < 2 then 0 else (if IsTransition(t, 0) then 1 else 0) + TransitionCount(t[1..])
  }

  lemma {:induction false} TransitionCounted(t: seq<CigarOp>, j: int)
    requires IsTransition(t, j)
    ensures TransitionCount(t) >= 1
    decreases |t|
  {
    if j > 0 {
      assert IsTransition(t[1..], j - 1);
      TransitionCounted(t[1..], j - 1);
    }
  }

  /** Two different transitions make the count at least two. */
  lemma {:induction false} TwoTransitions(t: seq<CigarOp>, j: int, k: int)
    requires j < k && IsTransition(t, j) && IsTransition(t, k)
    ensures TransitionCount(t) >= 2
    decreases |t|
  {
    assert IsTransition(t[1..], k - 1);
    if j == 0 {
      TransitionCounted(t[1..], k - 1);
    } else {
      assert IsTransition(t[1..], j - 1);
      TwoTransitions(t[1..], j - 1, k - 1);
    }
  }

  /** The count is positive exactly when there is a transition. */
  lemma {:induction false} TransitionCountPositive(t: seq<CigarOp>)
    ensures TransitionCount(t) > 0 <==> HasSplice(t)
    decreases |t|
  {
    if HasSplice(t) {
      var j :| 0 <= j < |t| - 1 && IsTransition(t, j);
      TransitionCounted(t, j);
    } else if |t| >= 2 {
      TransitionCountPositive(t[1..]);
      if HasSplice(t[1..]) {
        var j :| 0 <= j < |t| - 2 && IsTransition(t[1..], j);
        assert IsTransition(t, j + 1);
      }
    }
  }

  lemma CodeStringDrop(t: seq<CigarOp>, k: nat)
    requires k <= |t|
    ensures CodeString(t)[k..] == CodeString(t[k..])
  {
  }

  /** Line 194: the string test finds "03" exactly when a match is immediately followed by a
      reference skip, because every code is a single decimal digit. */
  lemma SpliceTestAgrees(t: seq<CigarOp>)
    ensures Occurs03(CodeString(t)) <==> HasSplice(t)
  {
    var s := CodeString(t);
    if Occurs03(s) {
      var i :| 0 <= i < |s| - 1 && s[i] == '0' && s[i + 1] == '3';
      assert IsTransition(t, i);
    }
    if HasSplice(t) {
      var j :| 0 <= j < |t| - 1 && IsTransition(t, j);
      assert s[j] == '0' && s[j + 1] == '3';
    }
  }

  /** Line 229: `count("03")` of the code string is the number of transitions. */
  lemma {:induction false} SpliceCountAgrees(t: seq<CigarOp>)
    ensures Count03(CodeString(t)) == TransitionCount(t)
    decreases |t|
  {
    var s := CodeString(t);
    if |t| >= 2 {
      if IsTransition(t, 0) {
        CodeStringDrop(t, 2);
        SpliceCountAgrees(t[2..]);
        assert !IsTransition(t[1..], 0);
        assert t[1..][1..] == t[2..];
      } else {
        CodeStringDrop(t, 1);
        SpliceCountAgrees(t[1..]);
      }
    }
  }

  /** The sum of the operation lengths, of every kind (insertions and soft clips included). */
  function SumLengths(t: seq<CigarOp>): nat
  {
    if |t| == 0 then 0 else SumLengths(t[..|t| - 1]) + t[|t| - 1].length
  }

  /** The inner loop of lines 241-242: `add_coords` over ops 0..j. */
  method PrefixLength(t: seq<CigarOp>, j: nat) returns (add: nat)
    requires j < |t|
    ensures add == SumLengths(t[..j + 1])
  {
    add := 0;
    for k := 0 to j + 1
      invariant add == SumLengths(t[..k])
    {
      assert t[..k + 1][..k] == t[..k];
      add := add + t[k].length;
    }
  }

  /** A longer prefix covers at least as much. */
  lemma {:induction false} SumLengthsPrefix(t: seq<CigarOp>, j: nat, k: nat)
    requires j <= k <= |t|
    ensures SumLengths(t[..j]) <= SumLengths(t[..k])
    decreases k
  {
    if j < k {
      assert t[..k][..k - 1] == t[..k - 1];
      SumLengthsPrefix(t, j, k - 1);
    }
  }

  /** First and last reference position that a splice covers, 1-based. */
  datatype Span = Span(start: int, end: int)

  /** Lines 240-244: the span of the skip at transition j. */
  function BoundaryAt(refStart: int, t: seq<CigarOp>, j: int): Span
    requires IsTransition(t, j)
  {
    var start := refStart + SumLengths(t[..j + 1]) + 1;
    Span(start, start + t[j + 1].length - 1)
  }

  /** Later transitions never have an earlier start. */
  lemma BoundaryMonotone(refStart: int, t: seq<CigarOp>, j: int, k: int)
    requires j <= k && IsTransition(t, j) && IsTransition(t, k)
    ensures BoundaryAt(refStart, t, j).start <= BoundaryAt(refStart, t, k).start
  {
    SumLengthsPrefix(t, j + 1, k + 1);
  }

  /** Lines 231-232: the span computed from ops 0 and 1 whatever they are. */
  function SingleSpan(refStart: int, t: seq<CigarOp>): Span
    requires |t| >= 2
  {
    var start := refStart + t[0].length + 1;
    Span(start, start + t[1].length - 1)
  }

  function Abs(x: int): nat
  {
    if x < 0 then -x else x
  }

  /** Lines 233 and 245: start within two of the junction start, or end within two of its end. */
  predicate Near(b: Span, s: int, e: int)
  {
    Abs(b.start - s) < 3 || Abs(b.end - e) < 3
  }

  /** Some skip of the read lies at the junction. */
  predicate AnySpliceNear(refStart: int, t: seq<CigarOp>, s: int, e: int)
  {
    exists j :: 0 <= j < |t| - 1 && IsTransition(t, j) && Near(BoundaryAt(refStart, t, j), s, e)
  }

  /** The decision of lines 229-249: with exactly one "03" the span of ops 0 and 1 is compared,
      otherwise every transition is tried. When the list starts with a match followed by a skip,
      the decision finds exactly the alignments with some splice at the junction. */
  predicate SplicedAtJunction(refStart: int, t: seq<CigarOp>, s: int, e: int)
    requires HasSplice(t)
    ensures IsTransition(t, 0) ==> (SplicedAtJunction(refStart, t, s, e) <==> AnySpliceNear(refStart, t, s, e))
  {
    assert IsTransition(t, 0) && TransitionCount(t) == 1 ==>
      (Near(SingleSpan(refStart, t), s, e) <==> AnySpliceNear(refStart, t, s, e)) by {
      if IsTransition(t, 0) && TransitionCount(t) == 1 {
        SingleSpliceAtFront(refStart, t, s, e);
      }
    }
    if TransitionCount(t) == 1 then Near(SingleSpan(refStart, t), s, e)
    else AnySpliceNear(refStart, t, s, e)
  }

  /** The scan of lines 238-249: the first transition whose span lies at the junction; the
      `break` leaves the later transitions untried. */
  method FirstSpliceNear(refStart: int, t: seq<CigarOp>, s: int, e: int) returns (hit: Option<nat>)
    ensures hit.Some? <==> AnySpliceNear(refStart, t, s, e)
    ensures hit.Some? ==> IsTransition(t, hit.value) && Near(BoundaryAt(refStart, t, hit.value), s, e)
    ensures hit.Some? ==> forall k :: 0 <= k < hit.value && IsTransition(t, k) ==>
      !Near(BoundaryAt(refStart, t, k), s, e)
  {
    var j := 0;
    while j < |t| - 1
      invariant 0 <= j <= |t|
      invariant forall k :: 0 <= k < j && IsTransition(t, k) ==> !Near(BoundaryAt(refStart, t, k), s, e)
    {
      if t[j].code == MATCH && t[j + 1].code == REF_SKIP {
        var add := PrefixLength(t, j);
        var start := refStart + add + 1;
        var end := start + t[j + 1].length - 1;
        if Abs(start - s) < 3 || Abs(end - e) < 3 {
          assert IsTransition(t, j) && Near(BoundaryAt(refStart, t, j), s, e);
          return Some(j);
        }
      }
      j := j + 1;
    }
    return None;
  }

  /** Lines 229-249 for a truncated list whose code string contains "03". */
  method SpliceDecision(refStart: int, t: seq<CigarOp>, order: string, s: int, e: int) returns (hit: bool)
    requires order == CodeString(t) && HasSplice(t)
    ensures hit == SplicedAtJunction(refStart, t, s, e)
  {
    SpliceTestAgrees(t);
    SpliceCountAgrees(t);
    var nsplices := Count03(order);
    if nsplices == 1 {
      var start := refStart + t[0].length + 1;
      var end := start + t[1].length - 1;
      hit := Abs(start - s) < 3 || Abs(end - e) < 3;
    } else {
      var first := FirstSpliceNear(refStart, t, s, e);
      hit := first.Some?;
    }
  }

  /** When the only transition is at the front, the single-splice shortcut measures that
      transition's skip, so it gives the same answer as trying every transition. */
  lemma SingleSpliceAtFront(refStart: int, t: seq<CigarOp>, s: int, e: int)
    requires TransitionCount(t) == 1 && IsTransition(t, 0)
    ensures SingleSpan(refStart, t) == BoundaryAt(refStart, t, 0)
    ensures Near(SingleSpan(refStart, t), s, e) <==> AnySpliceNear(refStart, t, s, e)
  {
    var one := t[..1];
    assert one[..0] == [] && one[0] == t[0];
    assert SumLengths(one) == SumLengths(one[..0]) + t[0].length;
    assert SingleSpan(refStart, t) == BoundaryAt(refStart, t, 0);
    if AnySpliceNear(refStart, t, s, e) {
      var j :| 0 <= j < |t| - 1 && IsTransition(t, j) && Near(BoundaryAt(refStart, t, j), s, e);
      if j != 0 {
        TwoTransitions(t, 0, j);
      }
    }
  }

  /** With a single "03" that is not at the front (an insertion before the skip), the
      shortcut measures ops 0 and 1 instead of the skip: a read whose one skip lies exactly
      on the junction is not counted as spliced at it. */
  lemma SingleSpliceMisplaced()
    ensures var t := [CigarOp(0, 10), CigarOp(1, 2), CigarOp(0, 20), CigarOp(3, 100), CigarOp(0, 30)];
      && TransitionCount(t) == 1
      && BoundaryAt(1000, t, 2) == Span(1033, 1132)
      && AnySpliceNear(1000, t, 1033, 1132)
      && !SplicedAtJunction(1000, t, 1033, 1132)
  {
    var t := [CigarOp(0, 10), CigarOp(1, 2), CigarOp(0, 20), CigarOp(3, 100), CigarOp(0, 30)];
    assert t[1..][1..][1..][1..] == [CigarOp(0, 30)];
    var p1, p2, p3 := t[..1], t[..2], t[..3];
    assert p1[..0] == [] && p2[..1] == p1 && p3[..2] == p2;
    assert SumLengths(p1) == 10;
    assert SumLengths(p2) == 12;
    assert SumLengths(p3) == 32;
    assert IsTransition(t, 2);
  }
}
