/** Junction ids: the string `chrom##start##end` under which the program files each
    back-splice junction (workflow/scripts/_extract_linear_reads.py:120-123), and the way
    it splits such a string back into its parts (205-208, 274-277). */
module JunctionIds {
  import opened Outcomes
  import opened Decimal

  /** A junction as its id records it: chromosome, 0-based start and inclusive end. */
  datatype Jid = Jid(chrom: string, start: int, endIncl: int)

  /** No "##" anywhere in the string. */
  predicate NoSeparator(p: string)
  {
    forall i :: 0 <= i < |p| - 1 ==> !(p[i] == '#' && p[i + 1] == '#')
  }

  /** A chromosome name that the separator cannot cut: no "##" inside it and no '#' at its end. */
  predicate SafeChrom(chrom: string)
  {
    && NoSeparator(chrom)
    && (|chrom| > 0 ==> chrom[|chrom| - 1] != '#')
  }

  /** Python's `s.split("##")`: the pieces between the separators found left to right,
      each search resuming after the separator just found. */
  function Split(s: string): (parts: seq<string>)
    ensures |parts| > 0
    decreases |s|
  {
    if |s| < 2 then [s]
    else if s[0] == '#' && s[1] == '#' then [""] + Split(s[2..])
    else
      var rest := Split(s[1..]);
      [[s[0]] + rest[0]] + rest[1..]
  }

  /** The first piece starts the string, and it is followed by the separator when more
      pieces follow. */
  lemma {:induction false} SplitFirst(s: string)
    ensures Split(s)[0] <= s
    ensures |Split(s)| > 1 ==> Split(s)[0] + "##" <= s
    decreases |s|
  {
    if |s| >= 2 && !(s[0] == '#' && s[1] == '#') {
      SplitFirst(s[1..]);
      var rest := Split(s[1..]);
      assert Split(s)[0] == [s[0]] + rest[0];
      assert s == [s[0]] + s[1..];
    }
  }

  /** The string is cut at every separator, found left to right: no piece contains "##", and
      no piece but the last ends in '#' (else the separator would have been found one
      character earlier). With `SplitFirst` and `JoinSplit` this pins the pieces down. */
  lemma {:induction false} SplitCuts(s: string)
    ensures forall i :: 0 <= i < |Split(s)| ==> NoSeparator(Split(s)[i])
    ensures forall i :: 0 <= i < |Split(s)| - 1 ==> SafeChrom(Split(s)[i])
    decreases |s|
  {
    if |s| >= 2 {
      if s[0] == '#' && s[1] == '#' {
        SplitCuts(s[2..]);
      } else {
        SplitCuts(s[1..]);
        SplitFirst(s[1..]);
        var rest := Split(s[1..]);
        var first := [s[0]] + rest[0];
        if |rest[0]| > 0 {
          assert rest[0][0] == s[1];
        }
        assert NoSeparator(first);
        if |rest| > 1 && |rest[0]| == 0 {
          assert s[1] == '#';
        }
        assert |rest| > 1 ==> SafeChrom(first);
        var parts := Split(s);
        assert parts == [first] + rest[1..];
      }
    }
  }

  /** `"##".join(parts)`. */
  function Join(parts: seq<string>): string
    requires |parts| > 0
  {
    if |parts| == 1 then parts[0] else parts[0] + "##" + Join(parts[1..])
  }

  /** Splitting loses nothing: joining the pieces gives back the string. */
  lemma {:induction false} JoinSplit(s: string)
    ensures Join(Split(s)) == s
    decreases |s|
  {
    if |s| >= 2 {
      if s[0] == '#' && s[1] == '#' {
        JoinSplit(s[2..]);
        assert s == "##" + s[2..];
      } else {
        JoinSplit(s[1..]);
        var rest := Split(s[1..]);
        if |rest| == 1 {
          assert s == [s[0]] + s[1..];
        } else {
          assert s == [s[0]] + (rest[0] + "##" + Join(rest[1..]));
        }
      }
    }
  }

  /** Line 123: the id of a junction. With a safe chromosome name it splits into exactly
      three pieces: the name and the decimal texts of start and inclusive end. */
  function Encode(j: Jid): (key: string)
    ensures SafeChrom(j.chrom) ==> Split(key) == [j.chrom, IntToString(j.start), IntToString(j.endIncl)]
  {
    var a, b := IntToString(j.start), IntToString(j.endIncl);
    var key := j.chrom + "##" + a + "##" + b;
    assert SafeChrom(j.chrom) ==> Split(key) == [j.chrom, a, b] by {
      if SafeChrom(j.chrom) {
        assert key == j.chrom + "##" + (a + "##" + b);
        SplitAfterChrom(j.chrom, a + "##" + b);
        SplitAfterChrom(a, b);
        SplitWithoutHash(b);
      }
    }
    key
  }

  /** Reading an id back as lines 205-208 and 274-277 do: the first three pieces of the split,
      the second and third taken as integers. Fewer than three pieces (IndexError) or a piece
      that is not an integer (ValueError) gives None. */
  function Decode(key: string): (r: Option<Jid>)
    ensures r.Some? ==> SafeChrom(r.value.chrom) && r.value.chrom + "##" <= key
  {
    SplitFirst(key);
    SplitCuts(key);
    var x := Split(key);
    if |x| < 3 then None
    else
      match (ParseInt(x[1]), ParseInt(x[2]))
      case (Some(s), Some(e)) => Some(Jid(x[0], s, e))
      case _ => None
  }

  lemma {:induction false} SplitAfterChrom(chrom: string, rest: string)
    requires SafeChrom(chrom)
    ensures Split(chrom + "##" + rest) == [chrom] + Split(rest)
    decreases |chrom|
  {
    var s := chrom + "##" + rest;
    if |chrom| == 0 {
      assert s[2..] == rest;
    } else {
      assert s[1..] == chrom[1..] + "##" + rest;
      SplitAfterChrom(chrom[1..], rest);
      assert [chrom[0]] + chrom[1..] == chrom;
    }
  }

  lemma {:induction false} SplitWithoutHash(s: string)
    requires forall i :: 0 <= i < |s| ==> s[i] != '#'
    ensures Split(s) == [s]
    decreases |s|
  {
    if |s| >= 2 {
      SplitWithoutHash(s[1..]);
      assert [s[0]] + s[1..] == s;
    }
  }

  /** Reading back an id built from a safe chromosome name gives the junction it was built from. */
  lemma DecodeEncode(j: Jid)
    requires SafeChrom(j.chrom)
    ensures Decode(Encode(j)) == Some(j)
  {
    ParseIntToString(j.start);
    ParseIntToString(j.endIncl);
  }

  /** Distinct junctions with safe chromosome names get distinct ids. */
  lemma EncodeInjective(j: Jid, k: Jid)
    requires SafeChrom(j.chrom) && SafeChrom(k.chrom)
    requires Encode(j) == Encode(k)
    ensures j == k
  {
    DecodeEncode(j);
    DecodeEncode(k);
  }

  /** "No '##' inside" alone is not enough: a chromosome name ending in '#' swallows the first
      '#' of the separator, and the start piece no longer reads as an integer. */
  lemma TrailingHashChrom()
    ensures Decode(Encode(Jid("a#", 1, 2))) == None
  {
    var key := Encode(Jid("a#", 1, 2));
    assert IntToString(1) == "1" && IntToString(2) == "2";
    var tail := "1" + "##" + "2";
    SplitAfterChrom("1", "2");
    SplitWithoutHash("2");
    assert Split(tail) == ["1", "2"];
    var t1 := "#" + tail;
    assert t1[0] == '#' && t1[1] == '1' && t1[1..] == tail;
    assert [t1[0]] + "1" == "#1";
    assert Split(t1) == ["#1", "2"];
    var t2 := "##" + t1;
    assert t2[2..] == t1;
    assert Split(t2) == ["", "#1", "2"];
    assert key == "a" + t2;
    assert key[0] == 'a' && key[1] == '#' && key[1..] == t2;
    assert [key[0]] + "" == "a";
    assert Split(key) == ["a", "#1", "2"];
    assert ParseInt("#1") == None;
  }

  /** A chromosome name with "##" inside is read back as a different junction, silently. */
  lemma InnerSeparatorChrom()
    ensures Decode(Encode(Jid("a##5", 1, 2))) == Some(Jid("a", 5, 1))
  {
    var key := Encode(Jid("a##5", 1, 2));
    assert IntToString(1) == "1" && IntToString(2) == "2";
    var tail := "1" + "##" + "2";
    var middle := "5" + "##" + tail;
    assert key == "a" + "##" + middle;
    SplitWithoutHash("2");
    SplitAfterChrom("1", "2");
    SplitAfterChrom("5", tail);
    SplitAfterChrom("a", middle);
    assert Split(key) == ["a", "5", "1", "2"];
    assert DigitsValue("5") == 5 && DigitsValue("1") == 1;
    assert ParseInt("5") == Some(5) && ParseInt("1") == Some(1);
  }
}
