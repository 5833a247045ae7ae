/** The rules for one line (a row or a column) of the 2048 board: compaction,
    the single left-to-right merge scan, and zero padding. Everything here is a
    pure function on values; the imperative merge loop of the engine is proved
    against `Merged` and `MergeScore`. */
module Lines {

  /** Side length of the board: every row and every column has this many cells. */
  const Size: nat := 4

  /** The non-empty tiles of a line, in their original order: every non-zero
      value is kept as often as it occurs and every zero is dropped
      (`CompactMultiset`), and the order is kept piece by piece
      (`CompactAppend`). */
  function Compact(s: seq<int>): (r: seq<int>)
    ensures |r| <= |s|
    ensures forall x :: x in r <==> x in s && x != 0
  {
    if s == [] then []
    else if s[0] == 0 then Compact(s[1..])
    else [s[0]] + Compact(s[1..])
  }

  /** The line after one left-to-right merge scan: two equal neighbours become
      one doubled tile, and the tile after a merged pair is looked at afresh, so
      a tile born from a merge never merges again in the same scan. */
  function Merged(s: seq<int>): (r: seq<int>)
    ensures |r| <= |s|
  {
    if |s| == 0 then []
    else if 1 < |s| && s[0] == s[1] then [s[0] * 2] + Merged(s[2..])
    else [s[0]] + Merged(s[1..])
  }

  /** The points one merge scan earns: the sum of the doubled tiles it creates. */
  function MergeScore(s: seq<int>): (gain: int)
    ensures (forall i :: 0 <= i < |s| ==> 0 <= s[i]) ==> 0 <= gain
  {
    if |s| == 0 then 0
    else if 1 < |s| && s[0] == s[1] then s[0] * 2 + MergeScore(s[2..])
    else MergeScore(s[1..])
  }

  function Zeros(n: nat): seq<int>
  {
    seq(n, _ => 0)
  }

  /** Fills a line with empty cells up to the board size. */
  function Pad(s: seq<int>): (r: seq<int>)
    requires |s| <= Size
    ensures |r| == Size
  {
    s + Zeros(Size - |s|)
  }

  function Reverse(s: seq<int>): seq<int>
  {
    seq(|s|, i requires 0 <= i < |s| => s[|s| - 1 - i])
  }

  /** A line slid toward its index 0: compact, merge once, pad. */
  function Slide(line: seq<int>): seq<int>
    requires |line| <= Size
  {
    Pad(Merged(Compact(line)))
  }

  function Sum(s: seq<int>): int
  {
    if s == [] then 0 else s[0] + Sum(s[1..])
  }

  function Run(v: int, n: nat): seq<int>
  {
    seq(n, _ => v)
  }

  /** Some two neighbouring cells of the line hold the same value. */
  predicate HasEqualNeighbours(s: seq<int>)
  {
    exists i :: 0 <= i && i + 1 < |s| && s[i] == s[i + 1]
  }

  /** All tiles come first, all empty cells after them. */
  predicate PackedLeft(s: seq<int>)
  {
    forall i, j :: 0 <= i < j < |s| && s[i] == 0 ==> s[j] == 0
  }

  predicate IsPowerOfTwo(v: int)
    decreases if v < 0 then 0 else v
  {
    v == 1 || (1 < v && v % 2 == 0 && IsPowerOfTwo(v / 2))
  }

  /** A cell value the game can hold: empty, or 2, 4, 8, ... */
  predicate IsTile(v: int)
  {
    v == 0 || (2 <= v && IsPowerOfTwo(v))
  }

  predicate AllTiles(s: seq<int>)
  {
    forall x :: x in s ==> IsTile(x)
  }

  // ---------------------------------------------------------------------------
  // Sequence facts

  lemma {:induction false} SumAppend(s: seq<int>, t: seq<int>)
    ensures Sum(s + t) == Sum(s) + Sum(t)
  {
    if s == [] {
      assert s + t == t;
    } else {
      assert (s + t)[1..] == s[1..] + t;
      SumAppend(s[1..], t);
    }
  }

  lemma {:induction false} SumZeros(n: nat)
    ensures Sum(Zeros(n)) == 0
  {
    if n > 0 {
      assert Zeros(n)[1..] == Zeros(n - 1);
      SumZeros(n - 1);
    }
  }

  lemma ReverseReverse(s: seq<int>)
    ensures Reverse(Reverse(s)) == s
  {
  }

  lemma ReverseAppend(s: seq<int>, t: seq<int>)
    ensures Reverse(s + t) == Reverse(t) + Reverse(s)
  {
  }

  lemma {:induction false} CompactAppend(s: seq<int>, t: seq<int>)
    ensures Compact(s + t) == Compact(s) + Compact(t)
  {
    if s == [] {
      assert s + t == t;
    } else {
      assert (s + t)[1..] == s[1..] + t;
      CompactAppend(s[1..], t);
    }
  }

  /** Compacting keeps every non-zero value exactly as often as it occurs
      and drops every zero. */
  lemma {:induction false} CompactMultiset(s: seq<int>)
    ensures multiset(Compact(s)) == multiset(s)[0 := 0]
  {
    if s != [] {
      assert s == [s[0]] + s[1..];
      CompactMultiset(s[1..]);
    }
  }

  /** Compacting a reversed line gives the reversed compacted line; this is
      why compacting before or after reversing makes no difference. */
  lemma {:induction false} CompactReverse(s: seq<int>)
    ensures Compact(Reverse(s)) == Reverse(Compact(s))
  {
    if s != [] {
      assert s == [s[0]] + s[1..];
      ReverseAppend([s[0]], s[1..]);
      assert Reverse([s[0]]) == [s[0]];
      CompactAppend(Reverse(s[1..]), [s[0]]);
      CompactReverse(s[1..]);
      if s[0] != 0 {
        ReverseAppend([s[0]], Compact(s[1..]));
      }
    }
  }

  lemma {:induction false} CompactIdentity(s: seq<int>)
    requires 0 !in s
    ensures Compact(s) == s
  {
    if s != [] {
      assert s[0] != 0;
      assert 0 !in s[1..];
      CompactIdentity(s[1..]);
    }
  }

  lemma {:induction false} CompactZeros(n: nat)
    ensures Compact(Zeros(n)) == []
  {
    if n > 0 {
      assert Zeros(n)[1..] == Zeros(n - 1);
      CompactZeros(n - 1);
    }
  }

  /** Compaction keeps the sum of the line. */
  lemma {:induction false} CompactSum(s: seq<int>)
    ensures Sum(Compact(s)) == Sum(s)
  {
    if s != [] {
      CompactSum(s[1..]);
    }
  }

  // ---------------------------------------------------------------------------
  // The merge scan

  /** Merging keeps the sum of the line: each merge replaces v, v by 2v. */
  lemma {:induction false} MergedSum(s: seq<int>)
    ensures Sum(Merged(s)) == Sum(s)
  {
    if |s| == 0 {
    } else if 1 < |s| && s[0] == s[1] {
      MergedSum(s[2..]);
      assert s[1..][1..] == s[2..];
    } else {
      MergedSum(s[1..]);
    }
  }

  /** No rescan: every tile of the merged line consumes at most two input
      tiles, so the merged line is never shorter than half the input. */
  lemma {:induction false} MergedAtLeastHalf(s: seq<int>)
    ensures |s| <= 2 * |Merged(s)|
  {
    if |s| == 0 {
    } else if 1 < |s| && s[0] == s[1] {
      MergedAtLeastHalf(s[2..]);
    } else {
      MergedAtLeastHalf(s[1..]);
    }
  }

  /** No rescan, on a run of n equal tiles v: the scan pairs them off into
      n / 2 tiles 2v (plus one v when n is odd) and scores those new tiles;
      it never goes on to merge the 2v tiles with each other. */
  lemma {:induction false} MergeRun(v: int, n: nat)
    ensures Merged(Run(v, n)) == Run(v * 2, n / 2) + Run(v, n % 2)
    ensures MergeScore(Run(v, n)) == Sum(Run(v * 2, n / 2))
  {
    if n == 1 {
      assert Run(v, 1)[1..] == [];
    } else if n >= 2 {
      assert Run(v, n)[2..] == Run(v, n - 2);
      MergeRun(v, n - 2);
      assert Run(v * 2, n / 2) == [v * 2] + Run(v * 2, (n - 2) / 2);
      assert Run(v * 2, n / 2)[1..] == Run(v * 2, (n - 2) / 2);
    }
  }

  /** Two worked cases of the no-rescan rule: four equal tiles make two, not one. */
  lemma NoRescanExamples()
    ensures Slide([2, 2, 2, 2]) == [4, 4, 0, 0] && MergeScore(Compact([2, 2, 2, 2])) == 8
    ensures Slide([2, 2, 4]) == [4, 4, 0, 0] && MergeScore(Compact([2, 2, 4])) == 4
  {
    assert Compact([2, 2, 2, 2]) == [2, 2, 2, 2] by { CompactIdentity([2, 2, 2, 2]); }
    assert Compact([2, 2, 4]) == [2, 2, 4] by { CompactIdentity([2, 2, 4]); }
    assert [2, 2, 2, 2][2..] == [2, 2];
    assert [2, 2, 4][2..] == [4];
  }

  /** The scan merges at least once exactly when two neighbours are equal; on
      positive tiles the same condition decides whether it scores. */
  lemma {:induction false} MergeOccursIff(s: seq<int>)
    ensures |Merged(s)| < |s| <==> HasEqualNeighbours(s)
    ensures (forall i :: 0 <= i < |s| ==> 0 < s[i]) ==> (0 < MergeScore(s) <==> HasEqualNeighbours(s))
  {
    if |s| == 0 {
    } else if 1 < |s| && s[0] == s[1] {
      assert s[0] == s[0 + 1];
      assert (forall i :: 0 <= i < |s| ==> 0 < s[i]) ==> (forall i :: 0 <= i < |s[2..]| ==> 0 <= s[2..][i]);
    } else {
      MergeOccursIff(s[1..]);
      NeighboursShift(s);
      assert (forall i :: 0 <= i < |s| ==> 0 < s[i]) ==> (forall i :: 0 <= i < |s[1..]| ==> 0 < s[1..][i]);
    }
  }

  lemma NeighboursShift(s: seq<int>)
    requires 0 < |s| && (1 < |s| ==> s[0] != s[1])
    ensures HasEqualNeighbours(s) <==> HasEqualNeighbours(s[1..])
  {
    if HasEqualNeighbours(s) {
      var i :| 0 <= i && i + 1 < |s| && s[i] == s[i + 1];
      assert s[1..][i - 1] == s[1..][i];
    }
    if HasEqualNeighbours(s[1..]) {
      var i :| 0 <= i && i + 1 < |s[1..]| && s[1..][i] == s[1..][i + 1];
      assert s[i + 1] == s[i + 2];
    }
  }

  /** Padding a zero-free line leaves its empty cells after all its tiles. */
  lemma PadPacked(m: seq<int>)
    requires |m| <= Size && 0 !in m
    ensures PackedLeft(Pad(m))
  {
    var p := Pad(m);
    forall i | 0 <= i < |m| ensures p[i] != 0 {
      assert p[i] == m[i] && m[i] in m;
    }
    forall j | |m| <= j < |p| ensures p[j] == 0 {
      assert p[j] == Zeros(Size - |m|)[j - |m|];
    }
    forall i, j | 0 <= i < j < |p| && p[i] == 0 ensures p[j] == 0 {
      assert |m| <= i;
    }
  }

  /** A line without equal neighbours passes the scan unchanged and scores nothing. */
  lemma {:induction false} MergedIdentity(s: seq<int>)
    requires !HasEqualNeighbours(s)
    ensures Merged(s) == s && MergeScore(s) == 0
  {
    if |s| > 0 {
      if 1 < |s| {
        assert !(s[0] == s[0 + 1]);
      }
      NeighboursShift(s);
      MergedIdentity(s[1..]);
    }
  }

  lemma {:induction false} MergedNonZero(s: seq<int>)
    requires 0 !in s
    ensures 0 !in Merged(s)
  {
    if |s| == 0 {
    } else if 1 < |s| && s[0] == s[1] {
      assert 0 !in s[2..];
      MergedNonZero(s[2..]);
    } else {
      assert 0 !in s[1..];
      MergedNonZero(s[1..]);
    }
  }

  lemma DoubleTile(v: int)
    requires IsTile(v)
    ensures IsTile(v * 2)
  {
    if v != 0 {
      assert (v * 2) / 2 == v;
    }
  }

  lemma {:induction false} MergedKeepsTiles(s: seq<int>)
    requires AllTiles(s)
    ensures AllTiles(Merged(s))
  {
    if |s| == 0 {
    } else if 1 < |s| && s[0] == s[1] {
      assert s[0] in s;
      DoubleTile(s[0]);
      assert AllTiles(s[2..]) by {
        forall x | x in s[2..] ensures IsTile(x) { assert x in s; }
      }
      MergedKeepsTiles(s[2..]);
    } else {
      assert s[0] in s;
      assert AllTiles(s[1..]) by {
        forall x | x in s[1..] ensures IsTile(x) { assert x in s; }
      }
      MergedKeepsTiles(s[1..]);
    }
  }

  // ---------------------------------------------------------------------------
  // A whole slid line

  lemma PadShape(m: seq<int>)
    requires |m| <= Size && 0 !in m
    ensures PackedLeft(Pad(m))
    ensures Compact(Pad(m)) == m
    ensures Sum(Pad(m)) == Sum(m)
  {
    PadPacked(m);
    CompactAppend(m, Zeros(Size - |m|));
    CompactIdentity(m);
    CompactZeros(Size - |m|);
    SumAppend(m, Zeros(Size - |m|));
    SumZeros(Size - |m|);
  }

  /** A slid line has the board's length, its tiles packed at index 0 and
      zeros after them, the same sum, and no more tiles than before. */
  lemma SlideProperties(line: seq<int>)
    requires |line| <= Size
    ensures |Slide(line)| == Size
    ensures PackedLeft(Slide(line))
    ensures Sum(Slide(line)) == Sum(line)
    ensures |Compact(Slide(line))| <= |Compact(line)|
    ensures AllTiles(line) ==> AllTiles(Slide(line))
  {
    var c := Compact(line);
    MergedNonZero(c);
    PadShape(Merged(c));
    MergedSum(c);
    CompactSum(line);
    if AllTiles(line) {
      MergedKeepsTiles(c);
      var p := Slide(line);
      forall x | x in p ensures IsTile(x) {
        if x != 0 {
          assert x in Compact(p);
        }
      }
    }
  }

  /** A full line with no equal neighbours is left exactly as it was. */
  lemma SlideFixed(line: seq<int>)
    requires |line| == Size && 0 !in line && !HasEqualNeighbours(line)
    ensures Slide(line) == line
  {
    CompactIdentity(line);
    MergedIdentity(line);
  }

  /** A full line with equal neighbours loses a tile: its last cell becomes empty. */
  lemma SlideFreesLastCell(line: seq<int>)
    requires |line| == Size && 0 !in line && HasEqualNeighbours(line)
    ensures Slide(line)[Size - 1] == 0
  {
    CompactIdentity(line);
    MergeOccursIff(line);
  }
}
