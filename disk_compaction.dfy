/** Disk compaction (src/bin/09.rs): a dense digit map expands into a disk of
    bytes, a two-pointer loop moves file bytes from the end into the free
    slots at the front, and a checksum is taken of the result. */
module DiskCompaction {
  import opened Prelude

  /** One block of the disk: free, or part of the file with the given id. */
  datatype Byte = Empty | File(id: nat)

  // ---------------------------------------------------------------------
  // Expanding the disk map

  /** `vec![Byte::File(idx); num]` */
  function ParseFile(idx: nat, num: nat): seq<Byte> {
    seq(num, _ => File(idx))
  }

  /** `vec![Byte::Empty; num]` */
  function ParseEmptySpace(num: nat): seq<Byte> {
    seq(num, _ => Empty)
  }

  /** The bytes written for the character at index `i` of the map: a file
      (numbered by how many files precede it) at an even index, free space at
      an odd one. */
  function Block(i: nat, c: char): seq<Byte>
    requires IsDigit(c)
  {
    if i % 2 == 0 then ParseFile(i / 2, DigitValue(c)) else ParseEmptySpace(DigitValue(c))
  }

  /** The whole disk described by a digit map, block after block. */
  function Expanded(s: string): seq<Byte>
    requires AllDigits(s)
  {
    if s == [] then [] else Expanded(s[..|s| - 1]) + Block(|s| - 1, s[|s| - 1])
  }

  function DigitSum(s: string): nat
    requires AllDigits(s)
  {
    if s == [] then 0 else DigitSum(s[..|s| - 1]) + DigitValue(s[|s| - 1])
  }

  /** `parse_input`: the closure keeps a running file counter `idx`. */
  method ParseInput(input: string) returns (bytes: seq<Byte>)
    requires AllDigits(input)
    ensures bytes == Expanded(input)
  {
    bytes := [];
    var idx := 0;
    for i := 0 to |input|
      invariant idx == (i + 1) / 2
      invariant bytes == Expanded(input[..i])
    {
      assert input[..i + 1][..i] == input[..i];
      var num := DigitValue(input[i]);
      if i % 2 == 0 {
        bytes := bytes + ParseFile(idx, num);
        idx := idx + 1;
      } else {
        bytes := bytes + ParseEmptySpace(num);
      }
    }
    assert input[..|input|] == input;
  }

  /** The disk is as long as the digits of its map add up to. */
  lemma {:induction false} ExpandedLength(s: string)
    requires AllDigits(s)
    ensures |Expanded(s)| == DigitSum(s)
  {
    if s != [] {
      ExpandedLength(s[..|s| - 1]);
    }
  }

  lemma {:induction false} RepeatCount(b: Byte, num: nat, x: Byte)
    ensures multiset(seq(num, _ => b))[x] == if x == b then num else 0
  {
    if num > 0 {
      assert seq(num, _ => b) == seq(num - 1, _ => b) + [b];
      RepeatCount(b, num - 1, x);
    }
  }

  lemma BlockFileCount(n: nat, c: char, k: nat)
    requires IsDigit(c)
    ensures multiset(Block(n, c))[File(k)] == if n == 2 * k then DigitValue(c) else 0
  {
    if n % 2 == 0 {
      RepeatCount(File(n / 2), DigitValue(c), File(k));
    } else {
      RepeatCount(Empty, DigitValue(c), File(k));
    }
  }

  /** File `k` occupies exactly as many bytes as the digit at index 2k says,
      and files beyond the map do not occur. */
  lemma {:induction false} ExpandedFileCount(s: string, k: nat)
    requires AllDigits(s)
    ensures multiset(Expanded(s))[File(k)] == if 2 * k < |s| then DigitValue(s[2 * k]) else 0
  {
    if s != [] {
      var n := |s| - 1;
      var p := s[..n];
      ExpandedFileCount(p, k);
      BlockFileCount(n, s[n], k);
      assert multiset(Expanded(s)) == multiset(Expanded(p)) + multiset(Block(n, s[n]));
      if 2 * k < n {
        assert p[2 * k] == s[2 * k];
      }
    }
  }

  /** The map "12345" expands to 0..111....22222. */
  lemma ParseExample()
    ensures Expanded("12345") ==
      [File(0), Empty, Empty, File(1), File(1), File(1), Empty, Empty, Empty, Empty,
       File(2), File(2), File(2), File(2), File(2)]
  {
    assert "12345"[..4] == "1234";
    assert "1234"[..3] == "123";
    assert "123"[..2] == "12";
    assert "12"[..1] == "1";
    assert "1"[..0] == "";
    assert ParseFile(0, 1) == [File(0)];
    assert ParseEmptySpace(2) == [Empty, Empty];
    assert ParseFile(1, 3) == [File(1), File(1), File(1)];
    assert ParseEmptySpace(4) == [Empty, Empty, Empty, Empty];
    assert ParseFile(2, 5) == [File(2), File(2), File(2), File(2), File(2)];
  }

  // ---------------------------------------------------------------------
  // Compaction

  /** No file byte comes after a free byte: the files form a prefix. */
  ghost predicate FilesFirst(s: seq<Byte>) {
    forall m, n :: 0 <= m < n < |s| && s[m].Empty? ==> s[n].Empty?
  }

  /** Reference result of compaction, read off both ends: a file byte at the
      front stays, a free byte at the back stays, and otherwise the last byte
      (a file) moves into the first slot (free) and leaves free space behind. */
  function Compact(s: seq<Byte>): seq<Byte>
    decreases |s|
  {
    if s == [] then []
    else if s[0].File? then [s[0]] + Compact(s[1..])
    else if s[|s| - 1].Empty? then Compact(s[..|s| - 1]) + [Empty]
    else [s[|s| - 1]] + Compact(s[1..|s| - 1]) + [Empty]
  }

  /** Compaction only moves bytes around. */
  lemma {:induction false} CompactPermutes(s: seq<Byte>)
    ensures multiset(Compact(s)) == multiset(s)
    ensures |Compact(s)| == |s|
    decreases |s|
  {
    if s == [] {
    } else if s[0].File? {
      var rest := s[1..];
      CompactPermutes(rest);
      assert s == [s[0]] + rest;
      assert Compact(s) == [s[0]] + Compact(rest);
    } else if s[|s| - 1].Empty? {
      var init := s[..|s| - 1];
      CompactPermutes(init);
      assert s == init + [Empty];
      assert Compact(s) == Compact(init) + [Empty];
    } else {
      var mid := s[1..|s| - 1];
      CompactPermutes(mid);
      MovedLastPermutes(s, mid, Compact(mid));
    }
  }

  /** Moving the last byte to the front and leaving a free byte behind keeps
      the bytes of a disk whose first byte is free. */
  lemma MovedLastPermutes(s: seq<Byte>, mid: seq<Byte>, cmid: seq<Byte>)
    requires |s| >= 2 && s[0] == Empty && mid == s[1..|s| - 1]
    requires multiset(cmid) == multiset(mid)
    ensures multiset([s[|s| - 1]] + cmid + [Empty]) == multiset(s)
  {
    assert s == [s[0]] + mid + [s[|s| - 1]];
  }

  /** After compaction the files form a prefix of the disk. */
  lemma {:induction false} CompactFilesFirst(s: seq<Byte>)
    ensures FilesFirst(Compact(s))
    decreases |s|
  {
    if s == [] {
    } else if s[0].File? {
      CompactFilesFirst(s[1..]);
    } else if s[|s| - 1].Empty? {
      CompactFilesFirst(s[..|s| - 1]);
    } else {
      CompactFilesFirst(s[1..|s| - 1]);
      CompactPermutes(s[1..|s| - 1]);
    }
  }

  /** A disk whose files already form a prefix is left as it is, so compacting
      twice is the same as compacting once. */
  lemma {:induction false} CompactFixesPacked(s: seq<Byte>)
    requires FilesFirst(s)
    ensures Compact(s) == s
    decreases |s|
  {
    if s == [] {
    } else if s[0].File? {
      CompactFixesPacked(s[1..]);
      assert s == [s[0]] + s[1..];
    } else {
      assert s[|s| - 1].Empty?;
      CompactFixesPacked(s[..|s| - 1]);
      assert s == s[..|s| - 1] + [Empty];
    }
  }

  lemma CompactIdempotent(s: seq<Byte>)
    ensures Compact(Compact(s)) == Compact(s)
  {
    CompactFilesFirst(s);
    CompactFixesPacked(Compact(s));
  }

  /** Free space at the end of a disk stays at the end. */
  lemma {:induction false} CompactSnocEmpty(u: seq<Byte>)
    ensures Compact(u + [Empty]) == Compact(u) + [Empty]
    decreases |u|
  {
    var s := u + [Empty];
    if u == [] {
      assert s[..|s| - 1] == u;
    } else if u[0].File? {
      assert s[1..] == u[1..] + [Empty];
      CompactSnocEmpty(u[1..]);
    } else {
      assert s[..|s| - 1] == u;
    }
  }

  lemma {:induction false} CompactDropEmpties(t: seq<Byte>, m: nat)
    requires m <= |t|
    requires forall k :: m <= k < |t| ==> t[k] == Empty
    ensures Compact(t) == Compact(t[..m]) + t[m..]
    decreases |t| - m
  {
    if m < |t| {
      CompactDropEmpties(t, m + 1);
      assert t[..m + 1] == t[..m] + [Empty];
      CompactSnocEmpty(t[..m]);
      calc {
        Compact(t);
        Compact(t[..m + 1]) + t[m + 1..];
        Compact(t[..m]) + [Empty] + t[m + 1..];
        { assert t[m..] == [Empty] + t[m + 1..]; }
        Compact(t[..m]) + t[m..];
      }
    } else {
      assert t[..m] == t;
    }
  }

  /** What `move_bytes` keeps true between iterations: below `i` the result is
      final, above `j` the disk is free, and in between compaction is still to
      be done. */
  ghost predicate MoveInv(start: seq<Byte>, s: seq<Byte>, i: int, j: int) {
    && 0 <= i <= j + 1 <= |s|
    && (forall k :: 0 <= k < i ==> s[k].File?)
    && (forall k :: j < k < |s| ==> s[k] == Empty)
    && Compact(start) == s[..i] + Compact(s[i..j + 1]) + s[j + 1..]
  }

  lemma MoveInvFile(start: seq<Byte>, s: seq<Byte>, i: int, j: int)
    requires MoveInv(start, s, i, j) && i <= j && s[i].File?
    ensures MoveInv(start, s, i + 1, j)
  {
    assert s[i..j + 1] == [s[i]] + s[i + 1..j + 1];
    assert s[..i + 1] == s[..i] + [s[i]];
  }

  lemma MoveInvScan(start: seq<Byte>, s: seq<Byte>, i: int, j: int, nj: int)
    requires MoveInv(start, s, i, j) && i - 1 <= nj <= j
    requires forall k :: nj < k <= j ==> s[k] == Empty
    ensures MoveInv(start, s, i, nj)
  {
    var t := s[i..j + 1];
    CompactDropEmpties(t, nj + 1 - i);
    assert t[..nj + 1 - i] == s[i..nj + 1];
    assert s[nj + 1..] == t[nj + 1 - i..] + s[j + 1..];
  }

  lemma MoveInvSwap(start: seq<Byte>, s: seq<Byte>, i: int, j: int)
    requires MoveInv(start, s, i, j) && i < j && s[i] == Empty && s[j].File?
    ensures MoveInv(start, s[j := Empty][i := s[j]], i + 1, j)
  {
    var t := s[i..j + 1];
    var mid := t[1..|t| - 1];
    var s' := s[j := Empty][i := s[j]];
    assert t[0] == Empty && t[|t| - 1] == s[j];
    assert Compact(t) == [s[j]] + Compact(mid) + [Empty];
    assert s'[i + 1..j + 1] == mid + [Empty];
    CompactSnocEmpty(mid);
    assert s'[..i + 1] == s[..i] + [s[j]];
    assert s'[j + 1..] == s[j + 1..];
    SwapJoin(s[..i], s[j], Compact(mid), s[j + 1..]);
  }

  lemma SwapJoin(front: seq<Byte>, b: Byte, cmid: seq<Byte>, back: seq<Byte>)
    ensures front + ([b] + cmid + [Empty]) + back == (front + [b]) + (cmid + [Empty]) + back
  {
  }

  lemma MoveInvDone(start: seq<Byte>, s: seq<Byte>, i: int, j: int)
    requires MoveInv(start, s, i, j) && j == i - 1
    ensures s == Compact(start)
  {
    assert s[i..j + 1] == [];
    assert s == s[..i] + s[j + 1..];
  }

  /** `get_next_j`: the largest index at or below `j` that holds a file byte.
      The source decrements an unsigned `j`, so such an index must exist. */
  method GetNextJ(bytes: array<Byte>, j: nat) returns (r: nat)
    requires j < bytes.Length
    requires exists k :: 0 <= k <= j && bytes[k].File?
    ensures r <= j && bytes[r].File?
    ensures forall k :: r < k <= j ==> bytes[k] == Empty
  {
    r := j;
    var b := bytes[r];
    while b == Empty
      invariant r <= j && b == bytes[r]
      invariant forall k :: r < k <= j ==> bytes[k] == Empty
      invariant exists k :: 0 <= k <= r && bytes[k].File?
      decreases r
    {
      r := r - 1;
      b := bytes[r];
    }
  }

  /** `move_bytes`: `i` runs up over file bytes; at a free byte, `j` is moved
      down to the last file byte, which is swapped into slot `i`. The source
      computes `bytes.len() - 1` and `get_next_j` on unsigned indices, so the
      disk must hold at least one file byte. */
  method MoveBytes(bytes: array<Byte>)
    requires exists k :: 0 <= k < bytes.Length && bytes[k].File?
    modifies bytes
    ensures bytes[..] == Compact(old(bytes[..]))
    ensures multiset(bytes[..]) == multiset(old(bytes[..]))
    ensures FilesFirst(bytes[..])
  {
    ghost var start := bytes[..];
    var i: int := 0;
    var j: int := bytes.Length - 1;
    assert bytes[i..j + 1] == bytes[..];
    while i <= j
      invariant MoveInv(start, bytes[..], i, j)
      invariant exists k :: 0 <= k < bytes.Length && bytes[k].File?
      decreases j + 1 - i
    {
      if bytes[i].File? {
        MoveInvFile(start, bytes[..], i, j);
        i := i + 1;
      } else {
        var nj := GetNextJ(bytes, j);
        assert i - 1 <= nj by {
          if i > 0 { assert bytes[i - 1].File?; }
        }
        MoveInvScan(start, bytes[..], i, j, nj);
        j := nj;
        if j <= i {
          break;
        }
        MoveInvSwap(start, bytes[..], i, j);
        var jByte := bytes[j];
        bytes[j] := Empty;
        bytes[i] := jByte;
        i := i + 1;
      }
    }
    MoveInvDone(start, bytes[..], i, j);
    CompactPermutes(start);
    CompactFilesFirst(start);
  }

  // ---------------------------------------------------------------------
  // Checksum

  /** The ids of the file bytes, in disk order (`filter(!= Empty)`). */
  function FileIds(s: seq<Byte>): (ids: seq<nat>)
    ensures |ids| <= |s|
  {
    if s == [] then []
    else if s[0].File? then [s[0].id] + FileIds(s[1..])
    else FileIds(s[1..])
  }

  /** Sum of (rank + from) * id over a list of ids. */
  function RankedSum(ids: seq<nat>, from: nat): nat {
    if ids == [] then 0 else from * ids[0] + RankedSum(ids[1..], from + 1)
  }

  /** The checksum of `part_one`: each file byte weighs its id times its rank
      among the file bytes. On a disk whose files come first, that rank is
      the byte's position. */
  function Checksum(s: seq<Byte>): (r: nat)
    ensures FilesFirst(s) ==> r == PositionalSum(s, 0)
  {
    assert FilesFirst(s) ==> RankedSum(FileIds(s), 0) == PositionalSum(s, 0) by {
      if FilesFirst(s) {
        ChecksumOfPacked(s, 0);
      }
    }
    RankedSum(FileIds(s), 0)
  }

  /** Sum of position * id over the disk, free bytes counting zero. */
  function PositionalSum(s: seq<Byte>, from: nat): nat {
    if s == [] then 0
    else (if s[0].File? then from * s[0].id else 0) + PositionalSum(s[1..], from + 1)
  }

  /** On a compacted disk a file byte's rank is its position, so the checksum
      weighs each file byte by where it sits. */
  lemma {:induction false} ChecksumOfPacked(s: seq<Byte>, from: nat)
    requires FilesFirst(s)
    ensures RankedSum(FileIds(s), from) == PositionalSum(s, from)
    decreases |s|
  {
    if s != [] {
      assert FilesFirst(s[1..]);
      ChecksumOfPacked(s[1..], from + 1);
      if s[0].Empty? {
        AllEmptyZero(s[1..], from + 1);
      }
    }
  }

  lemma {:induction false} AllEmptyZero(s: seq<Byte>, from: nat)
    requires forall k :: 0 <= k < |s| ==> s[k].Empty?
    ensures FileIds(s) == [] && PositionalSum(s, from) == 0
    decreases |s|
  {
    if s != [] {
      AllEmptyZero(s[1..], from + 1);
    }
  }

  predicate HasFileDigit(input: string) {
    exists i :: 0 <= i < |input| && i % 2 == 0 && input[i] != '0'
  }

  lemma ExpandedHasFile(input: string)
    requires AllDigits(input) && HasFileDigit(input)
    ensures exists k :: 0 <= k < |Expanded(input)| && Expanded(input)[k].File?
  {
    var i :| 0 <= i < |input| && i % 2 == 0 && input[i] != '0';
    ExpandedFileCount(input, i / 2);
    assert File(i / 2) in multiset(Expanded(input));
  }

  /** `part_one`: expand, compact in place, and take the checksum. The digits
      must be decimal (`to_digit(10).unwrap()`) and some file must be
      non-empty (otherwise `move_bytes` underflows). */
  method PartOne(input: string) returns (checksum: nat)
    requires AllDigits(input) && HasFileDigit(input)
    ensures checksum == Checksum(Compact(Expanded(input)))
    ensures checksum == PositionalSum(Compact(Expanded(input)), 0)
  {
    var bytes := ParseInput(input);
    ExpandedHasFile(input);
    var disk := new Byte[|bytes|](k requires 0 <= k < |bytes| => bytes[k]);
    assert disk[..] == bytes;
    MoveBytes(disk);
    checksum := Checksum(disk[..]);
    ChecksumOfPacked(disk[..], 0);
  }

  lemma ExpandedExample()
    ensures Expanded("1111111111") ==
      [File(0), Empty, File(1), Empty, File(2), Empty, File(3), Empty, File(4), Empty]
  {
    var s: string := "";
    var disk: seq<Byte> := [];
    for i := 0 to 10
      invariant |s| == i && (forall k :: 0 <= k < i ==> s[k] == '1')
      invariant Expanded(s) == disk
      invariant disk == seq(i, k requires 0 <= k => if k % 2 == 0 then File(k / 2) else Empty)
    {
      ExpandedSnoc(s, '1');
      assert Block(i, '1') == [if i % 2 == 0 then File(i / 2) else Empty];
      s := s + ['1'];
      disk := disk + [if i % 2 == 0 then File(i / 2) else Empty];
    }
    assert s == "1111111111";
  }

  lemma ExpandedSnoc(s: string, c: char)
    requires AllDigits(s) && IsDigit(c)
    ensures AllDigits(s + [c]) && Expanded(s + [c]) == Expanded(s) + Block(|s|, c)
  {
    assert (s + [c])[..|s|] == s;
  }

  lemma CompactExampleInner()
    ensures Compact([Empty, File(2), Empty, File(3), Empty]) == [File(3), File(2), Empty, Empty, Empty]
  {
    var e7: seq<Byte> := [Empty];
    assert e7[..0] == [];
    assert Compact(e7) == [Empty];
    var e6 := [File(2), Empty];
    assert e6[1..] == e7;
    assert Compact(e6) == [File(2), Empty];
    var e5 := [Empty, File(2), Empty, File(3)];
    assert e5[1..3] == e6;
    assert Compact(e5) == [File(3), File(2), Empty, Empty];
    var e4 := [Empty, File(2), Empty, File(3), Empty];
    assert e4[..4] == e5;
  }

  lemma CompactExampleMiddle()
    ensures Compact([Empty, File(1), Empty, File(2), Empty, File(3), Empty, File(4)])
         == [File(4), File(1), File(3), File(2), Empty, Empty, Empty, Empty]
  {
    CompactExampleInner();
    var e4 := [Empty, File(2), Empty, File(3), Empty];
    var e3 := [File(1), Empty, File(2), Empty, File(3), Empty];
    assert e3[1..] == e4;
    assert Compact(e3) == [File(1), File(3), File(2), Empty, Empty, Empty];
    var e2 := [Empty, File(1), Empty, File(2), Empty, File(3), Empty, File(4)];
    assert e2[1..7] == e3;
  }

  lemma CompactExample()
    ensures Compact([File(0), Empty, File(1), Empty, File(2), Empty, File(3), Empty, File(4), Empty])
         == [File(0), File(4), File(1), File(3), File(2), Empty, Empty, Empty, Empty, Empty]
  {
    CompactExampleMiddle();
    var e2 := [Empty, File(1), Empty, File(2), Empty, File(3), Empty, File(4)];
    var e1 := [Empty, File(1), Empty, File(2), Empty, File(3), Empty, File(4), Empty];
    assert e1[..8] == e2;
    assert Compact(e1) == [File(4), File(1), File(3), File(2), Empty, Empty, Empty, Empty, Empty];
    var e := [File(0), Empty, File(1), Empty, File(2), Empty, File(3), Empty, File(4), Empty];
    assert e[1..] == e1;
  }

  lemma FileIdsOfExample()
    ensures FileIds([File(0), File(4), File(1), File(3), File(2), Empty, Empty, Empty, Empty, Empty]) == [0, 4, 1, 3, 2]
  {
    var tail: seq<Byte> := [Empty, Empty, Empty, Empty, Empty];
    AllEmptyZero(tail, 0);
    var c4 := [File(2)] + tail;
    FileIdsCons(2, tail);
    var c3 := [File(3)] + c4;
    FileIdsCons(3, c4);
    var c2 := [File(1)] + c3;
    FileIdsCons(1, c3);
    var c1 := [File(4)] + c2;
    FileIdsCons(4, c2);
    var c := [File(0)] + c1;
    FileIdsCons(0, c1);
    assert FileIds(c) == [0, 4, 1, 3, 2];
    assert c == [File(0), File(4), File(1), File(3), File(2), Empty, Empty, Empty, Empty, Empty];
  }

  lemma FileIdsCons(id: nat, rest: seq<Byte>)
    ensures FileIds([File(id)] + rest) == [id] + FileIds(rest)
  {
    assert ([File(id)] + rest)[1..] == rest;
  }

  lemma ChecksumOfExample()
    ensures Checksum([File(0), File(4), File(1), File(3), File(2), Empty, Empty, Empty, Empty, Empty]) == 23
  {
    FileIdsOfExample();
    assert [0, 4, 1, 3, 2][1..] == [4, 1, 3, 2];
    assert [4, 1, 3, 2][1..] == [1, 3, 2];
    assert [1, 3, 2][1..] == [3, 2];
    assert [3, 2][1..] == [2];
    assert [2][1..] == [];
  }

  /** The map "1111111111" compacts to 0 4 1 3 2 followed by free space, whose
      checksum is 23. */
  lemma ChecksumExample()
    ensures Checksum(Compact(Expanded("1111111111"))) == 23
  {
    ExpandedExample();
    CompactExample();
    ChecksumOfExample();
  }
}
