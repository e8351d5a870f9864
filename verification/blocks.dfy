/** Splitting a file of `fileSize` bytes into fixed-size block ranges
    (`ProtocolField.FilePosition`), as the transfer session's constructor does. */
module Blocks {

  /** A byte range `[pos, pos + len)` of the file. Equality is by value. */
  datatype Pos = Pos(pos: int, len: int)

  function Min(a: int, b: int): int {
    if a <= b then a else b
  }

  function Max(a: int, b: int): int {
    if a <= b then b else a
  }

  /** The blocks a sequence holds. */
  function Elems(s: seq<Pos>): set<Pos> {
    set p | p in s
  }

  /** A sequence holds no more distinct blocks than it has elements. */
  lemma {:induction false} ElemsSize(s: seq<Pos>)
    ensures |Elems(s)| <= |s|
  {
    if s != [] {
      ElemsSize(s[1..]);
      assert Elems(s) == Elems(s[1..]) + {s[0]};
    }
  }

  /** Total number of bytes the ranges cover. */
  function SumLen(s: seq<Pos>): int {
    if s == [] then 0 else s[0].len + SumLen(s[1..])
  }

  /** Each range starts where the previous one ends. */
  ghost predicate Contiguous(s: seq<Pos>) {
    forall i :: 0 <= i < |s| - 1 ==> s[i + 1].pos == s[i].pos + s[i].len
  }

  /** No range occurs twice. */
  ghost predicate Distinct(s: seq<Pos>) {
    forall i, j :: 0 <= i < j < |s| ==> s[i] != s[j]
  }

  /** The blocks covering `[base, base + remaining)`, carved off the front
      one `blockSize` at a time; none when nothing remains. */
  function Split(base: int, remaining: int, blockSize: int): (r: seq<Pos>)
    requires blockSize > 0
    ensures remaining <= 0 <==> r == []
    decreases remaining
  {
    if remaining <= 0 then []
    else
      var len := Min(remaining, blockSize);
      [Pos(base, len)] + Split(base + len, remaining - len, blockSize)
  }

  /** The blocks are contiguous from `base` to `base + remaining`; every
      block but the last is `blockSize` long, and the last is shorter but
      not empty. */
  lemma {:induction false} SplitShape(base: int, remaining: int, blockSize: int)
    requires blockSize > 0
    ensures var r := Split(base, remaining, blockSize);
      && (r != [] ==> r[0].pos == base && r[|r| - 1].pos + r[|r| - 1].len == base + remaining)
      && Contiguous(r)
      && (forall i :: 0 <= i < |r| ==> 0 < r[i].len <= blockSize)
      && (forall i :: 0 <= i < |r| - 1 ==> r[i].len == blockSize)
    decreases remaining
  {
    if remaining > 0 {
      var len := Min(remaining, blockSize);
      SplitShape(base + len, remaining - len, blockSize);
      var rest := Split(base + len, remaining - len, blockSize);
      var r := Split(base, remaining, blockSize);
      assert r == [Pos(base, len)] + rest;
      assert rest != [] ==> rest[0].pos == base + len && len == blockSize;
      forall i | 0 <= i < |r| - 1
        ensures r[i + 1].pos == r[i].pos + r[i].len
      {
        if i > 0 {
          assert r[i] == rest[i - 1] && r[i + 1] == rest[i];
        }
      }
    }
  }

  /** Block offsets strictly increase and stay inside the covered range, so
      no block occurs twice. */
  lemma {:induction false} SplitIncreasing(base: int, remaining: int, blockSize: int)
    requires blockSize > 0
    ensures var r := Split(base, remaining, blockSize);
      && (forall i :: 0 <= i < |r| ==> base <= r[i].pos && r[i].pos + r[i].len <= base + remaining)
      && (forall i, j :: 0 <= i < j < |r| ==> r[i].pos < r[j].pos)
      && Distinct(r)
    decreases remaining
  {
    if remaining > 0 {
      var len := Min(remaining, blockSize);
      SplitIncreasing(base + len, remaining - len, blockSize);
    }
  }

  /** The blocks cover exactly `remaining` bytes. */
  lemma {:induction false} SplitCovers(base: int, remaining: int, blockSize: int)
    requires blockSize > 0
    ensures SumLen(Split(base, remaining, blockSize)) == Max(remaining, 0)
    decreases remaining
  {
    if remaining > 0 {
      var len := Min(remaining, blockSize);
      SplitCovers(base + len, remaining - len, blockSize);
      assert Split(base, remaining, blockSize)[1..] == Split(base + len, remaining - len, blockSize);
    }
  }

  /** There are ceil(remaining / blockSize) blocks: the least `n` with
      `remaining <= n * blockSize`. */
  lemma {:induction false} SplitCount(base: int, remaining: int, blockSize: int)
    requires blockSize > 0
    ensures var n := |Split(base, remaining, blockSize)|;
      remaining > 0 ==> (n - 1) * blockSize < remaining <= n * blockSize
    decreases remaining
  {
    if remaining > blockSize {
      SplitCount(base + blockSize, remaining - blockSize, blockSize);
      var m := |Split(base + blockSize, remaining - blockSize, blockSize)|;
      assert |Split(base, remaining, blockSize)| == m + 1;
      assert (m - 1) * blockSize == m * blockSize - blockSize;
      assert (m + 1) * blockSize == m * blockSize + blockSize;
    } else if remaining > 0 {
      assert |Split(base, remaining, blockSize)| == 1;
    }
  }

  /** The partition of a whole file, `[0, fileSize)`. */
  function Partition(fileSize: int, blockSize: int): (r: seq<Pos>)
    requires blockSize > 0
    ensures Distinct(r)
    ensures fileSize <= 0 <==> r == []
  {
    SplitIncreasing(0, fileSize, blockSize);
    Split(0, fileSize, blockSize)
  }

  /** The constructor's loop: carve blocks off the front of the file until
      nothing remains. */
  method PartitionLoop(fileSize: int, blockSize: int) returns (blocks: seq<Pos>)
    requires blockSize > 0
    ensures blocks == Partition(fileSize, blockSize)
  {
    var base, remaining := 0, fileSize;
    blocks := [];
    while remaining > 0
      invariant blocks + Split(base, remaining, blockSize) == Split(0, fileSize, blockSize)
      decreases remaining
    {
      var len := Min(remaining, blockSize);
      blocks := blocks + [Pos(base, len)];
      base := base + len;
      remaining := remaining - len;
    }
  }
}
