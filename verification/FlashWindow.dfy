/**
 Windows of the flat log in the order in which the read-out delivers them: the newest block first,
 ascending inside a block.
 */
module FlashWindow {
  import opened FlashRecord

  /** Every block's records on `port`. */
  function FilterEach(blocks: seq<seq<Record>>, port: bv8): (r: seq<seq<Record>>)
    ensures |r| == |blocks|
    ensures forall j :: 0 <= j < |blocks| ==> r[j] == Filter(blocks[j], port)
  {
    seq(|blocks|, j requires 0 <= j < |blocks| => Filter(blocks[j], port))
  }

  /** The position of block `j`'s first record in the flat log. */
  function Base(blocks: seq<seq<Record>>, j: nat): nat
    requires j <= |blocks|
  {
    |Flatten(blocks[..j])|
  }

  function Clip(x: int, n: nat): nat {
    if x < 0 then 0 else if x > n then n else x
  }

  /** The part of block `j` at positions `from` up to `to` of the flat log. */
  function Segment(blocks: seq<seq<Record>>, j: nat, from: int, to: int): seq<Record>
    requires j < |blocks|
  {
    var n, lo, hi := |blocks[j]|, Clip(from - Base(blocks, j), |blocks[j]|), Clip(to - Base(blocks, j), |blocks[j]|);
    if lo <= hi then blocks[j][lo..hi] else []
  }

  /** The window over the first `j` blocks, newest block first. */
  function NewestFirst(blocks: seq<seq<Record>>, j: nat, from: int, to: int): seq<Record>
    requires j <= |blocks|
  {
    if j == 0 then [] else Segment(blocks, j - 1, from, to) + NewestFirst(blocks, j - 1, from, to)
  }

  /** The same segments, oldest block first. */
  function OldestFirst(blocks: seq<seq<Record>>, j: nat, from: int, to: int): seq<Record>
    requires j <= |blocks|
  {
    if j == 0 then [] else OldestFirst(blocks, j - 1, from, to) + Segment(blocks, j - 1, from, to)
  }

  lemma BaseNext(blocks: seq<seq<Record>>, j: nat)
    requires j < |blocks|
    ensures Base(blocks, j + 1) == Base(blocks, j) + |blocks[j]|
    ensures Flatten(blocks[..j + 1]) == Flatten(blocks[..j]) + blocks[j]
  {
    assert blocks[..j + 1][..j] == blocks[..j];
  }

  lemma {:induction false} BaseMonotone(blocks: seq<seq<Record>>, i: nat, j: nat)
    requires i <= j <= |blocks|
    ensures Base(blocks, i) <= Base(blocks, j)
    decreases j - i
  {
    if i < j {
      BaseNext(blocks, i);
      BaseMonotone(blocks, i + 1, j);
    }
  }

  lemma BaseOfAll(blocks: seq<seq<Record>>)
    ensures Base(blocks, |blocks|) == |Flatten(blocks)| && Base(blocks, 0) == 0
  {
    assert blocks[..|blocks|] == blocks;
  }

  /** The part of `s` at positions `from` up to `to`, as far as there are such positions. */
  function Window<T>(s: seq<T>, from: int, to: int): seq<T>
    requires from <= to
  {
    s[Clip(from, |s|)..Clip(to, |s|)]
  }

  lemma ClipTwice(x: int, m: nat, n: nat)
    ensures Clip(Clip(x, m + n), m) == Clip(x, m) && Clip(Clip(x, m + n) - m, n) == Clip(x - m, n)
  {
  }

  /** A part of two pieces is a part of the first and one of the second. */
  lemma SliceOfConcat<T>(front: seq<T>, last: seq<T>, lo: nat, hi: nat)
    requires lo <= hi <= |front| + |last|
    ensures (front + last)[lo..hi] == Window(front, lo, hi) + Window(last, lo - |front|, hi - |front|)
  {
    var part := Window(front, lo, hi) + Window(last, lo - |front|, hi - |front|);
    assert |part| == hi - lo;
    forall i | 0 <= i < hi - lo
      ensures part[i] == (front + last)[lo..hi][i]
    {
    }
  }

  /** A window over two pieces is a window over the first and one over the second. */
  lemma WindowOfConcat<T>(front: seq<T>, last: seq<T>, from: nat, to: nat)
    requires from <= to
    ensures Window(front + last, from, to) == Window(front, from, to) + Window(last, from - |front|, to - |front|)
  {
    var m, n := |front|, |last|;
    SliceOfConcat(front, last, Clip(from, m + n), Clip(to, m + n));
    ClipTwice(from, m, n);
    ClipTwice(to, m, n);
  }

  /** One more block extends the window by its segment. */
  lemma WindowExtended(blocks: seq<seq<Record>>, j: nat, from: nat, to: nat)
    requires j < |blocks| && from <= to
    ensures Window(Flatten(blocks[..j + 1]), from, to) ==
      Window(Flatten(blocks[..j]), from, to) + Segment(blocks, j, from, to)
  {
    var before := Flatten(blocks[..j]);
    assert Base(blocks, j) == |before|;
    hide *;
    BaseNext(blocks, j);
    SegmentIsWindow(blocks, j, from, to);
    WindowOfConcat(before, blocks[j], from, to);
  }

  /** Put in order, the segments are exactly the window of the flat log. */
  lemma {:induction false} SegmentsAreWindow(blocks: seq<seq<Record>>, j: nat, from: nat, to: nat)
    requires j <= |blocks| && from <= to
    ensures OldestFirst(blocks, j, from, to) == Window(Flatten(blocks[..j]), from, to)
  {
    hide Segment, Base;
    if j > 0 {
      hide Flatten, Clip, Window;
      SegmentsAreWindow(blocks, j - 1, from, to);
      WindowExtended(blocks, j - 1, from, to);
    }
  }

  lemma SegmentIsWindow(blocks: seq<seq<Record>>, j: nat, from: nat, to: nat)
    requires j < |blocks| && from <= to
    ensures Segment(blocks, j, from, to) == Window(blocks[j], from - Base(blocks, j), to - Base(blocks, j))
  {
    hide Base;
  }

  lemma {:induction false} NewestFirstLength(blocks: seq<seq<Record>>, j: nat, from: nat, to: nat)
    requires j <= |blocks| && from <= to
    ensures |NewestFirst(blocks, j, from, to)| == |OldestFirst(blocks, j, from, to)|
  {
    if j > 0 {
      NewestFirstLength(blocks, j - 1, from, to);
    }
  }

  /** The order of the blocks does not change what is delivered. */
  lemma {:induction false} NewestFirstMembers(blocks: seq<seq<Record>>, j: nat, from: int, to: int)
    requires j <= |blocks|
    ensures multiset(NewestFirst(blocks, j, from, to)) == multiset(OldestFirst(blocks, j, from, to))
  {
    if j > 0 {
      hide Segment;
      NewestFirstMembers(blocks, j - 1, from, to);
    }
  }

  lemma EmptySegment(blocks: seq<seq<Record>>, j: nat, from: int, to: int)
    requires j < |blocks| && (to <= Base(blocks, j) || Base(blocks, j) + |blocks[j]| <= from)
    ensures Segment(blocks, j, from, to) == []
  {
    hide Base;
  }

  lemma NewestFirstOfOne(blocks: seq<seq<Record>>, j: nat, from: int, to: int)
    requires j < |blocks|
    ensures NewestFirst(blocks, 0, from, to) == []
    ensures NewestFirst(blocks, j + 1, from, to) == Segment(blocks, j, from, to) + NewestFirst(blocks, j, from, to)
  {
  }

  /** Blocks that lie wholly at or behind the end of the window contribute nothing. */
  lemma {:induction false} NothingBehind(blocks: seq<seq<Record>>, i: nat, j: nat, from: int, to: int)
    requires i <= j <= |blocks| && to <= Base(blocks, i)
    ensures NewestFirst(blocks, j, from, to) == NewestFirst(blocks, i, from, to)
    decreases j
  {
    if i < j {
      hide Base, Segment;
      BaseMonotone(blocks, i, j - 1);
      EmptySegment(blocks, j - 1, from, to);
      NothingBehind(blocks, i, j - 1, from, to);
    }
  }

  /** Blocks that lie wholly before the window contribute nothing. */
  lemma {:induction false} NothingBefore(blocks: seq<seq<Record>>, j: nat, from: int, to: int)
    requires j <= |blocks| && Base(blocks, j) <= from
    ensures NewestFirst(blocks, j, from, to) == []
    decreases j
  {
    if j > 0 {
      hide Base, Segment;
      BaseNext(blocks, j - 1);
      EmptySegment(blocks, j - 1, from, to);
      NothingBefore(blocks, j - 1, from, to);
    }
  }

  /** Filtering block by block filters the flat log. */
  lemma {:induction false} FlattenFilterEach(blocks: seq<seq<Record>>, port: bv8)
    ensures Flatten(FilterEach(blocks, port)) == Filter(Flatten(blocks), port)
  {
    if blocks == [] {
      assert FilterEach(blocks, port) == [];
    } else {
      var init, last := blocks[..|blocks| - 1], blocks[|blocks| - 1];
      FlattenFilterEach(init, port);
      FilterConcat(Flatten(init), last, port);
      assert FilterEach(blocks, port)[..|blocks| - 1] == FilterEach(init, port);
    }
  }

  /** The number of records in the window: at most `n`, ending `start` before the end. */
  lemma WindowLength(blocks: seq<seq<Record>>, from: nat, to: nat)
    requires from <= to <= |Flatten(blocks)|
    ensures |NewestFirst(blocks, |blocks|, from, to)| == to - from
    ensures OldestFirst(blocks, |blocks|, from, to) == Flatten(blocks)[from..to]
  {
    SegmentsAreWindow(blocks, |blocks|, from, to);
    NewestFirstLength(blocks, |blocks|, from, to);
    BaseOfAll(blocks);
    assert blocks[..|blocks|] == blocks;
  }
}
