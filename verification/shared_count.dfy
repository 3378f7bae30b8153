/** One count shared by a run of loops: each loop pushes from the count the
    previous one left, so the run keeps the loops' entries, in loop order, up
    to the limit. Generic in what the loops push: a block is what one loop
    would push with no limit. */
module SharedCount {
  import opened Scan

  /** The blocks one after the other: what the loops push with no limit. */
  function Concat<T>(blocks: seq<seq<T>>): (r: seq<T>)
    decreases |blocks|
  {
    if |blocks| == 0 then [] else Concat(blocks[..|blocks| - 1]) + blocks[|blocks| - 1]
  }

  /** The loops on one count with `b` entries left: each block cut at what
      the blocks before it left of `b`. */
  function Shared<T>(blocks: seq<seq<T>>, b: nat): (r: seq<T>)
    ensures |r| == Min(|Concat(blocks)|, b)
    decreases |blocks|
  {
    if |blocks| == 0 then []
    else
      var n := |blocks| - 1;
      var front := Shared(blocks[..n], b);
      front + blocks[n][..Min(|blocks[n]|, b - |front|)]
  }

  /** Cutting a concatenation at `b`: the first part cut at `b`, then the
      second cut at what the first left. */
  lemma CutAppend<T>(a: seq<T>, d: seq<T>, b: nat)
    ensures (a + d)[..Min(|a| + |d|, b)] == a[..Min(|a|, b)] + d[..Min(|d|, b - Min(|a|, b))]
  {
    if |a| < b {
      assert (a + d)[..Min(|a| + |d|, b)] == a + d[..Min(|d|, b - |a|)];
    } else {
      assert d[..0] == [];
    }
  }

  /** The shared count cuts the unlimited list, in loop order, at the limit:
      the run keeps the first entries and nothing after them. */
  lemma {:induction false} SharedIsPrefix<T>(blocks: seq<seq<T>>, b: nat)
    ensures Shared(blocks, b) == Concat(blocks)[..Min(|Concat(blocks)|, b)]
    decreases |blocks|
  {
    if |blocks| > 0 {
      var n := |blocks| - 1;
      SharedIsPrefix(blocks[..n], b);
      CutAppend(Concat(blocks[..n]), blocks[n], b);
    }
  }

  /** When everything fits, the run keeps every entry. */
  lemma SharedKeepsAll<T>(blocks: seq<seq<T>>, b: nat)
    requires |Concat(blocks)| <= b
    ensures Shared(blocks, b) == Concat(blocks)
  {
    SharedIsPrefix(blocks, b);
  }

  /** One more loop appends its block, cut at what the earlier loops left. */
  lemma SharedSnoc<T>(blocks: seq<seq<T>>, b: nat, k: nat)
    requires k < |blocks|
    ensures Shared(blocks[..k + 1], b)
      == Shared(blocks[..k], b) + blocks[k][..Min(|blocks[k]|, b - |Shared(blocks[..k], b)|)]
  {
    assert blocks[..k + 1][..k] == blocks[..k];
  }

  /** A loop that appends its cut block to the run, and counts what it
      appends, keeps the run and the count in step with `Shared`. */
  lemma SharedStep<T>(blocks: seq<seq<T>>, b: nat, k: nat, start: seq<T>, problems: int,
                      acc: seq<T>, count: int, e: seq<T>, acc': seq<T>, count': int)
    requires k < |blocks|
    requires acc == start + Shared(blocks[..k], b) && count == problems + |Shared(blocks[..k], b)|
    requires e == blocks[k][..Min(|blocks[k]|, b - |Shared(blocks[..k], b)|)]
    requires acc' == acc + e && count' == count + |e|
    ensures acc' == start + Shared(blocks[..k + 1], b) && count' == problems + |Shared(blocks[..k + 1], b)|
  {
    SharedSnoc(blocks, b, k);
    AppendAssoc(start, Shared(blocks[..k], b), e);
  }

  /** Taking all of a sequence leaves it whole. */
  lemma TakeAll<T>(s: seq<T>, m: nat)
    requires m == |s|
    ensures s[..m] == s
  {
  }

  /** The blocks before the last, then the last, are all the blocks. */
  lemma ConcatLast<T>(blocks: seq<seq<T>>, front: seq<T>, last: seq<T>)
    requires |blocks| > 0
    requires front == Concat(blocks[..|blocks| - 1]) && last == blocks[|blocks| - 1]
    ensures front + last == Concat(blocks)
  {
  }
}
