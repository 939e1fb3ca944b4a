/** extract_body_blocks_from_acf: the `_geo_xyz` lines of a reference .acf
    file, grouped by body index into one block per body. Writing each block
    to its own file is left out; the model returns the blocks. */
module RefBlocks {
  import opened Wrappers
  import opened Seqs
  import opened GeoLine

  /** `line.rstrip("\n")` */
  function StripNewlines(s: string): (r: string)
    ensures |r| <= |s| && r == s[..|r|]
    ensures |r| == 0 || r[|r| - 1] != '\n'
    ensures forall k :: |r| <= k < |s| ==> s[k] == '\n'
  {
    if |s| > 0 && s[|s| - 1] == '\n' then StripNewlines(s[..|s| - 1]) else s
  }

  // The grouping is stated over any classification `key` of the lines (here
  // the body index the expression captures) and any stored form `val` (here
  // the newline-stripped line), so the proofs never look inside either.

  /** The key of each line that has one, in file order. */
  function Keys<T>(xs: seq<T>, key: T -> Option<nat>): seq<nat> {
    if |xs| == 0 then []
    else
      var init := Keys(xs[..|xs| - 1], key);
      match key(xs[|xs| - 1])
      case Some(n) => init + [n]
      case None => init
  }

  /** The stored form of every line that has a key, in file order. */
  function Kept<T, U>(xs: seq<T>, key: T -> Option<nat>, val: T -> U): seq<U> {
    if |xs| == 0 then []
    else
      var init := Kept(xs[..|xs| - 1], key, val);
      if key(xs[|xs| - 1]).Some? then init + [val(xs[|xs| - 1])] else init
  }

  /** The block of key `n`: the stored form of the lines with that key, in
      file order. */
  function Group<T, U>(xs: seq<T>, key: T -> Option<nat>, val: T -> U, n: nat): seq<U> {
    if |xs| == 0 then []
    else
      var init := Group(xs[..|xs| - 1], key, val, n);
      if key(xs[|xs| - 1]) == Some(n) then init + [val(xs[|xs| - 1])] else init
  }

  /** The blocks in the order an insertion-ordered dict holds them. */
  function Groups<T, U>(xs: seq<T>, key: T -> Option<nat>, val: T -> U): seq<seq<U>> {
    var order := FirstSeen(Keys(xs, key));
    seq(|order|, x requires 0 <= x < |order| => Group(xs, key, val, order[x]))
  }

  /** A key that never occurred has an empty block. */
  lemma {:induction false} UnseenEmpty<T, U>(xs: seq<T>, key: T -> Option<nat>, val: T -> U, n: nat)
    requires n !in Keys(xs, key)
    ensures Group(xs, key, val, n) == []
    decreases |xs|
  {
    if |xs| > 0 {
      UnseenEmpty(xs[..|xs| - 1], key, val, n);
    }
  }

  /** One more line: only the block of its own key grows. */
  lemma GroupSnoc<T, U>(xs: seq<T>, key: T -> Option<nat>, val: T -> U, k: nat, n: nat)
    requires k < |xs|
    ensures Keys(xs[..k + 1], key)
      == match key(xs[k]) case Some(m) => Keys(xs[..k], key) + [m] case None => Keys(xs[..k], key)
    ensures Group(xs[..k + 1], key, val, n)
      == if key(xs[k]) == Some(n) then Group(xs[..k], key, val, n) + [val(xs[k])] else Group(xs[..k], key, val, n)
    ensures Kept(xs[..k + 1], key, val)
      == if key(xs[k]).Some? then Kept(xs[..k], key, val) + [val(xs[k])] else Kept(xs[..k], key, val)
  {
    assert xs[..k + 1][..k] == xs[..k];
  }

  /** What the loop of extract_body_blocks_from_acf keeps after `k` lines:
      the dict's key order and contents. */
  ghost predicate Holds<T, U>(xs: seq<T>, key: T -> Option<nat>, val: T -> U, k: nat,
                              order: seq<nat>, blocks: map<nat, seq<U>>)
    requires k <= |xs|
  {
    && order == FirstSeen(Keys(xs[..k], key))
    && (forall n :: n in blocks <==> n in order)
    && (forall n :: n in blocks ==> blocks[n] == Group(xs[..k], key, val, n))
  }

  /** A line without a key changes nothing. */
  lemma StepSkip<T, U>(xs: seq<T>, key: T -> Option<nat>, val: T -> U, k: nat, order: seq<nat>, blocks: map<nat, seq<U>>)
    requires k < |xs| && Holds(xs, key, val, k, order, blocks) && key(xs[k]).None?
    ensures Holds(xs, key, val, k + 1, order, blocks)
  {
    GroupSnoc(xs, key, val, k, 0);
    forall n | n in blocks {
      GroupSnoc(xs, key, val, k, n);
    }
  }

  /** A line whose key is new opens a block holding it, at the end. */
  lemma StepNew<T, U>(xs: seq<T>, key: T -> Option<nat>, val: T -> U, k: nat, order: seq<nat>, blocks: map<nat, seq<U>>, n: nat)
    requires k < |xs| && Holds(xs, key, val, k, order, blocks) && key(xs[k]) == Some(n) && n !in blocks
    ensures Holds(xs, key, val, k + 1, order + [n], blocks[n := [val(xs[k])]])
  {
    var keys := Keys(xs[..k], key);
    FirstSeenMembers(keys);
    FirstSeenSnoc(keys, n);
    GroupSnoc(xs, key, val, k, n);
    UnseenEmpty(xs[..k], key, val, n);
    forall m | m in blocks {
      GroupSnoc(xs, key, val, k, m);
    }
  }

  /** A line whose key was seen joins the end of that key's block. */
  lemma StepOld<T, U>(xs: seq<T>, key: T -> Option<nat>, val: T -> U, k: nat, order: seq<nat>, blocks: map<nat, seq<U>>, n: nat)
    requires k < |xs| && Holds(xs, key, val, k, order, blocks) && key(xs[k]) == Some(n) && n in blocks
    ensures Holds(xs, key, val, k + 1, order, blocks[n := blocks[n] + [val(xs[k])]])
  {
    var keys := Keys(xs[..k], key);
    FirstSeenSnoc(keys, n);
    forall m | m in blocks {
      GroupSnoc(xs, key, val, k, m);
    }
  }

  /** extract_body_blocks_from_acf over the lines of the file: `order` is
      the key order of the OrderedDict, `blocks` its contents. */
  method ExtractBodyBlocks(lines: seq<string>) returns (order: seq<nat>, blocks: map<nat, seq<string>>)
    ensures order == FirstSeen(Keys(lines, PrefixIndex))
    ensures forall n :: n in blocks <==> n in order
    ensures forall n :: n in blocks ==> blocks[n] == Group(lines, PrefixIndex, StripNewlines, n)
  {
    order, blocks := [], map[];
    var k := 0;
    while k < |lines|
      invariant k <= |lines|
      invariant Holds(lines, PrefixIndex, StripNewlines, k, order, blocks)
    {
      var line := lines[k];
      var m := PrefixIndex(line);
      if m.Some? {
        var n := m.value;
        if n !in blocks {
          StepNew(lines, PrefixIndex, StripNewlines, k, order, blocks, n);
          order := order + [n];
          blocks := blocks[n := []];
        } else {
          StepOld(lines, PrefixIndex, StripNewlines, k, order, blocks, n);
        }
        blocks := blocks[n := blocks[n] + [StripNewlines(line)]];
      } else {
        StepSkip(lines, PrefixIndex, StripNewlines, k, order, blocks);
      }
      k := k + 1;
    }
    assert lines[..k] == lines;
  }

  /** Each block holds only the stored form of lines with its own key. */
  lemma {:induction false} GroupMembers<T, U>(xs: seq<T>, key: T -> Option<nat>, val: T -> U, n: nat, q: nat)
    requires q < |Group(xs, key, val, n)|
    ensures exists k :: 0 <= k < |xs| && key(xs[k]) == Some(n) && Group(xs, key, val, n)[q] == val(xs[k])
    decreases |xs|
  {
    var init := xs[..|xs| - 1];
    if q < |Group(init, key, val, n)| {
      GroupMembers(init, key, val, n, q);
      var k :| 0 <= k < |init| && key(init[k]) == Some(n) && Group(init, key, val, n)[q] == val(init[k]);
      assert xs[k] == init[k];
    } else {
      assert key(xs[|xs| - 1]) == Some(n);
    }
  }

  /** A line without a key leaves the blocks as they were. */
  lemma GroupsSkip<T, U>(xs: seq<T>, key: T -> Option<nat>, val: T -> U)
    requires |xs| > 0 && key(xs[|xs| - 1]).None?
    ensures Groups(xs, key, val) == Groups(xs[..|xs| - 1], key, val)
  {
    var k := |xs| - 1;
    assert xs[..k + 1] == xs;
    GroupSnoc(xs, key, val, k, 0);
    var order := FirstSeen(Keys(xs[..k], key));
    forall x | 0 <= x < |order| {
      GroupSnoc(xs, key, val, k, order[x]);
    }
  }

  /** A line with a seen key grows that key's block in place. */
  lemma GroupsOld<T, U>(xs: seq<T>, key: T -> Option<nat>, val: T -> U, x: nat)
    requires |xs| > 0
    requires var order := FirstSeen(Keys(xs[..|xs| - 1], key));
             x < |order| && key(xs[|xs| - 1]) == Some(order[x])
    ensures var bs := Groups(xs[..|xs| - 1], key, val);
            Groups(xs, key, val) == bs[x := bs[x] + [val(xs[|xs| - 1])]]
  {
    var k := |xs| - 1;
    assert xs[..k + 1] == xs;
    var keys := Keys(xs[..k], key);
    var order := FirstSeen(keys);
    var n := order[x];
    GroupSnoc(xs, key, val, k, n);
    FirstSeenOrder(keys);
    FirstSeenSnoc(keys, n);
    assert FirstSeen(Keys(xs, key)) == order;
    var bs := Groups(xs[..k], key, val);
    var v := val(xs[k]);
    forall y | 0 <= y < |order|
      ensures Groups(xs, key, val)[y] == bs[x := bs[x] + [v]][y]
    {
      GroupSnoc(xs, key, val, k, order[y]);
    }
  }

  /** A line with a new key adds a block holding just it, at the end. */
  lemma GroupsNew<T, U>(xs: seq<T>, key: T -> Option<nat>, val: T -> U, n: nat)
    requires |xs| > 0 && key(xs[|xs| - 1]) == Some(n) && n !in Keys(xs[..|xs| - 1], key)
    ensures Groups(xs, key, val) == Groups(xs[..|xs| - 1], key, val) + [[val(xs[|xs| - 1])]]
  {
    var k := |xs| - 1;
    assert xs[..k + 1] == xs;
    var keys := Keys(xs[..k], key);
    var order := FirstSeen(keys);
    GroupSnoc(xs, key, val, k, n);
    FirstSeenMembers(keys);
    FirstSeenSnoc(keys, n);
    UnseenEmpty(xs[..k], key, val, n);
    assert FirstSeen(Keys(xs, key)) == order + [n];
    var bs := Groups(xs[..k], key, val);
    var v := val(xs[k]);
    forall y | 0 <= y < |order| + 1
      ensures Groups(xs, key, val)[y] == (bs + [[v]])[y]
    {
      if y < |order| {
        GroupSnoc(xs, key, val, k, order[y]);
      }
    }
  }

  /** Across all blocks, every kept line appears exactly as often as in the
      file: grouping loses and invents nothing. */
  lemma {:induction false} GroupsMultiset<T, U>(xs: seq<T>, key: T -> Option<nat>, val: T -> U)
    ensures multiset(Flatten(Groups(xs, key, val))) == multiset(Kept(xs, key, val))
    decreases |xs|
  {
    if |xs| == 0 {
      assert Groups(xs, key, val) == [];
    } else {
      var k := |xs| - 1;
      var init := xs[..k];
      GroupsMultiset(init, key, val);
      GroupSnoc(xs, key, val, k, 0);
      assert xs[..k + 1] == xs;
      var bs := Groups(init, key, val);
      var keys := Keys(init, key);
      var order := FirstSeen(keys);
      FirstSeenMembers(keys);
      if key(xs[k]).Some? {
        var n := key(xs[k]).value;
        var t := [val(xs[k])];
        if n in order {
          var x :| 0 <= x < |order| && order[x] == n;
          GroupsOld(xs, key, val, x);
          FlattenGrowMultiset(bs, x, t);
        } else {
          GroupsNew(xs, key, val, n);
          assert (bs + [t])[..|bs|] == bs;
        }
      } else {
        GroupsSkip(xs, key, val);
      }
    }
  }
}
