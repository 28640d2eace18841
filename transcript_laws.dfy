/**
 * What the chunking of create_transcript guarantees: the chunks put back
 * together are the whole transcript, oldest message first; no block is
 * split; a block starts a new chunk exactly when it would push the current
 * chunk past the limit; and the boundary cases at the first block and at an
 * empty history.
 */
module TranscriptLaws {
  import opened Platform
  import opened Transcript

  // ---------------------------------------------------------------------
  // The flush rule as predicates on a grouping of blocks
  // ---------------------------------------------------------------------

  /** No block after the first of `g` triggered a flush: each fitted onto the blocks before it. */
  ghost predicate Fits(g: seq<string>)
  {
    forall j :: 0 < j < |g| ==> |Join(g[..j])| + |g[j]| <= ChunkLimit
  }

  /** `g` was started by a block that did not fit onto `prev`. */
  ghost predicate FlushedAfter(prev: seq<string>, g: seq<string>)
  {
    g != [] && |Join(prev)| + |g[0]| > ChunkLimit
  }

  /**
   * The declarative chunking rule: `gs` cuts `bs` into consecutive groups,
   * a block joins the current group exactly when it fits, the first group is
   * empty exactly when the first block alone is over the limit, and there
   * are no groups at all for no blocks.
   */
  ghost predicate ValidGrouping(bs: seq<string>, gs: seq<seq<string>>)
  {
    && Flatten(gs) == bs
    && (bs == [] ==> gs == [])
    && AllFit(gs)
    && Chained(gs)
    && (bs != [] ==> |gs| > 0 && (gs[0] == [] <==> |bs[0]| > ChunkLimit))
  }

  // ---------------------------------------------------------------------
  // Sequence facts
  // ---------------------------------------------------------------------

  lemma FlattenSnoc(gs: seq<seq<string>>, g: seq<string>)
    ensures Flatten(gs + [g]) == Flatten(gs) + g
  {
    assert (gs + [g])[..|gs|] == gs;
  }

  lemma {:induction false} JoinAppend(a: seq<string>, b: seq<string>)
    ensures Join(a + b) == Join(a) + Join(b)
    decreases |b|
  {
    if b == [] {
      assert a + b == a;
    } else {
      var b' := b[..|b| - 1];
      assert (a + b)[..|a + b| - 1] == a + b';
      JoinAppend(a, b');
    }
  }

  lemma {:induction false} ConcatJoinAll(gs: seq<seq<string>>)
    ensures Concat(JoinAll(gs)) == Join(Flatten(gs))
    decreases |gs|
  {
    if gs != [] {
      var gs' := gs[..|gs| - 1];
      assert JoinAll(gs)[..|gs| - 1] == JoinAll(gs');
      ConcatJoinAll(gs');
      JoinAppend(Flatten(gs'), gs[|gs| - 1]);
    }
  }

  lemma RunSnocAll(p: seq<string>, b: string)
    ensures Run(p + [b]) == Step(Run(p), b)
  {
    assert (p + [b])[..|p|] == p;
  }

  // ---------------------------------------------------------------------
  // Invariants of the fold
  // ---------------------------------------------------------------------

  /** The fold keeps every block exactly once, in order. */
  lemma {:induction false} RunFlatten(bs: seq<string>)
    ensures Flatten(Run(bs).closed) + Run(bs).open == bs
    decreases |bs|
  {
    if bs != [] {
      var p, b := bs[..|bs| - 1], bs[|bs| - 1];
      assert bs == p + [b];
      RunFlatten(p);
      var a := Run(p);
      if |Join(a.open)| + |b| > ChunkLimit {
        FlattenSnoc(a.closed, a.open);
      }
    }
  }

  ghost predicate AllFit(gs: seq<seq<string>>)
  {
    forall k :: 0 <= k < |gs| ==> Fits(gs[k])
  }

  ghost predicate Chained(gs: seq<seq<string>>)
  {
    forall k :: 0 < k < |gs| ==> FlushedAfter(gs[k - 1], gs[k])
  }

  lemma OpenGrows(o: seq<string>, b: string)
    requires Fits(o) && |Join(o)| + |b| <= ChunkLimit
    ensures Fits(o + [b])
  {
    var o' := o + [b];
    forall j | 0 < j < |o'| ensures |Join(o'[..j])| + |o'[j]| <= ChunkLimit {
      if j < |o| {
        assert o'[..j] == o[..j];
      } else {
        assert o'[..j] == o;
      }
    }
  }

  lemma StepFits(a: Acc, b: string)
    requires AllFit(a.closed) && Fits(a.open)
    ensures AllFit(Step(a, b).closed) && Fits(Step(a, b).open)
  {
    if |Join(a.open)| + |b| <= ChunkLimit {
      OpenGrows(a.open, b);
    }
  }

  /** Within a chunk, every block after the first fitted. */
  lemma {:induction false} RunFits(bs: seq<string>)
    ensures AllFit(Run(bs).closed) && Fits(Run(bs).open)
    decreases |bs|
  {
    if bs != [] {
      RunFits(bs[..|bs| - 1]);
      StepFits(Run(bs[..|bs| - 1]), bs[|bs| - 1]);
    }
  }

  lemma StepChained(a: Acc, b: string)
    requires Chained(a.closed)
    requires |a.closed| > 0 ==> FlushedAfter(a.closed[|a.closed| - 1], a.open)
    ensures Chained(Step(a, b).closed)
    ensures |Step(a, b).closed| > 0 ==> FlushedAfter(Step(a, b).closed[|Step(a, b).closed| - 1], Step(a, b).open)
  {
    if |Join(a.open)| + |b| > ChunkLimit {
      var c := a.closed + [a.open];
      forall k | 0 < k < |c| ensures FlushedAfter(c[k - 1], c[k]) {
        if k < |a.closed| {
          assert c[k - 1] == a.closed[k - 1] && c[k] == a.closed[k];
        }
      }
    }
  }

  /** Every chunk after the first was started by a block that did not fit onto the one before. */
  lemma {:induction false} RunChained(bs: seq<string>)
    ensures Chained(Run(bs).closed)
    ensures |Run(bs).closed| > 0 ==> FlushedAfter(Run(bs).closed[|Run(bs).closed| - 1], Run(bs).open)
    decreases |bs|
  {
    if bs != [] {
      RunChained(bs[..|bs| - 1]);
      StepChained(Run(bs[..|bs| - 1]), bs[|bs| - 1]);
    }
  }

  /** The first chunk is empty exactly when the first block alone is over the limit. */
  lemma {:induction false} RunFirst(bs: seq<string>)
    ensures bs != [] ==> Run(bs).open != []
    ensures bs != [] && |bs[0]| > ChunkLimit ==> |Run(bs).closed| > 0 && Run(bs).closed[0] == []
    ensures bs != [] && |bs[0]| <= ChunkLimit ==> |Run(bs).closed| == 0 || Run(bs).closed[0] != []
    decreases |bs|
  {
    if bs != [] {
      var p, b := bs[..|bs| - 1], bs[|bs| - 1];
      RunFirst(p);
      if p == [] {
        assert Run(p) == Acc([], []);
        assert b == bs[0];
      } else {
        assert p[0] == bs[0];
      }
    }
  }

  // ---------------------------------------------------------------------
  // The chunking satisfies the rule, and the rule determines the chunking
  // ---------------------------------------------------------------------

  lemma GroupingFlatten(bs: seq<string>)
    ensures Flatten(Grouping(bs)) == bs
  {
    RunFlatten(bs);
    var a := Run(bs);
    if a.open != [] {
      FlattenSnoc(a.closed, a.open);
    }
  }

  lemma GroupingFits(bs: seq<string>)
    ensures AllFit(Grouping(bs))
  {
    RunFits(bs);
  }

  lemma GroupingChained(bs: seq<string>)
    ensures Chained(Grouping(bs))
  {
    RunChained(bs);
    var a := Run(bs);
    var gs := Grouping(bs);
    if a.open != [] {
      forall k | 0 < k < |gs| ensures FlushedAfter(gs[k - 1], gs[k]) {
        if k < |a.closed| {
          assert gs[k - 1] == a.closed[k - 1] && gs[k] == a.closed[k];
        }
      }
    }
  }

  lemma GroupingFirst(bs: seq<string>)
    ensures bs == [] ==> Grouping(bs) == []
    ensures bs != [] ==> |Grouping(bs)| > 0 && (Grouping(bs)[0] == [] <==> |bs[0]| > ChunkLimit)
  {
    RunFirst(bs);
    var a := Run(bs);
    if bs == [] {
      assert a == Acc([], []);
    } else if |a.closed| == 0 {
      RunFlatten(bs);
      assert Grouping(bs)[0] == a.open;
    } else {
      assert Grouping(bs)[0] == a.closed[0];
    }
  }

  /** Grouping obeys the declarative chunking rule. */
  lemma GroupingValid(bs: seq<string>)
    ensures ValidGrouping(bs, Grouping(bs))
  {
    GroupingFlatten(bs);
    GroupingFits(bs);
    GroupingChained(bs);
    GroupingFirst(bs);
  }

  /** A valid grouping of a non-empty history ends with a non-empty chunk. */
  lemma LastGroupNonEmpty(bs: seq<string>, gs: seq<seq<string>>)
    requires ValidGrouping(bs, gs) && bs != []
    ensures gs[|gs| - 1] != []
  {
    var n := |gs|;
    if n == 1 {
      assert gs == [] + [gs[0]];
      FlattenSnoc([], gs[0]);
    } else {
      assert FlushedAfter(gs[n - 2], gs[n - 1]);
    }
  }

  /** Grouping of a non-empty history: the flushed groups and then the open one. */
  lemma GroupingNonEmpty(p: seq<string>)
    requires p != []
    ensures Grouping(p) == Run(p).closed + [Run(p).open]
  {
    RunFirst(p);
  }

  /** Splitting the last block off a non-empty history and off its last chunk. */
  lemma SplitLast(bs: seq<string>, gs: seq<seq<string>>)
    requires Flatten(gs) == bs && gs != [] && gs[|gs| - 1] != []
    ensures var last := gs[|gs| - 1];
      && bs != []
      && last[|last| - 1] == bs[|bs| - 1]
      && Flatten(gs[..|gs| - 1]) + last[..|last| - 1] == bs[..|bs| - 1]
  {
    var n := |gs|;
    var last, init := gs[n - 1], gs[..n - 1];
    var q := last[..|last| - 1];
    var x := last[|last| - 1];
    var f := Flatten(init);
    assert bs == f + last;
    assert last == q + [x];
    assert bs == (f + q) + [x];
    assert bs[..|bs| - 1] == f + q;
  }

  /** Dropping the last block of a group keeps it within the rule, and that block fitted. */
  lemma ShrinkFits(last: seq<string>)
    requires Fits(last) && |last| >= 2
    ensures Fits(last[..|last| - 1])
    ensures |Join(last[..|last| - 1])| + |last[|last| - 1]| <= ChunkLimit
  {
    var q := last[..|last| - 1];
    forall j | 0 < j < |q| ensures |Join(q[..j])| + |q[j]| <= ChunkLimit {
      assert q[..j] == last[..j] && q[j] == last[j];
    }
    assert last[..|q|] == q;
  }

  /** Replacing the last group by a non-empty prefix of it keeps the rule. */
  lemma ReplaceLast(gs: seq<seq<string>>, q: seq<string>)
    requires AllFit(gs) && Chained(gs) && gs != [] && Fits(q)
    requires q != [] && |q| <= |gs[|gs| - 1]| && q == gs[|gs| - 1][..|q|]
    ensures AllFit(gs[..|gs| - 1] + [q]) && Chained(gs[..|gs| - 1] + [q])
  {
    var n := |gs|;
    var gs' := gs[..n - 1] + [q];
    forall k | 0 <= k < |gs'| ensures Fits(gs'[k]) {
      if k < n - 1 { assert gs'[k] == gs[k]; }
    }
    forall k | 0 < k < |gs'| ensures FlushedAfter(gs'[k - 1], gs'[k]) {
      assert gs'[k - 1] == gs[k - 1];
      if k < n - 1 {
        assert gs'[k] == gs[k];
      } else {
        assert FlushedAfter(gs[k - 1], gs[k]) && q[0] == gs[k][0];
      }
    }
  }

  /** Dropping the last group keeps the rule. */
  lemma DropLast(gs: seq<seq<string>>)
    requires AllFit(gs) && Chained(gs) && gs != []
    ensures AllFit(gs[..|gs| - 1]) && Chained(gs[..|gs| - 1])
  {
  }

  /** Case of GroupingUnique: the last block joined the last chunk. */
  lemma GrownCase(bs: seq<string>, gs: seq<seq<string>>)
    requires ValidGrouping(bs, gs) && bs != [] && gs[|gs| - 1] != []
    requires |gs[|gs| - 1]| >= 2
    ensures var last := gs[|gs| - 1];
      ValidGrouping(bs[..|bs| - 1], gs[..|gs| - 1] + [last[..|last| - 1]])
  {
    SplitLast(bs, gs);
    var n := |gs|;
    var p := bs[..|bs| - 1];
    var last, init := gs[n - 1], gs[..n - 1];
    var q := last[..|last| - 1];
    assert Fits(gs[n - 1]);
    ShrinkFits(last);
    ReplaceLast(gs, q);
    var gs' := init + [q];
    FlattenSnoc(init, q);
    assert p != [] && p[0] == bs[0];
    assert gs'[0] == (if n == 1 then q else gs[0]);
  }

  lemma StepNoFlush(p: seq<string>, b: string, closed: seq<seq<string>>, q: seq<string>)
    requires Run(p) == Acc(closed, q) && |Join(q)| + |b| <= ChunkLimit
    ensures Run(p + [b]) == Acc(closed, q + [b])
  {
    RunSnocAll(p, b);
  }

  lemma GrownStep(bs: seq<string>, gs: seq<seq<string>>)
    requires Flatten(gs) == bs && gs != [] && |gs[|gs| - 1]| >= 2 && Fits(gs[|gs| - 1])
    requires var last := gs[|gs| - 1];
      gs[..|gs| - 1] + [last[..|last| - 1]] == Grouping(bs[..|bs| - 1])
    ensures gs == Grouping(bs)
  {
    var n := |gs|;
    var p, b := bs[..|bs| - 1], bs[|bs| - 1];
    var last, init := gs[n - 1], gs[..n - 1];
    var q := last[..|last| - 1];
    SplitLast(bs, gs);
    ShrinkFits(last);
    assert Grouping([]) == [] by { assert Run([]) == Acc([], []); }
    assert p != [];
    GroupingNonEmpty(p);
    var a := Run(p);
    SnocInjective(a.closed, a.open, init, q);
    SeqSnoc(bs);
    SeqSnoc(last);
    StepNoFlush(p, b, init, q);
    assert gs == init + [last];
  }

  lemma SeqSnoc<T>(s: seq<T>)
    requires |s| > 0
    ensures s == s[..|s| - 1] + [s[|s| - 1]]
  {
  }

  lemma SnocInjective(a: seq<seq<string>>, x: seq<string>, b: seq<seq<string>>, y: seq<string>)
    requires a + [x] == b + [y]
    ensures a == b && x == y
  {
    assert (a + [x])[..|a|] == a;
    assert (b + [y])[..|b|] == b;
  }

  lemma FlushedCase(bs: seq<string>, gs: seq<seq<string>>)
    requires ValidGrouping(bs, gs) && |bs| >= 2 && |gs| >= 2 && |gs[|gs| - 1]| == 1
    ensures ValidGrouping(bs[..|bs| - 1], gs[..|gs| - 1])
  {
    SplitLast(bs, gs);
    var n := |gs|;
    DropLast(gs);
    assert bs[..|bs| - 1][0] == bs[0] && gs[..n - 1][0] == gs[0];
  }

  lemma FlushedStep(bs: seq<string>, gs: seq<seq<string>>)
    requires ValidGrouping(bs, gs) && |bs| >= 2 && |gs| >= 2 && |gs[|gs| - 1]| == 1
    requires gs[..|gs| - 1] == Grouping(bs[..|bs| - 1])
    ensures gs == Grouping(bs)
  {
    SplitLast(bs, gs);
    var n := |gs|;
    var p, b := bs[..|bs| - 1], bs[|bs| - 1];
    var last, init := gs[n - 1], gs[..n - 1];
    assert last == [b];
    assert FlushedAfter(gs[n - 2], gs[n - 1]);
    GroupingNonEmpty(p);
    var a := Run(p);
    assert init == a.closed + [a.open];
    assert gs[n - 2] == a.open;
    RunSnocAll(p, b);
    assert bs == p + [b];
    assert Run(bs) == Acc(a.closed + [a.open], [b]);
    assert gs == init + [last];
  }

  lemma SingleStep(bs: seq<string>, gs: seq<seq<string>>)
    requires ValidGrouping(bs, gs) && |bs| == 1 && |gs[|gs| - 1]| == 1
    ensures gs == Grouping(bs)
  {
    SplitLast(bs, gs);
    var n := |gs|;
    var b := bs[0];
    RunSnocAll([], b);
    assert [] + [b] == bs;
    assert Run([]) == Acc([], []);
    if n == 1 {
      assert gs == [[b]] && |b| <= ChunkLimit;
    } else {
      assert FlushedAfter(gs[n - 2], gs[n - 1]);
      assert Flatten(gs[..n - 1]) == [];
      UniqueEmptyPrefix(gs[..n - 1]);
      assert gs == gs[..n - 1] + [gs[n - 1]];
      assert gs == [[], [b]] && |b| > ChunkLimit;
    }
  }

  /** Any grouping that obeys the chunking rule is the one create_transcript builds. */
  lemma {:induction false} GroupingUnique(bs: seq<string>, gs: seq<seq<string>>)
    requires ValidGrouping(bs, gs)
    ensures gs == Grouping(bs)
    decreases |bs|
  {
    if bs == [] {
      assert Run(bs) == Acc([], []);
    } else {
      LastGroupNonEmpty(bs, gs);
      var n := |gs|;
      var last := gs[n - 1];
      if |last| >= 2 {
        GrownCase(bs, gs);
        GroupingUnique(bs[..|bs| - 1], gs[..n - 1] + [last[..|last| - 1]]);
        GrownStep(bs, gs);
      } else if |bs| == 1 {
        SingleStep(bs, gs);
      } else {
        assert n >= 2;
        FlushedCase(bs, gs);
        GroupingUnique(bs[..|bs| - 1], gs[..n - 1]);
        FlushedStep(bs, gs);
      }
    }
  }

  /** A chained grouping of no blocks is at most one empty group. */
  lemma UniqueEmptyPrefix(gs: seq<seq<string>>)
    requires Chained(gs) && Flatten(gs) == [] && gs != []
    ensures gs == [[]]
  {
    var n := |gs|;
    assert gs == gs[..n - 1] + [gs[n - 1]];
    FlattenSnoc(gs[..n - 1], gs[n - 1]);
  }

  // ---------------------------------------------------------------------
  // Consequences, stated on the chunks
  // ---------------------------------------------------------------------

  /** Round trip: the chunks in order spell out every block, oldest first, each followed by a blank line. */
  lemma TranscriptRoundTrip(bs: seq<string>)
    ensures Concat(Chunks(bs)) == Join(bs)
  {
    GroupingValid(bs);
    ConcatJoinAll(Grouping(bs));
  }

  /** Each chunk is the text of whole consecutive blocks: no block is split between chunks. */
  lemma ChunksAreWholeBlocks(bs: seq<string>)
    ensures |Chunks(bs)| == |Grouping(bs)|
    ensures Flatten(Grouping(bs)) == bs
    ensures forall k :: 0 <= k < |Chunks(bs)| ==> Chunks(bs)[k] == Join(Grouping(bs)[k])
  {
    GroupingValid(bs);
  }

  /** An empty history yields no chunks, and a non-empty one at least one. */
  lemma NoChunksIffNoMessages(bs: seq<string>)
    ensures Chunks(bs) == [] <==> bs == []
  {
    GroupingValid(bs);
  }

  /** Only the first chunk can be empty, and it is exactly when the first block alone exceeds the limit. */
  lemma EmptyFirstChunk(bs: seq<string>)
    requires bs != []
    ensures |Chunks(bs)| > 0
    ensures Chunks(bs)[0] == "" <==> |bs[0]| > ChunkLimit
    ensures forall k :: 0 < k < |Chunks(bs)| ==> Chunks(bs)[k] != ""
  {
    GroupingValid(bs);
    var gs := Grouping(bs);
    assert Chunks(bs)[0] == Join(gs[0]);
    forall k | 0 < k < |gs| ensures Chunks(bs)[k] != "" {
      assert FlushedAfter(gs[k - 1], gs[k]);
    }
  }

  /** A chunk of two or more blocks is at most one character over the limit (the uncounted newline). */
  lemma MultiBlockChunkBound(bs: seq<string>, k: nat)
    requires k < |Chunks(bs)| && |Grouping(bs)[k]| >= 2
    ensures |Chunks(bs)[k]| <= ChunkLimit + 1
  {
    GroupingValid(bs);
    var g := Grouping(bs)[k];
    var j := |g| - 1;
    assert Fits(g);
    assert g[..j + 1] == g;
    assert Join(g) == Join(g[..j]) + Entry(g[j]);
  }

  /** A block starts chunk k > 0 exactly because it would not fit onto chunk k-1. */
  lemma FlushCondition(bs: seq<string>, k: nat)
    requires 0 < k < |Chunks(bs)|
    ensures Grouping(bs)[k] != []
    ensures |Chunks(bs)[k - 1]| + |Grouping(bs)[k][0]| > ChunkLimit
  {
    GroupingValid(bs);
    assert FlushedAfter(Grouping(bs)[k - 1], Grouping(bs)[k]);
  }

  /** The bound of MultiBlockChunkBound is reached: two blocks giving a chunk of 4001 characters. */
  lemma ChunkOfLimitPlusOne()
    ensures var bs := [seq(1999, _ => 'x'), seq(2000, _ => 'y')];
      Chunks(bs) == [Join(bs)] && |Join(bs)| == ChunkLimit + 1
  {
    var bs := [seq(1999, _ => 'x'), seq(2000, _ => 'y')];
    assert bs[..1] == [bs[0]] && [bs[0]][..0] == [];
    assert Run([bs[0]]) == Acc([], [bs[0]]);
    RunSnocAll([bs[0]], bs[1]);
    assert [bs[0]] + [bs[1]] == bs;
    assert |Join([bs[0]])| == 2000;
  }

  // ---------------------------------------------------------------------
  // The same, for a channel history as create_transcript receives it
  // ---------------------------------------------------------------------

  /** The transcript of a newest-first history reproduces every message's block, oldest first. */
  lemma HistoryRoundTrip(history: seq<Message>)
    ensures var bs := Blocks(Reversed(history));
      Concat(Chunks(bs)) == Join(bs)
      && (|history| > 0 ==> bs[0] == Block(history[|history| - 1]))
      && (Chunks(bs) == [] <==> history == [])
  {
    var bs := Blocks(Reversed(history));
    TranscriptRoundTrip(bs);
    NoChunksIffNoMessages(bs);
  }
}
