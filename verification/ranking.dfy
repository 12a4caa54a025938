/**
 * Scoring and ranking (`computeSortedMethods`, `computeSortedBlocks`, the two
 * comparators and the block listings of `BrepairCountData`).
 *
 * The source sorts records in `TreeSet`s under explicit comparators; here each
 * record is summarised by a key and the sorted view is `SortSet` under the
 * comparator's strict total order.
 */
module Ranking {
  import opened Wrappers
  import opened Strings
  import opened Ordering
  import opened Suspicion
  import opened CountData

  // ---------------------------------------------------------------------------
  // Comparators
  // ---------------------------------------------------------------------------

  /** What `MethodComparator` looks at: the score and the method name. */
  datatype MethodKey = MethodKey(score: real, name: string)

  /** `MethodComparator`: higher score first, then names in `compareTo` order. */
  predicate MethodBefore(a: MethodKey, b: MethodKey) {
    a.score > b.score || (a.score == b.score && LexLess(a.name, b.name))
  }

  /**
   * What `BlockComparator` looks at: score, start line and label; the final
   * identity tie-break is the owning method's name and the block id.
   */
  datatype BlockKey = BlockKey(score: real, start: int, lineName: string, mname: string, id: int)

  /** `BlockComparator`: higher score first, then lower start line, then label, then identity. */
  predicate BlockBefore(a: BlockKey, b: BlockKey) {
    || a.score > b.score
    || (a.score == b.score && a.start < b.start)
    || (a.score == b.score && a.start == b.start && LexLess(a.lineName, b.lineName))
    || (a.score == b.score && a.start == b.start && a.lineName == b.lineName && LexLess(a.mname, b.mname))
    || (a.score == b.score && a.start == b.start && a.lineName == b.lineName && a.mname == b.mname && a.id < b.id)
  }

  lemma MethodOrder()
    ensures StrictTotalOrder(MethodBefore)
  {
    forall x: MethodKey
      ensures !MethodBefore(x, x)
    {
      LexIrreflexive(x.name);
    }
    forall x: MethodKey, y: MethodKey, z: MethodKey | MethodBefore(x, y) && MethodBefore(y, z)
      ensures MethodBefore(x, z)
    {
      if x.score == y.score == z.score {
        LexTransitive(x.name, y.name, z.name);
      }
    }
    forall x: MethodKey, y: MethodKey | x != y
      ensures MethodBefore(x, y) || MethodBefore(y, x)
    {
      if x.score == y.score {
        LexConnected(x.name, y.name);
      }
    }
  }

  lemma BlockOrder()
    ensures StrictTotalOrder(BlockBefore)
  {
    forall x: BlockKey
      ensures !BlockBefore(x, x)
    {
      LexIrreflexive(x.lineName);
      LexIrreflexive(x.mname);
    }
    forall x: BlockKey, y: BlockKey, z: BlockKey | BlockBefore(x, y) && BlockBefore(y, z)
      ensures BlockBefore(x, z)
    {
      if x.score == y.score == z.score && x.start == y.start == z.start {
        if LexLess(x.lineName, y.lineName) && LexLess(y.lineName, z.lineName) {
          LexTransitive(x.lineName, y.lineName, z.lineName);
        } else if x.lineName == y.lineName == z.lineName && LexLess(x.mname, y.mname) && LexLess(y.mname, z.mname) {
          LexTransitive(x.mname, y.mname, z.mname);
        }
      }
    }
    forall x: BlockKey, y: BlockKey | x != y
      ensures BlockBefore(x, y) || BlockBefore(y, x)
    {
      if x.score == y.score && x.start == y.start {
        if x.lineName != y.lineName {
          LexConnected(x.lineName, y.lineName);
        } else if x.mname != y.mname {
          LexConnected(x.mname, y.mname);
        }
      }
    }
  }

  // ---------------------------------------------------------------------------
  // Block labels
  // ---------------------------------------------------------------------------

  /** `BlockAccumData.getName`: `"Line n"` for a one-line block, `"Lines s-e"` otherwise. */
  function BlockLabel(start: int, end: int): string {
    if start == end then "Line " + IntToString(start)
    else "Lines " + IntToString(start) + "-" + IntToString(end)
  }

  /** Reads a block label back into its start and end lines. */
  function ParseBlockLabel(s: string): Option<(int, int)> {
    if StartsWith(s, "Lines ") then
      match ParseIntPrefix(s[6..])
      case None => None
      case Some((a, rest)) =>
        if |rest| > 0 && rest[0] == '-' then
          match ParseIntPrefix(rest[1..])
          case Some((b, tail)) => if tail == "" then Some((a, b)) else None
          case None => None
        else None
    else if StartsWith(s, "Line ") then
      match ParseIntPrefix(s[5..])
      case Some((a, tail)) => if tail == "" then Some((a, a)) else None
      case None => None
    else None
  }

  /** A label names its block's lines: reading it back gives the start and end line. */
  lemma BlockLabelRoundTrip(start: int, end: int)
    ensures ParseBlockLabel(BlockLabel(start, end)) == Some((start, end))
  {
    var s := BlockLabel(start, end);
    var a := IntToString(start);
    if start == end {
      assert s == "Line " + a;
      assert s[5] == a[0];
      assert a[0] == '-' || IsDigit(a[0]);
      assert !StartsWith(s, "Lines ");
      assert s[5..] == a + "";
      IntToStringRoundTrip(start, "");
    } else {
      var b := IntToString(end);
      var rest := "-" + b;
      assert s == "Lines " + (a + rest);
      assert s[6..] == a + rest;
      IntToStringRoundTrip(start, rest);
      assert rest[1..] == b + "";
      IntToStringRoundTrip(end, "");
    }
  }

  /** Different line ranges get different labels. */
  lemma BlockLabelInjective(s1: int, e1: int, s2: int, e2: int)
    requires BlockLabel(s1, e1) == BlockLabel(s2, e2)
    ensures s1 == s2 && e1 == e2
  {
    BlockLabelRoundTrip(s1, e1);
    BlockLabelRoundTrip(s2, e2);
  }

  // ---------------------------------------------------------------------------
  // Scores
  // ---------------------------------------------------------------------------

  predicate Above(x: real, y: real) {
    x > y
  }

  lemma AboveOrder()
    ensures StrictTotalOrder(Above)
  {
  }

  /** The largest block score, or 0 when there is none or all are negative. */
  function MaxBlockScore(blocks: map<int, Block>): (r: real)
    ensures r >= 0.0
    ensures forall id :: id in blocks ==> blocks[id].acc.score <= r
    ensures r == 0.0 || exists id :: id in blocks && blocks[id].acc.score == r
  {
    var scores := set id | id in blocks :: blocks[id].acc.score;
    assert forall id :: id in blocks ==> blocks[id].acc.score in scores;
    if scores == {} then 0.0
    else
      AboveOrder();
      var top := Least(scores, Above);
      if top > 0.0 then top else 0.0
  }

  /**
   * `MethodAccumData.computeOchaia`: a method with blocks rescores every block and
   * takes the largest block score (never below 0) and forgets its block ranking; a
   * method without blocks is scored on its own counters.
   */
  function ScoreMethod(m: Method, failTotal: nat, userFailTotal: nat, flowFactor: real, sqrt: real -> real): (r: Method)
    ensures r.acc.(score := m.acc.score) == m.acc
    ensures r.blocks.Keys == m.blocks.Keys
    ensures forall id :: id in m.blocks ==>
      && r.blocks[id].(acc := m.blocks[id].acc) == m.blocks[id]
      && r.blocks[id].acc == ComputeOchiai(m.blocks[id].acc, failTotal, userFailTotal, flowFactor, sqrt)
    ensures |m.blocks| == 0 ==> r.acc.score == Ochiai(m.acc, failTotal, userFailTotal, flowFactor, sqrt)
    ensures |m.blocks| == 0 ==> r.activeBlocks == m.activeBlocks
    ensures |m.blocks| > 0 ==>
      && r.activeBlocks.None?
      && r.acc.score >= 0.0
      && (forall id :: id in m.blocks ==> r.blocks[id].acc.score <= r.acc.score)
      && (r.acc.score == 0.0 || exists id :: id in m.blocks && r.blocks[id].acc.score == r.acc.score)
  {
    if |m.blocks| > 0 then
      var blocks := map id | id in m.blocks ::
        m.blocks[id].(acc := ComputeOchiai(m.blocks[id].acc, failTotal, userFailTotal, flowFactor, sqrt));
      m.(blocks := blocks, acc := m.acc.(score := MaxBlockScore(blocks)), activeBlocks := None)
    else
      m.(acc := ComputeOchiai(m.acc, failTotal, userFailTotal, flowFactor, sqrt))
  }

  /** The flow factor a ranking uses: switched off for good while no flow priority is known. */
  function RankingFlowFactor(d: CountData): real {
    if d.maxFlowPriority == 0.0 then 0.0 else d.flowFactor
  }

  /** The scoring pass of `computeSortedMethods`: the flow factor update, then every method rescored. */
  function Rescore(d: CountData, sqrt: real -> real): (r: CountData)
    ensures r.(methods := d.methods, flowFactor := d.flowFactor) == d
    ensures r.flowFactor == 0.0 <==> d.maxFlowPriority == 0.0 || d.flowFactor == 0.0
    ensures d.maxFlowPriority != 0.0 ==> r.flowFactor == d.flowFactor
    ensures r.methods.Keys == d.methods.Keys
    ensures forall name :: name in d.methods ==>
      r.methods[name] == ScoreMethod(d.methods[name], d.failTotal, d.userFailTotal, r.flowFactor, sqrt)
  {
    var ff := RankingFlowFactor(d);
    d.(flowFactor := ff,
       methods := map name | name in d.methods :: ScoreMethod(d.methods[name], d.failTotal, d.userFailTotal, ff, sqrt))
  }

  /** With counters within the totals and a valid flow factor, every score after a rescore lies in [0, 1]. */
  lemma RescoreBounds(d: CountData, sqrt: real -> real)
    requires IsSqrt(sqrt) && WithinTotals(d) && FlowFactorValid(d)
    ensures var r := Rescore(d, sqrt);
      forall name :: name in r.methods ==>
        && 0.0 <= r.methods[name].acc.score <= 1.0
        && forall id :: id in r.methods[name].blocks ==> 0.0 <= r.methods[name].blocks[id].acc.score <= 1.0
  {
    var r := Rescore(d, sqrt);
    forall name | name in r.methods
      ensures 0.0 <= r.methods[name].acc.score <= 1.0
      ensures forall id :: id in r.methods[name].blocks ==> 0.0 <= r.methods[name].blocks[id].acc.score <= 1.0
    {
      var m := d.methods[name];
      assert AccWithin(m.acc, d);
      forall id | id in m.blocks
        ensures 0.0 <= r.methods[name].blocks[id].acc.score <= 1.0
      {
        assert AccWithin(m.blocks[id].acc, d);
        OchiaiBounds(m.blocks[id].acc, d.failTotal, d.userFailTotal, r.flowFactor, sqrt);
      }
      if |m.blocks| == 0 {
        OchiaiBounds(m.acc, d.failTotal, d.userFailTotal, r.flowFactor, sqrt);
      } else if r.methods[name].acc.score != 0.0 {
        var id :| id in m.blocks && r.methods[name].blocks[id].acc.score == r.methods[name].acc.score;
      }
    }
  }

  // ---------------------------------------------------------------------------
  // Block rankings
  // ---------------------------------------------------------------------------

  function KeyOf(mname: string, id: int, b: Block): BlockKey {
    BlockKey(b.acc.score, b.start, BlockLabel(b.start, b.end), mname, id)
  }

  /** A block enters a method's ranking with a score at or above the cutoff and a positive start line. */
  predicate Qualifies(b: Block, cutoff: real) {
    b.acc.score >= cutoff && b.start > 0
  }

  /** The qualifying blocks of method `mname` in `BlockComparator` order. */
  function SortedBlockKeys(m: Method, mname: string, cutoff: real): (r: seq<BlockKey>)
    ensures Sorted(r, BlockBefore)
    ensures forall i :: 0 <= i < |r| ==>
      r[i].id in m.blocks && Qualifies(m.blocks[r[i].id], cutoff) && r[i] == KeyOf(mname, r[i].id, m.blocks[r[i].id])
    ensures forall id :: id in m.blocks && Qualifies(m.blocks[id], cutoff) ==> KeyOf(mname, id, m.blocks[id]) in r
  {
    BlockOrder();
    SortSet(set id | id in m.blocks && Qualifies(m.blocks[id], cutoff) :: KeyOf(mname, id, m.blocks[id]), BlockBefore)
  }

  function Labels(keys: seq<BlockKey>): (r: seq<string>)
    ensures |r| == |keys| && forall i :: 0 <= i < |keys| ==> r[i] == keys[i].lineName
  {
    seq(|keys|, i requires 0 <= i < |keys| => keys[i].lineName)
  }

  /**
   * `MethodAccumData.computeSortedBlocks(cutoff)`: when the method holds no block
   * ranking, ranks the blocks scoring at least `cutoff` and starting after line 0
   * and records their labels; an existing ranking is kept.
   */
  function ComputeSortedBlocks(m: Method, mname: string, cutoff: real): (r: Method)
    ensures r.(activeBlocks := m.activeBlocks) == m
    ensures m.activeBlocks.Some? ==> r.activeBlocks == m.activeBlocks
    ensures m.activeBlocks.None? ==>
      && r.activeBlocks.Some?
      && var ks := SortedBlockKeys(m, mname, cutoff);
         && |r.activeBlocks.value| == |ks|
         && forall i :: 0 <= i < |ks| ==>
              r.activeBlocks.value[i] == BlockLabel(m.blocks[ks[i].id].start, m.blocks[ks[i].id].end)
  {
    if m.activeBlocks.Some? then m
    else m.(activeBlocks := Some(Labels(SortedBlockKeys(m, mname, cutoff))))
  }

  /** The `method@start@end` reference of a block in the session-wide listing. */
  function BlockRef(k: BlockKey, b: Block): string {
    k.mname + "@" + IntToString(b.start) + "@" + IntToString(b.end)
  }

  /** Every block of every method in `BlockComparator` order. */
  function AllBlockKeys(d: CountData): (r: seq<BlockKey>)
    ensures Sorted(r, BlockBefore)
    ensures forall i :: 0 <= i < |r| ==>
      && r[i].mname in d.methods && r[i].id in d.methods[r[i].mname].blocks
      && r[i] == KeyOf(r[i].mname, r[i].id, d.methods[r[i].mname].blocks[r[i].id])
    ensures forall name, id :: name in d.methods && id in d.methods[name].blocks ==>
      KeyOf(name, id, d.methods[name].blocks[id]) in r
  {
    BlockOrder();
    SortSet(set name, id | name in d.methods && id in d.methods[name].blocks :: KeyOf(name, id, d.methods[name].blocks[id]), BlockBefore)
  }

  /**
   * `getSortedBlocks()`: every block of the session by the stored scores, as
   * `method@start@end`, with no cutoff.
   */
  function GetAllSortedBlocks(d: CountData): (r: seq<string>)
    ensures var ks := AllBlockKeys(d);
      && |r| == |ks|
      && forall i :: 0 <= i < |ks| ==>
           var b := d.methods[ks[i].mname].blocks[ks[i].id];
           r[i] == ks[i].mname + "@" + IntToString(b.start) + "@" + IntToString(b.end)
  {
    var ks := AllBlockKeys(d);
    seq(|ks|, i requires 0 <= i < |ks| => BlockRef(ks[i], d.methods[ks[i].mname].blocks[ks[i].id]))
  }

  /** `getSortedBlocks(method)`: the method's block ranking; `None` for an unknown or unranked method. */
  function GetSortedBlocks(d: CountData, mname: string): (r: Option<seq<string>>)
    ensures mname !in d.methods ==> r.None?
    ensures mname in d.methods ==> r == d.methods[mname].activeBlocks
  {
    if mname in d.methods then d.methods[mname].activeBlocks else None
  }

  // ---------------------------------------------------------------------------
  // Method rankings
  // ---------------------------------------------------------------------------

  /** Every method with its current score, in `MethodComparator` order. */
  function MethodKeys(d: CountData): (r: seq<MethodKey>)
    ensures Sorted(r, MethodBefore)
    ensures forall i :: 0 <= i < |r| ==> r[i].name in d.methods && r[i].score == d.methods[r[i].name].acc.score
    ensures forall name :: name in d.methods ==> MethodKey(d.methods[name].acc.score, name) in r
  {
    MethodOrder();
    SortSet(set name | name in d.methods :: MethodKey(d.methods[name].acc.score, name), MethodBefore)
  }

  /** The keys the selection loop does not skip: names not starting with the test name, in order. */
  function Eligible(keys: seq<MethodKey>, testname: string): (r: seq<MethodKey>)
    ensures |r| <= |keys|
    ensures forall i :: 0 <= i < |r| ==> !StartsWith(r[i].name, testname)
    decreases |keys|
  {
    if |keys| == 0 then []
    else
      var last := keys[|keys| - 1];
      Eligible(keys[..|keys| - 1], testname) + (if StartsWith(last.name, testname) then [] else [last])
  }

  /** The filter keeps exactly the keys whose names do not start with the test name. */
  lemma {:induction false} EligibleContents(keys: seq<MethodKey>, testname: string)
    ensures forall k :: k in Eligible(keys, testname) <==> k in keys && !StartsWith(k.name, testname)
    decreases |keys|
  {
    if |keys| > 0 {
      var init := keys[..|keys| - 1];
      EligibleContents(init, testname);
      assert keys == init + [keys[|keys| - 1]];
    }
  }

  /** Skipping keys keeps the rest in order. */
  lemma {:induction false} EligibleSorted(keys: seq<MethodKey>, testname: string)
    requires Sorted(keys, MethodBefore)
    ensures Sorted(Eligible(keys, testname), MethodBefore)
    decreases |keys|
  {
    if |keys| > 0 {
      var init := keys[..|keys| - 1];
      var last := keys[|keys| - 1];
      EligibleSorted(init, testname);
      EligibleContents(init, testname);
      var e := Eligible(init, testname);
      forall i | 0 <= i < |e|
        ensures MethodBefore(e[i], last)
      {
        assert e[i] in e;
        var j :| 0 <= j < |init| && init[j] == e[i];
      }
    }
  }

  /** Filtering a prefix of the keys gives a prefix of the filtered keys. */
  lemma {:induction false} EligiblePrefix(keys: seq<MethodKey>, testname: string, i: nat)
    requires i <= |keys|
    ensures var p := Eligible(keys[..i], testname);
      |p| <= |Eligible(keys, testname)| && Eligible(keys, testname)[..|p|] == p
    decreases |keys| - i
  {
    if i < |keys| {
      EligiblePrefix(keys, testname, i + 1);
      var p := Eligible(keys[..i], testname);
      var q := Eligible(keys[..i + 1], testname);
      var e := Eligible(keys, testname);
      assert keys[..i + 1][..i] == keys[..i];
      assert q == p + (if StartsWith(keys[i].name, testname) then [] else [keys[i]]);
      assert q[..|p|] == p;
      assert e[..|p|] == e[..|q|][..|p|];
    } else {
      assert keys[..i] == keys;
    }
  }

  /** A step of the selection loop over a key the filter drops or keeps. */
  lemma EligibleStep(keys: seq<MethodKey>, testname: string, i: nat)
    requires i < |keys|
    ensures var n := |Eligible(keys[..i], testname)|;
      var e := Eligible(keys, testname);
      && (StartsWith(keys[i].name, testname) ==> |Eligible(keys[..i + 1], testname)| == n)
      && (!StartsWith(keys[i].name, testname) ==>
            |Eligible(keys[..i + 1], testname)| == n + 1 && n < |e| && e[n] == keys[i])
  {
    var p := Eligible(keys[..i], testname);
    var q := Eligible(keys[..i + 1], testname);
    var e := Eligible(keys, testname);
    assert keys[..i + 1][..i] == keys[..i];
    assert q == p + (if StartsWith(keys[i].name, testname) then [] else [keys[i]]);
    EligiblePrefix(keys, testname, i + 1);
    if !StartsWith(keys[i].name, testname) {
      assert q[|p|] == keys[i];
      assert e[..|q|][|p|] == keys[i];
    }
  }

  /** Once the loop has seen every key, it has seen every eligible one. */
  lemma EligibleAll(keys: seq<MethodKey>, testname: string)
    ensures |Eligible(keys[..|keys|], testname)| == |Eligible(keys, testname)|
  {
    assert keys[..|keys|] == keys;
  }

  /** Scores never increase along `e`. */
  ghost predicate NonIncreasing(e: seq<MethodKey>) {
    forall j, k :: 0 <= j < k < |e| ==> e[k].score <= e[j].score
  }

  ghost predicate NonNegative(e: seq<MethodKey>) {
    forall k :: 0 <= k < |e| ==> 0.0 <= e[k].score
  }

  /** The number of entries before the tie-closing cap takes over (`max`, at least 1). */
  function Cap(max: int): nat {
    if max < 1 then 1 else max
  }

  /**
   * Entry `k` of the eligible keys survives the loop's threshold: its score reaches
   * the first score times the cutoff, and past the cap it ties the last entry within
   * the cap.
   */
  ghost predicate WithinCut(e: seq<MethodKey>, k: nat, cutoff: real, max: int)
    requires k < |e|
  {
    && e[k].score >= Mul(e[0].score, cutoff)
    && (k < Cap(max) || (Cap(max) <= |e| && e[k].score >= e[Cap(max) - 1].score))
  }

  /** The cutoff the loop passes to `computeSortedBlocks` for entry `k`. */
  ghost function BlockCutoff(e: seq<MethodKey>, k: nat, cutoff: real, max: int): real
    requires k < |e|
  {
    if k + 1 >= max then e[k].score else Mul(e[0].score, cutoff)
  }

  /** One method of the ranking and the cutoff its block ranking was computed with. */
  datatype Pick = Pick(name: string, blockCutoff: real)

  /** The conditions under which the loop's threshold is the one `WithinCut` describes. */
  ghost predicate Orderly(e: seq<MethodKey>, cutoff: real) {
    0.0 <= cutoff && NonNegative(e) && NonIncreasing(e)
  }

  /**
   * What the selection loop holds after listing `picks`: they are the first
   * eligible keys, and (for orderly input) each is within the cut with its block
   * cutoff, and `min` is the threshold for the next one.
   */
  ghost predicate Selected(e: seq<MethodKey>, picks: seq<Pick>, min: real, cutoff: real, max: int) {
    && |picks| <= |e|
    && (forall k :: 0 <= k < |picks| ==> picks[k].name == e[k].name)
    && (Orderly(e, cutoff) ==>
          && (|picks| == 0 ==> min < 0.0)
          && (|picks| > 0 ==> min == BlockCutoff(e, |picks| - 1, cutoff, max))
          && forall k :: 0 <= k < |picks| ==>
               WithinCut(e, k, cutoff, max) && picks[k].blockCutoff == BlockCutoff(e, k, cutoff, max))
  }

  /**
   * One kept entry of the selection loop: with the threshold `min` the loop holds
   * before entry `p`, the loop stops at `p` exactly when `p` is not within the cut,
   * and otherwise the threshold it moves on with is the block cutoff of `p`.
   */
  lemma ThresholdStep(e: seq<MethodKey>, p: nat, cutoff: real, max: int, min: real)
    requires Orderly(e, cutoff) && p < |e|
    requires p == 0 ==> min < 0.0
    requires p > 0 ==> min == BlockCutoff(e, p - 1, cutoff, max)
    requires forall k :: 0 <= k < p ==> WithinCut(e, k, cutoff, max)
    ensures var min1 := if min < 0.0 then Mul(e[p].score, cutoff) else min;
      && (e[p].score < min1 <==> !WithinCut(e, p, cutoff, max))
      && (if p + 1 >= max then e[p].score else min1) == BlockCutoff(e, p, cutoff, max)
  {
    MulNonneg(e[0].score, cutoff);
    if p >= Cap(max) {
      // The entry before this one already ties the last entry within the cap.
      assert WithinCut(e, p - 1, cutoff, max) && WithinCut(e, Cap(max) - 1, cutoff, max);
      assert e[p - 1].score == e[Cap(max) - 1].score;
    }
  }

  /** The loop body on an eligible key: either it stops with the key outside the cut, or it lists the key. */
  lemma PickStep(e: seq<MethodKey>, picks: seq<Pick>, min: real, cutoff: real, max: int)
    requires Selected(e, picks, min, cutoff, max) && |picks| < |e|
    ensures var p := |picks|;
      var min1 := if min < 0.0 then Mul(e[p].score, cutoff) else min;
      var min2 := if p + 1 >= max then e[p].score else min1;
      && (Orderly(e, cutoff) ==> (e[p].score < min1 <==> !WithinCut(e, p, cutoff, max)))
      && (e[p].score >= min1 ==> Selected(e, picks + [Pick(e[p].name, min2)], min2, cutoff, max))
  {
    if Orderly(e, cutoff) {
      ThresholdStep(e, |picks|, cutoff, max, min);
    }
  }

  /**
   * The loop body of `computeSortedMethods` on a method it does not skip: the
   * threshold is fixed on the first such method; a score below it stops the loop;
   * otherwise the method is listed, and once `max` are listed the threshold rises
   * to its score. The threshold it moves on with is also its block cutoff.
   */
  method SelectStep(ghost e: seq<MethodKey>, m: MethodKey, max: int, cutoff: real, min: real, picks: seq<Pick>)
    returns (min': real, picks': seq<Pick>, stop: bool)
    requires Selected(e, picks, min, cutoff, max) && |picks| < |e| && e[|picks|] == m
    ensures stop ==> Orderly(e, cutoff) ==> !WithinCut(e, |picks|, cutoff, max)
    ensures !stop ==> |picks'| == |picks| + 1 && Selected(e, picks', min', cutoff, max)
  {
    PickStep(e, picks, min, cutoff, max);
    var threshold := if min < 0.0 then Mul(m.score, cutoff) else min;
    if m.score < threshold {
      return min, picks, true;
    }
    min' := if |picks| + 1 >= max then m.score else threshold;
    picks' := picks + [Pick(m.name, min')];
    stop := false;
  }

  /**
   * The selection loop of `computeSortedMethods`: walks the sorted methods, skips
   * test methods, fixes the threshold at the first kept score times `cutoff`, stops
   * at the first score below the threshold and, once `max` entries are listed,
   * raises the threshold to the latest score, so that only ties follow.
   */
  method SelectMethods(keys: seq<MethodKey>, testname: string, max: int, cutoff: real) returns (picks: seq<Pick>)
    ensures var e := Eligible(keys, testname);
      && |picks| <= |e|
      && (forall k :: 0 <= k < |picks| ==> picks[k].name == e[k].name && !StartsWith(picks[k].name, testname))
      && (Orderly(e, cutoff) ==>
            && (forall k :: 0 <= k < |picks| ==>
                  WithinCut(e, k, cutoff, max) && picks[k].blockCutoff == BlockCutoff(e, k, cutoff, max))
            && (|picks| < |e| ==> !WithinCut(e, |picks|, cutoff, max)))
  {
    ghost var e := Eligible(keys, testname);
    var min := -1.0;
    picks := [];
    var stopped := false;
    var i := 0;
    while i < |keys| && !stopped
      invariant 0 <= i <= |keys|
      invariant Selected(e, picks, min, cutoff, max)
      invariant !stopped ==> |picks| == |Eligible(keys[..i], testname)|
      invariant stopped ==> |picks| < |e| && (Orderly(e, cutoff) ==> !WithinCut(e, |picks|, cutoff, max))
    {
      EligibleStep(keys, testname, i);
      if !StartsWith(keys[i].name, testname) {
        var min', picks', stop := SelectStep(e, keys[i], max, cutoff, min, picks);
        if stop {
          stopped := true;
        } else {
          min, picks := min', picks';
        }
      }
      i := i + 1;
    }
    if !stopped {
      EligibleAll(keys, testname);
    }
  }

  /** Past the cap, an entry within the cut ties the last entry within the cap. */
  lemma CutTies(e: seq<MethodKey>, k: nat, cutoff: real, max: int)
    requires Orderly(e, cutoff) && k < |e| && WithinCut(e, k, cutoff, max)
    requires 1 <= max <= k
    ensures e[k].score == e[max - 1].score
  {
  }

  /** The block cutoff each listed method was ranked with, if it is listed. */
  function CutoffFor(picks: seq<Pick>, name: string): (r: Option<real>)
    ensures r.None? <==> forall k :: 0 <= k < |picks| ==> picks[k].name != name
    decreases |picks|
  {
    if |picks| == 0 then None
    else if picks[0].name == name then Some(picks[0].blockCutoff)
    else
      var r := CutoffFor(picks[1..], name);
      assert forall k :: 1 <= k < |picks| ==> picks[k] == picks[1..][k - 1];
      r
  }

  function PickNames(picks: seq<Pick>): (r: seq<string>)
    ensures |r| == |picks| && forall k :: 0 <= k < |picks| ==> r[k] == picks[k].name
  {
    seq(|picks|, k requires 0 <= k < |picks| => picks[k].name)
  }

  /** Recomputes the block ranking of every picked method with that pick's cutoff; the rest stay as they are. */
  function ApplyPicks(methods: map<string, Method>, picks: seq<Pick>): (r: map<string, Method>)
    ensures r.Keys == methods.Keys
    ensures forall name :: name in methods ==> r[name].(activeBlocks := methods[name].activeBlocks) == methods[name]
    ensures forall name :: name in methods ==> r[name].acc == methods[name].acc
    ensures forall name :: name in methods && (forall k :: 0 <= k < |picks| ==> picks[k].name != name) ==>
      r[name] == methods[name]
    ensures (forall i, j :: 0 <= i < j < |picks| ==> picks[i].name != picks[j].name) ==>
      forall k :: 0 <= k < |picks| && picks[k].name in methods ==>
        r[picks[k].name] == ComputeSortedBlocks(methods[picks[k].name], picks[k].name, picks[k].blockCutoff)
  {
    var r := map name | name in methods ::
      match CutoffFor(picks, name)
      case Some(c) => ComputeSortedBlocks(methods[name], name, c)
      case None => methods[name];
    if forall i, j :: 0 <= i < j < |picks| ==> picks[i].name != picks[j].name then
      assert forall k :: 0 <= k < |picks| ==> CutoffFor(picks, picks[k].name) == Some(picks[k].blockCutoff) by {
        forall k | 0 <= k < |picks|
          ensures CutoffFor(picks, picks[k].name) == Some(picks[k].blockCutoff)
        {
          CutoffOfPick(picks, k);
        }
      }
      r
    else r
  }

  /** The eligible keys of a session come in comparator order, one per method name. */
  lemma EligibleKeys(d: CountData, testname: string)
    ensures var e := Eligible(MethodKeys(d), testname);
      && Sorted(e, MethodBefore)
      && (forall j, k :: 0 <= j < k < |e| ==> e[j].name != e[k].name)
  {
    var keys := MethodKeys(d);
    var e := Eligible(keys, testname);
    MethodOrder();
    EligibleSorted(keys, testname);
    forall j, k | 0 <= j < k < |e|
      ensures e[j].name != e[k].name
    {
      assert MethodBefore(e[j], e[k]);
      // Keys with one name carry one score, and a key never comes before itself.
      EligibleAt(d, testname, j);
      EligibleAt(d, testname, k);
      LexIrreflexive(e[j].name);
    }
  }

  /** Each eligible key names a method of the session and carries its score. */
  lemma EligibleAt(d: CountData, testname: string, k: nat)
    requires k < |Eligible(MethodKeys(d), testname)|
    ensures var e := Eligible(MethodKeys(d), testname);
      e[k].name in d.methods && e[k].score == d.methods[e[k].name].acc.score
  {
    var keys := MethodKeys(d);
    var e := Eligible(keys, testname);
    EligibleContents(keys, testname);
    assert e[k] in e;
  }

  /** With a square root, a valid flow factor and a non-negative cutoff, the selection loop meets its threshold description. */
  lemma RankedOrderly(d: CountData, sqrt: real -> real, testname: string, cutoff: real)
    requires IsSqrt(sqrt) && FlowFactorValid(d) && 0.0 <= cutoff
    ensures Orderly(Eligible(MethodKeys(Rescore(d, sqrt)), testname), cutoff)
  {
    var d1 := Rescore(d, sqrt);
    var e := Eligible(MethodKeys(d1), testname);
    EligibleKeys(d1, testname);
    forall k | 0 <= k < |e|
      ensures 0.0 <= e[k].score
    {
      EligibleAt(d1, testname, k);
      var m := d.methods[e[k].name];
      if |m.blocks| == 0 {
        OchiaiNonNegative(m.acc, d.failTotal, d.userFailTotal, d1.flowFactor, sqrt);
      }
    }
  }

  /** A listed name finds its own block cutoff when no name is listed twice. */
  lemma {:induction false} CutoffOfPick(picks: seq<Pick>, k: nat)
    requires k < |picks|
    requires forall i, j :: 0 <= i < j < |picks| ==> picks[i].name != picks[j].name
    ensures CutoffFor(picks, picks[k].name) == Some(picks[k].blockCutoff)
    decreases k
  {
    if k > 0 {
      assert picks[0].name != picks[k].name;
      var rest := picks[1..];
      assert rest[k - 1] == picks[k];
      assert forall i, j :: 0 <= i < j < |rest| ==> rest[i].name != rest[j].name by {
        forall i, j | 0 <= i < j < |rest|
          ensures rest[i].name != rest[j].name
        {
          assert rest[i] == picks[i + 1] && rest[j] == picks[j + 1];
        }
      }
      CutoffOfPick(rest, k - 1);
    }
  }

  /** The session after the selection loop: the listed names recorded and their blocks ranked. */
  function Ranked(d1: CountData, picks: seq<Pick>): CountData {
    d1.(methods := ApplyPicks(d1.methods, picks), sortedMethods := Some(PickNames(picks)))
  }

  /**
   * The listing of `r` is a prefix of `e`, the eligible keys of the rescored
   * session `d1`, and each listed method keeps its key's score.
   */
  ghost predicate ListedPrefix(d1: CountData, e: seq<MethodKey>, testname: string, r: CountData) {
    && r.methods.Keys == d1.methods.Keys && r.sortedMethods.Some?
    && var names := r.sortedMethods.value;
       && |names| <= |e|
       && forall k :: 0 <= k < |names| ==>
            && names[k] == e[k].name && names[k] in d1.methods
            && !StartsWith(names[k], testname)
            && r.methods[names[k]].acc.score == e[k].score
  }

  /**
   * The listing of `r` is a prefix of `e` in comparator order, and the methods it
   * leaves out keep their records from `d1`.
   */
  ghost predicate ListedInOrder(d1: CountData, e: seq<MethodKey>, testname: string, r: CountData) {
    && ListedPrefix(d1, e, testname, r)
    && var names := r.sortedMethods.value;
       && (forall j, k :: 0 <= j < k < |names| ==>
             MethodBefore(MethodKey(r.methods[names[j]].acc.score, names[j]), MethodKey(r.methods[names[k]].acc.score, names[k])))
       && (forall name :: name in d1.methods && name !in names ==> r.methods[name] == d1.methods[name])
  }

  /**
   * The listing of `r` is exactly the run of `e` within the cut: each scores at
   * least the top score times `cutoff`, those past `max` tie the last one within
   * it, and the first one left out is not within the cut.
   */
  ghost predicate ListedCut(d1: CountData, e: seq<MethodKey>, testname: string, max: int, cutoff: real, r: CountData) {
    && ListedPrefix(d1, e, testname, r)
    && var names := r.sortedMethods.value;
       && (forall k :: 0 <= k < |names| ==> WithinCut(e, k, cutoff, max))
       && (|names| < |e| ==> !WithinCut(e, |names|, cutoff, max))
       && (forall k :: 0 <= k < |names| ==> r.methods[names[k]].acc.score >= Mul(e[0].score, cutoff))
       && (forall k :: 1 <= max <= k < |names| ==> r.methods[names[k]].acc.score == r.methods[names[max - 1]].acc.score)
  }

  /** Each listed method of `r` has its blocks ranked with the cutoff the loop held after listing it. */
  ghost predicate ListedBlocks(d1: CountData, e: seq<MethodKey>, testname: string, max: int, cutoff: real, r: CountData) {
    && ListedPrefix(d1, e, testname, r)
    && var names := r.sortedMethods.value;
       forall k :: 0 <= k < |names| ==>
         r.methods[names[k]] == ComputeSortedBlocks(d1.methods[names[k]], names[k], BlockCutoff(e, k, cutoff, max))
  }

  /** Everything `computeSortedMethods` promises about its listing when the scores are orderly. */
  ghost predicate ListedWithinCut(d1: CountData, e: seq<MethodKey>, testname: string, max: int, cutoff: real, r: CountData) {
    && ListedInOrder(d1, e, testname, r)
    && ListedCut(d1, e, testname, max, cutoff, r)
    && ListedBlocks(d1, e, testname, max, cutoff, r)
  }

  /** Whatever the loop lists, the ranked session lists it with the scores of the eligible keys. */
  lemma RankedPrefix(d1: CountData, testname: string, picks: seq<Pick>)
    requires var e := Eligible(MethodKeys(d1), testname);
      && |picks| <= |e|
      && forall k :: 0 <= k < |picks| ==> picks[k].name == e[k].name && !StartsWith(picks[k].name, testname)
    ensures ListedPrefix(d1, Eligible(MethodKeys(d1), testname), testname, Ranked(d1, picks))
  {
    var r := Ranked(d1, picks);
    var names := PickNames(picks);
    var e := Eligible(MethodKeys(d1), testname);
    forall k | 0 <= k < |names|
      ensures names[k] in d1.methods && r.methods[names[k]].acc.score == e[k].score
    {
      EligibleAt(d1, testname, k);
      assert names[k] == e[k].name;
    }
  }

  /** Whatever the loop lists, the ranked session lists it in comparator order. */
  lemma RankedInOrder(d1: CountData, testname: string, picks: seq<Pick>)
    requires var e := Eligible(MethodKeys(d1), testname);
      && |picks| <= |e|
      && forall k :: 0 <= k < |picks| ==> picks[k].name == e[k].name && !StartsWith(picks[k].name, testname)
    ensures ListedInOrder(d1, Eligible(MethodKeys(d1), testname), testname, Ranked(d1, picks))
  {
    var r := Ranked(d1, picks);
    var names := PickNames(picks);
    var e := Eligible(MethodKeys(d1), testname);
    RankedPrefix(d1, testname, picks);
    assert Sorted(e, MethodBefore) by {
      EligibleKeys(d1, testname);
    }
    forall j, k | 0 <= j < k < |names|
      ensures MethodBefore(MethodKey(r.methods[names[j]].acc.score, names[j]), MethodKey(r.methods[names[k]].acc.score, names[k]))
    {
      assert MethodKey(r.methods[names[j]].acc.score, names[j]) == e[j];
      assert MethodKey(r.methods[names[k]].acc.score, names[k]) == e[k];
    }
    forall name | name in d1.methods && name !in names
      ensures r.methods[name] == d1.methods[name]
    {
      assert forall k :: 0 <= k < |picks| ==> picks[k].name != name by {
        forall k | 0 <= k < |picks|
          ensures picks[k].name != name
        {
          assert names[k] in names;
        }
      }
    }
  }

  /** On orderly scores, the ranked session lists the run within the cut. */
  lemma RankedCut(d1: CountData, testname: string, max: int, cutoff: real, picks: seq<Pick>)
    requires var e := Eligible(MethodKeys(d1), testname);
      && Orderly(e, cutoff)
      && |picks| <= |e|
      && (forall k :: 0 <= k < |picks| ==> picks[k].name == e[k].name && !StartsWith(picks[k].name, testname))
      && (forall k :: 0 <= k < |picks| ==>
            WithinCut(e, k, cutoff, max) && picks[k].blockCutoff == BlockCutoff(e, k, cutoff, max))
      && (|picks| < |e| ==> !WithinCut(e, |picks|, cutoff, max))
    ensures ListedCut(d1, Eligible(MethodKeys(d1), testname), testname, max, cutoff, Ranked(d1, picks))
  {
    var e := Eligible(MethodKeys(d1), testname);
    RankedPrefix(d1, testname, picks);
    forall k | 1 <= max <= k < |picks|
      ensures e[k].score == e[max - 1].score
    {
      CutTies(e, k, cutoff, max);
    }
  }

  /** The ranked session ranks the blocks of each listed method with that method's block cutoff. */
  lemma RankedBlocks(d1: CountData, testname: string, max: int, cutoff: real, picks: seq<Pick>)
    requires var e := Eligible(MethodKeys(d1), testname);
      && Orderly(e, cutoff)
      && |picks| <= |e|
      && (forall k :: 0 <= k < |picks| ==> picks[k].name == e[k].name && !StartsWith(picks[k].name, testname))
      && (forall k :: 0 <= k < |picks| ==>
            WithinCut(e, k, cutoff, max) && picks[k].blockCutoff == BlockCutoff(e, k, cutoff, max))
      && (|picks| < |e| ==> !WithinCut(e, |picks|, cutoff, max))
    ensures ListedBlocks(d1, Eligible(MethodKeys(d1), testname), testname, max, cutoff, Ranked(d1, picks))
  {
    var e := Eligible(MethodKeys(d1), testname);
    var r := Ranked(d1, picks);
    var names := PickNames(picks);
    RankedPrefix(d1, testname, picks);
    assert forall i, j :: 0 <= i < j < |picks| ==> picks[i].name != picks[j].name by {
      EligibleKeys(d1, testname);
    }
    forall k | 0 <= k < |names|
      ensures r.methods[names[k]] == ComputeSortedBlocks(d1.methods[names[k]], names[k], BlockCutoff(e, k, cutoff, max))
    {
      assert names[k] == picks[k].name && picks[k].name in d1.methods;
    }
  }

  /** On orderly scores, the ranked session meets every promise of the listing. */
  lemma RankedWithinCut(d1: CountData, testname: string, max: int, cutoff: real, picks: seq<Pick>)
    requires var e := Eligible(MethodKeys(d1), testname);
      && Orderly(e, cutoff)
      && |picks| <= |e|
      && (forall k :: 0 <= k < |picks| ==> picks[k].name == e[k].name && !StartsWith(picks[k].name, testname))
      && (forall k :: 0 <= k < |picks| ==>
            WithinCut(e, k, cutoff, max) && picks[k].blockCutoff == BlockCutoff(e, k, cutoff, max))
      && (|picks| < |e| ==> !WithinCut(e, |picks|, cutoff, max))
    ensures ListedWithinCut(d1, Eligible(MethodKeys(d1), testname), testname, max, cutoff, Ranked(d1, picks))
  {
    RankedInOrder(d1, testname, picks);
    RankedCut(d1, testname, max, cutoff, picks);
    RankedBlocks(d1, testname, max, cutoff, picks);
  }

  /**
   * `computeSortedMethods(testname, max, cutoff)`: rescores every method (with the
   * flow factor switched off for good if no flow priority was ever seen), lists
   * the methods by the selection loop, and ranks the blocks of each listed method
   * with the threshold the loop held after listing it.
   */
  method ComputeSortedMethods(d: CountData, sqrt: real -> real, testname: string, max: int, cutoff: real)
    returns (r: CountData)
    ensures r.flowFactor == RankingFlowFactor(d)
    ensures r.(methods := d.methods, flowFactor := d.flowFactor, sortedMethods := d.sortedMethods) == d
    ensures ListedInOrder(Rescore(d, sqrt), Eligible(MethodKeys(Rescore(d, sqrt)), testname), testname, r)
    ensures IsSqrt(sqrt) && FlowFactorValid(d) && 0.0 <= cutoff ==> ListedWithinCut(Rescore(d, sqrt), Eligible(MethodKeys(Rescore(d, sqrt)), testname), testname, max, cutoff, r)
  {
    var d1 := Rescore(d, sqrt);
    var keys := MethodKeys(d1);
    var picks := SelectMethods(keys, testname, max, cutoff);
    r := Ranked(d1, picks);
    RankedInOrder(d1, testname, picks);
    if IsSqrt(sqrt) && FlowFactorValid(d) && 0.0 <= cutoff {
      RankedOrderly(d, sqrt, testname, cutoff);
      RankedWithinCut(d1, testname, max, cutoff, picks);
    }
  }

  /** `flow_factor` never comes back once a ranking has switched it off. */
  lemma FlowFactorStaysOff(d: CountData, sqrt: real -> real)
    requires d.flowFactor == 0.0
    ensures Rescore(d, sqrt).flowFactor == 0.0
  {
  }
}
