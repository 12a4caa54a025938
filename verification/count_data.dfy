/**
 * The records of the fault localiser (`BrepairCountData`): per-method and per-block
 * counters, the run and user totals, and the updates that a test run, a flow
 * result and a user judgement apply to them.
 *
 * Every update is a pure function from the old records to the new ones. A method
 * is keyed by its name and a block by its id within its method, as in the source's
 * hash maps; iteration order over those maps never matters here because each
 * update touches every record independently of the others.
 */
module CountData {
  import opened Wrappers
  import opened Suspicion

  /** The first and last source line of a basic block. */
  datatype LineRange = LineRange(start: int, end: int)

  /**
   * The coverage of one test run (`BattTestCounts`): for each method the run
   * entered, the blocks it executed, by block id.
   */
  datatype Coverage = Coverage(methods: map<string, map<int, LineRange>>)

  /**
   * A user judgement of one execution (`BicexCountData`): for each method, the
   * execution count of each of its lines.
   */
  type Feedback = map<string, map<int, int>>

  /** `BlockAccumData`: a block's lines and its counters. */
  datatype Block = Block(start: int, end: int, acc: Accum)

  /**
   * `MethodAccumData`: the method's own counters, its blocks by id, and the block
   * labels of the latest ranking (`None` until ranked, and again after a rescore).
   */
  datatype Method = Method(acc: Accum, blocks: map<int, Block>, activeBlocks: Option<seq<string>>)

  /** The whole state of one fault-localisation session. */
  datatype CountData = CountData(
    methods: map<string, Method>,
    passTotal: nat,
    failTotal: nat,
    userPassTotal: nat,
    userFailTotal: nat,
    sortedMethods: Option<seq<string>>,
    maxFlowPriority: real,
    flowFactor: real)

  const NewMethod: Method := Method(Fresh, map[], None)

  /** The records before the baseline run is added. */
  const Empty: CountData := CountData(map[], 0, 0, 0, 0, None, 0.0, DefaultFlowFactor)

  /** A record as the baseline run leaves it: one failure, nothing else. */
  const Seeded: Accum := Fresh.(fail := 1)

  // ---------------------------------------------------------------------------
  // Reference descriptions of one update to one record
  // ---------------------------------------------------------------------------

  /** `b` is `a` with one more passing run (or one more failing run) and nothing else changed. */
  predicate CountedOnce(a: Accum, b: Accum, pass: bool) {
    && b.pass == a.pass + (if pass then 1 else 0)
    && b.fail == a.fail + (if pass then 0 else 1)
    && b.(pass := a.pass, fail := a.fail) == a
  }

  /** `b` is `a` with one more user-confirmed pass (or failure) and nothing else changed. */
  predicate UserCountedOnce(a: Accum, b: Accum, pass: bool) {
    && b.userPass == a.userPass + (if pass then 1 else 0)
    && b.userFail == a.userFail + (if pass then 0 else 1)
    && b.(userPass := a.userPass, userFail := a.userFail) == a
  }

  /** `b` is `a` with its flow priority raised to the larger of the old one and `p`. */
  predicate RaisedTo(a: Accum, b: Accum, p: real) {
    && b.flowPriority >= a.flowPriority && b.flowPriority >= p
    && (b.flowPriority == a.flowPriority || b.flowPriority == p)
    && b.(flowPriority := a.flowPriority) == a
  }

  lemma CountIsCountedOnce(a: Accum, pass: bool)
    ensures CountedOnce(a, Count(a, pass), pass)
  {
  }

  lemma UserCountIsUserCountedOnce(a: Accum, pass: bool)
    ensures UserCountedOnce(a, UserCount(a, pass), pass)
  {
  }

  lemma RaisePriorityIsRaisedTo(a: Accum, p: real)
    ensures RaisedTo(a, RaisePriority(a, p), p)
  {
  }

  // ---------------------------------------------------------------------------
  // Test runs
  // ---------------------------------------------------------------------------

  /**
   * `MethodAccumData.addBlock` over all blocks a run covered in one method: an
   * existing block is counted (its recorded lines are kept); a new one is created
   * with the run's lines and counted only when `force` is set.
   */
  function AddBlocks(blocks: map<int, Block>, covered: map<int, LineRange>, pass: bool, force: bool): map<int, Block> {
    map id | id in blocks.Keys + (if force then covered.Keys else {}) ::
      if id in covered then
        var b := if id in blocks then blocks[id] else Block(covered[id].start, covered[id].end, Fresh);
        b.(acc := Count(b.acc, pass))
      else blocks[id]
  }

  /** One run that entered method `m` and executed the `covered` blocks. */
  function CountMethod(m: Method, covered: map<int, LineRange>, pass: bool, force: bool): Method {
    m.(acc := Count(m.acc, pass), blocks := AddBlocks(m.blocks, covered, pass, force))
  }

  /**
   * The private `addCountData(bcd, pass, force)`: counts the run in the totals and
   * in every covered method and block; only a forced run creates records.
   */
  function AddCounts(d: CountData, cov: Option<Coverage>, pass: bool, force: bool): CountData {
    match cov
    case None => d
    case Some(c) =>
      var d' := if pass then d.(passTotal := d.passTotal + 1) else d.(failTotal := d.failTotal + 1);
      d'.(methods := map name | name in d.methods.Keys + (if force then c.methods.Keys else {}) ::
            if name in c.methods then
              CountMethod(if name in d.methods then d.methods[name] else NewMethod, c.methods[name], pass, force)
            else d.methods[name])
  }

  /**
   * The constructor: empty records, flow factor 0.8, then the baseline coverage
   * added as a forced FAILING run, which creates every method and block it covers.
   */
  function New(tc: Option<Coverage>): (r: CountData)
    ensures tc.None? ==> r == Empty
    ensures r.sortedMethods.None? && r.maxFlowPriority == 0.0 && r.flowFactor == DefaultFlowFactor
    ensures r.userPassTotal == 0 && r.userFailTotal == 0
    ensures tc.Some? ==> r.passTotal == 0 && r.failTotal == 1 && r.methods.Keys == tc.value.methods.Keys
    ensures tc.Some? ==> forall name :: name in r.methods ==>
      && r.methods[name].acc == Seeded
      && r.methods[name].activeBlocks.None?
      && r.methods[name].blocks.Keys == tc.value.methods[name].Keys
      && forall id :: id in r.methods[name].blocks ==>
           r.methods[name].blocks[id] == Block(tc.value.methods[name][id].start, tc.value.methods[name][id].end, Seeded)
  {
    AddCounts(Empty, tc, false, true)
  }

  /** The run covered method `name`. */
  predicate Covers(cov: Option<Coverage>, name: string) {
    cov.Some? && name in cov.value.methods
  }

  /** The run covered block `id` of method `name`. */
  predicate CoversBlock(cov: Option<Coverage>, name: string, id: int) {
    Covers(cov, name) && id in cov.value.methods[name]
  }

  /**
   * The public `addCountData(bcd, pass)`: a later run. It creates nothing, raises
   * exactly one of the run totals by one and counts the run once in every known
   * method and block it covered; every other record is unchanged.
   */
  function AddRun(d: CountData, cov: Option<Coverage>, pass: bool): (r: CountData)
    ensures cov.None? ==> r == d
    ensures cov.Some? ==>
      r.passTotal == d.passTotal + (if pass then 1 else 0) && r.failTotal == d.failTotal + (if pass then 0 else 1)
    ensures r.userPassTotal == d.userPassTotal && r.userFailTotal == d.userFailTotal
    ensures r.sortedMethods == d.sortedMethods && r.maxFlowPriority == d.maxFlowPriority && r.flowFactor == d.flowFactor
    ensures r.methods.Keys == d.methods.Keys
    ensures forall name :: name in d.methods ==>
      && r.methods[name].blocks.Keys == d.methods[name].blocks.Keys
      && r.methods[name].activeBlocks == d.methods[name].activeBlocks
      && (if Covers(cov, name) then CountedOnce(d.methods[name].acc, r.methods[name].acc, pass)
          else r.methods[name].acc == d.methods[name].acc)
      && forall id :: id in d.methods[name].blocks ==>
           && r.methods[name].blocks[id].start == d.methods[name].blocks[id].start
           && r.methods[name].blocks[id].end == d.methods[name].blocks[id].end
           && (if CoversBlock(cov, name, id)
               then CountedOnce(d.methods[name].blocks[id].acc, r.methods[name].blocks[id].acc, pass)
               else r.methods[name].blocks[id].acc == d.methods[name].blocks[id].acc)
  {
    AddCounts(d, cov, pass, false)
  }

  // ---------------------------------------------------------------------------
  // Flow priorities
  // ---------------------------------------------------------------------------

  /** `MethodAccumData.setFlowPriority(ln, pr)`: raises the method and every block whose lines hold `line`. */
  function RaiseMethod(m: Method, line: int, priority: real): Method {
    m.(acc := RaisePriority(m.acc, priority),
       blocks := map id | id in m.blocks ::
         if m.blocks[id].start <= line <= m.blocks[id].end
         then m.blocks[id].(acc := RaisePriority(m.blocks[id].acc, priority))
         else m.blocks[id])
  }

  /**
   * `addFlowPriority(file, method, line, priority)`: the session maximum always
   * takes `priority` into account; a known method and its blocks containing `line`
   * are raised; nothing else changes. The file name plays no part.
   */
  function AddFlowPriority(d: CountData, file: string, mname: string, line: int, priority: real): (r: CountData)
    ensures r.maxFlowPriority >= d.maxFlowPriority && r.maxFlowPriority >= priority
    ensures r.maxFlowPriority == d.maxFlowPriority || r.maxFlowPriority == priority
    ensures r.(maxFlowPriority := d.maxFlowPriority, methods := d.methods) == d
    ensures r.methods.Keys == d.methods.Keys
    ensures forall name :: name in d.methods && name != mname ==> r.methods[name] == d.methods[name]
    ensures mname in d.methods ==>
      && RaisedTo(d.methods[mname].acc, r.methods[mname].acc, priority)
      && r.methods[mname].activeBlocks == d.methods[mname].activeBlocks
      && r.methods[mname].blocks.Keys == d.methods[mname].blocks.Keys
      && forall id :: id in d.methods[mname].blocks ==>
           var b, b' := d.methods[mname].blocks[id], r.methods[mname].blocks[id];
           && b'.start == b.start && b'.end == b.end
           && (if b.start <= line <= b.end then RaisedTo(b.acc, b'.acc, priority) else b'.acc == b.acc)
  {
    var d' := d.(maxFlowPriority := Max(d.maxFlowPriority, priority));
    if mname in d.methods then d'.(methods := d.methods[mname := RaiseMethod(d.methods[mname], line, priority)])
    else d'
  }

  // ---------------------------------------------------------------------------
  // User feedback
  // ---------------------------------------------------------------------------

  /** Some line the user saw executed (non-zero count) lies within the block's lines. */
  predicate Hit(b: Block, lines: map<int, int>) {
    exists ln | ln in lines :: lines[ln] != 0 && b.start <= ln <= b.end
  }

  /** Every block hit by the judged lines gets one user count, however many of its lines were hit. */
  function JudgeBlocks(blocks: map<int, Block>, lines: map<int, int>, pass: bool): map<int, Block> {
    map id | id in blocks ::
      if Hit(blocks[id], lines) then blocks[id].(acc := UserCount(blocks[id].acc, pass)) else blocks[id]
  }

  /**
   * The block loop of `addUserFeedback(bcd, pass)` as the source runs it: over the
   * judged lines in `order`, skipping zero counts, over the blocks in `ids`, counting
   * a block the first time one of its lines comes up (the `done` set).
   */
  method JudgeBlocksLoop(blocks: map<int, Block>, ids: seq<int>, lines: map<int, int>, order: seq<int>, pass: bool)
    returns (r: map<int, Block>)
    requires forall id :: id in blocks <==> id in ids
    requires forall ln :: ln in lines <==> ln in order
    ensures r == JudgeBlocks(blocks, lines, pass)
  {
    var done: set<int> := {};
    r := blocks;
    var i := 0;
    while i < |order|
      invariant 0 <= i <= |order|
      invariant done <= blocks.Keys && r.Keys == blocks.Keys
      invariant forall id :: id in blocks ==> (id in done <==> HitAmong(blocks[id], lines, order[..i]))
      invariant forall id :: id in blocks ==>
        r[id] == if id in done then blocks[id].(acc := UserCount(blocks[id].acc, pass)) else blocks[id]
    {
      var ln := order[i];
      assert order[..i + 1] == order[..i] + [ln];
      if lines[ln] != 0 {
        ghost var done0 := done;
        var j := 0;
        while j < |ids|
          invariant 0 <= j <= |ids|
          invariant done <= blocks.Keys && r.Keys == blocks.Keys
          invariant forall id :: id in blocks ==>
            (id in done <==> id in done0 || (id in ids[..j] && blocks[id].start <= ln <= blocks[id].end))
          invariant forall id :: id in blocks ==>
            r[id] == if id in done then blocks[id].(acc := UserCount(blocks[id].acc, pass)) else blocks[id]
        {
          var id := ids[j];
          assert ids[..j + 1] == ids[..j] + [id];
          if blocks[id].start <= ln <= blocks[id].end && id !in done {
            done := done + {id};
            r := r[id := r[id].(acc := UserCount(r[id].acc, pass))];
          }
          j := j + 1;
        }
        assert ids[..|ids|] == ids;
        forall id | id in blocks
          ensures id in done <==> HitAmong(blocks[id], lines, order[..i + 1])
        {
          HitAmongSnoc(blocks[id], lines, order[..i], ln);
        }
      } else {
        forall id | id in blocks
          ensures id in done <==> HitAmong(blocks[id], lines, order[..i + 1])
        {
          HitAmongSnoc(blocks[id], lines, order[..i], ln);
        }
      }
      i := i + 1;
    }
    assert order[..|order|] == order;
    forall id | id in blocks
      ensures r[id] == JudgeBlocks(blocks, lines, pass)[id]
    {
      HitAmongAll(blocks[id], lines, order);
    }
  }

  /** Some line among `order` is judged with a non-zero count and lies in the block. */
  ghost predicate HitAmong(b: Block, lines: map<int, int>, order: seq<int>) {
    exists k :: 0 <= k < |order| && order[k] in lines && lines[order[k]] != 0 && b.start <= order[k] <= b.end
  }

  lemma HitAmongSnoc(b: Block, lines: map<int, int>, order: seq<int>, ln: int)
    requires ln in lines
    ensures HitAmong(b, lines, order + [ln])
        <==> HitAmong(b, lines, order) || (lines[ln] != 0 && b.start <= ln <= b.end)
  {
    var s := order + [ln];
    if HitAmong(b, lines, order) {
      var k :| 0 <= k < |order| && order[k] in lines && lines[order[k]] != 0 && b.start <= order[k] <= b.end;
      assert s[k] == order[k];
    }
    if lines[ln] != 0 && b.start <= ln <= b.end {
      assert s[|order|] == ln;
    }
    if HitAmong(b, lines, s) {
      var k :| 0 <= k < |s| && s[k] in lines && lines[s[k]] != 0 && b.start <= s[k] <= b.end;
      if k < |order| {
        assert s[k] == order[k];
      }
    }
  }

  lemma HitAmongAll(b: Block, lines: map<int, int>, order: seq<int>)
    requires forall ln :: ln in lines <==> ln in order
    ensures HitAmong(b, lines, order) <==> Hit(b, lines)
  {
    if Hit(b, lines) {
      var ln :| ln in lines && lines[ln] != 0 && b.start <= ln <= b.end;
      var k :| 0 <= k < |order| && order[k] == ln;
    }
  }

  /**
   * `m2` is `m` after one judgement with line counts `lines`: the method is counted
   * once whatever its lines, each block once exactly when a line with a non-zero
   * count lies in it, and nothing else changes.
   */
  predicate Judged(m: Method, m2: Method, lines: map<int, int>, pass: bool) {
    && m2.blocks.Keys == m.blocks.Keys
    && m2.activeBlocks == m.activeBlocks
    && UserCountedOnce(m.acc, m2.acc, pass)
    && forall id :: id in m.blocks ==>
         var b, b' := m.blocks[id], m2.blocks[id];
         && b'.start == b.start && b'.end == b.end
         && (if Hit(b, lines) then UserCountedOnce(b.acc, b'.acc, pass) else b'.acc == b.acc)
  }

  /** One judgement of method `m`: the method is counted whatever its lines, its hit blocks once each. */
  function JudgeMethod(m: Method, lines: map<int, int>, pass: bool): (r: Method)
    ensures Judged(m, r, lines, pass)
  {
    m.(acc := UserCount(m.acc, pass), blocks := JudgeBlocks(m.blocks, lines, pass))
  }

  /**
   * `addUserFeedback(bcd, pass)`: one more user total; every known judged method
   * counted once, even when all its line counts are 0; each of its blocks counted
   * at most once, and exactly when a line with a non-zero count lies in it.
   */
  function AddUserFeedback(d: CountData, fb: Feedback, pass: bool): (r: CountData)
    ensures r.userPassTotal == d.userPassTotal + (if pass then 1 else 0)
    ensures r.userFailTotal == d.userFailTotal + (if pass then 0 else 1)
    ensures r.(userPassTotal := d.userPassTotal, userFailTotal := d.userFailTotal, methods := d.methods) == d
    ensures r.methods.Keys == d.methods.Keys
    ensures forall name :: name in d.methods ==>
      if name in fb then Judged(d.methods[name], r.methods[name], fb[name], pass)
      else r.methods[name] == d.methods[name]
  {
    var d' := if pass then d.(userPassTotal := d.userPassTotal + 1) else d.(userFailTotal := d.userFailTotal + 1);
    d'.(methods := map name | name in d.methods ::
          if name in fb then JudgeMethod(d.methods[name], fb[name], pass) else d.methods[name])
  }

  /** The block overlaps the judged range; a start line of 0 stands for the whole method. */
  predicate InJudgedRange(b: Block, sline: int, eline: int) {
    sline == 0 || !(b.end < sline || b.start > eline)
  }

  /**
   * `addUserFeedback(method, sline, eline, pass)`: a no-op for an unknown method;
   * otherwise the method and each block overlapping `[sline, eline]` (every block
   * when `sline` is 0) get one user count. The user totals are left alone.
   */
  function AddUserFeedbackRange(d: CountData, mname: string, sline: int, eline: int, pass: bool): (r: CountData)
    ensures mname !in d.methods ==> r == d
    ensures r.(methods := d.methods) == d
    ensures r.methods.Keys == d.methods.Keys
    ensures forall name :: name in d.methods && name != mname ==> r.methods[name] == d.methods[name]
    ensures mname in d.methods ==>
      && UserCountedOnce(d.methods[mname].acc, r.methods[mname].acc, pass)
      && r.methods[mname].activeBlocks == d.methods[mname].activeBlocks
      && r.methods[mname].blocks.Keys == d.methods[mname].blocks.Keys
      && forall id :: id in d.methods[mname].blocks ==>
           var b, b' := d.methods[mname].blocks[id], r.methods[mname].blocks[id];
           && b'.start == b.start && b'.end == b.end
           && (if sline == 0 || (b.end >= sline && b.start <= eline)
               then UserCountedOnce(b.acc, b'.acc, pass)
               else b'.acc == b.acc)
  {
    if mname !in d.methods then d
    else
      var m := d.methods[mname];
      var m' := m.(acc := UserCount(m.acc, pass),
                   blocks := map id | id in m.blocks ::
                     if InJudgedRange(m.blocks[id], sline, eline)
                     then m.blocks[id].(acc := UserCount(m.blocks[id].acc, pass))
                     else m.blocks[id]);
      d.(methods := d.methods[mname := m'])
  }

  // ---------------------------------------------------------------------------
  // Invariants
  // ---------------------------------------------------------------------------

  /** A record's counters do not exceed the session totals. */
  predicate AccWithin(a: Accum, d: CountData) {
    a.pass <= d.passTotal && a.fail <= d.failTotal && a.userPass <= d.userPassTotal && a.userFail <= d.userFailTotal
  }

  /** No method or block has been counted more often than the session counted runs and judgements. */
  ghost predicate WithinTotals(d: CountData) {
    forall name :: name in d.methods ==>
      && AccWithin(d.methods[name].acc, d)
      && forall id :: id in d.methods[name].blocks ==> AccWithin(d.methods[name].blocks[id].acc, d)
  }

  /** Every flow priority lies between 0 and the session maximum. */
  ghost predicate PrioritiesBounded(d: CountData) {
    && 0.0 <= d.maxFlowPriority
    && forall name :: name in d.methods ==>
      && 0.0 <= d.methods[name].acc.flowPriority <= d.maxFlowPriority
      && forall id :: id in d.methods[name].blocks ==>
           0.0 <= d.methods[name].blocks[id].acc.flowPriority <= d.maxFlowPriority
  }

  /** The flow factor is the default or has been switched off. */
  predicate FlowFactorValid(d: CountData) {
    d.flowFactor == DefaultFlowFactor || d.flowFactor == 0.0
  }

  lemma NewValid(tc: Option<Coverage>)
    ensures WithinTotals(New(tc)) && PrioritiesBounded(New(tc)) && FlowFactorValid(New(tc))
  {
  }

  lemma {:induction false} AddRunPreserves(d: CountData, cov: Option<Coverage>, pass: bool)
    requires WithinTotals(d) && PrioritiesBounded(d)
    ensures WithinTotals(AddRun(d, cov, pass)) && PrioritiesBounded(AddRun(d, cov, pass))
    ensures AddRun(d, cov, pass).flowFactor == d.flowFactor
  {
    var r := AddRun(d, cov, pass);
    forall name | name in r.methods
      ensures AccWithin(r.methods[name].acc, r)
      ensures forall id :: id in r.methods[name].blocks ==> AccWithin(r.methods[name].blocks[id].acc, r)
    {
      assert AccWithin(d.methods[name].acc, d);
      forall id | id in r.methods[name].blocks
        ensures AccWithin(r.methods[name].blocks[id].acc, r)
      {
        assert AccWithin(d.methods[name].blocks[id].acc, d);
      }
    }
  }

  lemma AddFlowPriorityPreserves(d: CountData, file: string, mname: string, line: int, priority: real)
    requires WithinTotals(d) && PrioritiesBounded(d)
    ensures WithinTotals(AddFlowPriority(d, file, mname, line, priority))
    ensures PrioritiesBounded(AddFlowPriority(d, file, mname, line, priority))
    ensures AddFlowPriority(d, file, mname, line, priority).flowFactor == d.flowFactor
  {
  }

  lemma AddUserFeedbackPreserves(d: CountData, fb: Feedback, pass: bool)
    requires WithinTotals(d) && PrioritiesBounded(d)
    ensures WithinTotals(AddUserFeedback(d, fb, pass)) && PrioritiesBounded(AddUserFeedback(d, fb, pass))
    ensures AddUserFeedback(d, fb, pass).flowFactor == d.flowFactor
  {
  }

  lemma AddUserFeedbackRangePreservesPriorities(d: CountData, mname: string, sline: int, eline: int, pass: bool)
    requires PrioritiesBounded(d)
    ensures PrioritiesBounded(AddUserFeedbackRange(d, mname, sline, eline, pass))
    ensures AddUserFeedbackRange(d, mname, sline, eline, pass).flowFactor == d.flowFactor
  {
  }

  /**
   * Range feedback can lift a count above its total: after the baseline run alone,
   * a user pass on the whole of method "m" gives it a user pass while the user pass
   * total stays 0.
   */
  lemma RangeFeedbackBreaksTotals()
    ensures var d := New(Some(Coverage(map["m" := map[]])));
      && WithinTotals(d)
      && !WithinTotals(AddUserFeedbackRange(d, "m", 0, 0, true))
  {
    var d := New(Some(Coverage(map["m" := map[]])));
    NewValid(Some(Coverage(map["m" := map[]])));
    var r := AddUserFeedbackRange(d, "m", 0, 0, true);
    assert "m" in d.methods;
    assert r.methods["m"].acc.userPass == 1 && r.userPassTotal == 0;
  }
}
