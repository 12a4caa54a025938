/**
 * `BrepairFaitManager.getFaitResult`: ask the FAIT server for the back slice of the
 * failing test's stack trace and feed the priority of every flow node it returns
 * into the count data. The server's replies are inputs; nothing is ever returned.
 */
module FlowQuery {
  import opened Wrappers
  import opened Strings
  import opened CountData
  import opened StackTrace

  // ---------------------------------------------------------------------------
  // Signatures
  // ---------------------------------------------------------------------------

  /** `s.lastIndexOf(c)`: the last position holding `c`, or -1. */
  function LastIndexOf(s: string, c: char): (r: int)
    ensures -1 <= r < |s|
    ensures r >= 0 ==> s[r] == c
    ensures forall i :: r < i < |s| ==> s[i] != c
    decreases |s|
  {
    if |s| == 0 then -1
    else if s[|s| - 1] == c then |s| - 1
    else LastIndexOf(s[..|s| - 1], c)
  }

  /**
   * `sgn.substring(0, sgn.lastIndexOf(")") + 1)`: the signature cut just after its
   * last `)`, dropping any return type after it; empty when there is no `)`.
   */
  function CutSignature(sgn: string): (r: string)
    ensures |r| <= |sgn| && r == sgn[..|r|]
    ensures |r| > 0 ==> r[|r| - 1] == ')'
    ensures forall i :: |r| <= i < |sgn| ==> sgn[i] != ')'
  {
    sgn[..LastIndexOf(sgn, ')') + 1]
  }

  /** The cut is the longest prefix ending in `)`: any prefix ending in `)` is no longer. */
  lemma CutSignatureLongest(sgn: string, n: nat)
    requires 0 < n <= |sgn| && sgn[n - 1] == ')'
    ensures n <= |CutSignature(sgn)|
  {
  }

  /** Cutting twice cuts nothing more. */
  lemma CutSignatureIdempotent(sgn: string)
    ensures CutSignature(CutSignature(sgn)) == CutSignature(sgn)
  {
    var r := CutSignature(sgn);
    var rr := CutSignature(r);
    if |r| > 0 {
      CutSignatureLongest(r, |r|);
    }
    assert |rr| == |r|;
    assert rr == r[..|r|];
  }

  // ---------------------------------------------------------------------------
  // The node loop
  // ---------------------------------------------------------------------------

  /**
   * A `NODE` of the flow graph: its `FILE`, `METHOD` and optional `SIGNATURE`
   * attributes, the `LINE` of its `POINT`, and its `PRIORITY` (0 when absent).
   */
  datatype FlowNode = FlowNode(file: string, mname: string, signature: Option<string>, line: int, priority: real)

  /** One `addFlowPriority` call. */
  datatype FlowUpdate = FlowUpdate(file: string, mname: string, line: int, priority: real)

  /**
   * The method name the count data is keyed by: the node's method, followed by its
   * cut signature rendered by `format` (`IvyFormat.formatTypeName`) when it has one.
   */
  function NodeMethod(n: FlowNode, format: string -> string): (r: string)
    ensures |n.mname| <= |r| && r[..|n.mname|] == n.mname
    ensures n.signature.None? ==> r == n.mname
  {
    match n.signature
    case None => n.mname
    case Some(sgn) => n.mname + format(CutSignature(sgn))
  }

  /**
   * The return type is never part of the key: text after the parameter list's
   * closing `)` that holds no further `)` is dropped before formatting.
   */
  lemma NodeMethodDropsReturnType(n: FlowNode, p: string, t: string, format: string -> string)
    requires |p| > 0 && p[|p| - 1] == ')'
    requires forall i :: 0 <= i < |t| ==> t[i] != ')'
    ensures NodeMethod(n.(signature := Some(p + t)), format) == n.mname + format(p)
  {
    CutSignatureLongest(p + t, |p|);
    assert (p + t)[..|p|] == p;
  }

  /** Two signatures that cut to the same text give the same key, whatever follows the cut. */
  lemma NodeMethodSameCut(n: FlowNode, s1: string, s2: string, format: string -> string)
    requires CutSignature(s1) == CutSignature(s2)
    ensures NodeMethod(n.(signature := Some(s1)), format) == NodeMethod(n.(signature := Some(s2)), format)
  {
  }

  /** The calls the node loop makes, in node order: one per node, skipping those of priority 0. */
  function FlowUpdates(nodes: seq<FlowNode>, format: string -> string): (r: seq<FlowUpdate>)
    ensures |r| <= |nodes|
    ensures forall k :: 0 <= k < |r| ==> r[k].priority != 0.0
    decreases |nodes|
  {
    if |nodes| == 0 then []
    else
      var n := nodes[0];
      var rest := FlowUpdates(nodes[1..], format);
      if n.priority == 0.0 then rest
      else [FlowUpdate(n.file, NodeMethod(n, format), n.line, n.priority)] + rest
  }

  /** The loop handles each node on its own, in order: the calls for `a + b` are those for `a`, then those for `b`. */
  lemma {:induction false} FlowUpdatesAppend(a: seq<FlowNode>, b: seq<FlowNode>, format: string -> string)
    ensures FlowUpdates(a + b, format) == FlowUpdates(a, format) + FlowUpdates(b, format)
    decreases |a|
  {
    if |a| == 0 {
      assert a + b == b;
    } else {
      assert (a + b)[0] == a[0];
      assert (a + b)[1..] == a[1..] + b;
      FlowUpdatesAppend(a[1..], b, format);
    }
  }

  /** A single node: no call at priority 0, otherwise exactly one call with its file, method name, line and priority. */
  lemma FlowUpdatesSingle(n: FlowNode, format: string -> string)
    ensures FlowUpdates([n], format) ==
      if n.priority == 0.0 then [] else [FlowUpdate(n.file, NodeMethod(n, format), n.line, n.priority)]
  {
    assert [n][1..] == [];
  }

  /** The number of nodes that carry a priority. */
  function Prioritised(nodes: seq<FlowNode>): nat
    decreases |nodes|
  {
    if |nodes| == 0 then 0 else (if nodes[0].priority == 0.0 then 0 else 1) + Prioritised(nodes[1..])
  }

  /** Exactly one call per node with a non-zero priority. */
  lemma {:induction false} FlowUpdatesCount(nodes: seq<FlowNode>, format: string -> string)
    ensures |FlowUpdates(nodes, format)| == Prioritised(nodes)
    decreases |nodes|
  {
    if |nodes| > 0 {
      FlowUpdatesCount(nodes[1..], format);
    }
  }

  /** The count data after the calls, made one after another. */
  function ApplyFlow(d: CountData, updates: seq<FlowUpdate>): (r: CountData)
    ensures r.methods.Keys == d.methods.Keys
    ensures r.maxFlowPriority >= d.maxFlowPriority
    ensures forall k :: 0 <= k < |updates| ==> r.maxFlowPriority >= updates[k].priority
    ensures r.maxFlowPriority == d.maxFlowPriority || exists k :: 0 <= k < |updates| && r.maxFlowPriority == updates[k].priority
    ensures r.(maxFlowPriority := d.maxFlowPriority, methods := d.methods) == d
    decreases |updates|
  {
    if |updates| == 0 then d
    else
      var u := updates[0];
      var d1 := AddFlowPriority(d, u.file, u.mname, u.line, u.priority);
      var r := ApplyFlow(d1, updates[1..]);
      assert forall k :: 1 <= k < |updates| ==> updates[k] == updates[1..][k - 1];
      assert r.maxFlowPriority == d1.maxFlowPriority || exists k :: 1 <= k < |updates| && r.maxFlowPriority == updates[k].priority;
      r
  }

  /** A method the data does not know is not created by the flow results. */
  lemma ApplyFlowKnownOnly(d: CountData, updates: seq<FlowUpdate>, name: string)
    requires name !in d.methods
    ensures name !in ApplyFlow(d, updates).methods
  {
  }

  // ---------------------------------------------------------------------------
  // getFaitResult
  // ---------------------------------------------------------------------------

  /** The `QUERY` element of the `STACKSTART` reply: where the back slice starts. */
  datatype Query = QueryAt(file: string, line: int, mname: string, expr: string)

  /** The messages `getFaitResult` sends to the server. */
  datatype Message = StackStartMsg(exception: string, frames: seq<Frame>) | FlowQueryMsg(query: Query)

  /**
   * What a call leaves behind: the count data, the messages sent, whether it ended
   * with the uncaught `NumberFormatException`, and the value returned (always null).
   */
  datatype FaitResult = FaitResult(data: CountData, sent: seq<Message>, crashed: bool, returned: Option<string>)

  /**
   * `getFaitResult` from the back-slice request on: send `STACKSTART` for a request,
   * then `FLOWQUERY` for the reply's query, then feed the reply's nodes in.
   */
  function RunQuery(d: CountData, req: StackStart, stackReply: Option<Query>,
                    flowReply: Option<seq<FlowNode>>, format: string -> string): (r: FaitResult)
    ensures r.returned.None?
    ensures r.crashed <==> req.NumberFormatError?
    ensures !req.StackStart? ==> r.sent == [] && r.data == d
    ensures |r.sent| <= 2
    ensures |r.sent| > 0 <==> req.StackStart?
    ensures |r.sent| > 0 ==> r.sent[0] == StackStartMsg(req.exception, req.frames)
    ensures |r.sent| == 2 <==> req.StackStart? && stackReply.Some?
    ensures |r.sent| == 2 ==> r.sent[1] == FlowQueryMsg(stackReply.value)
    ensures r.data != d ==> |r.sent| == 2 && flowReply.Some?
    ensures |r.sent| == 2 && flowReply.Some? ==> r.data == ApplyFlow(d, FlowUpdates(flowReply.value, format))
  {
    match req
    case NoStackStart => FaitResult(d, [], false, None)
    case NumberFormatError => FaitResult(d, [], true, None)
    case StackStart(exc, frames) =>
      var first := [StackStartMsg(exc, frames)];
      if stackReply.None? then FaitResult(d, first, false, None)
      else
        var sent := first + [FlowQueryMsg(stackReply.value)];
        if flowReply.None? then FaitResult(d, sent, false, None)
        else FaitResult(ApplyFlow(d, FlowUpdates(flowReply.value, format)), sent, false, None)
  }

  /**
   * `getFaitResult` once the server's state is settled (`running` is `is_running`
   * after any setup): nothing is asked of a server that is not running; otherwise
   * the query runs on the request built from the failing test's trace.
   */
  function GetFaitResult(d: CountData, running: bool, stack: Option<string>, stackReply: Option<Query>,
                         flowReply: Option<seq<FlowNode>>, format: string -> string): (r: FaitResult)
    ensures r.returned.None?
    ensures !running ==> r.sent == [] && r.data == d && !r.crashed
    ensures running ==> r == RunQuery(d, BackSliceRequest(stack), stackReply, flowReply, format)
  {
    if !running then FaitResult(d, [], false, None)
    else RunQuery(d, BackSliceRequest(stack), stackReply, flowReply, format)
  }

  /** A trace without frames asks the server nothing and changes nothing. */
  lemma NoFramesNoQuery(d: CountData, stack: Option<string>, stackReply: Option<Query>,
                        flowReply: Option<seq<FlowNode>>, format: string -> string)
    requires BackSliceRequest(stack).NoStackStart?
    ensures var r := GetFaitResult(d, true, stack, stackReply, flowReply, format);
      r.sent == [] && r.data == d && !r.crashed
  {
  }

  /**
   * After a full query the session's maximum flow priority covers every node's
   * priority, so the flow bonus is switched on whenever some node carried one.
   */
  lemma FlowRaisesMaxPriority(d: CountData, nodes: seq<FlowNode>, format: string -> string, k: nat)
    requires k < |nodes| && nodes[k].priority != 0.0
    ensures ApplyFlow(d, FlowUpdates(nodes, format)).maxFlowPriority >= nodes[k].priority
  {
    var pre, post := nodes[..k], nodes[k + 1..];
    assert nodes == pre + ([nodes[k]] + post);
    FlowUpdatesAppend(pre, [nodes[k]] + post, format);
    FlowUpdatesAppend([nodes[k]], post, format);
    FlowUpdatesSingle(nodes[k], format);
    var us := FlowUpdates(nodes, format);
    assert us[|FlowUpdates(pre, format)|].priority == nodes[k].priority;
  }
}
