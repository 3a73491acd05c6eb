/**
 * The activity timeline: the execution response's node results, ordered
 * start → everything else → end by a stable sort, projected to timeline
 * items (status, title, description, structured-output entries) and cut to
 * `maxItems`; plus the two sets of expanded item ids.
 */
module ActivityTimeline {
  import opened Wrappers
  import opened Models
  import Text

  // ---------------------------------------------------------------------------
  // Execution order
  // ---------------------------------------------------------------------------

  /** `typePriority[node_type] ?? 1`: start first, end last, every other type in between. */
  function Priority(r: NodeResult): (p: nat)
    ensures p <= 2
    ensures p == 0 <==> r.nodeType == "start"
    ensures p == 2 <==> r.nodeType == "end"
  {
    if r.nodeType == "start" then 0 else if r.nodeType == "end" then 2 else 1
  }

  /** The results of priority `k`, in input order. */
  function Bucket(xs: seq<NodeResult>, k: nat): (r: seq<NodeResult>)
    ensures |r| <= |xs|
    ensures forall i :: 0 <= i < |r| ==> Priority(r[i]) == k
    decreases |xs|
  {
    if |xs| == 0 then []
    else Bucket(xs[..|xs| - 1], k) + (if Priority(xs[|xs| - 1]) == k then [xs[|xs| - 1]] else [])
  }

  /** Non-decreasing priorities. */
  predicate SortedByPriority(s: seq<NodeResult>) {
    forall i, j :: 0 <= i < j < |s| ==> Priority(s[i]) <= Priority(s[j])
  }

  /** One insertion step of a stable sort: `x` goes after every element whose priority is not greater. */
  function InsertByPriority(x: NodeResult, s: seq<NodeResult>): (r: seq<NodeResult>)
    ensures |r| == |s| + 1
    ensures multiset(r) == multiset(s) + multiset{x}
    decreases |s|
  {
    if |s| == 0 then [x]
    else if Priority(x) < Priority(s[0]) then [x] + s
    else
      assert s == [s[0]] + s[1..];
      [s[0]] + InsertByPriority(x, s[1..])
  }

  /** `sortNodesByExecutionOrder`: a stable sort of a copy by priority (`Array.prototype.sort` is stable). */
  function SortNodesByExecutionOrder(xs: seq<NodeResult>): (r: seq<NodeResult>)
    ensures |r| == |xs|
    ensures multiset(r) == multiset(xs)
    decreases |xs|
  {
    if |xs| == 0 then []
    else
      assert xs == xs[..|xs| - 1] + [xs[|xs| - 1]];
      InsertByPriority(xs[|xs| - 1], SortNodesByExecutionOrder(xs[..|xs| - 1]))
  }

  /** Inserting past a prefix of no greater priority leaves the prefix in front. */
  lemma {:induction false} InsertPastPrefix(x: NodeResult, a: seq<NodeResult>, rest: seq<NodeResult>)
    requires forall i :: 0 <= i < |a| ==> Priority(a[i]) <= Priority(x)
    ensures InsertByPriority(x, a + rest) == a + InsertByPriority(x, rest)
    decreases |a|
  {
    if |a| > 0 {
      var s := a + rest;
      assert s[0] == a[0];
      assert s[1..] == a[1..] + rest;
      assert InsertByPriority(x, s) == [a[0]] + InsertByPriority(x, a[1..] + rest);
      InsertPastPrefix(x, a[1..], rest);
      assert [a[0]] + (a[1..] + InsertByPriority(x, rest)) == ([a[0]] + a[1..]) + InsertByPriority(x, rest);
      assert a == [a[0]] + a[1..];
    } else {
      assert a + rest == rest;
    }
  }

  /** Before elements of greater priority, `x` is placed at the front. */
  lemma InsertBeforeGreater(x: NodeResult, c: seq<NodeResult>)
    requires forall i :: 0 <= i < |c| ==> Priority(c[i]) > Priority(x)
    ensures InsertByPriority(x, c) == [x] + c
  {
  }

  /** One more result extends exactly its own priority class. */
  lemma BucketStep(xs: seq<NodeResult>, k: nat)
    requires |xs| > 0
    ensures Bucket(xs, k) == Bucket(xs[..|xs| - 1], k) + (if Priority(xs[|xs| - 1]) == k then [xs[|xs| - 1]] else [])
  {
  }

  /** The elements of two classes, side by side, all have priority above `p`. */
  lemma AllAbove(b: seq<NodeResult>, c: seq<NodeResult>, p: nat)
    requires forall i :: 0 <= i < |b| ==> Priority(b[i]) > p
    requires forall i :: 0 <= i < |c| ==> Priority(c[i]) > p
    ensures forall i :: 0 <= i < |b + c| ==> Priority((b + c)[i]) > p
  {
    forall i | 0 <= i < |b + c| ensures Priority((b + c)[i]) > p {
      if i >= |b| { assert (b + c)[i] == c[i - |b|]; }
    }
  }

  /** Likewise for "at most `p`". */
  lemma AllAtMost(a: seq<NodeResult>, b: seq<NodeResult>, p: nat)
    requires forall i :: 0 <= i < |a| ==> Priority(a[i]) <= p
    requires forall i :: 0 <= i < |b| ==> Priority(b[i]) <= p
    ensures forall i :: 0 <= i < |a + b| ==> Priority((a + b)[i]) <= p
  {
    forall i | 0 <= i < |a + b| ensures Priority((a + b)[i]) <= p {
      if i >= |a| { assert (a + b)[i] == b[i - |a|]; }
    }
  }

  /** A start result goes to the end of the first class. */
  lemma InsertFirstClass(x: NodeResult, a: seq<NodeResult>, b: seq<NodeResult>, c: seq<NodeResult>)
    requires Priority(x) == 0
    requires forall i :: 0 <= i < |a| ==> Priority(a[i]) == 0
    requires forall i :: 0 <= i < |b| ==> Priority(b[i]) == 1
    requires forall i :: 0 <= i < |c| ==> Priority(c[i]) == 2
    ensures InsertByPriority(x, a + b + c) == (a + [x]) + b + c
  {
    AllAbove(b, c, 0);
    InsertBeforeGreater(x, b + c);
    InsertPastPrefix(x, a, b + c);
    Text.Associate(a, b, c);
    Text.Associate(a, [x], b + c);
    Text.Associate(a + [x], b, c);
  }

  /** A result of the middle class goes after the first two classes. */
  lemma InsertMiddleClass(x: NodeResult, a: seq<NodeResult>, b: seq<NodeResult>, c: seq<NodeResult>)
    requires Priority(x) == 1
    requires forall i :: 0 <= i < |a| ==> Priority(a[i]) == 0
    requires forall i :: 0 <= i < |b| ==> Priority(b[i]) == 1
    requires forall i :: 0 <= i < |c| ==> Priority(c[i]) == 2
    ensures InsertByPriority(x, a + b + c) == a + (b + [x]) + c
  {
    AllAtMost(a, b, 1);
    InsertBeforeGreater(x, c);
    InsertPastPrefix(x, a + b, c);
    Text.Associate(a + b, [x], c);
    Text.Associate(a, b, [x]);
  }

  /** An end result goes last. */
  lemma InsertLastClass(x: NodeResult, a: seq<NodeResult>, b: seq<NodeResult>, c: seq<NodeResult>)
    requires Priority(x) == 2
    requires forall i :: 0 <= i < |a| ==> Priority(a[i]) == 0
    requires forall i :: 0 <= i < |b| ==> Priority(b[i]) == 1
    requires forall i :: 0 <= i < |c| ==> Priority(c[i]) == 2
    ensures InsertByPriority(x, a + b + c) == a + b + (c + [x])
  {
    AllAtMost(a, b, 2);
    AllAtMost(a + b, c, 2);
    InsertPastPrefix(x, a + b + c, []);
    assert (a + b + c) + [] == a + b + c;
    Text.Associate(a + b, c, [x]);
  }

  /** The sort is the concatenation of the priority classes, each in input order. */
  lemma {:induction false} SortIsBuckets(xs: seq<NodeResult>)
    ensures SortNodesByExecutionOrder(xs) == Bucket(xs, 0) + Bucket(xs, 1) + Bucket(xs, 2)
    decreases |xs|
  {
    if |xs| > 0 {
      var init := xs[..|xs| - 1];
      var x := xs[|xs| - 1];
      var a, b, c := Bucket(init, 0), Bucket(init, 1), Bucket(init, 2);
      SortIsBuckets(init);
      assert SortNodesByExecutionOrder(xs) == InsertByPriority(x, a + b + c);
      BucketStep(xs, 0);
      BucketStep(xs, 1);
      BucketStep(xs, 2);
      var p := Priority(x);
      if p == 0 {
        InsertFirstClass(x, a, b, c);
        assert Bucket(xs, 0) == a + [x] && Bucket(xs, 1) == b && Bucket(xs, 2) == c;
      } else if p == 1 {
        InsertMiddleClass(x, a, b, c);
        assert Bucket(xs, 0) == a && Bucket(xs, 1) == b + [x] && Bucket(xs, 2) == c;
      } else {
        InsertLastClass(x, a, b, c);
        assert Bucket(xs, 0) == a && Bucket(xs, 1) == b && Bucket(xs, 2) == c + [x];
      }
    }
  }

  /** Every result lands in exactly one priority class. */
  lemma BucketsPartition(xs: seq<NodeResult>)
    ensures multiset(Bucket(xs, 0) + Bucket(xs, 1) + Bucket(xs, 2)) == multiset(xs)
  {
    SortIsBuckets(xs);
  }

  /** The priority classes of a concatenation are the concatenations of the classes. */
  lemma {:induction false} BucketAppend(a: seq<NodeResult>, b: seq<NodeResult>, k: nat)
    ensures Bucket(a + b, k) == Bucket(a, k) + Bucket(b, k)
    decreases |b|
  {
    if |b| > 0 {
      var init := b[..|b| - 1];
      var last := b[|b| - 1];
      var tail: seq<NodeResult> := if Priority(last) == k then [last] else [];
      assert (a + b)[..|a + b| - 1] == a + init;
      assert (a + b)[|a + b| - 1] == last;
      assert Bucket(a + b, k) == Bucket(a + init, k) + tail;
      BucketAppend(a, init, k);
      assert Bucket(b, k) == Bucket(init, k) + tail;
      assert Bucket(a, k) + Bucket(init, k) + tail == Bucket(a, k) + (Bucket(init, k) + tail);
    } else {
      assert a + b == a;
    }
  }

  /** A sequence of one class has no elements of another, and is its own class. */
  lemma {:induction false} BucketOfClass(s: seq<NodeResult>, j: nat, k: nat)
    requires forall i :: 0 <= i < |s| ==> Priority(s[i]) == j
    ensures Bucket(s, k) == if j == k then s else []
    decreases |s|
  {
    if |s| > 0 {
      BucketOfClass(s[..|s| - 1], j, k);
      assert s == s[..|s| - 1] + [s[|s| - 1]];
    }
  }

  /** The sorted list is ordered by priority. */
  lemma SortIsSorted(xs: seq<NodeResult>)
    ensures SortedByPriority(SortNodesByExecutionOrder(xs))
  {
    SortIsBuckets(xs);
  }

  /** Priority class `k` of three concatenated classes is the one of priority `k`. */
  lemma BucketOfClasses(a: seq<NodeResult>, b: seq<NodeResult>, c: seq<NodeResult>, k: nat)
    requires forall i :: 0 <= i < |a| ==> Priority(a[i]) == 0
    requires forall i :: 0 <= i < |b| ==> Priority(b[i]) == 1
    requires forall i :: 0 <= i < |c| ==> Priority(c[i]) == 2
    ensures Bucket(a + b + c, k) == if k == 0 then a else if k == 1 then b else if k == 2 then c else []
  {
    BucketAppend(a + b, c, k);
    BucketAppend(a, b, k);
    var ka, kb, kc := Bucket(a, k), Bucket(b, k), Bucket(c, k);
    assert ka == (if k == 0 then a else []) by { BucketOfClass(a, 0, k); }
    assert kb == (if k == 1 then b else []) by { BucketOfClass(b, 1, k); }
    assert kc == (if k == 2 then c else []) by { BucketOfClass(c, 2, k); }
    if k == 0 {
      assert ka + kb + kc == a + [] + [];
    } else if k == 1 {
      assert ka + kb + kc == [] + b + [];
    } else if k == 2 {
      assert ka + kb + kc == [] + [] + c;
    } else {
      assert ka + kb + kc == [] + [] + [];
    }
  }

  /** Stability: results of equal priority keep their input order. */
  lemma SortIsStable(xs: seq<NodeResult>, k: nat)
    ensures Bucket(SortNodesByExecutionOrder(xs), k) == Bucket(xs, k)
  {
    SortIsBuckets(xs);
    BucketOfClasses(Bucket(xs, 0), Bucket(xs, 1), Bucket(xs, 2), k);
    if k > 2 {
      BucketOfNoPriority(xs, k);
    }
  }

  lemma {:induction false} BucketOfNoPriority(xs: seq<NodeResult>, k: nat)
    requires k > 2
    ensures Bucket(xs, k) == []
    decreases |xs|
  {
    if |xs| > 0 {
      BucketOfNoPriority(xs[..|xs| - 1], k);
    }
  }

  // ---------------------------------------------------------------------------
  // Projection to timeline items
  // ---------------------------------------------------------------------------

  datatype ItemStatus = Complete | Progress | Failure

  /** The status shown for a result: any error text wins, then `running`, then `failed`. */
  function StatusOf(r: NodeResult): (s: ItemStatus)
    ensures s == Failure <==> Truthy(r.error) || r.status == "failed"
    ensures s == Progress <==> !Truthy(r.error) && r.status == "running"
    ensures s == Complete <==> !Truthy(r.error) && r.status != "running" && r.status != "failed"
  {
    if Truthy(r.error) then Failure
    else if r.status == "running" then Progress
    else if r.status == "failed" then Failure
    else Complete
  }

  /** The phrase standing in for a missing response. */
  function FallbackPhrase(nodeType: string): (p: string)
    ensures nodeType !in {"start", "agent", "mcp_tool", "condition", "unknown", "end"} ==> p == nodeType + " node execution"
  {
    match nodeType
    case "start" => "Workflow initialization"
    case "agent" => "AI agent processing"
    case "mcp_tool" => "MCP tool execution"
    case "condition" => "Condition evaluation"
    case "unknown" => "Node execution"
    case "end" => "Workflow completion"
    case _ => nodeType + " node execution"
  }

  /** A value as a description line shows it: `String(value)`, or compact JSON for objects. */
  function LineValue(v: OutputValue): string {
    match v
    case Scalar(t) => t
    case Composite(compact, _) => compact
  }

  /** A value as the entry list shows it: `String(value)`, or indented JSON for objects. */
  function EntryValue(v: OutputValue): string {
    match v
    case Scalar(t) => t
    case Composite(_, pretty) => pretty
  }

  function Line(e: OutputEntry): string {
    "• " + e.key + ": " + LineValue(e.value)
  }

  /** `formatStructuredOutput`: one `• key: value` line per entry, joined by newlines. */
  function FormatStructuredOutput(entries: seq<OutputEntry>): (r: string)
    ensures |entries| == 0 <==> r == ""
    ensures |entries| > 0 ==> Line(entries[0]) <= r
    decreases |entries|
  {
    if |entries| == 0 then ""
    else if |entries| == 1 then Line(entries[0])
    else
      var rest := FormatStructuredOutput(entries[1..]);
      Line(entries[0]) + "\n" + rest
  }

  /** A further entry adds a newline and its own line at the end. */
  lemma {:induction false} FormatStructuredOutputAppend(entries: seq<OutputEntry>, e: OutputEntry)
    requires |entries| > 0
    ensures FormatStructuredOutput(entries + [e]) == FormatStructuredOutput(entries) + "\n" + Line(e)
    decreases |entries|
  {
    var s := entries + [e];
    assert s[0] == entries[0];
    if |entries| > 1 {
      assert s[1..] == entries[1..] + [e];
      FormatStructuredOutputAppend(entries[1..], e);
    } else {
      assert s[1..] == [e];
    }
  }

  const StructuredHeader := "\n\nStructured Output:\n"

  /** The text a result's description starts with: its response, or the type's phrase. */
  function DescriptionHead(r: NodeResult): string {
    if Truthy(r.response) then r.response.value else FallbackPhrase(r.nodeType)
  }

  /** `buildNodeDescription`: the head, then (when there is structured output) a space and the formatted block. */
  function BuildNodeDescription(r: NodeResult): (d: string)
    ensures DescriptionHead(r) <= d
    ensures |r.structuredOutput| == 0 <==> |d| == |DescriptionHead(r)|
    ensures |r.structuredOutput| > 0 ==>
              d[|DescriptionHead(r)|..] == " " + StructuredHeader + FormatStructuredOutput(r.structuredOutput)
  {
    var head := DescriptionHead(r);
    if |r.structuredOutput| > 0 then
      var tail := " " + StructuredHeader + FormatStructuredOutput(r.structuredOutput);
      assert (head + tail)[|head|..] == tail;
      head + tail
    else head
  }

  /** The description opens with the response when there is one, and with the type's phrase otherwise. */
  lemma DescriptionOpensWithResponse(r: NodeResult)
    ensures Truthy(r.response) ==> r.response.value <= BuildNodeDescription(r)
    ensures !Truthy(r.response) ==> FallbackPhrase(r.nodeType) <= BuildNodeDescription(r)
  {
  }

  datatype Entry = Entry(key: string, value: string)

  datatype TimelineItem = TimelineItem(
    id: string,
    title: string,
    description: string,
    status: ItemStatus,
    expanded: bool,
    nodeType: string,
    hasStructuredOutput: bool,
    structuredOutputEntries: seq<Entry>)

  /** `createTimelineItem`. */
  function CreateTimelineItem(r: NodeResult): (item: TimelineItem)
    ensures item.id == r.nodeId && !item.expanded && item.nodeType == r.nodeType
    ensures item.title == if r.nodeName != "" then r.nodeName else r.nodeId
    ensures item.status == StatusOf(r) && item.description == BuildNodeDescription(r)
    ensures item.hasStructuredOutput <==> |r.structuredOutput| > 0
    ensures |item.structuredOutputEntries| == |r.structuredOutput|
    ensures forall i :: 0 <= i < |r.structuredOutput| ==>
              item.structuredOutputEntries[i] == Entry(r.structuredOutput[i].key, EntryValue(r.structuredOutput[i].value))
  {
    var so := r.structuredOutput;
    TimelineItem(
      r.nodeId,
      OrElse(Some(r.nodeName), r.nodeId),
      BuildNodeDescription(r),
      StatusOf(r),
      false,
      r.nodeType,
      |so| > 0,
      seq(|so|, i requires 0 <= i < |so| => Entry(so[i].key, EntryValue(so[i].value))))
  }

  /** The end index of `slice(0, end)` on a list of length `len`, negative ends counting from the back. */
  function SliceEnd(len: nat, end: int): (r: nat)
    ensures r <= len
    ensures end >= 0 ==> r == if end < len then end else len
    ensures end < 0 ==> r == if len + end > 0 then len + end else 0
  {
    if end >= 0 then (if end < len then end else len)
    else if len + end > 0 then len + end else 0
  }

  /** `buildTimelineItems`: no results gives no items; otherwise the sorted, projected list cut by `slice(0, maxItems)`. */
  function BuildTimelineItems(resp: WorkflowExecutionResponse, maxItems: int): (items: seq<TimelineItem>)
    ensures resp.nodes.None? ==> items == []
    ensures resp.nodes.Some? ==>
              && |items| == SliceEnd(|resp.nodes.value|, maxItems)
              && forall i :: 0 <= i < |items| ==> items[i] == CreateTimelineItem(SortNodesByExecutionOrder(resp.nodes.value)[i])
  {
    match resp.nodes
    case None => []
    case Some(ns) =>
      var sorted := SortNodesByExecutionOrder(ns);
      var all := seq(|sorted|, i requires 0 <= i < |sorted| => CreateTimelineItem(sorted[i]));
      all[..SliceEnd(|all|, maxItems)]
  }

  /** With a non-negative limit the timeline is the first `min(n, maxItems)` items, start results before end results. */
  lemma TimelineOrderAndLength(resp: WorkflowExecutionResponse, maxItems: nat)
    requires resp.nodes.Some?
    ensures var items := BuildTimelineItems(resp, maxItems);
            && |items| == (if maxItems < |resp.nodes.value| then maxItems else |resp.nodes.value|)
            && forall i, j :: 0 <= i < j < |items| && items[j].nodeType == "start" ==> items[i].nodeType == "start"
  {
    var items := BuildTimelineItems(resp, maxItems);
    var sorted := SortNodesByExecutionOrder(resp.nodes.value);
    SortIsSorted(resp.nodes.value);
    forall i, j | 0 <= i < j < |items| && items[j].nodeType == "start" ensures items[i].nodeType == "start" {
      assert items[i].nodeType == sorted[i].nodeType && items[j].nodeType == sorted[j].nodeType;
      assert Priority(sorted[i]) <= Priority(sorted[j]);
    }
  }

  // ---------------------------------------------------------------------------
  // Expanded outputs
  // ---------------------------------------------------------------------------

  datatype Expansion = Expansion(outputs: set<string>, structuredOutputs: set<string>)

  /** Add the id if absent, delete it if present. */
  function Toggle(s: set<string>, id: string): (r: set<string>)
    ensures id in r <==> id !in s
    ensures forall other :: other != id ==> (other in r <==> other in s)
  {
    if id in s then s - {id} else s + {id}
  }

  /** `toggleOutputVisibility`: flips one id's response panel and touches nothing else. */
  function ToggleOutputVisibility(e: Expansion, itemId: string): (r: Expansion)
    ensures r.structuredOutputs == e.structuredOutputs
    ensures itemId in r.outputs <==> itemId !in e.outputs
    ensures forall other :: other != itemId ==> (other in r.outputs <==> other in e.outputs)
  {
    e.(outputs := Toggle(e.outputs, itemId))
  }

  /** `toggleStructuredOutputVisibility`: the same for the structured-output panel. */
  function ToggleStructuredOutputVisibility(e: Expansion, itemId: string): (r: Expansion)
    ensures r.outputs == e.outputs
    ensures itemId in r.structuredOutputs <==> itemId !in e.structuredOutputs
    ensures forall other :: other != itemId ==> (other in r.structuredOutputs <==> other in e.structuredOutputs)
  {
    e.(structuredOutputs := Toggle(e.structuredOutputs, itemId))
  }

  /** Toggling twice restores the original state. */
  lemma ToggleTwiceRestores(e: Expansion, itemId: string)
    ensures ToggleOutputVisibility(ToggleOutputVisibility(e, itemId), itemId) == e
    ensures ToggleStructuredOutputVisibility(ToggleStructuredOutputVisibility(e, itemId), itemId) == e
  {
  }
}
