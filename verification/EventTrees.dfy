/**
 The tree the Markdown conversion makes of the parser's flat events, with a stack of the nodes still open.
 It is compared with a linear reading of the events in which a missing end is supplied and a surplus one is
 passed over.
 */
module EventTrees {
  import opened Bytes

  datatype Event = Start(tag: nat, range: Range) | End(range: Range) | Leaf(item: nat, range: Range)

  datatype Node = Node(event: Option<Event>, range: Range, children: seq<Node>)

  /** One step of reading a tree from left to right: into a node, past a leaf, or out of a node that ends
      at an offset. */
  datatype Step = Opens(event: Event) | Passes(event: Event) | Closes(end: nat)

  /** Reading a tree. */
  function ReadNode(node: Node): seq<Step>
    decreases node, 1
  {
    match node.event
    case Some(Start(tag, range)) => [Opens(Start(tag, range))] + ReadNodes(node.children) + [Closes(node.range.end)]
    case Some(event) => [Passes(event)]
    case None => ReadNodes(node.children)
  }

  function ReadNodes(nodes: seq<Node>): seq<Step>
    decreases nodes, 0
  {
    if nodes == [] then [] else ReadNodes(nodes[..|nodes| - 1]) + ReadNode(nodes[|nodes| - 1])
  }

  /** The ends that are still missing, innermost first. */
  function Closers(open: seq<Range>): seq<Step> {
    if open == [] then [] else [Closes(open[|open| - 1].end)] + Closers(open[..|open| - 1])
  }

  /** Reading the events, given the ranges of the nodes open before them. */
  function Repaired(events: seq<Event>, open: seq<Range>): seq<Step> {
    if events == [] then Closers(open)
    else
      match events[0]
      case Start(_, range) => [Opens(events[0])] + Repaired(events[1..], open + [range])
      case Leaf(_, _) => [Passes(events[0])] + Repaired(events[1..], open)
      case End(range) =>
        if open == [] then Repaired(events[1..], open)
        else [Closes(Max(open[|open| - 1].end, range.end))] + Repaired(events[1..], open[..|open| - 1])
  }

  /** What a stack of open nodes, below which lies the root, has read so far. */
  function ReadOpen(stack: seq<Node>): seq<Step> {
    if stack == [] then []
    else
      var top := stack[|stack| - 1];
      ReadOpen(stack[..|stack| - 1])
      + (if top.event.Some? then [Opens(top.event.value)] else []) + ReadNodes(top.children)
  }

  function Ranges(stack: seq<Node>): (r: seq<Range>)
    requires stack != []
    ensures |r| == |stack| - 1 && forall i :: 0 <= i < |r| ==> r[i] == stack[i + 1].range
  {
    seq(|stack| - 1, i requires 0 <= i < |stack| - 1 => stack[i + 1].range)
  }

  /** The root below the nodes of start events. */
  ghost predicate IsStack(stack: seq<Node>) {
    && stack != [] && stack[0].event.None?
    && forall i :: 0 < i < |stack| ==> stack[i].event.Some? && stack[i].event.value.Start?
  }

  function WithChild(parent: Node, child: Node): Node {
    parent.(children := parent.children + [child])
  }

  lemma ChildRead(parent: Node, child: Node)
    ensures ReadNodes(WithChild(parent, child).children) == ReadNodes(parent.children) + ReadNode(child)
  {
    assert WithChild(parent, child).children[..|parent.children|] == parent.children;
  }

  lemma ReadTop(stack: seq<Node>)
    requires stack != []
    ensures var top := stack[|stack| - 1];
            ReadOpen(stack) == ReadOpen(stack[..|stack| - 1])
                               + (if top.event.Some? then [Opens(top.event.value)] else []) + ReadNodes(top.children)
  {
    hide ReadNodes;
  }

  /** Putting a node under the top of the stack reads that node. */
  lemma ChildAdded(stack: seq<Node>, child: Node)
    requires IsStack(stack)
    ensures var top := |stack| - 1;
            var after := stack[top := WithChild(stack[top], child)];
            IsStack(after) && ReadOpen(after) == ReadOpen(stack) + ReadNode(child) && Ranges(after) == Ranges(stack)
  {
    hide ReadNode, ReadNodes, ReadOpen;
    var top := |stack| - 1;
    var after := stack[top := WithChild(stack[top], child)];
    ChildRead(stack[top], child);
    assert after[..top] == stack[..top];
    ReadTop(stack);
    ReadTop(after);
    assert forall i :: 0 < i < |after| ==> after[i].event == stack[i].event && after[i].range == stack[i].range;
  }

  /** Taking the top node off and putting it under the next one reads its end. */
  lemma TopClosed(stack: seq<Node>, end: nat)
    requires IsStack(stack) && |stack| > 1
    ensures var n := |stack| - 1;
            var node := stack[n].(range := Range(stack[n].range.start, end));
            var below := stack[..n];
            var after := below[n - 1 := WithChild(below[n - 1], node)];
            IsStack(after) && ReadOpen(after) == ReadOpen(stack) + [Closes(end)]
                && Ranges(after) == Ranges(stack)[..n - 1]
  {
    hide ReadOpen, ReadNodes;
    var n := |stack| - 1;
    var node := stack[n].(range := Range(stack[n].range.start, end));
    var below := stack[..n];
    assert IsStack(below);
    ReadTop(stack);
    ChildAdded(below, node);
    assert ReadNode(node) == [Opens(stack[n].event.value)] + ReadNodes(stack[n].children) + [Closes(end)];
    assert Ranges(below) == Ranges(stack)[..n - 1];
  }

  lemma NodeOpened(stack: seq<Node>, event: Event)
    requires IsStack(stack) && event.Start?
    ensures var after := stack + [Node(Some(event), event.range, [])];
            IsStack(after) && ReadOpen(after) == ReadOpen(stack) + [Opens(event)]
                && Ranges(after) == Ranges(stack) + [event.range]
  {
    var after := stack + [Node(Some(event), event.range, [])];
    assert after[..|stack|] == stack;
  }

  /** What has been read and what is still to be read. */
  ghost function WholeReading(stack: seq<Node>, events: seq<Event>): seq<Step>
    requires stack != []
  {
    ReadOpen(stack) + Repaired(events, Ranges(stack))
  }

  function Pushed(stack: seq<Node>, event: Event): seq<Node> {
    stack + [Node(Some(event), event.range, [])]
  }

  function Popped(stack: seq<Node>, end: nat): seq<Node>
    requires |stack| > 1
  {
    var n := |stack| - 1;
    stack[..n][n - 1 := WithChild(stack[n - 1], stack[n].(range := Range(stack[n].range.start, end)))]
  }

  function Grown(stack: seq<Node>, event: Event): seq<Node>
    requires stack != []
  {
    stack[|stack| - 1 := WithChild(stack[|stack| - 1], Node(Some(event), event.range, []))]
  }

  lemma StartKeeps(stack: seq<Node>, events: seq<Event>)
    requires IsStack(stack) && events != [] && events[0].Start?
    ensures IsStack(Pushed(stack, events[0]))
    ensures WholeReading(Pushed(stack, events[0]), events[1..]) == WholeReading(stack, events)
  {
    hide ReadOpen;
    NodeOpened(stack, events[0]);
    assert ReadOpen(stack) + ([Opens(events[0])] + Repaired(events[1..], Ranges(stack) + [events[0].range]))
        == ReadOpen(stack) + [Opens(events[0])] + Repaired(events[1..], Ranges(stack) + [events[0].range]);
  }

  lemma LeafKeeps(stack: seq<Node>, events: seq<Event>)
    requires IsStack(stack) && events != [] && events[0].Leaf?
    ensures IsStack(Grown(stack, events[0]))
    ensures WholeReading(Grown(stack, events[0]), events[1..]) == WholeReading(stack, events)
  {
    hide ReadOpen, Ranges;
    LeafRead(events[0]);
    ChildAdded(stack, Node(Some(events[0]), events[0].range, []));
    assert ReadOpen(stack) + ([Passes(events[0])] + Repaired(events[1..], Ranges(stack)))
        == ReadOpen(stack) + [Passes(events[0])] + Repaired(events[1..], Ranges(stack));
  }

  lemma EndKeeps(stack: seq<Node>, events: seq<Event>)
    requires IsStack(stack) && events != [] && events[0].End? && |stack| > 1
    ensures var after := Popped(stack, Max(stack[|stack| - 1].range.end, events[0].range.end));
            IsStack(after) && WholeReading(after, events[1..]) == WholeReading(stack, events)
  {
    hide ReadOpen;
    var end := Max(stack[|stack| - 1].range.end, events[0].range.end);
    TopClosed(stack, end);
    assert Ranges(stack)[|stack| - 2] == stack[|stack| - 1].range;
    var open := Ranges(stack)[..|stack| - 2];
    assert ReadOpen(stack) + ([Closes(end)] + Repaired(events[1..], open)) == ReadOpen(stack) + [Closes(end)]
           + Repaired(events[1..], open);
  }

  lemma CloserKeeps(stack: seq<Node>)
    requires IsStack(stack) && |stack| > 1
    ensures var after := Popped(stack, stack[|stack| - 1].range.end);
            IsStack(after) && WholeReading(after, []) == WholeReading(stack, [])
  {
    hide ReadOpen;
    var end := stack[|stack| - 1].range.end;
    TopClosed(stack, end);
    assert Ranges(stack)[|stack| - 2] == stack[|stack| - 1].range;
    var open := Ranges(stack)[..|stack| - 2];
    assert ReadOpen(stack) + ([Closes(end)] + Closers(open)) == ReadOpen(stack) + [Closes(end)] + Closers(open);
  }

  /** The tree reads like its events, for any events at all. */
  method EventTree(events: seq<Event>) returns (nodes: seq<Node>)
    ensures ReadNodes(nodes) == Repaired(events, [])
  {
    var stack := [Node(None, Range(0, 0), [])];
    RootIsStack();
    assert events[0..] == events;
    hide ReadOpen, IsStack, ReadNodes, ReadNode, WholeReading, Repaired, Ranges;
    for i := 0 to |events|
      invariant IsStack(stack) && stack != []
      invariant WholeReading(stack, events[i..]) == Repaired(events, [])
    {
      var event := events[i];
      assert events[i..][0] == event && events[i..][1..] == events[i + 1..];
      match event
      case Start(_, range) =>
        StartKeeps(stack, events[i..]);
        stack := Pushed(stack, event);
      case End(range) =>
        if |stack| > 1 {
          EndKeeps(stack, events[i..]);
          stack := Popped(stack, Max(stack[|stack| - 1].range.end, range.end));
        } else {
          SurplusEnd(stack, events[i..]);
        }
      case Leaf(_, range) =>
        LeafKeeps(stack, events[i..]);
        stack := Grown(stack, event);
    }
    assert events[|events|..] == [];
    while |stack| > 1
      invariant IsStack(stack) && stack != []
      invariant WholeReading(stack, []) == Repaired(events, [])
    {
      CloserKeeps(stack);
      stack := Popped(stack, stack[|stack| - 1].range.end);
    }
    RootReads(stack);
    nodes := stack[0].children;
  }

  lemma SurplusEnd(stack: seq<Node>, events: seq<Event>)
    requires |stack| == 1 && events != [] && events[0].End?
    ensures WholeReading(stack, events[1..]) == WholeReading(stack, events)
  {
    assert Ranges(stack) == [];
  }

  lemma RootIsStack()
    ensures IsStack([Node(None, Range(0, 0), [])]) && ReadOpen([Node(None, Range(0, 0), [])]) == []
    ensures Ranges([Node(None, Range(0, 0), [])]) == []
    ensures forall events :: WholeReading([Node(None, Range(0, 0), [])], events) == Repaired(events, [])
  {
    hide Repaired;
    var root := [Node(None, Range(0, 0), [])];
    assert Ranges(root) == [];
    forall events: seq<Event>
      ensures WholeReading(root, events) == Repaired(events, [])
    {
      assert ReadOpen(root) == [];
    }
  }

  lemma RootReads(stack: seq<Node>)
    requires IsStack(stack) && |stack| == 1
    ensures WholeReading(stack, []) == ReadNodes(stack[0].children)
  {
    assert stack[..0] == [] && Ranges(stack) == [];
    assert ReadOpen(stack) == ReadNodes(stack[0].children);
    assert Repaired([], []) == [];
  }

  lemma LeafRead(event: Event)
    requires event.Leaf?
    ensures ReadNode(Node(Some(event), event.range, [])) == [Passes(event)]
  {
  }

  // ---- what the reading keeps --------------------------------------------

  /** The events that make nodes, in order. */
  function Nodal(events: seq<Event>): seq<Event> {
    if events == [] then []
    else (if events[0].End? then [] else [events[0]]) + Nodal(events[1..])
  }

  function Read(steps: seq<Step>): seq<Event> {
    if steps == [] then []
    else (if steps[0].Closes? then [] else [steps[0].event]) + Read(steps[1..])
  }

  lemma {:induction false} ClosersReadNothing(open: seq<Range>)
    ensures Read(Closers(open)) == []
  {
    if open != [] {
      ClosersReadNothing(open[..|open| - 1]);
    }
  }

  /** No node is lost, doubled or moved: the tree holds the start and leaf events in their order. */
  lemma {:induction false} EveryNodeInOrder(events: seq<Event>, open: seq<Range>)
    ensures Read(Repaired(events, open)) == Nodal(events)
  {
    if events == [] {
      ClosersReadNothing(open);
    } else {
      match events[0]
      case Start(_, range) => EveryNodeInOrder(events[1..], open + [range]);
      case Leaf(_, _) => EveryNodeInOrder(events[1..], open);
      case End(_) => EveryNodeInOrder(events[1..], if open == [] then open else open[..|open| - 1]);
    }
  }

  ghost predicate Balanced(events: seq<Event>, depth: nat) {
    if events == [] then depth == 0
    else
      match events[0]
      case Start(_, _) => Balanced(events[1..], depth + 1)
      case Leaf(_, _) => Balanced(events[1..], depth)
      case End(_) => depth > 0 && Balanced(events[1..], depth - 1)
  }

  ghost predicate Mirrors(steps: seq<Step>, events: seq<Event>) {
    |steps| == |events| && forall i :: 0 <= i < |steps| ==> StepOf(steps[i], events[i])
  }

  predicate StepOf(step: Step, event: Event) {
    match step
    case Opens(e) => e == event && e.Start?
    case Passes(e) => e == event && e.Leaf?
    case Closes(_) => event.End?
  }

  lemma MirrorsHead(step: Step, steps: seq<Step>, events: seq<Event>)
    requires events != []
    ensures Mirrors([step] + steps, events) <==> StepOf(step, events[0]) && Mirrors(steps, events[1..])
  {
    var all := [step] + steps;
    assert all[1..] == steps;
    if Mirrors(all, events) {
      forall i | 0 <= i < |steps|
        ensures StepOf(steps[i], events[1..][i])
      {
        assert StepOf(all[i + 1], events[i + 1]);
      }
    }
    if StepOf(step, events[0]) && Mirrors(steps, events[1..]) {
      forall i | 0 <= i < |all|
        ensures StepOf(all[i], events[i])
      {
        assert i > 0 ==> StepOf(steps[i - 1], events[1..][i - 1]);
      }
    }
  }

  lemma {:induction false} NothingClosesFirst(events: seq<Event>)
    ensures Repaired(events, []) != [] ==> !Repaired(events, [])[0].Closes?
  {
    if events != [] && events[0].End? {
      NothingClosesFirst(events[1..]);
    }
  }

  /** Event for event, the tree reads like what the parser sent if and only if that was balanced. */
  lemma {:induction false} MirrorsIffBalanced(events: seq<Event>, open: seq<Range>)
    ensures Mirrors(Repaired(events, open), events) <==> Balanced(events, |open|)
  {
    if events != [] {
      match events[0]
      case Start(_, range) =>
        MirrorsIffBalanced(events[1..], open + [range]);
        MirrorsHead(Opens(events[0]), Repaired(events[1..], open + [range]), events);
      case Leaf(_, _) =>
        MirrorsIffBalanced(events[1..], open);
        MirrorsHead(Passes(events[0]), Repaired(events[1..], open), events);
      case End(range) =>
        if open == [] {
          NothingClosesFirst(events);
        } else {
          MirrorsIffBalanced(events[1..], open[..|open| - 1]);
          MirrorsHead(Closes(Max(open[|open| - 1].end, range.end)), Repaired(events[1..], open[..|open| - 1]), events);
        }
    }
  }
}
