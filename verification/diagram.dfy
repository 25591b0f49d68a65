/**
  The two phases together: what `AASMDiagram::Diagram` writes for a state
  machine, which is `draw` followed by the lines of `save`.
 */
module Diagram {
  import opened Graphs
  import opened Builder
  import opened Renderer

  /** The lines written for the machine, or the failure `draw` raises: the
      output exists exactly when every transition's stringified source is a
      declared state, and then starts with the header; otherwise the failure
      names a transition source that is not a state. */
  function Generate(states: seq<string>, events: seq<Event>, diagramType: string): (r: Result<seq<string>>)
    ensures var rs := Records(events);
            r.Ok? <==> forall i :: 0 <= i < |rs| ==> rs[i].from in states
    ensures r.Ok? ==> |r.value| >= 1 && r.value[0] == Header(diagramType)
    ensures var rs := Records(events);
            r.Err? ==> exists m :: 0 <= m < |rs| && rs[m].from !in states && r.error == NilReceiver(rs[m].from)
  {
    match Draw(states, events)
    case Err(err) => Err(err)
    case Ok(g) => Ok(Render(g, diagramType))
  }

  /** The edge line each record stands for, in record order. */
  function TransitionLines(rs: seq<Record>): seq<string> {
    seq(|rs|, k requires 0 <= k < |rs| => EdgeLine(rs[k].from, rs[k].edge))
  }

  /** The bare declarations of the keys that no record starts from, in key order. */
  function IsolatedLines(keys: seq<string>, rs: seq<Record>): seq<string> {
    if keys == [] then []
    else (if EdgesFrom(rs, keys[0]) == [] then [BareLine(keys[0])] else [])
         + IsolatedLines(keys[1..], rs)
  }

  /** One successful `<<` adds exactly the line of the pushed edge. */
  lemma {:induction false} PushLines(g: Graph, k: string, e: Edge)
    requires Push(g, k, e).Ok?
    ensures multiset(EdgeLinesAll(Push(g, k, e).value)) == multiset(EdgeLinesAll(g)) + multiset{EdgeLine(k, e)}
  {
    var i := Find(g, k).value;
    assert Push(g, k, e).value == g[i := Node(g[i].name, g[i].edges + [e])];
    EdgeLinesAfterAppend(g, i, e);
  }

  lemma {:induction false} TransitionLinesCons(rs: seq<Record>)
    requires rs != []
    ensures multiset(TransitionLines(rs))
            == multiset{EdgeLine(rs[0].from, rs[0].edge)} + multiset(TransitionLines(rs[1..]))
  {
    assert TransitionLines(rs) == [EdgeLine(rs[0].from, rs[0].edge)] + TransitionLines(rs[1..]);
  }

  /** Appending the records adds exactly one edge line per record. */
  lemma {:induction false} AppendAllLines(g: Graph, rs: seq<Record>)
    requires AppendAll(g, rs).Ok?
    ensures multiset(EdgeLinesAll(AppendAll(g, rs).value))
            == multiset(EdgeLinesAll(g)) + multiset(TransitionLines(rs))
    decreases |rs|
  {
    if rs == [] {
      assert TransitionLines(rs) == [];
    } else {
      var line := EdgeLine(rs[0].from, rs[0].edge);
      var g1 := Push(g, rs[0].from, rs[0].edge).value;
      assert AppendAll(g, rs) == AppendAll(g1, rs[1..]);
      PushLines(g, rs[0].from, rs[0].edge);
      AppendAllLines(g1, rs[1..]);
      TransitionLinesCons(rs);
      var a, b, c := multiset(EdgeLinesAll(g)), multiset{line}, multiset(TransitionLines(rs[1..]));
      assert multiset(EdgeLinesAll(AppendAll(g, rs).value)) == (a + b) + c;
      assert multiset(TransitionLines(rs)) == b + c;
    }
  }

  lemma {:induction false} NoEdgeLines(ns: seq<Node>)
    requires forall i :: 0 <= i < |ns| ==> ns[i].edges == []
    ensures EdgeLinesAll(ns) == []
    decreases |ns|
  {
    if ns != [] {
      NoEdgeLines(ns[1..]);
    }
  }

  lemma {:induction false} BareLinesOfBuilt(ns: seq<Node>, rs: seq<Record>)
    requires forall i :: 0 <= i < |ns| ==> ns[i].edges == EdgesFrom(rs, ns[i].name)
    ensures BareLinesAll(ns) == IsolatedLines(Keys(ns), rs)
    decreases |ns|
  {
    if ns != [] {
      assert Keys(ns)[0] == ns[0].name;
      assert Keys(ns)[1..] == Keys(ns[1..]);
      BareLinesOfBuilt(ns[1..], rs);
    }
  }

  /** When the machine draws, the output is the header followed by exactly
      one edge line per transition (duplicates and self-loops included) and
      exactly one bare declaration per declared state that no transition
      leaves, and nothing else. */
  lemma {:induction false} GenerateLines(states: seq<string>, events: seq<Event>, diagramType: string)
    requires Generate(states, events, diagramType).Ok?
    ensures var lines := Generate(states, events, diagramType).value;
            && |lines| >= 1 && lines[0] == Header(diagramType)
            && multiset(lines[1..]) == multiset(TransitionLines(Records(events)))
                                       + multiset(IsolatedLines(Keys(DrawNodes(states)), Records(events)))
  {
    var g0, rs := DrawNodes(states), Records(events);
    var g := Draw(states, events).value;
    AppendAllLines(g0, rs);
    NoEdgeLines(g0);
    BodyLines(g);
    BareLinesOfBuilt(g, rs);
    assert Render(g, diagramType)[1..] == Body(g);
  }

  /** Two states and one event between them, with the default type `LR`. */
  lemma {:induction false} SleepingRunningExample()
    ensures Generate(["sleeping", "running"], [Event("run", [Transition(Some("sleeping"), "running")])], "LR")
            == Ok(["flowchart LR;", "    sleeping -->|run|running;", "    running;"])
  {
    SleepingRunningDraw();
    SleepingRunningRender();
  }

  lemma {:induction false} SleepingRunningNodes()
    ensures DrawNodes(["sleeping", "running"]) == [Node("sleeping", []), Node("running", [])]
  {
    var names := ["sleeping", "running"];
    assert names[..1] == ["sleeping"] && names[..1][..0] == [];
    var g1: Graph := [Node("sleeping", [])];
    assert Find([], "sleeping") == None;
    assert Store([], "sleeping", []) == g1;
    assert DrawNodes(names[..1]) == g1;
    assert Find(g1, "running") == None by {
      assert g1[1..] == [];
    }
    assert Store(g1, "running", []) == [Node("sleeping", []), Node("running", [])];
  }

  lemma {:induction false} SleepingRunningDraw()
    ensures Draw(["sleeping", "running"], [Event("run", [Transition(Some("sleeping"), "running")])])
            == Ok([Node("sleeping", [Edge("running", "run")]), Node("running", [])])
  {
    SleepingRunningNodes();
    var g: Graph := [Node("sleeping", []), Node("running", [])];
    var g': Graph := [Node("sleeping", [Edge("running", "run")]), Node("running", [])];
    var ts := [Transition(Some("sleeping"), "running")];
    assert Find(g, "sleeping") == Some(0);
    assert [] + [Edge("running", "run")] == [Edge("running", "run")];
    assert g[0 := Node("sleeping", [Edge("running", "run")])] == g';
    assert Push(g, "sleeping", Edge("running", "run")) == Ok(g');
    assert ts[1..] == [];
    assert DrawTransitions(g, "run", ts) == Ok(g');
    assert [Event("run", ts)][1..] == [];
  }

  lemma {:induction false} SleepingRunningRender()
    ensures Render([Node("sleeping", [Edge("running", "run")]), Node("running", [])], "LR")
            == ["flowchart LR;", "    sleeping -->|run|running;", "    running;"]
  {
    var n0, n1 := Node("sleeping", [Edge("running", "run")]), Node("running", []);
    var g: Graph := [n0, n1];
    assert g[1..] == [n1] && [n1][1..] == [];
    assert Body([n1]) == NodeLines(n1);
    assert Body(g) == NodeLines(n0) + NodeLines(n1);
    assert NodeLines(n0) == [EdgeLine("sleeping", Edge("running", "run"))];
    HeaderLR();
    SleepingEdgeLine();
    RunningBareLine();
  }

  // The three written strings of the example, each its own small proof.

  lemma {:induction false} HeaderLR()
    ensures Header("LR") == "flowchart LR;"
  {
  }

  lemma {:induction false} SleepingEdgeLine()
    ensures EdgeLine("sleeping", Edge("running", "run")) == "    sleeping -->|run|running;"
  {
  }

  lemma {:induction false} RunningBareLine()
    ensures BareLine("running") == "    running;"
  {
  }
}
