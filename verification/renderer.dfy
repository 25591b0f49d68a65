/**
  Rendering: the lines that `save` hands to `f.puts`, as a pure function of
  the graph and the diagram type. Each `puts` adds the line terminator, which
  is not part of the strings here.
 */
module Renderer {
  import opened Graphs

  /** Every line after the header is indented by four spaces. */
  const Indent := "    "

  /** The first line: `flowchart <type>;`. */
  function Header(diagramType: string): string {
    "flowchart " + diagramType + ";"
  }

  /** The line declaring a state that has no outgoing edge. */
  function BareLine(name: string): string {
    Indent + name + ";"
  }

  /** The line of one edge: `<from> -->|<event>|<to>;`. */
  function EdgeLine(from: string, e: Edge): string {
    Indent + from + " -->|" + e.event + "|" + e.to + ";"
  }

  /** One line per edge of `from`, in list order. */
  function EdgeLines(from: string, es: seq<Edge>): seq<string> {
    seq(|es|, j requires 0 <= j < |es| => EdgeLine(from, es[j]))
  }

  /** The block one Hash entry writes: a bare declaration when its list is
      empty, its edge lines otherwise. */
  function NodeLines(n: Node): seq<string> {
    if n.edges == [] then [BareLine(n.name)] else EdgeLines(n.name, n.edges)
  }

  /** The blocks of all entries, in key order (`@graph.each_entry`). */
  function Body(ns: seq<Node>): seq<string> {
    if ns == [] then [] else NodeLines(ns[0]) + Body(ns[1..])
  }

  /** Everything `save` writes, one string per `puts`: the header line, then
      max(1, k) lines for each node with k edges. */
  function Render(g: Graph, diagramType: string): (lines: seq<string>)
    ensures |lines| == 1 + LineCount(g)
    ensures lines[0] == Header(diagramType)
  {
    BodyLength(g);
    [Header(diagramType)] + Body(g)
  }

  // ---------------------------------------------------------------------
  // Where each line goes

  /** How many lines a node takes: max(1, number of edges). */
  function Width(n: Node): nat {
    if |n.edges| < 1 then 1 else |n.edges|
  }

  /** The lines taken by the nodes `ns`: the sum of their widths. */
  function LineCount(ns: seq<Node>): nat {
    if ns == [] then 0 else Width(ns[0]) + LineCount(ns[1..])
  }

  lemma {:induction false} BodyConcat(a: seq<Node>, b: seq<Node>)
    ensures Body(a + b) == Body(a) + Body(b)
    decreases |a|
  {
    if a == [] {
      assert a + b == b;
    } else {
      assert (a + b)[0] == a[0];
      assert (a + b)[1..] == a[1..] + b;
      BodyConcat(a[1..], b);
    }
  }

  lemma {:induction false} LineCountConcat(a: seq<Node>, b: seq<Node>)
    ensures LineCount(a + b) == LineCount(a) + LineCount(b)
    decreases |a|
  {
    if a == [] {
      assert a + b == b;
    } else {
      assert (a + b)[0] == a[0];
      assert (a + b)[1..] == a[1..] + b;
      LineCountConcat(a[1..], b);
    }
  }

  lemma {:induction false} BodyLength(ns: seq<Node>)
    ensures |Body(ns)| == LineCount(ns)
    decreases |ns|
  {
    if ns != [] {
      BodyLength(ns[1..]);
    }
  }

  /** Node `i`'s block starts right after the header and the blocks of the
      nodes before it, and is followed directly by node `i + 1`'s block. A
      node without edges takes exactly one line, its bare declaration; a node
      with k > 0 edges takes exactly k lines, its edge lines in list order. */
  lemma {:induction false} RenderBlock(g: Graph, diagramType: string, i: nat)
    requires i < |g|
    ensures var o := 1 + LineCount(g[..i]);
            1 + LineCount(g[..i + 1]) == o + Width(g[i]) <= |Render(g, diagramType)|
    ensures var lines, o := Render(g, diagramType), 1 + LineCount(g[..i]);
            g[i].edges == [] ==> o < |lines| && lines[o] == BareLine(g[i].name)
    ensures var lines, o := Render(g, diagramType), 1 + LineCount(g[..i]);
            forall j :: 0 <= j < |g[i].edges| ==>
              o + j < |lines| && lines[o + j] == EdgeLine(g[i].name, g[i].edges[j])
  {
    LineCountAt(g, i);
    BodyBlockLength(g, i);
    if g[i].edges == [] {
      RenderLine(g, diagramType, i, 0);
    } else {
      forall j | 0 <= j < |g[i].edges|
        ensures Render(g, diagramType)[1 + LineCount(g[..i]) + j] == EdgeLine(g[i].name, g[i].edges[j])
      {
        RenderLine(g, diagramType, i, j);
      }
    }
  }

  /** Line `j` of node `i`'s block is line `1 + LineCount(g[..i]) + j` of the output. */
  lemma {:induction false} RenderLine(g: Graph, diagramType: string, i: nat, j: nat)
    requires i < |g| && j < |NodeLines(g[i])|
    ensures 1 + LineCount(g[..i]) + j < |Render(g, diagramType)|
    ensures Render(g, diagramType)[1 + LineCount(g[..i]) + j] == NodeLines(g[i])[j]
  {
    BodyLine(g, i, j);
    assert Render(g, diagramType) == [Header(diagramType)] + Body(g);
  }

  lemma {:induction false} BodyBlockLength(ns: seq<Node>, i: nat)
    requires i < |ns|
    ensures LineCount(ns[..i]) + Width(ns[i]) <= |Body(ns)|
  {
    BodyAt(ns, i);
    BodyLength(ns[..i]);
  }

  /** Line `j` of node `i`'s block is line `LineCount(ns[..i]) + j` of the body. */
  lemma {:induction false} BodyLine(ns: seq<Node>, i: nat, j: nat)
    requires i < |ns| && j < |NodeLines(ns[i])|
    ensures LineCount(ns[..i]) + j < |Body(ns)|
    ensures Body(ns)[LineCount(ns[..i]) + j] == NodeLines(ns[i])[j]
  {
    BodyAt(ns, i);
    BodyLength(ns[..i]);
    BlockAt(Body(ns[..i]), NodeLines(ns[i]), Body(ns[i + 1..]), Body(ns), j);
  }

  /** In `pre + mid + post` the part `mid` starts at `|pre|`. */
  lemma {:induction false} BlockAt<T>(pre: seq<T>, mid: seq<T>, post: seq<T>, whole: seq<T>, j: nat)
    requires whole == pre + mid + post && j < |mid|
    ensures |pre| + j < |whole| && whole[|pre| + j] == mid[j]
  {
  }

  /** The body splits at node `i` into the lines before it, its own block and
      the lines after it. */
  lemma {:induction false} BodyAt(ns: seq<Node>, i: nat)
    requires i < |ns|
    ensures Body(ns) == Body(ns[..i]) + NodeLines(ns[i]) + Body(ns[i + 1..])
  {
    var before, rest, after := ns[..i], ns[i..], ns[i + 1..];
    assert ns == before + rest;
    BodyConcat(before, rest);
    assert rest[0] == ns[i] && rest[1..] == after;
    assert Body(rest) == NodeLines(ns[i]) + Body(after);
  }

  /** Node `i` adds its width to the line count of the nodes before it. */
  lemma {:induction false} LineCountAt(ns: seq<Node>, i: nat)
    requires i < |ns|
    ensures LineCount(ns[..i + 1]) == LineCount(ns[..i]) + Width(ns[i])
  {
    assert ns[..i + 1] == ns[..i] + [ns[i]];
    LineCountConcat(ns[..i], [ns[i]]);
    assert [ns[i]][1..] == [];
  }

  // ---------------------------------------------------------------------
  // Which lines there are, regardless of position

  /** The edge lines of all nodes, in order. */
  function EdgeLinesAll(ns: seq<Node>): seq<string> {
    if ns == [] then [] else EdgeLines(ns[0].name, ns[0].edges) + EdgeLinesAll(ns[1..])
  }

  /** The bare declarations of the nodes without edges, in order. */
  function BareLinesAll(ns: seq<Node>): seq<string> {
    if ns == [] then []
    else (if ns[0].edges == [] then [BareLine(ns[0].name)] else []) + BareLinesAll(ns[1..])
  }

  /** The body holds each edge line and each bare declaration once, and
      nothing else. */
  lemma {:induction false} BodyLines(ns: seq<Node>)
    ensures multiset(Body(ns)) == multiset(EdgeLinesAll(ns)) + multiset(BareLinesAll(ns))
    decreases |ns|
  {
    if ns != [] {
      BodyLines(ns[1..]);
      if ns[0].edges == [] {
        assert EdgeLines(ns[0].name, ns[0].edges) == [];
      }
    }
  }

  /** Appending an edge to node `i` adds exactly that edge's line. */
  lemma {:induction false} EdgeLinesAfterAppend(ns: seq<Node>, i: nat, e: Edge)
    requires i < |ns|
    ensures multiset(EdgeLinesAll(ns[i := Node(ns[i].name, ns[i].edges + [e])]))
            == multiset(EdgeLinesAll(ns)) + multiset{EdgeLine(ns[i].name, e)}
    decreases i
  {
    var ns' := ns[i := Node(ns[i].name, ns[i].edges + [e])];
    if i == 0 {
      assert ns'[1..] == ns[1..];
      assert EdgeLines(ns[0].name, ns[0].edges + [e])
             == EdgeLines(ns[0].name, ns[0].edges) + [EdgeLine(ns[0].name, e)];
    } else {
      assert ns'[1..] == ns[1..][i - 1 := Node(ns[i].name, ns[i].edges + [e])];
      EdgeLinesAfterAppend(ns[1..], i - 1, e);
    }
  }
}
