/**
  Reading rendered lines back into a diagram type and a graph. The source
  only writes; this inverse exists to state what the strings passed to
  `puts` keep: when no state name contains a space and no event name
  contains `|`, that sequence of strings determines the type and the whole
  graph, order included. The source escapes nothing, so without that
  condition different graphs give the same strings. The file text, where the
  strings are joined by line terminators, is not covered: a name containing
  a line terminator can make two different sequences write the same file.
 */
module Reader {
  import opened Graphs
  import opened Renderer

  /** A body line as read back: a bare declaration or an edge. */
  datatype Line = Declared(name: string) | Arrow(from: string, edge: Edge)

  /** The first position of `c` in `s`. */
  function IndexOf(s: string, c: char): (r: Option<nat>)
    ensures r.None? ==> c !in s
    ensures r.Some? ==> r.value < |s| && s[r.value] == c && c !in s[..r.value]
  {
    if s == [] then None
    else if s[0] == c then Some(0)
    else
      assert s == [s[0]] + s[1..];
      match IndexOf(s[1..], c)
      case None => None
      case Some(i) =>
        assert s[..i + 1] == [s[0]] + s[1..][..i];
        Some(i + 1)
  }

  lemma {:induction false} IndexOfSeparator(a: string, c: char, b: string)
    requires c !in a
    ensures IndexOf(a + [c] + b, c) == Some(|a|)
  {
    var s := a + [c] + b;
    assert s[|a|] == c;
    var r := IndexOf(s, c).value;
    assert forall k :: 0 <= k < |a| ==> s[k] == a[k];
    assert forall k :: 0 <= k < r ==> s[..r][k] == s[k];
  }

  /** The text between the indentation and the final `;` of a body line. */
  function Inner(line: string): Option<string> {
    if |line| >= 5 && line[..4] == Indent && line[|line| - 1] == ';'
    then Some(line[4..|line| - 1])
    else None
  }

  /** Reads one body line; `None` when it has neither shape. */
  function ReadLine(line: string): Option<Line> {
    match Inner(line)
    case None => None
    case Some(c) =>
      match IndexOf(c, ' ')
      case None => Some(Declared(c))
      case Some(p) =>
        var rest := c[p..];
        if |rest| >= 5 && rest[..5] == " -->|" then
          var after := rest[5..];
          match IndexOf(after, '|')
          case None => None
          case Some(q) => Some(Arrow(c[..p], Edge(after[q + 1..], after[..q])))
        else None
  }

  /** Reads the header line back to the diagram type. */
  function ReadHeader(line: string): Option<string> {
    if |line| >= 11 && line[..10] == "flowchart " && line[|line| - 1] == ';'
    then Some(line[10..|line| - 1])
    else None
  }

  /** Regroups read lines into nodes: consecutive edges from the same
      source form one node, a bare declaration forms a node without edges. */
  function Group(ls: seq<Line>): seq<Node> {
    if ls == [] then []
    else
      var rest := Group(ls[1..]);
      match ls[0]
      case Declared(n) => [Node(n, [])] + rest
      case Arrow(n, e) =>
        if rest != [] && rest[0].name == n && rest[0].edges != []
        then [Node(n, [e] + rest[0].edges)] + rest[1..]
        else [Node(n, [e])] + rest
  }

  /** Reads every body line, or `None` if one has neither shape. */
  function ReadLines(lines: seq<string>): Option<seq<Line>> {
    if forall i :: 0 <= i < |lines| ==> ReadLine(lines[i]).Some?
    then Some(seq(|lines|, i requires 0 <= i < |lines| && ReadLine(lines[i]).Some? => ReadLine(lines[i]).value))
    else None
  }

  function Read(lines: seq<string>): Option<(string, seq<Node>)> {
    if lines == [] then None
    else
      match ReadHeader(lines[0])
      case None => None
      case Some(t) =>
        match ReadLines(lines[1..])
        case None => None
        case Some(ls) => Some((t, Group(ls)))
  }

  /** No state name holds a space and no event name holds a `|`. */
  predicate Plain(ns: seq<Node>) {
    && (forall i :: 0 <= i < |ns| ==> ' ' !in ns[i].name)
    && (forall i, j :: 0 <= i < |ns| && 0 <= j < |ns[i].edges| ==> '|' !in ns[i].edges[j].event)
  }

  lemma {:induction false} InnerOf(x: string)
    ensures Inner(Indent + x + ";") == Some(x)
  {
    var line := Indent + x + ";";
    assert line[..4] == Indent;
    assert line[4..|line| - 1] == x;
  }

  lemma {:induction false} ReadHeaderOf(t: string)
    ensures ReadHeader(Header(t)) == Some(t)
  {
    var line := Header(t);
    assert line[..10] == "flowchart ";
    assert line[10..|line| - 1] == t;
  }

  lemma {:induction false} ReadBareLine(n: string)
    requires ' ' !in n
    ensures ReadLine(BareLine(n)) == Some(Declared(n))
  {
    InnerOf(n);
  }

  lemma {:induction false} ReadEdgeLine(n: string, e: Edge)
    requires ' ' !in n && '|' !in e.event
    ensures ReadLine(EdgeLine(n, e)) == Some(Arrow(n, e))
  {
    var after := e.event + "|" + e.to;
    var c := n + " -->|" + after;
    assert EdgeLine(n, e) == Indent + c + ";";
    InnerOf(c);
    SplitSource(n, after);
    SplitLabel(e.event, e.to);
  }

  /** The source name ends at the first space. */
  lemma {:induction false} SplitSource(n: string, after: string)
    requires ' ' !in n
    ensures var c := n + " -->|" + after;
            && IndexOf(c, ' ') == Some(|n|) && c[..|n|] == n
            && |c[|n|..]| >= 5 && c[|n|..][..5] == " -->|" && c[|n|..][5..] == after
  {
    var c := n + " -->|" + after;
    assert c == n + [' '] + ("-->|" + after);
    IndexOfSeparator(n, ' ', "-->|" + after);
    assert c[|n|..] == " -->|" + after;
  }

  /** The label ends at the first vertical bar after the arrow. */
  lemma {:induction false} SplitLabel(event: string, to: string)
    requires '|' !in event
    ensures var after := event + "|" + to;
            && IndexOf(after, '|') == Some(|event|)
            && after[..|event|] == event && after[|event| + 1..] == to
  {
    var after := event + "|" + to;
    assert after == event + ['|'] + to;
    IndexOfSeparator(event, '|', to);
  }

  /** What each node's block reads back as. */
  function NodeTokens(n: Node): seq<Line> {
    if n.edges == [] then [Declared(n.name)]
    else seq(|n.edges|, j requires 0 <= j < |n.edges| => Arrow(n.name, n.edges[j]))
  }

  function Tokens(ns: seq<Node>): seq<Line> {
    if ns == [] then [] else NodeTokens(ns[0]) + Tokens(ns[1..])
  }

  /** Each line of a plain node's block reads back as the matching token. */
  lemma {:induction false} ReadNodeLines(n: Node)
    requires ' ' !in n.name && forall j :: 0 <= j < |n.edges| ==> '|' !in n.edges[j].event
    ensures |NodeLines(n)| == |NodeTokens(n)|
    ensures forall i :: 0 <= i < |NodeLines(n)| ==> ReadLine(NodeLines(n)[i]) == Some(NodeTokens(n)[i])
  {
    if n.edges == [] {
      ReadBareLine(n.name);
    } else {
      forall j | 0 <= j < |n.edges| ensures ReadLine(NodeLines(n)[j]) == Some(NodeTokens(n)[j]) {
        ReadEdgeLine(n.name, n.edges[j]);
      }
    }
  }

  /** Each body line of a plain graph reads back as the matching token. */
  lemma {:induction false} ReadBodyLines(ns: seq<Node>)
    requires Plain(ns)
    ensures |Body(ns)| == |Tokens(ns)|
    ensures forall i :: 0 <= i < |Body(ns)| ==> ReadLine(Body(ns)[i]) == Some(Tokens(ns)[i])
    decreases |ns|
  {
    if ns != [] {
      assert Plain(ns[1..]);
      ReadBodyLines(ns[1..]);
      ReadNodeLines(ns[0]);
      var a, b := NodeLines(ns[0]), Body(ns[1..]);
      var ta, tb := NodeTokens(ns[0]), Tokens(ns[1..]);
      forall i | 0 <= i < |Body(ns)| ensures ReadLine(Body(ns)[i]) == Some(Tokens(ns)[i]) {
        if i < |a| {
          assert Body(ns)[i] == a[i] && Tokens(ns)[i] == ta[i];
        } else {
          assert Body(ns)[i] == b[i - |a|] && Tokens(ns)[i] == tb[i - |a|];
        }
      }
    }
  }

  lemma {:induction false} ReadLinesOf(lines: seq<string>, ts: seq<Line>)
    requires |lines| == |ts|
    requires forall i :: 0 <= i < |lines| ==> ReadLine(lines[i]) == Some(ts[i])
    ensures ReadLines(lines) == Some(ts)
  {
    var r := ReadLines(lines).value;
    assert |r| == |ts|;
    forall i | 0 <= i < |r| ensures r[i] == ts[i] {
      assert r[i] == ReadLine(lines[i]).value;
    }
    assert r == ts;
  }

  /** The tokens of a non-empty edge list, followed by tokens that group into
      nodes not starting with the same name, group into that node in front. */
  lemma {:induction false} GroupEdgeRun(n: string, es: seq<Edge>, tail: seq<Line>)
    requires es != []
    requires Group(tail) == [] || Group(tail)[0].name != n
    ensures Group(NodeTokens(Node(n, es)) + tail) == [Node(n, es)] + Group(tail)
    decreases |es|
  {
    var ts := NodeTokens(Node(n, es)) + tail;
    assert ts[0] == Arrow(n, es[0]);
    if |es| == 1 {
      assert ts[1..] == tail;
      assert es == [es[0]];
    } else {
      var es' := es[1..];
      assert ts[1..] == NodeTokens(Node(n, es')) + tail;
      GroupEdgeRun(n, es', tail);
      assert [es[0]] + es' == es;
    }
  }

  /** The tokens of a graph group back into the graph. */
  lemma {:induction false} GroupTokens(ns: seq<Node>)
    requires DistinctKeys(ns)
    ensures Group(Tokens(ns)) == ns
    decreases |ns|
  {
    if ns != [] {
      var n, rest := ns[0], ns[1..];
      assert DistinctKeys(rest);
      GroupTokens(rest);
      assert rest == [] || rest[0].name != n.name;
      if n.edges == [] {
        assert Tokens(ns) == [Declared(n.name)] + Tokens(rest);
        assert Tokens(ns)[1..] == Tokens(rest);
      } else {
        GroupEdgeRun(n.name, n.edges, Tokens(rest));
      }
      assert [n] + rest == ns;
    }
  }

  /** When no state name holds a space and no event name holds a `|`, the
      strings passed to `puts` determine the diagram type and the graph:
      reading them back gives both, so distinct graphs give distinct
      sequences of strings. */
  lemma {:induction false} ReadBack(g: Graph, diagramType: string)
    requires Plain(g)
    ensures Read(Render(g, diagramType)) == Some((diagramType, g))
  {
    ReadHeaderOf(diagramType);
    ReadBodyLines(g);
    ReadLinesOf(Body(g), Tokens(g));
    GroupTokens(g);
    assert Render(g, diagramType)[1..] == Body(g);
  }

  /** Without escaping, a state whose name looks like an edge is written
      exactly like a different graph's edge. */
  lemma {:induction false} NoEscaping()
    ensures Render([Node("a -->|b|c", [])], "LR") == Render([Node("a", [Edge("c", "b")])], "LR")
  {
    assert BareLine("a -->|b|c") == "    a -->|b|c;";
    assert EdgeLine("a", Edge("c", "b")) == "    a -->|b|c;";
    assert [Node("a -->|b|c", [])][1..] == [];
    assert [Node("a", [Edge("c", "b")])][1..] == [];
    assert EdgeLines("a", [Edge("c", "b")]) == [EdgeLine("a", Edge("c", "b"))];
  }
}
