# aasm-diagram in Dafny

A model of `AASMDiagram::Diagram`, which turns an AASM state machine into
Mermaid flowchart text in two pure phases:

1. **Graph construction** (`draw`, `draw_nodes`, `draw_edges`). The graph is
   `@graph`, a Ruby Hash whose insertion order matters. It maps each state
   name to the ordered list of `{ edge: to, label: event }` records that leave
   that state. Every declared state first gets an empty list. Then one record
   is appended per transition, in event order and then transition order.
2. **Rendering** (the body of `save`). The output is a header line. Then each
   Hash entry, in key order, writes either one bare declaration line (when it
   has no edges) or one `-->|label|` line per edge.

The Dafny modules follow those phases:

- `Graphs` (graphs.dfy): the Hash as an association list `seq<Node>`. The
  subset type `Graph` keeps its keys distinct. It also holds `Hash#[]`
  (`Find`), `Hash#[]=` (`Store`) and `@graph[k] << e` (`Push`).
  `Push` fails with `NilReceiver(k)` when `k` is missing: that is Ruby's
  `NoMethodError` on `nil`.
- `Builder` (builder.dfy): `DrawNodes`, `DrawTransitions`/`DrawEdges` (the two
  nested loops of `draw_edges`) and `Draw`. States are given as their names
  and events as plain data. A transition's `from` is `Option<string>`, with
  `None` for Ruby's `nil`. `ToS` is Ruby's `to_s`, so `nil` becomes `""`.
- `Renderer` (renderer.dfy): `Render(g, type)` returns exactly the strings that
  `save` passes to `f.puts`, in order.
- `Diagram` (diagram.dfy): the two phases composed (`Generate`) and the
  end-to-end line accounting.
- `Reader` (reader.dfy): an inverse of `Render`. It shows the strings passed
  to `puts` determine the type and the whole graph when no state name
  contains a space and no event name contains `|`. It also shows that,
  without escaping, two different graphs give the same strings.

Three points about the code that a reader of the output may not expect:

- The guard `unless from.nil?` tests `transition.from.to_s`, which is never
  `nil`. A transition without a source is therefore pushed under the key
  `""`, and the build raises `NoMethodError` unless a state is named `""`
  (`NilSourceIsNotSkipped`). See "## Findings".
- Every line after the header is indented by four spaces, and every line,
  the header included, ends with `;`. The model writes exactly these strings.
- Edge targets are never checked against the states: a transition to an
  undeclared state still draws, and its target creates no key.

## Model

| member | source | states |
|---|---|---|
| Graphs.Find | lib/aasm_diagram/diagram.rb:28 | `@graph[k]` finds nothing exactly when `k` is not a key; otherwise it finds the one entry whose key is `k` |
| Graphs.Store | lib/aasm_diagram/diagram.rb:18 | `@graph[k] = v`: a present key keeps its position and the key sequence is unchanged, while a new key is appended last; the entry for `k` holds `v` and every other entry is unchanged |
| Graphs.Push | lib/aasm_diagram/diagram.rb:28 | `@graph[k] << e` fails with `NoMethodError` on `nil` exactly when `k` is not a key; otherwise the keys are unchanged, `k`'s list gains `e` at its end, and every other list is unchanged |
| Builder.ToS | lib/aasm_diagram/diagram.rb:25 | `to_s` keeps a state name as it is and turns `nil` into `""`, so the result is `""` exactly for `nil` and for the name `""` |
| Builder.DrawNodes | lib/aasm_diagram/diagram.rb:16-20 | The keys are exactly the state names, distinct and ordered by first occurrence, so a repeated name keeps its first position; every list is empty |
| Builder.AppendAllSpec | lib/aasm_diagram/diagram.rb:28 | A sequence of `<<` succeeds exactly when every source is a key. It then keeps the keys and their order and extends each list by exactly the edges sent to it, in order. Otherwise it fails at the first undeclared source |
| Builder.DrawTransitions | lib/aasm_diagram/diagram.rb:24-29 | The inner loop over one event's transitions performs exactly one `<<` per transition, of the record `{ from.to_s, edge: to, label: event name }`, in transition order, and stops at the first failing one |
| Builder.DrawEdges | lib/aasm_diagram/diagram.rb:22-31 | The two nested loops of `draw_edges` perform exactly one `<<` per transition, in event order and then transition order |
| Builder.RecordsAt | lib/aasm_diagram/diagram.rb:23-28 | Transition `j` of event `i` gives the record `{ from.to_s, edge: to, label: event name }` at the position after all earlier events' transitions and event `i`'s earlier transitions; the record count is the transition count |
| Builder.DrawEdgesSpec | lib/aasm_diagram/diagram.rb:22-31 | `draw_edges` succeeds exactly when every stringified source is a key. It then adds, removes and reorders no key, and appends to each list exactly the records whose source it is, in order, with duplicates and self-loops kept. Otherwise it fails naming the first undeclared source |
| Builder.Draw | lib/aasm_diagram/diagram.rb:10-31 | `draw` succeeds exactly when every transition's stringified source is a state name. Its keys are those of `draw_nodes`, so edge targets never create keys and need not be states. Each state's list is exactly its records in order. Otherwise the failure names the first source that is not a state |
| Builder.DrawSucceedsIff | lib/aasm_diagram/diagram.rb:25-28 | `draw` succeeds exactly when the stringified source of every transition of every event is a declared state name |
| Builder.NilSourceIsNotSkipped | lib/aasm_diagram/diagram.rb:25-28 | A transition without a source is not skipped: when no state is named `""`, `draw` fails |
| Builder.NilSourceExample | lib/aasm_diagram/diagram.rb:25-28 | For one state `a` and an event `reset` whose only transition has no source, the code as written fails with `NoMethodError` on the key `""`; the corrected build gives `a` with no edges |
| Builder.DrawSkippingNil | lib/aasm_diagram/diagram.rb:28 | The corrected build equals the as-written build on the machine with its source-less transitions removed. It succeeds exactly when every transition that has a source starts at a declared state |
| Renderer.Render | lib/aasm_diagram/diagram.rb:35-47 | The first string passed to `puts` is `flowchart <type>;` and there are 1 + the sum over nodes of max(1, number of edges) of them |
| Renderer.RenderBlock | lib/aasm_diagram/diagram.rb:36-46 | Node `i`'s lines start right after the header and all earlier nodes' lines, and end where node `i + 1`'s lines begin. A node without edges writes only `    <name>;`. A node with k > 0 edges writes exactly k edge lines (name, arrow, label between vertical bars, target, `;`), in list order, and no bare line |
| Renderer.BodyLines | lib/aasm_diagram/diagram.rb:36-46 | After the header, the lines are exactly the edge lines of all edges plus one bare declaration per node without edges, and nothing else |
| Diagram.Generate | lib/aasm_diagram/diagram.rb:10-47 | Drawing and saving give output exactly when every transition's stringified source is a state name, and the output then starts with `flowchart <type>;`; otherwise the failure names a source that is not a state |
| Diagram.GenerateLines | lib/aasm_diagram/diagram.rb:22-47 | When the machine draws, the output is the header followed by exactly one edge line per transition, with duplicates and self-loops included. It also holds exactly one bare line per declared state that no transition leaves, and nothing else |
| Diagram.SleepingRunningExample | lib/aasm_diagram/diagram.rb:10-47 | States `sleeping`, `running` and event `run` from `sleeping` to `running`, with type `LR`, write `flowchart LR;`, then the edge line from `sleeping` labelled `run` to `running`, then `    running;` |
| Reader.ReadBack | lib/aasm_diagram/diagram.rb:35-46 | When no state name holds a space and no event name holds a vertical bar, reading back the strings passed to `puts` gives the diagram type and the graph, so different graphs give different sequences of strings |
| Reader.NoEscaping | lib/aasm_diagram/diagram.rb:38-45 | Names are written verbatim: a state without edges whose name spells out an edge line gives exactly the strings of a state `a` with an edge labelled `b` to `c` |

## Left out

- Writing the file (`File.open`, `f.puts`, diagram.rb:34). The lines are returned as a `seq<string>`. The newline each `puts` adds is not part of them.
- Reader.ReadBack: it is about the sequence of strings, not the file text. A name containing a line terminator can make two different sequences of strings write the same file, so the file text does not determine the graph even under the stated condition.
- The constructor (diagram.rb:3-8), which draws and saves at once and defaults the type to the symbol `:LR`. The type is a plain string here, and `Generate` composes the two phases.
- `states`, `state_names` and `events` (diagram.rb:53-63) call into the AASM library. The model takes state names and events as plain sequences. The real `events` lookup goes through the first event's state machine, so it fails for a machine with no events; that failure is not modelled.
- Ruby `to_s` on symbols. Names are strings already, and only `nil.to_s == ""` is modelled (`ToS`).
- Idempotence of rendering needs no lemma: `Render` is a pure function of the graph and the type.

## Findings

| source | as written | input that shows it | evidently intended | confidence | as-written member | corrected member |
|---|---|---|---|---|---|---|
| lib/aasm_diagram/diagram.rb:25-28 | `unless from.nil?` tests the stringified source `transition.from.to_s`, which is never `nil`, so a transition without a source is pushed under `""` and `@graph[""] << …` raises `NoMethodError` | states `[a]`, event `reset` with one transition whose `from` is `nil` and whose `to` is `a` | a transition without a source is skipped: it adds no edge and causes no failure | high; not executed | Builder.NilSourceIsNotSkipped | Builder.DrawSkippingNil |

`Renderer`, `Reader` and the line accounting in `Renderer.BodyLines` take any
graph, so they apply to the corrected build as well. `Diagram.Generate` and
`Diagram.GenerateLines` describe what the code as written produces.
