/**
  Graph construction: `draw`, `draw_nodes` and `draw_edges` of
  `AASMDiagram::Diagram`. The state machine is given as plain data: the state
  names in declaration order and the events, each with its transitions, in
  the order the machine enumerates them.
 */
module Builder {
  import opened Graphs

  /** A transition of an event; `from` is `None` where AASM has `nil`, which it
      does for a transition declared without a source state. */
  datatype Transition = Transition(from: Option<string>, to: string)

  datatype Event = Event(name: string, transitions: seq<Transition>)

  /** Ruby's `to_s` on a state name: a name stays itself and `nil.to_s` is
      the empty string, so `nil` and a state named `""` stringify alike. */
  function ToS(name: Option<string>): (r: string)
    ensures name.Some? ==> r == name.value
    ensures r == "" <==> name == None || name == Some("")
  {
    match name
    case None => ""
    case Some(s) => s
  }

  /** The position of the first occurrence of `k` in `s`. */
  function FirstIndex(s: seq<string>, k: string): (r: nat)
    requires k in s
    ensures r < |s| && s[r] == k
    ensures forall j :: 0 <= j < r ==> s[j] != k
  {
    if s[0] == k then 0 else 1 + FirstIndex(s[1..], k)
  }

  lemma {:induction false} FirstIndexOfExtension(p: seq<string>, x: string)
    ensures forall k :: k in p ==> FirstIndex(p + [x], k) == FirstIndex(p, k)
    ensures x !in p ==> FirstIndex(p + [x], x) == |p|
  {
    forall k | k in p
      ensures FirstIndex(p + [x], k) == FirstIndex(p, k)
    {
      assert (p + [x])[FirstIndex(p, k)] == k;
    }
  }

  /** `draw_nodes`: `@graph[name.to_s] = []` for every state name, in order,
      starting from the empty Hash that `draw` sets up. */
  function DrawNodes(names: seq<string>): (g: Graph)
    ensures forall i :: 0 <= i < |g| ==> g[i].edges == []
    ensures forall i :: 0 <= i < |g| ==> g[i].name in names
    ensures forall i :: 0 <= i < |names| ==> names[i] in Keys(g)
    ensures forall i, j :: 0 <= i < j < |g| ==>
              FirstIndex(names, g[i].name) < FirstIndex(names, g[j].name)
  {
    if names == [] then []
    else
      var p, x := names[..|names| - 1], names[|names| - 1];
      assert names == p + [x];
      var prev := DrawNodes(p);
      DrawNodesStep(p, x, prev);
      Store(prev, x, [])
  }

  /** One step of `draw_nodes` keeps its contract. */
  lemma {:induction false} DrawNodesStep(p: seq<string>, x: string, prev: Graph)
    requires forall i :: 0 <= i < |prev| ==> prev[i].edges == []
    requires forall i :: 0 <= i < |prev| ==> prev[i].name in p
    requires forall i :: 0 <= i < |p| ==> p[i] in Keys(prev)
    requires forall i, j :: 0 <= i < j < |prev| ==> FirstIndex(p, prev[i].name) < FirstIndex(p, prev[j].name)
    ensures var g, names := Store(prev, x, []), p + [x];
            && (forall i :: 0 <= i < |g| ==> g[i].edges == [])
            && (forall i :: 0 <= i < |g| ==> g[i].name in names)
            && (forall i :: 0 <= i < |names| ==> names[i] in Keys(g))
            && (forall i, j :: 0 <= i < j < |g| ==> FirstIndex(names, g[i].name) < FirstIndex(names, g[j].name))
  {
    FirstIndexOfExtension(p, x);
    if x in Keys(prev) {
      StoreExisting(p, x, prev);
    } else {
      StoreNew(p, x, prev);
    }
  }

  /** Storing a name already present changes no key and no position. */
  lemma {:induction false} StoreExisting(p: seq<string>, x: string, prev: Graph)
    requires x in Keys(prev)
    requires forall i :: 0 <= i < |prev| ==> prev[i].edges == []
    requires forall i :: 0 <= i < |prev| ==> prev[i].name in p
    requires forall i :: 0 <= i < |p| ==> p[i] in Keys(prev)
    requires forall i, j :: 0 <= i < j < |prev| ==> FirstIndex(p, prev[i].name) < FirstIndex(p, prev[j].name)
    requires forall k :: k in p ==> FirstIndex(p + [x], k) == FirstIndex(p, k)
    ensures var g, names := Store(prev, x, []), p + [x];
            && (forall i :: 0 <= i < |g| ==> g[i].edges == [])
            && (forall i :: 0 <= i < |g| ==> g[i].name in names)
            && (forall i :: 0 <= i < |names| ==> names[i] in Keys(g))
            && (forall i, j :: 0 <= i < j < |g| ==> FirstIndex(names, g[i].name) < FirstIndex(names, g[j].name))
  {
    var g, names := Store(prev, x, []), p + [x];
    assert Keys(g) == Keys(prev);
    assert |g| == |prev|;
    forall i | 0 <= i < |g| ensures g[i].name == prev[i].name && g[i].edges == [] {
      assert Keys(g)[i] == Keys(prev)[i];
    }
    forall i | 0 <= i < |names| ensures names[i] in Keys(g) {
      if i < |p| { assert names[i] == p[i]; }
    }
  }

  /** Storing a new name appends it after every earlier key. */
  lemma {:induction false} StoreNew(p: seq<string>, x: string, prev: Graph)
    requires x !in Keys(prev)
    requires forall i :: 0 <= i < |prev| ==> prev[i].edges == []
    requires forall i :: 0 <= i < |prev| ==> prev[i].name in p
    requires forall i :: 0 <= i < |p| ==> p[i] in Keys(prev)
    requires forall i, j :: 0 <= i < j < |prev| ==> FirstIndex(p, prev[i].name) < FirstIndex(p, prev[j].name)
    requires forall k :: k in p ==> FirstIndex(p + [x], k) == FirstIndex(p, k)
    ensures var g, names := Store(prev, x, []), p + [x];
            && (forall i :: 0 <= i < |g| ==> g[i].edges == [])
            && (forall i :: 0 <= i < |g| ==> g[i].name in names)
            && (forall i :: 0 <= i < |names| ==> names[i] in Keys(g))
            && (forall i, j :: 0 <= i < j < |g| ==> FirstIndex(names, g[i].name) < FirstIndex(names, g[j].name))
  {
    assert Store(prev, x, []) == prev + [Node(x, [])];
    AppendNode(p, x, prev);
    StoreNewOrder(p, x, prev);
  }

  /** Appending a fresh empty entry keeps every list empty and covers the new name. */
  lemma {:induction false} AppendNode(p: seq<string>, x: string, prev: Graph)
    requires forall i :: 0 <= i < |prev| ==> prev[i].edges == []
    requires forall i :: 0 <= i < |prev| ==> prev[i].name in p
    requires forall i :: 0 <= i < |p| ==> p[i] in Keys(prev)
    ensures var g, names := prev + [Node(x, [])], p + [x];
            && (forall i :: 0 <= i < |g| ==> g[i].edges == [])
            && (forall i :: 0 <= i < |g| ==> g[i].name in names)
            && (forall i :: 0 <= i < |names| ==> names[i] in Keys(g))
  {
    var g, names := prev + [Node(x, [])], p + [x];
    assert Keys(g) == Keys(prev) + [x];
    forall i | 0 <= i < |names| ensures names[i] in Keys(g) {
      if i < |p| { assert names[i] == p[i]; }
    }
  }

  /** A new name comes after every earlier one in first-occurrence order. */
  lemma {:induction false} StoreNewOrder(p: seq<string>, x: string, prev: Graph)
    requires x !in Keys(prev)
    requires forall i :: 0 <= i < |p| ==> p[i] in Keys(prev)
    requires forall i :: 0 <= i < |prev| ==> prev[i].name in p
    requires forall i, j :: 0 <= i < j < |prev| ==> FirstIndex(p, prev[i].name) < FirstIndex(p, prev[j].name)
    requires forall k :: k in p ==> FirstIndex(p + [x], k) == FirstIndex(p, k)
    ensures var g, names := prev + [Node(x, [])], p + [x];
            forall i, j :: 0 <= i < j < |g| ==> FirstIndex(names, g[i].name) < FirstIndex(names, g[j].name)
  {
    var g, names := prev + [Node(x, [])], p + [x];
    assert x !in p;
    FirstIndexOfExtension(p, x);
    forall i, j | 0 <= i < j < |g|
      ensures FirstIndex(names, g[i].name) < FirstIndex(names, g[j].name)
    {
      assert g[i] == prev[i];
      assert prev[i].name in p;
      if j == |prev| {
        assert g[j].name == x;
      } else {
        assert g[j] == prev[j];
        assert prev[j].name in p;
      }
    }
  }

  /** One `<<` that `draw_edges` performs: the key it is sent to and the
      record it appends. */
  datatype Record = Record(from: string, edge: Edge)

  /** The record that transition `t` of the event named `event` produces:
      `@graph[from.to_s] << { edge: to, label: event }`. */
  function RecordOf(event: string, t: Transition): Record {
    Record(ToS(t.from), Edge(t.to, event))
  }

  /** The records one event's transitions produce, in transition order. */
  function TransitionRecords(event: string, ts: seq<Transition>): seq<Record> {
    seq(|ts|, i requires 0 <= i < |ts| => RecordOf(event, ts[i]))
  }

  /** The records of all events, in event order and then transition order. */
  function Records(events: seq<Event>): seq<Record> {
    if events == [] then []
    else TransitionRecords(events[0].name, events[0].transitions) + Records(events[1..])
  }

  /** Sends the records to the graph one `<<` at a time, stopping at the first failure. */
  function AppendAll(g: Graph, rs: seq<Record>): Result<Graph>
    decreases |rs|
  {
    if rs == [] then Ok(g)
    else match Push(g, rs[0].from, rs[0].edge)
      case Err(err) => Err(err)
      case Ok(g') => AppendAll(g', rs[1..])
  }

  /** The inner loop of `draw_edges`, over the transitions of one event. The
      source's `unless from.nil?` tests the already stringified source, which
      is never `nil`, so every transition is pushed: the loop is exactly the
      pushes of the event's records, in transition order. */
  function DrawTransitions(g: Graph, event: string, ts: seq<Transition>): (r: Result<Graph>)
    ensures r == AppendAll(g, TransitionRecords(event, ts))
    decreases |ts|
  {
    if ts == [] then Ok(g)
    else
      assert TransitionRecords(event, ts)[1..] == TransitionRecords(event, ts[1..]);
      match Push(g, ToS(ts[0].from), Edge(ts[0].to, event))
      case Err(err) => Err(err)
      case Ok(g') => DrawTransitions(g', event, ts[1..])
  }

  /** `draw_edges`: the outer loop, over the events. The two nested loops
      perform exactly the pushes of `Records`, in that order. */
  function DrawEdges(g: Graph, events: seq<Event>): (r: Result<Graph>)
    ensures r == AppendAll(g, Records(events))
    decreases |events|
  {
    if events == [] then Ok(g)
    else
      var e := events[0];
      AppendAllConcat(g, TransitionRecords(e.name, e.transitions), Records(events[1..]));
      match DrawTransitions(g, e.name, e.transitions)
      case Err(err) => Err(err)
      case Ok(g') => DrawEdges(g', events[1..])
  }

  /** `draw`: a fresh Hash, then the nodes, then the edges. It succeeds
      exactly when every transition's stringified source is a declared state.
      The keys are those `draw_nodes` made (edge targets add none), and each
      state's list holds exactly the records whose source it is, in order.
      Otherwise the failure names the first transition source that is not a
      state. */
  function Draw(states: seq<string>, events: seq<Event>): (r: Result<Graph>)
    ensures var rs := Records(events);
            r.Ok? <==> forall i :: 0 <= i < |rs| ==> rs[i].from in states
    ensures r.Ok? ==> Keys(r.value) == Keys(DrawNodes(states))
    ensures var rs := Records(events);
            r.Ok? ==> forall i :: 0 <= i < |r.value| ==> r.value[i].edges == EdgesFrom(rs, r.value[i].name)
    ensures var rs := Records(events);
            r.Err? ==> exists m :: 0 <= m < |rs| && rs[m].from !in states
                                   && (forall j :: 0 <= j < m ==> rs[j].from in states)
                                   && r.error == NilReceiver(rs[m].from)
  {
    var g := DrawNodes(states);
    DrawEdgesSpec(g, events);
    KeysOfDrawNodes(states);
    DrawOutcome(g, states, Records(events), DrawEdges(g, events));
    DrawEdges(g, events)
  }

  // ---------------------------------------------------------------------
  // What the records are, and what appending them does

  /** Every record's source is already a key. */
  predicate AllDeclared(ns: seq<Node>, rs: seq<Record>) {
    forall i :: 0 <= i < |rs| ==> rs[i].from in Keys(ns)
  }

  /** The edges among `rs` whose source is `k`, in order. */
  function EdgesFrom(rs: seq<Record>, k: string): seq<Edge> {
    if rs == [] then []
    else (if rs[0].from == k then [rs[0].edge] else []) + EdgesFrom(rs[1..], k)
  }

  /** `r` is `g` with each record's edge appended under its source: the same
      keys in the same order, each list extended by exactly its own edges. */
  ghost predicate Extends(g: seq<Node>, rs: seq<Record>, r: seq<Node>) {
    && Keys(r) == Keys(g)
    && forall i :: 0 <= i < |g| ==> r[i].edges == g[i].edges + EdgesFrom(rs, g[i].name)
  }

  /** `err` is the failure of the first record whose source is not a key. */
  ghost predicate FailsAt(g: seq<Node>, rs: seq<Record>, err: Error) {
    exists m :: 0 <= m < |rs| && rs[m].from !in Keys(g) && AllDeclared(g, rs[..m])
                && err == NilReceiver(rs[m].from)
  }

  lemma {:induction false} AllDeclaredCons(ns: seq<Node>, rs: seq<Record>)
    requires rs != []
    ensures AllDeclared(ns, rs) <==> rs[0].from in Keys(ns) && AllDeclared(ns, rs[1..])
  {
    if rs[0].from in Keys(ns) && AllDeclared(ns, rs[1..]) {
      forall i | 0 <= i < |rs| ensures rs[i].from in Keys(ns) {
        if i > 0 { assert rs[i] == rs[1..][i - 1]; }
      }
    }
  }

  /** A successful first push followed by the rest is an extension by all records. */
  lemma {:induction false} ExtendsCons(g: Graph, g1: Graph, rs: seq<Record>, r: seq<Node>)
    requires rs != [] && Push(g, rs[0].from, rs[0].edge) == Ok(g1)
    requires Extends(g1, rs[1..], r)
    ensures Extends(g, rs, r)
  {
    assert Keys(g1) == Keys(g);
    assert |g1| == |g| by { assert |Keys(g1)| == |Keys(g)|; }
    forall i | 0 <= i < |g|
      ensures r[i].edges == g[i].edges + EdgesFrom(rs, g[i].name)
    {
      assert g1[i].name == Keys(g1)[i] == Keys(g)[i] == g[i].name;
      assert r[i].edges == g1[i].edges + EdgesFrom(rs[1..], g[i].name);
      assert g1[i].edges == g[i].edges + (if g[i].name == rs[0].from then [rs[0].edge] else []);
    }
  }

  /** A failure in the rest, after a successful first push, is a failure at a later record. */
  lemma {:induction false} FailsAtCons(g: Graph, g1: Graph, rs: seq<Record>, err: Error)
    requires rs != [] && Push(g, rs[0].from, rs[0].edge) == Ok(g1)
    requires FailsAt(g1, rs[1..], err)
    ensures FailsAt(g, rs, err)
  {
    var rest := rs[1..];
    assert Keys(g1) == Keys(g);
    var m :| 0 <= m < |rest| && rest[m].from !in Keys(g1) && AllDeclared(g1, rest[..m])
             && err == NilReceiver(rest[m].from);
    assert rs[m + 1] == rest[m];
    var pre := rs[..m + 1];
    AllDeclaredCons(g, pre);
    assert pre[1..] == rest[..m];
  }

  /** Appending records succeeds exactly when every source is a key; it then
      extends each list by exactly its own edges in record order and touches
      no key, and otherwise it fails at the first undeclared source. */
  lemma {:induction false} AppendAllSpec(g: Graph, rs: seq<Record>)
    ensures AppendAll(g, rs).Ok? <==> AllDeclared(g, rs)
    ensures AppendAll(g, rs).Ok? ==> Extends(g, rs, AppendAll(g, rs).value)
    ensures AppendAll(g, rs).Err? ==> FailsAt(g, rs, AppendAll(g, rs).error)
    decreases |rs|
  {
    if rs == [] {
      assert forall i :: 0 <= i < |g| ==> g[i].edges + EdgesFrom(rs, g[i].name) == g[i].edges;
    } else {
      AllDeclaredCons(g, rs);
      match Push(g, rs[0].from, rs[0].edge)
      case Err(err) =>
        assert rs[..0] == [];
      case Ok(g1) =>
        AppendAllSpec(g1, rs[1..]);
        assert Keys(g1) == Keys(g);
        var r := AppendAll(g1, rs[1..]);
        if r.Ok? {
          ExtendsCons(g, g1, rs, r.value);
        } else {
          FailsAtCons(g, g1, rs, r.error);
        }
    }
  }

  /** Appending `a + b` is appending `a` and then, if that succeeded, `b`. */
  lemma {:induction false} AppendAllConcat(g: Graph, a: seq<Record>, b: seq<Record>)
    ensures AppendAll(g, a + b) == match AppendAll(g, a)
                                   case Err(err) => Err(err)
                                   case Ok(g1) => AppendAll(g1, b)
    decreases |a|
  {
    if a == [] {
      assert a + b == b;
    } else {
      assert (a + b)[0] == a[0];
      assert (a + b)[1..] == a[1..] + b;
      match Push(g, a[0].from, a[0].edge)
      case Err(_) =>
      case Ok(g1) => AppendAllConcat(g1, a[1..], b);
    }
  }

  /** `draw_edges` succeeds exactly when every transition's stringified
      source is a key; it then only extends the lists, by exactly one record
      per transition in event-then-transition order, with no deduplication;
      otherwise it fails on the first undeclared source. */
  lemma {:induction false} DrawEdgesSpec(g: Graph, events: seq<Event>)
    ensures DrawEdges(g, events).Ok? <==> AllDeclared(g, Records(events))
    ensures DrawEdges(g, events).Ok? ==> Extends(g, Records(events), DrawEdges(g, events).value)
    ensures DrawEdges(g, events).Err? ==> FailsAt(g, Records(events), DrawEdges(g, events).error)
  {
    AppendAllSpec(g, Records(events));
  }

  /** What the outcome of `draw_edges` on the fresh nodes means in terms of
      the state names. */
  lemma {:induction false} DrawOutcome(g: Graph, states: seq<string>, rs: seq<Record>, r: Result<Graph>)
    requires forall k :: k in Keys(g) <==> k in states
    requires forall i :: 0 <= i < |g| ==> g[i].edges == []
    requires r.Ok? <==> AllDeclared(g, rs)
    requires r.Ok? ==> Extends(g, rs, r.value)
    requires r.Err? ==> FailsAt(g, rs, r.error)
    ensures r.Ok? <==> forall i :: 0 <= i < |rs| ==> rs[i].from in states
    ensures r.Ok? ==> Keys(r.value) == Keys(g)
    ensures r.Ok? ==> forall i :: 0 <= i < |r.value| ==> r.value[i].edges == EdgesFrom(rs, r.value[i].name)
    ensures r.Err? ==> exists m :: 0 <= m < |rs| && rs[m].from !in states
                                   && (forall j :: 0 <= j < m ==> rs[j].from in states)
                                   && r.error == NilReceiver(rs[m].from)
  {
    if r.Ok? {
      ExtendsEmpty(g, rs, r.value);
    } else {
      FailsAtStates(g, states, rs, r.error);
    }
  }

  /** The keys `draw_nodes` makes are exactly the state names. */
  lemma {:induction false} KeysOfDrawNodes(states: seq<string>)
    ensures forall k :: k in Keys(DrawNodes(states)) <==> k in states
  {
    var g := DrawNodes(states);
    forall k | k in Keys(g) ensures k in states {
      var i :| 0 <= i < |g| && Keys(g)[i] == k;
    }
  }

  lemma {:induction false} ExtendsEmpty(g: Graph, rs: seq<Record>, r: seq<Node>)
    requires forall i :: 0 <= i < |g| ==> g[i].edges == []
    requires Extends(g, rs, r)
    ensures forall i :: 0 <= i < |r| ==> r[i].edges == EdgesFrom(rs, r[i].name)
  {
    assert |r| == |g| by { assert |Keys(r)| == |Keys(g)|; }
    forall i | 0 <= i < |r| ensures r[i].edges == EdgesFrom(rs, r[i].name) {
      assert r[i].name == Keys(r)[i] == Keys(g)[i] == g[i].name;
    }
  }

  lemma {:induction false} FailsAtStates(g: Graph, states: seq<string>, rs: seq<Record>, err: Error)
    requires forall k :: k in Keys(g) <==> k in states
    requires FailsAt(g, rs, err)
    ensures exists m :: 0 <= m < |rs| && rs[m].from !in states
                        && (forall j :: 0 <= j < m ==> rs[j].from in states)
                        && err == NilReceiver(rs[m].from)
  {
    var m :| 0 <= m < |rs| && rs[m].from !in Keys(g) && AllDeclared(g, rs[..m])
             && err == NilReceiver(rs[m].from);
    forall j | 0 <= j < m ensures rs[j].from in states {
      assert rs[..m][j] == rs[j];
    }
  }

  // ---------------------------------------------------------------------
  // Records in terms of the events and transitions they come from

  /** The number of transitions over all events. */
  function TransitionCount(events: seq<Event>): nat {
    if events == [] then 0 else |events[0].transitions| + TransitionCount(events[1..])
  }

  /** Exactly one record per transition: the records of transition `j` of
      event `i` sits after those of all earlier events and earlier transitions. */
  lemma {:induction false} RecordsAt(events: seq<Event>, i: nat, j: nat)
    requires i < |events| && j < |events[i].transitions|
    ensures |Records(events)| == TransitionCount(events)
    ensures TransitionCount(events[..i]) + j < |Records(events)|
    ensures Records(events)[TransitionCount(events[..i]) + j]
            == RecordOf(events[i].name, events[i].transitions[j])
    decreases i
  {
    RecordsLength(events);
    var rest := events[1..];
    if i == 0 {
      assert events[..0] == [];
    } else {
      RecordsAt(rest, i - 1, j);
      assert events[..i][1..] == rest[..i - 1];
      assert events[..i][0] == events[0];
    }
  }

  lemma {:induction false} RecordsLength(events: seq<Event>)
    ensures |Records(events)| == TransitionCount(events)
  {
    if events != [] {
      RecordsLength(events[1..]);
    }
  }

  /** Every record comes from some transition of some event. */
  lemma {:induction false} RecordOrigin(events: seq<Event>, k: nat) returns (i: nat, j: nat)
    requires k < |Records(events)|
    ensures i < |events| && j < |events[i].transitions|
    ensures Records(events)[k] == RecordOf(events[i].name, events[i].transitions[j])
    decreases |events|
  {
    var n := |events[0].transitions|;
    if k < n {
      i, j := 0, k;
    } else {
      var i', j' := RecordOrigin(events[1..], k - n);
      i, j := i' + 1, j';
    }
  }

  /** `draw` succeeds exactly when the stringified source of every transition
      of every event is a declared state name. */
  lemma {:induction false} DrawSucceedsIff(states: seq<string>, events: seq<Event>)
    ensures Draw(states, events).Ok? <==>
            forall i, j :: 0 <= i < |events| && 0 <= j < |events[i].transitions| ==>
              ToS(events[i].transitions[j].from) in states
  {
    var rs := Records(events);
    if forall i, j :: 0 <= i < |events| && 0 <= j < |events[i].transitions| ==>
         ToS(events[i].transitions[j].from) in states
    {
      forall k | 0 <= k < |rs| ensures rs[k].from in states {
        var i, j := RecordOrigin(events, k);
      }
    }
    if Draw(states, events).Ok? {
      forall i, j | 0 <= i < |events| && 0 <= j < |events[i].transitions|
        ensures ToS(events[i].transitions[j].from) in states
      {
        RecordsAt(events, i, j);
      }
    }
  }

  /** As written, a transition declared without a source is not skipped: its
      source stringifies to the empty name, so unless some state is named
      that, the build fails with `NoMethodError` on `nil`. */
  lemma {:induction false} NilSourceIsNotSkipped(states: seq<string>, events: seq<Event>, i: nat, j: nat)
    requires i < |events| && j < |events[i].transitions|
    requires events[i].transitions[j].from.None?
    requires "" !in states
    ensures Draw(states, events).Err?
  {
    DrawSucceedsIff(states, events);
  }

  /** The smallest machine that shows it: one state, one event whose one
      transition has no source. */
  lemma {:induction false} NilSourceExample()
    ensures Draw(["a"], [Event("reset", [Transition(None, "a")])]) == Err(NilReceiver(""))
    ensures DrawSkippingNil(["a"], [Event("reset", [Transition(None, "a")])]) == Ok([Node("a", [])])
  {
    assert ["a"][..0] == [];
    assert DrawNodes(["a"]) == [Node("a", [])];
    assert Find([Node("a", [])], "") == None;
    assert Sourced([Transition(None, "a")]) == [];
  }

  // ---------------------------------------------------------------------
  // The evidently intended behaviour: skip transitions without a source

  /** The transitions of `ts` that have a source, in order. */
  function Sourced(ts: seq<Transition>): (r: seq<Transition>)
    ensures forall t :: t in r <==> t in ts && t.from.Some?
  {
    if ts == [] then []
    else (if ts[0].from.Some? then [ts[0]] else []) + Sourced(ts[1..])
  }

  /** Every event with its source-less transitions removed. */
  function WithoutNilSources(events: seq<Event>): (r: seq<Event>)
    ensures |r| == |events|
    ensures forall i :: 0 <= i < |r| ==>
              r[i].name == events[i].name && r[i].transitions == Sourced(events[i].transitions)
  {
    seq(|events|, i requires 0 <= i < |events| => Event(events[i].name, Sourced(events[i].transitions)))
  }

  /** The inner loop with the guard applied to the source before it is stringified. */
  function DrawTransitionsSkippingNil(g: Graph, event: string, ts: seq<Transition>): Result<Graph>
    decreases |ts|
  {
    if ts == [] then Ok(g)
    else if ts[0].from.None? then DrawTransitionsSkippingNil(g, event, ts[1..])
    else match Push(g, ToS(ts[0].from), Edge(ts[0].to, event))
      case Err(err) => Err(err)
      case Ok(g') => DrawTransitionsSkippingNil(g', event, ts[1..])
  }

  function DrawEdgesSkippingNil(g: Graph, events: seq<Event>): Result<Graph>
    decreases |events|
  {
    if events == [] then Ok(g)
    else match DrawTransitionsSkippingNil(g, events[0].name, events[0].transitions)
      case Err(err) => Err(err)
      case Ok(g') => DrawEdgesSkippingNil(g', events[1..])
  }

  /** `draw` with the guard that `unless from.nil?` was evidently meant to be.
      It is the as-written build on the machine without its source-less
      transitions, and it succeeds exactly when every transition that has a
      source starts at a declared state: a transition without a source can
      neither fail the build nor add an edge. */
  function DrawSkippingNil(states: seq<string>, events: seq<Event>): (r: Result<Graph>)
    ensures r == Draw(states, WithoutNilSources(events))
    ensures r.Ok? <==>
            forall i, j :: 0 <= i < |events| && 0 <= j < |events[i].transitions|
                           && events[i].transitions[j].from.Some? ==>
              events[i].transitions[j].from.value in states
  {
    SkippingEdgesIsFiltering(DrawNodes(states), events);
    SourcedSucceedsIff(states, events);
    DrawEdgesSkippingNil(DrawNodes(states), events)
  }

  lemma {:induction false} SkippingIsFiltering(g: Graph, event: string, ts: seq<Transition>)
    ensures DrawTransitionsSkippingNil(g, event, ts) == DrawTransitions(g, event, Sourced(ts))
    decreases |ts|
  {
    if ts != [] {
      var rest := Sourced(ts[1..]);
      if ts[0].from.None? {
        assert Sourced(ts) == [] + rest == rest;
        SkippingIsFiltering(g, event, ts[1..]);
      } else {
        var f := Sourced(ts);
        assert f[0] == ts[0] && f[1..] == rest;
        match Push(g, ToS(ts[0].from), Edge(ts[0].to, event))
        case Err(_) =>
        case Ok(g1) => SkippingIsFiltering(g1, event, ts[1..]);
      }
    }
  }

  lemma {:induction false} SkippingEdgesIsFiltering(g: Graph, events: seq<Event>)
    ensures DrawEdgesSkippingNil(g, events) == DrawEdges(g, WithoutNilSources(events))
    decreases |events|
  {
    if events != [] {
      var w := WithoutNilSources(events);
      assert w[1..] == WithoutNilSources(events[1..]);
      SkippingIsFiltering(g, events[0].name, events[0].transitions);
      match DrawTransitionsSkippingNil(g, events[0].name, events[0].transitions)
      case Err(_) =>
      case Ok(g1) => SkippingEdgesIsFiltering(g1, events[1..]);
    }
  }

  /** The as-written build of the machine without source-less transitions
      succeeds exactly when every transition that has a source starts at a
      declared state. */
  lemma {:induction false} SourcedSucceedsIff(states: seq<string>, events: seq<Event>)
    ensures Draw(states, WithoutNilSources(events)).Ok? <==>
            forall i, j :: 0 <= i < |events| && 0 <= j < |events[i].transitions|
                           && events[i].transitions[j].from.Some? ==>
              events[i].transitions[j].from.value in states
  {
    var w := WithoutNilSources(events);
    DrawSucceedsIff(states, w);
    if forall i, j :: 0 <= i < |events| && 0 <= j < |events[i].transitions|
                      && events[i].transitions[j].from.Some? ==>
         events[i].transitions[j].from.value in states
    {
      forall i, j | 0 <= i < |w| && 0 <= j < |w[i].transitions|
        ensures ToS(w[i].transitions[j].from) in states
      {
        var t := w[i].transitions[j];
        assert t in Sourced(events[i].transitions);
        var j' :| 0 <= j' < |events[i].transitions| && events[i].transitions[j'] == t;
      }
    }
    if Draw(states, w).Ok? {
      forall i, j | 0 <= i < |events| && 0 <= j < |events[i].transitions|
                    && events[i].transitions[j].from.Some?
        ensures events[i].transitions[j].from.value in states
      {
        var t := events[i].transitions[j];
        assert t in w[i].transitions;
        var j' :| 0 <= j' < |w[i].transitions| && w[i].transitions[j'] == t;
      }
    }
  }
}
