/**
  The graph a diagram is drawn from. In the Ruby class it is `@graph`, a Hash
  from a state name to the list of `{ edge: to, label: event }` records that
  leave that state; the Hash's insertion order is the order the diagram is
  written in. Here it is an association list whose keys are pairwise distinct.
 */
module Graphs {

  /** An outgoing edge record `{ edge: to, label: event_name }`; the label is
      called `event` here because `label` is a Dafny keyword. */
  datatype Edge = Edge(to: string, event: string)

  /** One Hash entry: a state name and its edges, in the order they were appended. */
  datatype Node = Node(name: string, edges: seq<Edge>)

  predicate DistinctKeys(ns: seq<Node>) {
    forall i, j :: 0 <= i < j < |ns| ==> ns[i].name != ns[j].name
  }

  /** A Hash never holds the same key twice. */
  type Graph = ns: seq<Node> | DistinctKeys(ns) witness []

  /** The keys in insertion order (`Hash#keys`). */
  function Keys(ns: seq<Node>): seq<string> {
    seq(|ns|, i requires 0 <= i < |ns| => ns[i].name)
  }

  datatype Option<+T> = None | Some(value: T)

  /** The one failure of graph construction: `Hash#[]` answers `nil` for a
      missing key, and sending `<<` to `nil` raises `NoMethodError`. */
  datatype Error = NilReceiver(key: string)

  datatype Result<+T> = Ok(value: T) | Err(error: Error)

  /** Where `Hash#[]` finds key `k`, or `None` when it answers `nil`. */
  function Find(ns: seq<Node>, k: string): (r: Option<nat>)
    ensures r.None? <==> k !in Keys(ns)
    ensures r.Some? ==> r.value < |ns| && ns[r.value].name == k
    ensures r.Some? ==> forall j :: 0 <= j < r.value ==> ns[j].name != k
  {
    if ns == [] then None
    else
      assert Keys(ns) == [ns[0].name] + Keys(ns[1..]);
      if ns[0].name == k then Some(0)
      else match Find(ns[1..], k)
        case None => None
        case Some(i) => Some(i + 1)
  }

  /** `Hash#[]=`: a present key keeps its position and gets the new value; a
      new key is appended at the end. */
  function Store(g: Graph, k: string, v: seq<Edge>): (r: Graph)
    ensures k in Keys(g) ==> Keys(r) == Keys(g)
    ensures k !in Keys(g) ==> r == g + [Node(k, v)] && Keys(r) == Keys(g) + [k]
    ensures forall i :: 0 <= i < |r| && r[i].name == k ==> r[i].edges == v
    ensures forall i :: 0 <= i < |g| && g[i].name != k ==> r[i] == g[i]
  {
    match Find(g, k)
    case None =>
      assert forall j :: 0 <= j < |g| ==> g[j].name == Keys(g)[j];
      g + [Node(k, v)]
    case Some(i) => g[i := Node(k, v)]
  }

  /** `@graph[k] << e`: appends `e` to the list stored under `k`, and fails
      the way Ruby does when `k` is not a key. */
  function Push(g: Graph, k: string, e: Edge): (r: Result<Graph>)
    ensures r.Ok? <==> k in Keys(g)
    ensures r.Err? ==> r.error == NilReceiver(k)
    ensures r.Ok? ==> Keys(r.value) == Keys(g)
    ensures r.Ok? ==> forall i :: 0 <= i < |g| ==>
              r.value[i].edges == g[i].edges + (if g[i].name == k then [e] else [])
  {
    match Find(g, k)
    case None => Err(NilReceiver(k))
    case Some(i) => Ok(g[i := Node(k, g[i].edges + [e])])
  }
}
