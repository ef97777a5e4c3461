/** The browser's node/link model and the adjacency object it exchanges
    with the back end.  Nodes are identified by their `id`; positions and
    velocities belong to the layout and are not modelled. */
module FrontModel {
  import opened Common

  /** A link endpoint as the front end holds it: a node object (`{id}`), a
      bare id string, or `undefined` (the `nodeMap` lookup of a name that is
      no node). */
  datatype End = Node(id: string) | Name(name: string) | Undefined

  /** `typeof e === "object" ? e.id : e` used as a property key; JavaScript
      turns `undefined` into the key "undefined". */
  function EndKey(e: End): string {
    match e
    case Node(id) => id
    case Name(n) => n
    case Undefined => "undefined"
  }

  /** The same expression stored as a value: `undefined` stays absent. */
  function EndValue(e: End): (v: Option<string>)
    ensures v.Some? ==> v.value == EndKey(e)
    ensures v.None? <==> e.Undefined?
  {
    match e
    case Node(id) => Some(id)
    case Name(n) => Some(n)
    case Undefined => None
  }

  /** A `GraphLink`; the weight may be missing. */
  datatype Link = Link(source: End, target: End, weight: Option<int>)

  /** `x ?? 0` and `x || 0` on an optional integer (they differ only on NaN,
      which integers do not have). */
  function OrZero(x: Option<int>): int {
    if x.Some? then x.value else 0
  }

  /** A neighbour entry `{target, distance}` of the adjacency object. */
  datatype Nb = Nb(target: Option<string>, distance: Option<int>)

  /** A JavaScript object used as a dictionary: its keys in the order taken
      as its key order, and the list stored under each key.  That order is
      insertion order; JavaScript itself lists integer-like keys ("0", "42")
      first, in ascending order, and a "__proto__" key sets the prototype
      instead of a property.  Neither is modelled. */
  datatype Adjacency = Adjacency(keys: seq<string>, lists: map<string, seq<Nb>>)

  predicate WellKeyed(a: Adjacency) {
    Distinct(a.keys) && (forall k :: k in a.keys ==> k in a.lists) && (forall k :: k in a.lists ==> k in a.keys)
  }

  /** A neighbour entry as parsed from JSON text: a falsy value (`null`,
      `0`, ...) or an object with optional `target` and `distance`. */
  datatype JsonEntry = Falsy | Entry(target: Option<string>, distance: Option<int>)

  /** The value stored under a key of the parsed object. */
  datatype JsonList = NotArray | Arr(entries: seq<JsonEntry>)

  /** A parsed adjacency object, keys in `Object.keys` order. */
  datatype JsonGraph = JsonGraph(keys: seq<string>, values: map<string, JsonList>)

  predicate ValidJson(g: JsonGraph) {
    Distinct(g.keys) && (forall k :: k in g.keys ==> k in g.values) && (forall k :: k in g.values ==> k in g.keys)
  }

  /** `nodeMap[name]`: the node object when `name` is a node id. */
  function NodeRef(ids: seq<string>, name: string): (e: End)
    ensures e.Node? <==> name in ids
    ensures e.Node? ==> e.id == name
    ensures !e.Node? ==> e.Undefined?
  {
    if name in ids then Node(name) else Undefined
  }
}
