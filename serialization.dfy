/**
 * The recursive serializer (src/utils/serialization.py). An object graph
 * is turned into JSON-ready values: primitives pass through, lists, tuples
 * and sets become lists, dictionaries get string keys, objects become the
 * dictionary of their public attributes or of their slots, and anything
 * else becomes its string form. One set of visited object identities is
 * threaded through the whole walk and only ever grows, so an object met a
 * second time, whether through a cycle or a shared reference, is written
 * as a `<cycle: T>` marker.
 */
module Serialization {
  import opened Wrappers
  import opened Text
  import opened Assoc

  // ---------------------------------------------------------------------
  // the object graph

  /** The values returned unchanged: None, bool, int, float (by its repr) and str. */
  datatype Prim = PNone | PBool(b: bool) | PInt(i: int) | PFloat(repr: string) | PStr(s: string)

  /** A value: a primitive, or a reference to an object of the graph by its `id()`. */
  datatype Value = Prim(p: Prim) | Ref(id: nat)

  /** The objects of the graph, each carrying `type(obj).__name__`. */
  datatype Node =
    | Collection(typeName: string, items: seq<Value>, fields: seq<string>)  // list, tuple, set; `_fields` of a namedtuple
    | Dict(typeName: string, entries: seq<(Prim, Value)>)
    | Instance(typeName: string, attrs: seq<(string, Value)>)                // `__dict__`
    | Slotted(typeName: string, slots: seq<(string, Option<Value>)>)         // `__slots__`, unset ones `None`
    | Other(typeName: string, text: string)                                   // `str(obj)`

  type Graph = map<nat, Node>

  /** The serialized form. */
  datatype Json = JPrim(p: Prim) | JList(items: seq<Json>) | JDict(entries: seq<(string, Json)>)

  predicate InGraph(g: Graph, v: Value) {
    v.Ref? ==> v.id in g
  }

  /** Every reference a node holds leads to an object of the graph. */
  predicate NodeClosed(g: Graph, n: Node) {
    match n
    case Collection(_, items, _) => forall i :: 0 <= i < |items| ==> InGraph(g, items[i])
    case Dict(_, entries) => forall i :: 0 <= i < |entries| ==> InGraph(g, entries[i].1)
    case Instance(_, attrs) => forall i :: 0 <= i < |attrs| ==> InGraph(g, attrs[i].1)
    case Slotted(_, slots) => forall i :: 0 <= i < |slots| && slots[i].1.Some? ==> InGraph(g, slots[i].1.value)
    case Other(_, _) => true
  }

  predicate Closed(g: Graph) {
    forall id :: id in g ==> NodeClosed(g, g[id])
  }

  // ---------------------------------------------------------------------
  // helpers of the walk

  /** `str()` of a dictionary key. */
  function Str(p: Prim): string {
    match p
    case PNone => "None"
    case PBool(b) => if b then "True" else "False"
    case PInt(i) => IntToString(i)
    case PFloat(r) => r
    case PStr(s) => s
  }

  /** `f"<cycle: {type(obj).__name__}>"`. */
  function CycleMarker(typeName: string): string {
    "<cycle: " + typeName + ">"
  }

  /** The dictionary entries under their `str()` keys. */
  function StrKeys(entries: seq<(Prim, Value)>): (r: seq<(string, Value)>)
    ensures |r| == |entries|
    ensures forall i :: 0 <= i < |entries| ==> r[i] == (Str(entries[i].0), entries[i].1)
  {
    seq(|entries|, i requires 0 <= i < |entries| => (Str(entries[i].0), entries[i].1))
  }

  /** The attributes whose names do not start with `_`, in order. */
  function Public(attrs: seq<(string, Value)>): (r: seq<(string, Value)>)
    ensures forall e :: e in r <==> e in attrs && !StartsWith(e.0, "_")
    decreases |attrs|
  {
    if |attrs| == 0 then []
    else
      var n := |attrs| - 1;
      var init := Public(attrs[..n]);
      assert attrs == attrs[..n] + [attrs[n]];
      if StartsWith(attrs[n].0, "_") then init else init + [attrs[n]]
  }

  /** `getattr(obj, key, None)` for each slot. */
  function SlotValues(slots: seq<(string, Option<Value>)>): (r: seq<(string, Value)>)
    ensures |r| == |slots|
    ensures forall i :: 0 <= i < |slots| ==> r[i] == (slots[i].0, slots[i].1.GetOr(Prim(PNone)))
  {
    seq(|slots|, i requires 0 <= i < |slots| => (slots[i].0, slots[i].1.GetOr(Prim(PNone))))
  }

  lemma SubsetCard<T>(a: set<T>, b: set<T>)
    requires a <= b
    ensures |a| <= |b|
  {
    assert b == a + (b - a);
  }

  /** Recording an unvisited object of the graph leaves fewer objects to visit. */
  lemma VisitShrinks(g: Graph, vis: set<nat>, id: nat)
    requires id in g && id !in vis
    ensures |g.Keys - (vis + {id})| < |g.Keys - vis|
  {
    assert g.Keys - vis == (g.Keys - (vis + {id})) + {id};
  }

  lemma ClosedChildren(g: Graph, id: nat)
    requires Closed(g) && id in g
    ensures g[id].Dict? ==> forall i :: 0 <= i < |StrKeys(g[id].entries)| ==> InGraph(g, StrKeys(g[id].entries)[i].1)
    ensures g[id].Instance? ==> forall i :: 0 <= i < |Public(g[id].attrs)| ==> InGraph(g, Public(g[id].attrs)[i].1)
    ensures g[id].Slotted? ==> forall i :: 0 <= i < |SlotValues(g[id].slots)| ==> InGraph(g, SlotValues(g[id].slots)[i].1)
  {
    assert NodeClosed(g, g[id]);
    if g[id].Instance? {
      var attrs := g[id].attrs;
      forall i | 0 <= i < |Public(attrs)|
        ensures InGraph(g, Public(attrs)[i].1)
      {
        assert Public(attrs)[i] in attrs;
        var k :| 0 <= k < |attrs| && attrs[k] == Public(attrs)[i];
      }
    }
  }

  // ---------------------------------------------------------------------
  // the walk

  /**
   * `serialize_recursive(obj, _visited)`: the serialized value and the
   * visited set after the call. Primitives leave the set as it was; an
   * object not yet visited is recorded before its contents are walked.
   */
  function Serialize(g: Graph, v: Value, vis: set<nat>): (r: (Json, set<nat>))
    requires Closed(g) && InGraph(g, v)
    ensures vis <= r.1 <= vis + g.Keys
    ensures v.Prim? ==> r == (JPrim(v.p), vis)
    ensures v.Ref? ==> v.id in r.1
    decreases |g.Keys - vis|, 0, 0
  {
    match v
    case Prim(p) => (JPrim(p), vis)
    case Ref(id) =>
      if id in vis then (JPrim(PStr(CycleMarker(g[id].typeName))), vis)
      else
        VisitShrinks(g, vis, id);
        ClosedChildren(g, id);
        var vis1 := vis + {id};
        match g[id]
        case Collection(_, items, _) =>
          var (js, vis2) := Items(g, items, vis1);
          (JList(js), vis2)
        case Dict(_, entries) =>
          var (ps, vis2) := Entries(g, StrKeys(entries), vis1);
          (JDict(UpdateWith([], ps)), vis2)
        case Instance(_, attrs) =>
          var (ps, vis2) := Entries(g, Public(attrs), vis1);
          (JDict(UpdateWith([], ps)), vis2)
        case Slotted(_, slots) =>
          var (ps, vis2) := Entries(g, SlotValues(slots), vis1);
          (JDict(UpdateWith([], ps)), vis2)
        case Other(_, text) => (JPrim(PStr(text)), vis1)
  }

  /** The list comprehension: the elements serialized left to right, one visited set threaded through. */
  function Items(g: Graph, items: seq<Value>, vis: set<nat>): (r: (seq<Json>, set<nat>))
    requires Closed(g) && forall i :: 0 <= i < |items| ==> InGraph(g, items[i])
    ensures |r.0| == |items|
    ensures vis <= r.1 <= vis + g.Keys
    decreases |g.Keys - vis|, 1, |items|
  {
    if |items| == 0 then ([], vis)
    else
      var n := |items| - 1;
      var (js, vis1) := Items(g, items[..n], vis);
      SubsetCard(g.Keys - vis1, g.Keys - vis);
      var (j, vis2) := Serialize(g, items[n], vis1);
      (js + [j], vis2)
  }

  /** The dictionary comprehension and the attribute loops: each value serialized under its key, left to right. */
  function Entries(g: Graph, es: seq<(string, Value)>, vis: set<nat>): (r: (seq<(string, Json)>, set<nat>))
    requires Closed(g) && forall i :: 0 <= i < |es| ==> InGraph(g, es[i].1)
    ensures |r.0| == |es|
    ensures vis <= r.1 <= vis + g.Keys
    decreases |g.Keys - vis|, 1, |es|
  {
    if |es| == 0 then ([], vis)
    else
      var n := |es| - 1;
      var (ps, vis1) := Entries(g, es[..n], vis);
      SubsetCard(g.Keys - vis1, g.Keys - vis);
      var (j, vis2) := Serialize(g, es[n].1, vis1);
      (ps + [(es[n].0, j)], vis2)
  }

  /** The comprehension keeps every key, in order. */
  lemma {:induction false} EntriesKeys(g: Graph, es: seq<(string, Value)>, vis: set<nat>)
    requires Closed(g) && forall i :: 0 <= i < |es| ==> InGraph(g, es[i].1)
    ensures Keys(Entries(g, es, vis).0) == Keys(es)
    decreases |es|
  {
    if |es| > 0 {
      var n := |es| - 1;
      EntriesKeys(g, es[..n], vis);
      var (ps, vis1) := Entries(g, es[..n], vis);
      var j := Serialize(g, es[n].1, vis1).0;
      assert Entries(g, es, vis).0 == ps + [(es[n].0, j)];
      assert Keys(ps + [(es[n].0, j)]) == Keys(ps) + [es[n].0];
      assert Keys(es) == Keys(es[..n]) + [es[n].0];
    }
  }

  /** `serialize_recursive(obj)`: the walk from an empty visited set. */
  function Serialized(g: Graph, v: Value): Json
    requires Closed(g) && InGraph(g, v)
  {
    Serialize(g, v, {}).0
  }

  // ---------------------------------------------------------------------
  // properties

  /**
   * An object already visited becomes the marker naming its type and
   * leaves the set alone; one not yet visited is never a marker of its
   * own unless its string form happens to read like one.
   */
  lemma VisitedIsCycle(g: Graph, id: nat, vis: set<nat>)
    requires Closed(g) && id in g && id in vis
    ensures Serialize(g, Ref(id), vis) == (JPrim(PStr(CycleMarker(g[id].typeName))), vis)
  {
  }

  /** Serializing a prefix of a list gives a prefix of the result and a smaller visited set. */
  lemma {:induction false} ItemsPrefix(g: Graph, items: seq<Value>, vis: set<nat>, k: nat)
    requires Closed(g) && forall i :: 0 <= i < |items| ==> InGraph(g, items[i])
    requires k <= |items|
    ensures Items(g, items[..k], vis).0 == Items(g, items, vis).0[..k]
    ensures Items(g, items[..k], vis).1 <= Items(g, items, vis).1
    decreases |items|
  {
    if k < |items| {
      var n := |items| - 1;
      assert items[..n][..k] == items[..k];
      ItemsPrefix(g, items[..n], vis, k);
      var (js, vis1) := Items(g, items[..n], vis);
      assert Items(g, items, vis).0 == js + [Serialize(g, items[n], vis1).0];
      assert (js + [Serialize(g, items[n], vis1).0])[..k] == js[..k];
    } else {
      assert items[..k] == items;
    }
  }

  /** Element `k` of the list is element `k` serialized with what the elements before it visited. */
  lemma ItemAt(g: Graph, items: seq<Value>, vis: set<nat>, k: nat)
    requires Closed(g) && forall i :: 0 <= i < |items| ==> InGraph(g, items[i])
    requires k < |items|
    ensures Items(g, items, vis).0[k] == Serialize(g, items[k], Items(g, items[..k], vis).1).0
    ensures items[k].Ref? ==> items[k].id in Items(g, items, vis).1
  {
    ItemsPrefix(g, items, vis, k + 1);
    assert items[..k + 1][..k] == items[..k];
    assert items[..k + 1][k] == items[k];
  }

  /** Primitives inside a list come out unchanged, whatever else the list holds. */
  lemma ItemsPrims(g: Graph, items: seq<Value>, vis: set<nat>)
    requires Closed(g) && forall i :: 0 <= i < |items| ==> InGraph(g, items[i])
    ensures forall k :: 0 <= k < |items| && items[k].Prim? ==> Items(g, items, vis).0[k] == JPrim(items[k].p)
  {
    forall k | 0 <= k < |items| && items[k].Prim?
      ensures Items(g, items, vis).0[k] == JPrim(items[k].p)
    {
      ItemAt(g, items, vis, k);
    }
  }

  /**
   * The visited set is never cleared: an object listed twice is walked the
   * first time and written as a cycle marker every later time, even when
   * it is only shared and there is no cycle.
   */
  lemma RepeatIsCycle(g: Graph, items: seq<Value>, vis: set<nat>, i: nat, j: nat)
    requires Closed(g) && forall k :: 0 <= k < |items| ==> InGraph(g, items[k])
    requires i < j < |items| && items[i].Ref? && items[j] == items[i]
    ensures Items(g, items, vis).0[j] == JPrim(PStr(CycleMarker(g[items[i].id].typeName)))
  {
    var pre := items[..j];
    ItemAt(g, pre, vis, i);
    assert pre[i] == items[i];
    ItemsPrefix(g, items, vis, j);
    ItemAt(g, items, vis, j);
    ItemsPrefix(g, pre, vis, i + 1);
  }

  /** A list holding itself serializes as a list holding the marker of `list`. */
  lemma SelfListIsCycle(g: Graph, id: nat)
    requires id in g && g[id] == Collection("list", [Ref(id)], [])
    ensures Closed(g) ==> Serialized(g, Ref(id)) == JList([JPrim(PStr("<cycle: list>"))])
  {
    if Closed(g) {
      var items := [Ref(id)];
      assert items[..0] == [];
      assert Items(g, items, {id}).0 == [Serialize(g, Ref(id), {id}).0];
      assert CycleMarker("list") == "<cycle: list>";
      CollectionIsList(g, id, {});
      assert {} + {id} == {id};
    }
  }

  /** A value that reaches one object twice through a list: a shared object, not a cycle. */
  lemma SharedIsCycle(g: Graph, lid: nat, id: nat)
    requires lid in g && id in g && lid != id
    requires g[lid] == Collection("list", [Ref(id), Ref(id)], [])
    ensures Closed(g) ==> Serialized(g, Ref(lid)).items[1] == JPrim(PStr(CycleMarker(g[id].typeName)))
  {
    if Closed(g) {
      VisitShrinks(g, {}, lid);
      RepeatIsCycle(g, [Ref(id), Ref(id)], {lid}, 0, 1);
    }
  }

  /**
   * Lists, tuples and sets become lists of the same length, each element
   * serialized in turn; a namedtuple is a tuple, so its `_fields` are never
   * used and it becomes a list too.
   */
  lemma CollectionIsList(g: Graph, id: nat, vis: set<nat>)
    requires Closed(g) && id in g && id !in vis && g[id].Collection?
    ensures Serialize(g, Ref(id), vis).0 == JList(Items(g, g[id].items, vis + {id}).0)
    ensures |Serialize(g, Ref(id), vis).0.items| == |g[id].items|
  {
  }

  /** What each kind of object not yet visited becomes: a list, a dictionary, or its string form. */
  lemma ResultShape(g: Graph, id: nat, vis: set<nat>)
    requires Closed(g) && id in g && id !in vis
    ensures g[id].Collection? <==> Serialize(g, Ref(id), vis).0.JList?
    ensures g[id].Dict? || g[id].Instance? || g[id].Slotted? <==> Serialize(g, Ref(id), vis).0.JDict?
    ensures g[id].Other? ==> Serialize(g, Ref(id), vis) == (JPrim(PStr(g[id].text)), vis + {id})
  {
  }

  /** Primitive values inside a comprehension come out unchanged, whatever else it holds. */
  lemma {:induction false} EntriesPrims(g: Graph, es: seq<(string, Value)>, vis: set<nat>)
    requires Closed(g) && forall i :: 0 <= i < |es| ==> InGraph(g, es[i].1)
    ensures forall k :: 0 <= k < |es| && es[k].1.Prim? ==> Entries(g, es, vis).0[k].1 == JPrim(es[k].1.p)
    decreases |es|
  {
    if |es| > 0 {
      var n := |es| - 1;
      EntriesPrims(g, es[..n], vis);
      var (ps, vis1) := Entries(g, es[..n], vis);
      assert Entries(g, es, vis).0 == ps + [(es[n].0, Serialize(g, es[n].1, vis1).0)];
    }
  }

  /** The serialized dictionary of a comprehension: one entry per distinct key. */
  lemma DictOf(g: Graph, es: seq<(string, Value)>, vis: set<nat>, s: string)
    requires Closed(g) && forall i :: 0 <= i < |es| ==> InGraph(g, es[i].1)
    ensures UniqueKeys(UpdateWith([], Entries(g, es, vis).0))
    ensures HasKey(UpdateWith([], Entries(g, es, vis).0), s) <==> exists i :: 0 <= i < |es| && es[i].0 == s
  {
    var ps := Entries(g, es, vis).0;
    UpdateWithUnique([], ps);
    UpdateWithHasKey([], ps, s);
    EntriesKeys(g, es, vis);
    if HasKey(ps, s) {
      var i :| 0 <= i < |ps| && ps[i].0 == s;
      assert Keys(ps)[i] == Keys(es)[i];
    }
    if exists i :: 0 <= i < |es| && es[i].0 == s {
      var i :| 0 <= i < |es| && es[i].0 == s;
      assert Keys(ps)[i] == Keys(es)[i];
    }
  }

  /** A dictionary gets one entry per distinct `str()` of its keys. */
  lemma DictKeys(g: Graph, id: nat, vis: set<nat>, s: string)
    requires Closed(g) && id in g && id !in vis && g[id].Dict?
    ensures UniqueKeys(Serialize(g, Ref(id), vis).0.entries)
    ensures HasKey(Serialize(g, Ref(id), vis).0.entries, s) <==>
      exists i :: 0 <= i < |g[id].entries| && Str(g[id].entries[i].0) == s
  {
    ClosedChildren(g, id);
    var es := StrKeys(g[id].entries);
    DictOf(g, es, vis + {id}, s);
    if exists i :: 0 <= i < |es| && es[i].0 == s {
      var i :| 0 <= i < |es| && es[i].0 == s;
      assert Str(g[id].entries[i].0) == s;
    }
  }

  /** An object with `__dict__` becomes the dictionary of exactly its attributes not starting with `_`. */
  lemma InstanceKeys(g: Graph, id: nat, vis: set<nat>, s: string)
    requires Closed(g) && id in g && id !in vis && g[id].Instance?
    ensures UniqueKeys(Serialize(g, Ref(id), vis).0.entries)
    ensures HasKey(Serialize(g, Ref(id), vis).0.entries, s) <==>
      !StartsWith(s, "_") && exists i :: 0 <= i < |g[id].attrs| && g[id].attrs[i].0 == s
  {
    ClosedChildren(g, id);
    InstanceDict(g, id, vis);
    DictOf(g, Public(g[id].attrs), vis + {id}, s);
    PublicNames(g[id].attrs, s);
  }

  /** An unvisited object with `__dict__` is written as the dictionary of its public attributes. */
  lemma InstanceDict(g: Graph, id: nat, vis: set<nat>)
    requires Closed(g) && id in g && id !in vis && g[id].Instance?
    ensures forall i :: 0 <= i < |Public(g[id].attrs)| ==> InGraph(g, Public(g[id].attrs)[i].1)
    ensures Serialize(g, Ref(id), vis).0 == JDict(UpdateWith([], Entries(g, Public(g[id].attrs), vis + {id}).0))
  {
    ClosedChildren(g, id);
  }

  /** The names `Public` keeps are the attribute names that do not start with `_`. */
  lemma PublicNames(attrs: seq<(string, Value)>, s: string)
    ensures (exists i :: 0 <= i < |Public(attrs)| && Public(attrs)[i].0 == s) <==>
      !StartsWith(s, "_") && exists i :: 0 <= i < |attrs| && attrs[i].0 == s
  {
    if exists i :: 0 <= i < |Public(attrs)| && Public(attrs)[i].0 == s {
      PublicNameKept(attrs, s);
    }
    if !StartsWith(s, "_") && exists i :: 0 <= i < |attrs| && attrs[i].0 == s {
      PublicNameFound(attrs, s);
    }
  }

  lemma PublicNameKept(attrs: seq<(string, Value)>, s: string)
    requires exists i :: 0 <= i < |Public(attrs)| && Public(attrs)[i].0 == s
    ensures !StartsWith(s, "_") && exists i :: 0 <= i < |attrs| && attrs[i].0 == s
  {
    var es := Public(attrs);
    var i :| 0 <= i < |es| && es[i].0 == s;
    assert es[i] in es;
    var k :| 0 <= k < |attrs| && attrs[k] == es[i];
    assert attrs[k].0 == s;
  }

  lemma PublicNameFound(attrs: seq<(string, Value)>, s: string)
    requires !StartsWith(s, "_") && exists i :: 0 <= i < |attrs| && attrs[i].0 == s
    ensures exists i :: 0 <= i < |Public(attrs)| && Public(attrs)[i].0 == s
  {
    var es := Public(attrs);
    var i :| 0 <= i < |attrs| && attrs[i].0 == s;
    assert attrs[i] in attrs;
    assert attrs[i] in es;
    var k :| 0 <= k < |es| && es[k] == attrs[i];
    assert es[k].0 == s;
  }

  /**
   * An object with `__slots__` becomes the dictionary of exactly its slots,
   * and a slot left unset is written as None.
   */
  lemma SlottedKeys(g: Graph, id: nat, vis: set<nat>, s: string)
    requires Closed(g) && id in g && id !in vis && g[id].Slotted?
    ensures HasKey(Serialize(g, Ref(id), vis).0.entries, s) <==>
      exists i :: 0 <= i < |g[id].slots| && g[id].slots[i].0 == s
    ensures UniqueKeys(g[id].slots) ==> forall i :: 0 <= i < |g[id].slots| && g[id].slots[i].1.None? ==>
      Get(Serialize(g, Ref(id), vis).0.entries, g[id].slots[i].0) == Some(JPrim(PNone))
  {
    ClosedChildren(g, id);
    SlottedDict(g, id, vis);
    var slots := g[id].slots;
    var es := SlotValues(slots);
    var ps := Entries(g, es, vis + {id}).0;
    DictOf(g, es, vis + {id}, s);
    if UniqueKeys(slots) {
      EntriesKeys(g, es, vis + {id});
      EntriesPrims(g, es, vis + {id});
      assert UniqueKeys(ps) by {
        forall a, b | 0 <= a < b < |ps|
          ensures ps[a].0 != ps[b].0
        {
          assert Keys(ps)[a] == Keys(es)[a] && Keys(ps)[b] == Keys(es)[b];
        }
      }
      forall i | 0 <= i < |slots| && slots[i].1.None?
        ensures Get(UpdateWith([], ps), slots[i].0) == Some(JPrim(PNone))
      {
        assert Keys(ps)[i] == Keys(es)[i];
        UpdateWithGet([], ps, slots[i].0);
        GetAt(ps, i);
      }
    }
  }

  /** An unvisited object with `__slots__` is written as the dictionary of its slot values. */
  lemma SlottedDict(g: Graph, id: nat, vis: set<nat>)
    requires Closed(g) && id in g && id !in vis && g[id].Slotted?
    ensures forall i :: 0 <= i < |SlotValues(g[id].slots)| ==> InGraph(g, SlotValues(g[id].slots)[i].1)
    ensures Serialize(g, Ref(id), vis).0 == JDict(UpdateWith([], Entries(g, SlotValues(g[id].slots), vis + {id}).0))
  {
    ClosedChildren(g, id);
  }

  // ---------------------------------------------------------------------
  // the walk with its one mutable visited set

  /** One top-level call of `serialize_recursive`: the graph it walks and the `_visited` set it threads. */
  class Serializer {
    const graph: Graph
    var visited: set<nat>

    constructor(graph: Graph)
      ensures this.graph == graph && visited == {}
    {
      this.graph := graph;
      visited := {};
    }

    /** `serialize_recursive(obj, _visited)`. */
    method SerializeValue(v: Value) returns (j: Json)
      requires Closed(graph) && InGraph(graph, v)
      modifies this
      ensures (j, visited) == Serialize(graph, v, old(visited))
      decreases |graph.Keys - visited|, 0, 0
    {
      if v.Prim? {
        return JPrim(v.p);
      }
      var id := v.id;
      if id in visited {
        return JPrim(PStr(CycleMarker(graph[id].typeName)));
      }
      VisitShrinks(graph, visited, id);
      ClosedChildren(graph, id);
      visited := visited + {id};
      match graph[id]
      case Collection(_, items, _) =>
        var js := SerializeItems(items);
        j := JList(js);
      case Dict(_, entries) =>
        var ps := SerializeEntries(StrKeys(entries));
        j := JDict(UpdateWith([], ps));
      case Instance(_, attrs) =>
        var ps := SerializeEntries(Public(attrs));
        j := JDict(UpdateWith([], ps));
      case Slotted(_, slots) =>
        var ps := SerializeEntries(SlotValues(slots));
        j := JDict(UpdateWith([], ps));
      case Other(_, text) =>
        j := JPrim(PStr(text));
    }

    /** `[serialize_recursive(item, _visited) for item in obj]`. */
    method SerializeItems(items: seq<Value>) returns (js: seq<Json>)
      requires Closed(graph) && forall i :: 0 <= i < |items| ==> InGraph(graph, items[i])
      modifies this
      ensures (js, visited) == Items(graph, items, old(visited))
      decreases |graph.Keys - visited|, 1, 0
    {
      ghost var vis0 := visited;
      js := [];
      var i := 0;
      while i < |items|
        invariant 0 <= i <= |items|
        invariant (js, visited) == Items(graph, items[..i], vis0)
        invariant vis0 <= visited
      {
        assert items[..i + 1][..i] == items[..i];
        SubsetCard(graph.Keys - visited, graph.Keys - vis0);
        var j := SerializeValue(items[i]);
        js := js + [j];
        i := i + 1;
      }
      assert items[..i] == items;
    }

    /** The dictionary comprehension, and the loops over `__dict__` and `__slots__`. */
    method SerializeEntries(es: seq<(string, Value)>) returns (ps: seq<(string, Json)>)
      requires Closed(graph) && forall i :: 0 <= i < |es| ==> InGraph(graph, es[i].1)
      modifies this
      ensures (ps, visited) == Entries(graph, es, old(visited))
      decreases |graph.Keys - visited|, 1, 0
    {
      ghost var vis0 := visited;
      ps := [];
      var i := 0;
      while i < |es|
        invariant 0 <= i <= |es|
        invariant (ps, visited) == Entries(graph, es[..i], vis0)
        invariant vis0 <= visited
      {
        assert es[..i + 1][..i] == es[..i];
        SubsetCard(graph.Keys - visited, graph.Keys - vis0);
        var j := SerializeValue(es[i].1);
        ps := ps + [(es[i].0, j)];
        i := i + 1;
      }
      assert es[..i] == es;
    }
  }

  /** `serialize_recursive(obj)` with no `_visited`: a fresh set for the walk. */
  method SerializeRecursive(g: Graph, v: Value) returns (j: Json)
    requires Closed(g) && InGraph(g, v)
    ensures j == Serialized(g, v)
  {
    var s := new Serializer(g);
    j := s.SerializeValue(v);
  }
}
