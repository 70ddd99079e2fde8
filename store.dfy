/**
 * The in-memory store behind the HTTP API: a fixed catalog and two
 * dictionaries of bundles and deployments keyed by generated ids.
 *
 * A Python dict remembers the order in which its keys were first inserted,
 * and `list(d.values())` follows that order; here each dictionary is a `map`
 * together with the sequence of its keys in insertion order.
 */
module Store {
  import opened Results

  datatype CatalogItem = CatalogItem(id: string, name: string, kind: string)

  /** Bundle metadata: the entries of the JSON object in their order, values as strings. */
  type Meta = seq<(string, string)>

  datatype Bundle = Bundle(id: string, name: string, meta: Meta)

  datatype Deployment = Deployment(id: string, bundleId: string, target: string, status: string)

  /** The catalog every new store starts with. */
  const DefaultCatalog := [CatalogItem("tmpl-python-basic", "Python Basic", "template")]

  /** The status of a deployment when it is created. */
  const CreatedStatus := "created"

  /** `meta or {}`: an absent (or empty) metadata dictionary becomes empty. */
  function MetaOrEmpty(meta: Option<Meta>): Meta {
    match meta
    case None => []
    case Some(m) => m
  }

  /** `order` lists every key of `m` exactly once. */
  ghost predicate IsOrderOf<V>(order: seq<string>, m: map<string, V>) {
    (forall i, j :: 0 <= i < j < |order| ==> order[i] != order[j]) &&
    (forall k :: k in m <==> k in order)
  }

  /** `list(m.values())`: the values of `m`, following the key order `order`. */
  function Values<V>(order: seq<string>, m: map<string, V>): (r: seq<V>)
    requires forall k :: k in order ==> k in m
    ensures |r| == |order|
  {
    if |order| == 0 then []
    else Values(order[..|order| - 1], m) + [m[order[|order| - 1]]]
  }

  /** The listing holds, at each position, the value of the key at that position. */
  lemma {:induction false} ValuesAt<V>(order: seq<string>, m: map<string, V>)
    requires forall k :: k in order ==> k in m
    ensures forall i :: 0 <= i < |order| ==> Values(order, m)[i] == m[order[i]]
  {
    if |order| > 0 {
      ValuesAt(order[..|order| - 1], m);
    }
  }

  /** The key order after `m[k] = v`: a new key goes last, an old one keeps its place. */
  function Record(order: seq<string>, keys: set<string>, k: string): seq<string> {
    if k in keys then order else order + [k]
  }

  /**
   * Assigning `m[k] = v` keeps the key order a valid one; a new key adds its
   * value at the end of the listing, an existing key has its value replaced
   * where it stood.
   */
  lemma RecordKeepsOrder<V>(order: seq<string>, m: map<string, V>, k: string, v: V)
    requires IsOrderOf(order, m)
    ensures IsOrderOf(Record(order, m.Keys, k), m[k := v])
    ensures k !in m ==> Values(Record(order, m.Keys, k), m[k := v]) == Values(order, m) + [v]
    ensures k in m ==>
      var after := Values(Record(order, m.Keys, k), m[k := v]);
      |after| == |order| &&
      forall i :: 0 <= i < |order| ==> after[i] == if order[i] == k then v else Values(order, m)[i]
  {
    var after := Values(Record(order, m.Keys, k), m[k := v]);
    ValuesAt(order, m);
    ValuesAt(Record(order, m.Keys, k), m[k := v]);
    if k !in m {
      assert forall i :: 0 <= i < |order| ==> order[i] != k;
      assert after == Values(order, m) + [v];
    }
  }

  /** The ids carried by a listing. */
  function Ids<T>(items: seq<T>, id: T -> string): set<string> {
    set i | 0 <= i < |items| :: id(items[i])
  }

  /**
   * When every value is stored under its own id, the ids of the listing
   * are exactly the keys of the dictionary.
   */
  lemma ListedIdsAreKeys<V>(order: seq<string>, m: map<string, V>, id: V -> string)
    requires IsOrderOf(order, m)
    requires forall k :: k in m ==> id(m[k]) == k
    ensures Ids(Values(order, m), id) == m.Keys
  {
    var listed := Values(order, m);
    ValuesAt(order, m);
    forall k | k in m ensures k in Ids(listed, id) {
      var i :| 0 <= i < |order| && order[i] == k;
      assert id(listed[i]) == k;
    }
  }

  /** `order` is a key order of `m`, and every value is stored under its own id. */
  ghost predicate KeyedBy<V>(order: seq<string>, m: map<string, V>, id: V -> string) {
    IsOrderOf(order, m) && forall k :: k in m ==> id(m[k]) == k
  }

  /** Storing a record under its own id keeps the dictionary keyed by id. */
  lemma RecordKeepsKeyed<V>(order: seq<string>, m: map<string, V>, id: V -> string, v: V)
    requires KeyedBy(order, m, id)
    ensures KeyedBy(Record(order, m.Keys, id(v)), m[id(v) := v], id)
    ensures id(v) !in m ==> Values(Record(order, m.Keys, id(v)), m[id(v) := v]) == Values(order, m) + [v]
  {
    RecordKeepsOrder(order, m, id(v), v);
  }

  function BundleId(b: Bundle): string { b.id }

  function DeploymentId(d: Deployment): string { d.id }

  class InMemoryStore {
    var catalog: seq<CatalogItem>
    var bundles: map<string, Bundle>
    var bundleOrder: seq<string>
    var deployments: map<string, Deployment>
    var deploymentOrder: seq<string>

    /** The key orders match the dictionaries and every record sits under its own id. */
    ghost predicate Valid()
      reads this
    {
      KeyedBy(bundleOrder, bundles, BundleId) && KeyedBy(deploymentOrder, deployments, DeploymentId)
    }

    /** `list(self.bundles.values())` */
    function BundleList(): seq<Bundle>
      reads this
      requires Valid()
    {
      Values(bundleOrder, bundles)
    }

    /** `list(self.deployments.values())` */
    function DeploymentList(): seq<Deployment>
      reads this
      requires Valid()
    {
      Values(deploymentOrder, deployments)
    }

    constructor()
      ensures Valid()
      ensures catalog == DefaultCatalog
      ensures bundles == map[] && bundleOrder == []
      ensures deployments == map[] && deploymentOrder == []
      ensures BundleList() == [] && DeploymentList() == []
    {
      catalog := DefaultCatalog;
      bundles, bundleOrder := map[], [];
      deployments, deploymentOrder := map[], [];
    }

    method ListCatalog() returns (items: seq<CatalogItem>)
      ensures items == catalog
    {
      items := catalog;
    }

    /**
     * `create_bundle(name, meta)` with `id` standing for the generated
     * uuid4 string; a repeated id overwrites the earlier bundle in place.
     */
    method CreateBundle(id: string, name: string, meta: Option<Meta>) returns (b: Bundle)
      requires Valid()
      modifies this`bundles, this`bundleOrder
      ensures Valid()
      ensures b == Bundle(id, name, MetaOrEmpty(meta))
      ensures bundles == old(bundles)[id := b]
      ensures bundleOrder == Record(old(bundleOrder), old(bundles).Keys, id)
      ensures id !in old(bundles) ==> BundleList() == old(BundleList()) + [b]
    {
      b := Bundle(id, name, MetaOrEmpty(meta));
      RecordKeepsKeyed(bundleOrder, bundles, BundleId, b);
      assert BundleId(b) == id;
      bundleOrder, bundles := Record(bundleOrder, bundles.Keys, id), bundles[id := b];
    }

    /** Every stored bundle once, in creation order. */
    method ListBundles() returns (items: seq<Bundle>)
      requires Valid()
      ensures items == BundleList()
      ensures |items| == |bundles|
      ensures forall b :: b in items <==> b in bundles.Values
      ensures Ids(items, BundleId) == bundles.Keys
    {
      items := Values(bundleOrder, bundles);
      ValuesAt(bundleOrder, bundles);
      ListedIdsAreKeys(bundleOrder, bundles, BundleId);
      forall b | b in bundles.Values ensures b in items {
        var k :| k in bundles && bundles[k] == b;
        var i :| 0 <= i < |bundleOrder| && bundleOrder[i] == k;
        assert items[i] == b;
      }
      assert |bundleOrder| == |bundles.Keys| by {
        OrderLength(bundleOrder, bundles);
      }
    }

    /**
     * `create_deployment(bundle_id, target)` with `id` standing for the
     * generated uuid4 string. The store itself does not check the bundle.
     */
    method CreateDeployment(bundleId: string, target: string, id: string) returns (d: Deployment)
      requires Valid()
      modifies this`deployments, this`deploymentOrder
      ensures Valid()
      ensures d == Deployment(id, bundleId, target, CreatedStatus)
      ensures deployments == old(deployments)[id := d]
      ensures deploymentOrder == Record(old(deploymentOrder), old(deployments).Keys, id)
      ensures id !in old(deployments) ==> DeploymentList() == old(DeploymentList()) + [d]
    {
      d := Deployment(id, bundleId, target, CreatedStatus);
      RecordKeepsKeyed(deploymentOrder, deployments, DeploymentId, d);
      assert DeploymentId(d) == id;
      deploymentOrder, deployments := Record(deploymentOrder, deployments.Keys, id), deployments[id := d];
    }

    /** Every stored deployment once, in creation order. */
    method ListDeployments() returns (items: seq<Deployment>)
      requires Valid()
      ensures items == DeploymentList()
      ensures |items| == |deployments|
      ensures forall d :: d in items <==> d in deployments.Values
      ensures Ids(items, DeploymentId) == deployments.Keys
    {
      items := Values(deploymentOrder, deployments);
      ValuesAt(deploymentOrder, deployments);
      ListedIdsAreKeys(deploymentOrder, deployments, DeploymentId);
      forall d | d in deployments.Values ensures d in items {
        var k :| k in deployments && deployments[k] == d;
        var i :| 0 <= i < |deploymentOrder| && deploymentOrder[i] == k;
        assert items[i] == d;
      }
      assert |deploymentOrder| == |deployments.Keys| by {
        OrderLength(deploymentOrder, deployments);
      }
    }
  }

  /** A key order has as many entries as the dictionary has keys. */
  lemma {:induction false} OrderLength<V>(order: seq<string>, m: map<string, V>)
    requires IsOrderOf(order, m)
    ensures |order| == |m.Keys|
  {
    if |order| > 0 {
      var k := order[|order| - 1];
      var rest := order[..|order| - 1];
      var smaller := m - {k};
      assert IsOrderOf(rest, smaller);
      OrderLength(rest, smaller);
      assert m.Keys == smaller.Keys + {k};
    }
  }
}
