/**
 The settings planner (host/provider/settings.ts) and what `applyModels` and the image flags
 read from it (host/gateway-service.ts): planning after the plan has been applied changes nothing.
 Applying an operation sets one leaf of the user layer, creating objects on the way.
 */
module ProviderSettings {
  import opened Basics
  import opened JsonText
  import opened CanonicalJson
  import Profile = ProviderProfile

  // ---------------------------------------------------------------------------- equality

  predicate WellFormedTree(t: Tree) {
    t.Branch? ==> WellFormed(t.node) && forall i | 0 <= i < |t.node.values| :: WellFormedTree(t.node.values[i])
  }

  /// `jsonEqual` on settings values: primitives by `Object.is`, the keys of objects sorted, their values key by key.
  predicate JsonEqual(a: Tree, b: Tree)
    requires WellFormedTree(a) && WellFormedTree(b)
  {
    match (a, b)
    case (Leaf(p), Leaf(q)) => p == q
    case (Branch(Array(xs)), Branch(Array(ys))) => |xs| == |ys| && forall i | 0 <= i < |xs| :: JsonEqual(xs[i], ys[i])
    case (Branch(Object(ks, xs)), Branch(Object(ls, ys))) =>
      Sort(ks) == Sort(ls) && forall i | 0 <= i < |ks| && ks[i] in ls :: JsonEqual(xs[i], ys[IndexOf(ls, ks[i])])
    case _ => false
  }

  lemma {:induction false} JsonEqualIsReflexive(a: Tree)
    requires WellFormedTree(a)
    ensures JsonEqual(a, a)
  {
    if a.Branch? {
      forall i | 0 <= i < |a.node.values| ensures JsonEqual(a.node.values[i], a.node.values[i]) {
        JsonEqualIsReflexive(a.node.values[i]);
      }
      if a.node.Object? {
        forall i | 0 <= i < |a.node.keys| ensures IndexOf(a.node.keys, a.node.keys[i]) == i {
          IndexOfDistinct(a.node.keys, i);
        }
      }
    }
  }

  lemma IndexOfDistinct(keys: seq<Text>, i: nat)
    requires NoDuplicates(keys) && i < |keys|
    ensures IndexOf(keys, keys[i]) == i
  {
    var j := IndexOf(keys, keys[i]);
    assert keys[j] == keys[i];
  }

  /// A value that JSON can write: no -0, no bigint, nothing that is not JSON.
  predicate Plain(t: Tree) {
    match t
    case Leaf(p) => Normal(p) == p && Finite(p)
    case Branch(node) => WellFormed(node) && forall i | 0 <= i < |node.values| :: Plain(node.values[i])
  }

  lemma {:induction false} PlainIsPrintable(t: Tree)
    requires Plain(t)
    ensures WellFormedTree(t) && Printable(t)
  {
    if t.Branch? {
      forall i | 0 <= i < |t.node.values| ensures WellFormedTree(t.node.values[i]) && Printable(t.node.values[i]) {
        PlainIsPrintable(t.node.values[i]);
      }
    }
  }

  lemma {:induction false} JsonEqualIffSame(a: Tree, b: Tree)
    requires Plain(a) && Plain(b) && WellFormedTree(a) && WellFormedTree(b)
    ensures JsonEqual(a, b) <==> Same(a, b)
    decreases a
  {
    if a.Leaf? || b.Leaf? || a.node.Array? != b.node.Array? {
      return;
    }
    if a.node.Array? {
      var xs, ys := a.node.values, b.node.values;
      forall i | 0 <= i < |xs| && i < |ys| ensures JsonEqual(xs[i], ys[i]) <==> Same(xs[i], ys[i]) {
        JsonEqualIffSame(xs[i], ys[i]);
      }
      return;
    }
    ObjectsEqualIffSame(a.node, b.node);
  }

  lemma SameKeysIff(ks: seq<Text>, ls: seq<Text>)
    requires NoDuplicates(ks) && NoDuplicates(ls)
    ensures Sort(ks) == Sort(ls) <==> (forall k | k in ks :: k in ls) && (forall k | k in ls :: k in ks)
  {
    if (forall k | k in ks :: k in ls) && (forall k | k in ls :: k in ks) {
      SameKeysSameOrder(ks, ls);
    }
    if Sort(ks) == Sort(ls) {
      assert forall k | k in ks :: k in Sort(ks);
      assert forall k | k in ls :: k in Sort(ls);
    }
  }

  lemma EqualObjectsAreSame(m: Node<Tree>, n: Node<Tree>)
    requires m.Object? && n.Object? && WellFormedTree(Branch(m)) && WellFormedTree(Branch(n))
    requires Sort(m.keys) == Sort(n.keys)
    requires forall i, j | 0 <= i < |m.keys| && 0 <= j < |n.keys| && m.keys[i] == n.keys[j] ::
      JsonEqual(m.values[i], n.values[j]) <==> Same(m.values[i], n.values[j])
    ensures JsonEqual(Branch(m), Branch(n)) ==> Same(Branch(m), Branch(n))
  {
    SameKeysIff(m.keys, n.keys);
    if JsonEqual(Branch(m), Branch(n)) {
      forall i, j | 0 <= i < |m.keys| && 0 <= j < |n.keys| && m.keys[i] == n.keys[j]
        ensures Same(m.values[i], n.values[j])
      {
        IndexOfDistinct(n.keys, j);
        assert JsonEqual(m.values[i], n.values[IndexOf(n.keys, m.keys[i])]);
      }
    }
  }

  lemma SameObjectsAreEqual(m: Node<Tree>, n: Node<Tree>)
    requires m.Object? && n.Object? && WellFormedTree(Branch(m)) && WellFormedTree(Branch(n))
    requires Sort(m.keys) == Sort(n.keys)
    requires forall i, j | 0 <= i < |m.keys| && 0 <= j < |n.keys| && m.keys[i] == n.keys[j] ::
      JsonEqual(m.values[i], n.values[j]) <==> Same(m.values[i], n.values[j])
    ensures Same(Branch(m), Branch(n)) ==> JsonEqual(Branch(m), Branch(n))
  {
  }

  lemma ObjectsEqualIffSame(m: Node<Tree>, n: Node<Tree>)
    requires m.Object? && n.Object? && Plain(Branch(m)) && Plain(Branch(n)) && WellFormedTree(Branch(m))
    requires WellFormedTree(Branch(n))
    ensures JsonEqual(Branch(m), Branch(n)) <==> Same(Branch(m), Branch(n))
    decreases Branch(m), 0
  {
    SameKeysIff(m.keys, n.keys);
    if Sort(m.keys) != Sort(n.keys) {
      return;
    }
    forall i, j | 0 <= i < |m.keys| && 0 <= j < |n.keys| && m.keys[i] == n.keys[j]
      ensures JsonEqual(m.values[i], n.values[j]) <==> Same(m.values[i], n.values[j])
    {
      JsonEqualIffSame(m.values[i], n.values[j]);
    }
    EqualObjectsAreSame(m, n);
    SameObjectsAreEqual(m, n);
  }

  /** On plain JSON `jsonEqual` and the fingerprints' canonical text decide the same equality. */
  lemma JsonEqualIffSameCanonicalText(number: Printer, a: Tree, b: Tree)
    requires PrintsNumbers(number) && Plain(a) && Plain(b)
    ensures WellFormedTree(a) && WellFormedTree(b) && Printable(a) && Printable(b)
    ensures JsonEqual(a, b) <==> Print(number, a) == Print(number, b)
  {
    PlainIsPrintable(a);
    PlainIsPrintable(b);
    JsonEqualIffSame(a, b);
    CanonicalTextIsInjective(number, a, b);
  }

  // ----------------------------------------------------------------------------- objects

  /// `record[key]`, `None` where it is undefined.
  function Get(node: Node<Tree>, key: Text): (value: Option<Tree>)
    requires node.Object? && WellFormed(node)
    ensures value.Some? <==> key in node.keys
  {
    if key in node.keys then Some(node.values[IndexOf(node.keys, key)]) else None
  }

  function Put(node: Node<Tree>, key: Text, value: Tree): (r: Node<Tree>)
    requires node.Object? && WellFormed(node)
    ensures r.Object? && WellFormed(r)
  {
    if key in node.keys then Object(node.keys, node.values[IndexOf(node.keys, key) := value])
    else Object(node.keys + [key], node.values + [value])
  }

  lemma PutThenGet(node: Node<Tree>, key: Text, value: Tree, other: Text)
    requires node.Object? && WellFormed(node)
    ensures Get(Put(node, key, value), key) == Some(value)
    ensures other != key ==> Get(Put(node, key, value), other) == Get(node, other)
  {
    var r := Put(node, key, value);
    IndexOfDistinct(r.keys, IndexOf(r.keys, key));
    if key !in node.keys {
      assert r.keys[|node.keys|] == key;
      IndexOfDistinct(r.keys, |node.keys|);
    }
    if other != key && other in node.keys {
      var i := IndexOf(node.keys, other);
      assert r.keys[i] == other;
      IndexOfDistinct(r.keys, i);
    }
    if other != key && other in r.keys {
      var i :| 0 <= i < |r.keys| && r.keys[i] == other;
      assert i < |node.keys| && node.keys[i] == other;
    }
  }

  // ------------------------------------------------------------------------------ routes

  const PROVIDERS: Text := [0x70, 0x72, 0x6F, 0x76, 0x69, 0x64, 0x65, 0x72, 0x73]
  const CPA: Text := [0x63, 0x70, 0x61]
  const API: Text := [0x61, 0x70, 0x69]
  const BASE_URL: Text := [0x62, 0x61, 0x73, 0x65, 0x55, 0x52, 0x4C]
  const API_KEY_ENV: Text := [0x61, 0x70, 0x69, 0x4B, 0x65, 0x79, 0x45, 0x6E, 0x76]
  const MODELS: Text := [0x6D, 0x6F, 0x64, 0x65, 0x6C, 0x73]

  /// `MANAGED_ROUTE_KEYS`, in the order in which the operations set them.
  const FIELDS: seq<Text> := [API, BASE_URL, API_KEY_ENV, MODELS]

  /// The profile of the `cpa` route.
  datatype Route = Route(api: Text, baseURL: Text, apiKeyEnv: Text, models: Tree)

  function FieldValue(route: Route, i: nat): Tree
    requires i < 4
  {
    if i == 0 then Leaf(Str(route.api))
    else if i == 1 then Leaf(Str(route.baseURL))
    else if i == 2 then Leaf(Str(route.apiKeyEnv))
    else route.models
  }

  function RouteTree(route: Route): Tree {
    Branch(Object(FIELDS, [FieldValue(route, 0), FieldValue(route, 1), FieldValue(route, 2), FieldValue(route, 3)]))
  }

  lemma FieldsAreDistinct()
    ensures NoDuplicates(FIELDS)
  {
    assert |API| != |BASE_URL| && |API| != |API_KEY_ENV| && |API| != |MODELS|;
    assert |BASE_URL| != |API_KEY_ENV| && |BASE_URL| != |MODELS| && |API_KEY_ENV| != |MODELS|;
  }

  lemma RouteTreeIsWellFormed(route: Route)
    requires WellFormedTree(route.models)
    ensures WellFormedTree(RouteTree(route))
    ensures forall i: nat | i < 4 :: Get(RouteTree(route).node, FIELDS[i]) == Some(FieldValue(route, i))
  {
    FieldsAreDistinct();
    var node := RouteTree(route).node;
    forall i: nat | i < 4 ensures WellFormedTree(node.values[i]) && Get(node, FIELDS[i]) == Some(FieldValue(route, i)) {
      IndexOfDistinct(FIELDS, i);
      assert node.values[i] == FieldValue(route, i);
    }
  }

  predicate HasManagedKeys(node: Node<Tree>) {
    node.Object? && Sort(node.keys) == Sort(FIELDS)
  }

  lemma ManagedKeys(node: Node<Tree>)
    requires HasManagedKeys(node) && WellFormed(node)
    ensures forall k :: k in node.keys <==> k in FIELDS
  {
    assert forall k :: k in node.keys <==> k in Sort(node.keys);
    assert forall k :: k in FIELDS <==> k in Sort(FIELDS);
  }

  /// `routeIsExact`.
  predicate RouteIsExact(value: Tree, route: Route)
    requires WellFormedTree(value) && WellFormedTree(route.models)
  {
    RouteTreeIsWellFormed(route);
    value.Branch? && HasManagedKeys(value.node) && JsonEqual(value, RouteTree(route))
  }

  /// A field of a route agrees with the profile.
  predicate FieldAgrees(node: Node<Tree>, route: Route, i: nat)
    requires node.Object? && WellFormedTree(Branch(node)) && WellFormedTree(route.models) && i < 4
  {
    match Get(node, FIELDS[i])
    case None => false
    case Some(value) => if i < 3 then value == FieldValue(route, i) else JsonEqual(value, route.models)
  }

  lemma FieldAgreesMeansEqual(node: Node<Tree>, route: Route, i: nat)
    requires node.Object? && WellFormedTree(Branch(node)) && WellFormedTree(route.models) && i < 4
    requires FIELDS[i] in node.keys
    ensures WellFormedTree(FieldValue(route, i)) && WellFormedTree(Get(node, FIELDS[i]).value)
    ensures FieldAgrees(node, route, i) <==> JsonEqual(Get(node, FIELDS[i]).value, FieldValue(route, i))
  {
  }

  ghost predicate AllAgree(node: Node<Tree>, route: Route)
    requires node.Object? && WellFormedTree(Branch(node)) && WellFormedTree(route.models)
  {
    forall i: nat | i < 4 :: FieldAgrees(node, route, i)
  }

  predicate KeyEqual(m: Node<Tree>, n: Node<Tree>, k: Text)
    requires m.Object? && n.Object? && WellFormedTree(Branch(m)) && WellFormedTree(Branch(n))
  {
    k in m.keys && k in n.keys && JsonEqual(Get(m, k).value, Get(n, k).value)
  }

  lemma KeyEqualAt(m: Node<Tree>, n: Node<Tree>, i: nat)
    requires m.Object? && n.Object? && WellFormedTree(Branch(m)) && WellFormedTree(Branch(n))
    requires i < |m.keys| && m.keys[i] in n.keys
    ensures KeyEqual(m, n, m.keys[i]) <==> JsonEqual(m.values[i], n.values[IndexOf(n.keys, m.keys[i])])
  {
    IndexOfDistinct(m.keys, i);
  }

  /// Objects are compared key by key.
  lemma KeyEqualObjects(m: Node<Tree>, n: Node<Tree>)
    requires m.Object? && n.Object? && WellFormedTree(Branch(m)) && WellFormedTree(Branch(n))
    requires Sort(m.keys) == Sort(n.keys)
    requires forall k | k in m.keys :: KeyEqual(m, n, k)
    ensures JsonEqual(Branch(m), Branch(n))
  {
    forall i | 0 <= i < |m.keys| && m.keys[i] in n.keys
      ensures JsonEqual(m.values[i], n.values[IndexOf(n.keys, m.keys[i])])
    {
      KeyEqualAt(m, n, i);
    }
  }

  lemma EqualObjectsKey(m: Node<Tree>, n: Node<Tree>, k: Text)
    requires m.Object? && n.Object? && WellFormedTree(Branch(m)) && WellFormedTree(Branch(n))
    requires JsonEqual(Branch(m), Branch(n)) && k in m.keys
    ensures KeyEqual(m, n, k)
  {
    SameKeysIff(m.keys, n.keys);
    KeyEqualAt(m, n, IndexOf(m.keys, k));
  }

  lemma FieldIsKeyEqual(node: Node<Tree>, route: Route, i: nat)
    requires HasManagedKeys(node) && WellFormedTree(Branch(node)) && WellFormedTree(route.models) && i < 4
    ensures WellFormedTree(RouteTree(route))
    ensures (FieldAgrees(node, route, i) <==> KeyEqual(node, RouteTree(route).node, FIELDS[i]))
  {
    RouteTreeIsWellFormed(route);
    ManagedKeys(node);
    FieldAgreesMeansEqual(node, route, i);
  }

  /** A route with the managed keys is exact if and only if each of its four fields agrees. */
  lemma ExactIffFieldsAgree(node: Node<Tree>, route: Route)
    requires HasManagedKeys(node) && WellFormedTree(Branch(node)) && WellFormedTree(route.models)
    ensures RouteIsExact(Branch(node), route) <==> AllAgree(node, route)
  {
    RouteTreeIsWellFormed(route);
    ManagedKeys(node);
    var exact := RouteTree(route).node;
    if AllAgree(node, route) {
      forall k | k in node.keys ensures KeyEqual(node, exact, k) {
        FieldIsKeyEqual(node, route, IndexOf(FIELDS, k));
      }
      KeyEqualObjects(node, exact);
      return;
    }
    if JsonEqual(Branch(node), Branch(exact)) {
      forall i: nat | i < 4 ensures FieldAgrees(node, route, i) {
        EqualObjectsKey(node, exact, FIELDS[i]);
        FieldIsKeyEqual(node, route, i);
      }
    }
  }

  // --------------------------------------------------------------------------- the plan

  datatype SettingsError = NamespaceMismatch | InvalidDescriptor | ProviderConflict

  datatype Result<+T> = Ok(value: T) | Err(error: SettingsError)

  /// The redacted view of a settings namespace: the user layer and the resolved value.
  datatype Descriptor = Descriptor(namespaceMatches: bool, revision: int, user: Option<Tree>, value: Option<Tree>)

  datatype SetOp = SetOp(field: Text, value: Tree)

  datatype Plan = Plan(ops: seq<SetOp>, changed: bool)

  predicate WellFormedSection(section: Option<Tree>) {
    section.Some? ==> WellFormedTree(section.value)
  }

  predicate WellFormedDescriptor(d: Descriptor) {
    WellFormedSection(d.user) && WellFormedSection(d.value)
  }

  /// `sectionProviders`: whatever is there must be an object.
  function SectionProviders(section: Option<Tree>): (r: Result<Option<Node<Tree>>>)
    requires WellFormedSection(section)
    ensures r.Ok? && r.value.Some? ==> r.value.value.Object? && WellFormedTree(Branch(r.value.value))
  {
    match section
    case None => Ok(None)
    case Some(Branch(Object(keys, values))) =>
      var node := section.value.node;
      (match Get(node, PROVIDERS)
       case None => Ok(None)
       case Some(Branch(Object(ks, vs))) => Ok(Some(Object(ks, vs)))
       case _ => Err(InvalidDescriptor))
    case _ => Err(InvalidDescriptor)
  }

  /// `routeFrom`.
  function RouteFrom(section: Option<Tree>): (r: Result<Option<Tree>>)
    requires WellFormedSection(section)
    ensures r.Ok? && r.value.Some? ==> WellFormedTree(r.value.value)
  {
    match SectionProviders(section)
    case Err(error) => Err(error)
    case Ok(None) => Ok(None)
    case Ok(Some(providers)) => Ok(Get(providers, CPA))
  }

  /// `validateDescriptor`.
  function ValidateDescriptor(d: Descriptor): Option<SettingsError>
    requires WellFormedDescriptor(d)
  {
    if !d.namespaceMatches then Some(NamespaceMismatch)
    else if d.revision < 0 || d.revision > MAX_SAFE then Some(InvalidDescriptor)
    else if SectionProviders(d.user).Err? || SectionProviders(d.value).Err? then Some(InvalidDescriptor)
    else None
  }

  /// Normalises an endpoint; `None` where it throws.
  type Normalizer = Text -> Option<Text>

  /// `routeHasOwnedIdentity`: the route is ours up to the spelling of its URL and its models.
  predicate HasOwnedIdentity(normalize: Normalizer, value: Tree, route: Route)
    requires WellFormedTree(value)
  {
    && value.Branch? && HasManagedKeys(value.node)
    && Get(value.node, API) == Some(Leaf(Str(route.api)))
    && Get(value.node, API_KEY_ENV) == Some(Leaf(Str(route.apiKeyEnv)))
    && match Get(value.node, BASE_URL)
       case Some(Leaf(Str(text))) => normalize(text) == Some(route.baseURL)
       case _ => false
  }

  /// The user's own route, or `None` when there is none to respect.
  function ExistingRoute(normalize: Normalizer, d: Option<Descriptor>, route: Route): (r: Result<Option<Node<Tree>>>)
    requires d.Some? ==> WellFormedDescriptor(d.value)
    ensures r.Ok? && r.value.Some? ==> WellFormedTree(Branch(r.value.value)) && HasManagedKeys(r.value.value)
  {
    match d
    case None => Ok(None)
    case Some(descriptor) =>
      match ValidateDescriptor(descriptor)
      case Some(error) => Err(error)
      case None =>
        match RouteFrom(descriptor.user).value
        case Some(value) => if HasOwnedIdentity(normalize, value, route) then Ok(Some(value.node))
          else Err(ProviderConflict)
        case None => if RouteFrom(descriptor.value).value.Some? then Err(ProviderConflict) else Ok(None)
  }

  /// Whether `routeOps` sets the field.
  predicate Needed(existing: Option<Node<Tree>>, route: Route, i: nat)
    requires existing.Some? ==> existing.value.Object? && WellFormedTree(Branch(existing.value))
    requires WellFormedTree(route.models) && i < 4
  {
    existing.None? || !FieldAgrees(existing.value, route, i)
  }

  /// The operations on the first `n` fields.
  function RouteOps(existing: Option<Node<Tree>>, route: Route, n: nat): seq<SetOp>
    requires existing.Some? ==> existing.value.Object? && WellFormedTree(Branch(existing.value))
    requires WellFormedTree(route.models) && n <= 4
  {
    if n == 0 then [] else
    RouteOps(existing, route, n - 1) +
      if Needed(existing, route, n - 1) then [SetOp(FIELDS[n - 1], FieldValue(route, n - 1))] else []
  }

  /** `routeOps`: pushes one operation for each field that differs. */
  method BuildRouteOps(existing: Option<Node<Tree>>, route: Route) returns (ops: seq<SetOp>)
    requires existing.Some? ==> existing.value.Object? && WellFormedTree(Branch(existing.value))
    requires WellFormedTree(route.models)
    ensures ops == RouteOps(existing, route, 4)
  {
    ops := [];
    if existing.None? || Get(existing.value, API) != Some(Leaf(Str(route.api))) {
      ops := ops + [SetOp(API, Leaf(Str(route.api)))];
    }
    assert ops == RouteOps(existing, route, 1);
    if existing.None? || Get(existing.value, BASE_URL) != Some(Leaf(Str(route.baseURL))) {
      ops := ops + [SetOp(BASE_URL, Leaf(Str(route.baseURL)))];
    }
    assert ops == RouteOps(existing, route, 2);
    if existing.None? || Get(existing.value, API_KEY_ENV) != Some(Leaf(Str(route.apiKeyEnv))) {
      ops := ops + [SetOp(API_KEY_ENV, Leaf(Str(route.apiKeyEnv)))];
    }
    assert ops == RouteOps(existing, route, 3);
    if existing.None? || Get(existing.value, MODELS).None? ||
      !JsonEqual(Get(existing.value, MODELS).value, route.models) {
      ops := ops + [SetOp(MODELS, route.models)];
    }
  }

  /// `planCpaProviderSettings` for a profile already built.
  function PlanSettings(normalize: Normalizer, d: Option<Descriptor>, route: Route): Result<Plan>
    requires (d.Some? ==> WellFormedDescriptor(d.value)) && WellFormedTree(route.models)
  {
    match ExistingRoute(normalize, d, route)
    case Err(error) => Err(error)
    case Ok(existing) =>
      var noOp := existing.Some? && RouteIsExact(Branch(existing.value), route);
      Ok(Plan(if noOp then [] else RouteOps(existing, route, 4), !noOp))
  }

  lemma {:induction false} NoOpsIffNoneNeeded(existing: Option<Node<Tree>>, route: Route, n: nat)
    requires existing.Some? ==> existing.value.Object? && WellFormedTree(Branch(existing.value))
    requires WellFormedTree(route.models) && n <= 4
    ensures RouteOps(existing, route, n) == [] <==> forall i: nat | i < n :: !Needed(existing, route, i)
  {
    if n > 0 {
      NoOpsIffNoneNeeded(existing, route, n - 1);
    }
  }

  lemma NoOpsIffAllAgree(node: Node<Tree>, route: Route)
    requires node.Object? && WellFormedTree(Branch(node)) && WellFormedTree(route.models)
    ensures RouteOps(Some(node), route, 4) == [] <==> AllAgree(node, route)
  {
    NoOpsIffNoneNeeded(Some(node), route, 4);
    forall i: nat | i < 4 ensures Needed(Some(node), route, i) <==> !FieldAgrees(node, route, i) {
    }
  }

  lemma OpsIffInexact(existing: Option<Node<Tree>>, route: Route)
    requires existing.Some? ==> HasManagedKeys(existing.value) && WellFormedTree(Branch(existing.value))
    requires WellFormedTree(route.models)
    ensures RouteOps(existing, route, 4) == [] <==> existing.Some? && RouteIsExact(Branch(existing.value), route)
  {
    if existing.Some? {
      NoOpsIffAllAgree(existing.value, route);
      ExactIffFieldsAgree(existing.value, route);
      return;
    }
    NoOpsIffNoneNeeded(existing, route, 4);
    assert Needed(existing, route, 0);
  }

  /** A plan reports a change exactly when it has operations. */
  lemma ChangedIffOps(normalize: Normalizer, d: Option<Descriptor>, route: Route)
    requires (d.Some? ==> WellFormedDescriptor(d.value)) && WellFormedTree(route.models)
    requires PlanSettings(normalize, d, route).Ok?
    ensures var plan := PlanSettings(normalize, d, route).value; plan.changed <==> plan.ops != []
  {
    OpsIffInexact(ExistingRoute(normalize, d, route).value, route);
  }

  /**
   A valid descriptor is refused exactly when some `cpa` route is there that is not the user's own route
   for this endpoint and credential.
   */
  lemma ConflictIff(normalize: Normalizer, d: Descriptor, route: Route)
    requires WellFormedDescriptor(d) && WellFormedTree(route.models) && ValidateDescriptor(d) == None
    ensures PlanSettings(normalize, Some(d), route) == Err(ProviderConflict) <==>
      match RouteFrom(d.user)
      case Ok(Some(value)) => !HasOwnedIdentity(normalize, value, route)
      case _ => RouteFrom(d.value) != Ok(None)
    ensures PlanSettings(normalize, Some(d), route).Ok? <==>
      PlanSettings(normalize, Some(d), route) != Err(ProviderConflict)
  {
  }

  lemma {:induction false} OpIsNeeded(existing: Option<Node<Tree>>, route: Route, n: nat, op: SetOp) returns (i: nat)
    requires existing.Some? ==> existing.value.Object? && WellFormedTree(Branch(existing.value))
    requires WellFormedTree(route.models) && n <= 4 && op in RouteOps(existing, route, n)
    ensures i < n && Needed(existing, route, i) && op == SetOp(FIELDS[i], FieldValue(route, i))
  {
    if Needed(existing, route, n - 1) && op == SetOp(FIELDS[n - 1], FieldValue(route, n - 1)) {
      return n - 1;
    }
    i := OpIsNeeded(existing, route, n - 1, op);
  }

  /// A route that a plan respects has the profile's URL, perhaps in another spelling.
  lemma OwnedRouteHasUrl(normalize: Normalizer, d: Descriptor, route: Route)
    requires WellFormedDescriptor(d) && WellFormedTree(route.models) && PlanSettings(normalize, Some(d), route).Ok?
    requires RouteFrom(d.user).Ok? && RouteFrom(d.user).value.Some?
    ensures var value := RouteFrom(d.user).value.value;
      && value.Branch? && HasManagedKeys(value.node)
      && exists url :: Get(value.node, BASE_URL) == Some(Leaf(Str(url))) && normalize(url) == Some(route.baseURL)
  {
  }

  lemma OwnedFieldsAgree(normalize: Normalizer, node: Node<Tree>, route: Route)
    requires node.Object? && WellFormedTree(Branch(node)) && WellFormedTree(route.models)
    requires HasOwnedIdentity(normalize, Branch(node), route)
    ensures !Needed(Some(node), route, 0) && !Needed(Some(node), route, 2)
  {
  }

  lemma OwnedRouteOps(normalize: Normalizer, node: Node<Tree>, route: Route, op: SetOp)
    requires node.Object? && WellFormedTree(Branch(node)) && WellFormedTree(route.models)
    requires HasOwnedIdentity(normalize, Branch(node), route)
    requires op in RouteOps(Some(node), route, 4)
    ensures op == SetOp(MODELS, route.models) || op == SetOp(BASE_URL, Leaf(Str(route.baseURL)))
  {
    var i := OpIsNeeded(Some(node), route, 4, op);
    OwnedFieldsAgree(normalize, node, route);
    assert i == 1 || i == 3;
  }

  /** On a route that is there already, a plan sets at most the URL, which it respells, and the models. */
  lemma OwnedRouteKeepsIdentity(normalize: Normalizer, d: Descriptor, route: Route, op: SetOp)
    requires WellFormedDescriptor(d) && WellFormedTree(route.models) && PlanSettings(normalize, Some(d), route).Ok?
    requires RouteFrom(d.user).Ok? && RouteFrom(d.user).value.Some?
    requires op in PlanSettings(normalize, Some(d), route).value.ops
    ensures op == SetOp(MODELS, route.models) || op == SetOp(BASE_URL, Leaf(Str(route.baseURL)))
    ensures var value := RouteFrom(d.user).value.value;
      && value.Branch? && HasManagedKeys(value.node)
      && exists url :: Get(value.node, BASE_URL) == Some(Leaf(Str(url))) && normalize(url) == Some(route.baseURL)
  {
    OwnedRouteHasUrl(normalize, d, route);
    var node := RouteFrom(d.user).value.value.node;
    assert ExistingRoute(normalize, Some(d), route) == Ok(Some(node));
    OwnedRouteOps(normalize, node, route, op);
  }

  // -------------------------------------------------------------------- applying the plan

  /// The object at a place, or the empty object that a set operation creates there.
  function ObjectAt(t: Option<Tree>): (node: Node<Tree>)
    requires WellFormedSection(t)
    ensures node.Object? && WellFormedTree(Branch(node))
  {
    match t
    case Some(Branch(Object(keys, values))) => t.value.node
    case _ => Object([], [])
  }

  function ProvidersOf(user: Option<Tree>): (node: Node<Tree>)
    requires WellFormedSection(user)
    ensures node.Object? && WellFormedTree(Branch(node))
  {
    ObjectAt(Get(ObjectAt(user), PROVIDERS))
  }

  function CpaOf(user: Option<Tree>): (node: Node<Tree>)
    requires WellFormedSection(user)
    ensures node.Object? && WellFormedTree(Branch(node))
  {
    ObjectAt(Get(ProvidersOf(user), CPA))
  }

  lemma PutIsWellFormed(node: Node<Tree>, key: Text, value: Tree)
    requires node.Object? && WellFormedTree(Branch(node)) && WellFormedTree(value)
    ensures WellFormedTree(Branch(Put(node, key, value)))
  {
  }

  /// One operation: `set` of `['providers', 'cpa', field]`.
  function ApplyOp(user: Option<Tree>, op: SetOp): (r: Option<Tree>)
    requires WellFormedSection(user) && WellFormedTree(op.value)
    ensures r.Some? && WellFormedSection(r)
  {
    PutIsWellFormed(CpaOf(user), op.field, op.value);
    var cpa := Branch(Put(CpaOf(user), op.field, op.value));
    PutIsWellFormed(ProvidersOf(user), CPA, cpa);
    var providers := Branch(Put(ProvidersOf(user), CPA, cpa));
    PutIsWellFormed(ObjectAt(user), PROVIDERS, providers);
    Some(Branch(Put(ObjectAt(user), PROVIDERS, providers)))
  }

  predicate WellFormedOps(ops: seq<SetOp>) {
    forall i | 0 <= i < |ops| :: WellFormedTree(ops[i].value)
  }

  /// The operations of a mutation, in order.
  function ApplyOps(user: Option<Tree>, ops: seq<SetOp>, n: nat): (r: Option<Tree>)
    requires WellFormedSection(user) && WellFormedOps(ops) && n <= |ops|
    ensures WellFormedSection(r)
  {
    if n == 0 then user else ApplyOp(ApplyOps(user, ops, n - 1), ops[n - 1])
  }

  /// What every operation leaves alone: the other providers and the other settings of the layer.
  ghost predicate OnlyCpaDiffers(user: Option<Tree>, user': Option<Tree>)
    requires WellFormedSection(user) && WellFormedSection(user')
  {
    && (forall key | key != CPA :: Get(ProvidersOf(user'), key) == Get(ProvidersOf(user), key))
    && (forall key | key != PROVIDERS :: Get(ObjectAt(user'), key) == Get(ObjectAt(user), key))
  }

  lemma ApplyOpFrame(user: Option<Tree>, op: SetOp)
    requires WellFormedSection(user) && WellFormedTree(op.value)
    ensures var user' := ApplyOp(user, op);
      && OnlyCpaDiffers(user, user')
      && CpaOf(user') == Put(CpaOf(user), op.field, op.value)
      && SectionProviders(user') == Ok(Some(ProvidersOf(user')))
      && RouteFrom(user') == Ok(Some(Branch(CpaOf(user'))))
  {
    var cpa := Branch(Put(CpaOf(user), op.field, op.value));
    var providers := Put(ProvidersOf(user), CPA, cpa);
    var user' := ApplyOp(user, op);
    assert user' == Some(Branch(Put(ObjectAt(user), PROVIDERS, Branch(providers))));
    PutThenGet(ObjectAt(user), PROVIDERS, Branch(providers), PROVIDERS);
    assert ProvidersOf(user') == providers;
    PutThenGet(ProvidersOf(user), CPA, cpa, CPA);
    forall key | key != CPA ensures Get(ProvidersOf(user'), key) == Get(ProvidersOf(user), key) {
      PutThenGet(ProvidersOf(user), CPA, cpa, key);
    }
    forall key | key != PROVIDERS ensures Get(ObjectAt(user'), key) == Get(ObjectAt(user), key) {
      PutThenGet(ObjectAt(user), PROVIDERS, Branch(providers), key);
    }
  }

  lemma {:induction false} ApplyOpsFrame(user: Option<Tree>, ops: seq<SetOp>, n: nat)
    requires WellFormedSection(user) && WellFormedOps(ops) && n <= |ops|
    ensures OnlyCpaDiffers(user, ApplyOps(user, ops, n))
    ensures n > 0 ==> RouteFrom(ApplyOps(user, ops, n)) == Ok(Some(Branch(CpaOf(ApplyOps(user, ops, n)))))
  {
    if n == 0 {
      return;
    }
    ApplyOpsFrame(user, ops, n - 1);
    ApplyOpFrame(ApplyOps(user, ops, n - 1), ops[n - 1]);
  }

  function PutAll(node: Node<Tree>, ops: seq<SetOp>, n: nat): (r: Node<Tree>)
    requires node.Object? && WellFormed(node) && n <= |ops|
    ensures r.Object? && WellFormed(r)
  {
    if n == 0 then node else Put(PutAll(node, ops, n - 1), ops[n - 1].field, ops[n - 1].value)
  }

  lemma {:induction false} CpaAfterOps(user: Option<Tree>, ops: seq<SetOp>, n: nat)
    requires WellFormedSection(user) && WellFormedOps(ops) && n <= |ops|
    ensures CpaOf(ApplyOps(user, ops, n)) == PutAll(CpaOf(user), ops, n)
  {
    if n > 0 {
      CpaAfterOps(user, ops, n - 1);
      ApplyOpFrame(ApplyOps(user, ops, n - 1), ops[n - 1]);
    }
  }

  /// The route after the operations on its first `n` fields.
  function PutFields(node: Node<Tree>, existing: Option<Node<Tree>>, route: Route, n: nat): (r: Node<Tree>)
    requires existing.Some? ==> existing.value.Object? && WellFormedTree(Branch(existing.value))
    requires WellFormedTree(route.models) && node.Object? && WellFormed(node) && n <= 4
    ensures r.Object? && WellFormed(r)
  {
    if n == 0 then node
    else if Needed(existing, route, n - 1)
      then Put(PutFields(node, existing, route, n - 1), FIELDS[n - 1], FieldValue(route, n - 1))
    else PutFields(node, existing, route, n - 1)
  }

  lemma {:induction false} PutAllPrefix(node: Node<Tree>, a: seq<SetOp>, b: seq<SetOp>, n: nat)
    requires node.Object? && WellFormed(node) && n <= |a|
    ensures PutAll(node, a + b, n) == PutAll(node, a, n)
  {
    if n > 0 {
      PutAllPrefix(node, a, b, n - 1);
    }
  }

  lemma PutOneMore(node: Node<Tree>, ops: seq<SetOp>, op: SetOp)
    requires node.Object? && WellFormed(node)
    ensures PutAll(node, ops + [op], |ops| + 1) == Put(PutAll(node, ops, |ops|), op.field, op.value)
  {
    PutAllPrefix(node, ops, [op], |ops|);
  }

  lemma {:induction false} OpsPutFields(node: Node<Tree>, existing: Option<Node<Tree>>, route: Route, n: nat)
    requires existing.Some? ==> existing.value.Object? && WellFormedTree(Branch(existing.value))
    requires WellFormedTree(route.models) && node.Object? && WellFormed(node) && n <= 4
    ensures PutAll(node, RouteOps(existing, route, n), |RouteOps(existing, route, n)|) ==
      PutFields(node, existing, route, n)
  {
    if n == 0 {
      return;
    }
    OpsPutFields(node, existing, route, n - 1);
    if Needed(existing, route, n - 1) {
      PutOneMore(node, RouteOps(existing, route, n - 1), SetOp(FIELDS[n - 1], FieldValue(route, n - 1)));
      return;
    }
    assert RouteOps(existing, route, n) == RouteOps(existing, route, n - 1);
  }

  lemma {:induction false} FieldAfter(node: Node<Tree>, existing: Option<Node<Tree>>, route: Route, n: nat, i: nat)
    requires existing.Some? ==> existing.value.Object? && WellFormedTree(Branch(existing.value))
    requires WellFormedTree(route.models) && node.Object? && WellFormed(node) && n <= 4 && i < 4
    ensures Get(PutFields(node, existing, route, n), FIELDS[i]) ==
      if i < n && Needed(existing, route, i) then Some(FieldValue(route, i)) else Get(node, FIELDS[i])
  {
    if n == 0 {
      return;
    }
    FieldAfter(node, existing, route, n - 1, i);
    FieldsAreDistinct();
    if Needed(existing, route, n - 1) {
      PutThenGet(PutFields(node, existing, route, n - 1), FIELDS[n - 1], FieldValue(route, n - 1), FIELDS[i]);
    }
  }

  lemma {:induction false} KeysAfter(node: Node<Tree>, existing: Option<Node<Tree>>, route: Route, n: nat)
    requires existing.Some? ==> existing.value == node && HasManagedKeys(node) && WellFormedTree(Branch(node))
    requires existing.None? ==> node == Object([], [])
    requires WellFormedTree(route.models) && node.Object? && WellFormed(node) && n <= 4
    ensures PutFields(node, existing, route, n).keys == if existing.Some? then node.keys else FIELDS[..n]
  {
    if n == 0 {
      return;
    }
    KeysAfter(node, existing, route, n - 1);
    if existing.Some? {
      ManagedKeys(node);
      return;
    }
    FieldsAreDistinct();
    assert FIELDS[..n] == FIELDS[..n - 1] + [FIELDS[n - 1]];
    assert FIELDS[n - 1] !in FIELDS[..n - 1];
  }

  lemma {:induction false} PutFieldsWellFormed(node: Node<Tree>, existing: Option<Node<Tree>>, route: Route, n: nat)
    requires existing.Some? ==> existing.value.Object? && WellFormedTree(Branch(existing.value))
    requires WellFormedTree(route.models) && node.Object? && WellFormedTree(Branch(node)) && n <= 4
    ensures WellFormedTree(Branch(PutFields(node, existing, route, n)))
  {
    if n > 0 {
      PutFieldsWellFormed(node, existing, route, n - 1);
      PutIsWellFormed(PutFields(node, existing, route, n - 1), FIELDS[n - 1], FieldValue(route, n - 1));
    }
  }

  /// Setting the fields that differ makes the route exact.
  lemma PutFieldsIsExact(node: Node<Tree>, existing: Option<Node<Tree>>, route: Route)
    requires existing.Some? ==> existing.value == node && HasManagedKeys(node)
    requires existing.None? ==> node == Object([], [])
    requires WellFormedTree(route.models) && node.Object? && WellFormedTree(Branch(node))
    ensures var r := PutFields(node, existing, route, 4);
      WellFormedTree(Branch(r)) && HasManagedKeys(r) && AllAgree(r, route) && RouteIsExact(Branch(r), route)
  {
    var r := PutFields(node, existing, route, 4);
    PutFieldsWellFormed(node, existing, route, 4);
    KeysAfter(node, existing, route, 4);
    assert FIELDS[..4] == FIELDS;
    JsonEqualIsReflexive(route.models);
    forall i: nat | i < 4 ensures FieldAgrees(r, route, i) {
      FieldAfter(node, existing, route, 4, i);
    }
    ExactIffFieldsAgree(r, route);
  }

  // ------------------------------------------------------------------------- the fixpoint

  lemma {:induction false} RouteOpsWellFormed(existing: Option<Node<Tree>>, route: Route, n: nat)
    requires existing.Some? ==> existing.value.Object? && WellFormedTree(Branch(existing.value))
    requires WellFormedTree(route.models) && n <= 4
    ensures WellFormedOps(RouteOps(existing, route, n))
  {
    if n > 0 {
      RouteOpsWellFormed(existing, route, n - 1);
    }
  }

  /// The existing route that a plan respects is the one in the user layer.
  lemma ExistingIsUserRoute(normalize: Normalizer, d: Descriptor, route: Route)
    requires WellFormedDescriptor(d) && ExistingRoute(normalize, Some(d), route).Ok?
    ensures var existing := ExistingRoute(normalize, Some(d), route).value;
      if existing.Some? then CpaOf(d.user) == existing.value else CpaOf(d.user) == Object([], [])
  {
  }

  lemma PlannedRouteIsExact(normalize: Normalizer, d: Descriptor, route: Route)
    requires WellFormedDescriptor(d) && WellFormedTree(route.models) && PlanSettings(normalize, Some(d), route).Ok?
    ensures var ops := PlanSettings(normalize, Some(d), route).value.ops;
      && WellFormedOps(ops)
      && WellFormedTree(Branch(CpaOf(ApplyOps(d.user, ops, |ops|))))
      && RouteIsExact(Branch(CpaOf(ApplyOps(d.user, ops, |ops|))), route)
      && AllAgree(CpaOf(ApplyOps(d.user, ops, |ops|)), route)
  {
    var existing := ExistingRoute(normalize, Some(d), route).value;
    var ops := PlanSettings(normalize, Some(d), route).value.ops;
    ExistingIsUserRoute(normalize, d, route);
    OpsIffInexact(existing, route);
    assert ops == RouteOps(existing, route, 4);
    RouteOpsWellFormed(existing, route, 4);
    CpaAfterOps(d.user, ops, |ops|);
    OpsPutFields(CpaOf(d.user), existing, route, 4);
    PutFieldsIsExact(CpaOf(d.user), existing, route);
  }

  lemma ExactIsOwned(normalize: Normalizer, node: Node<Tree>, route: Route)
    requires WellFormedTree(Branch(node)) && WellFormedTree(route.models) && RouteIsExact(Branch(node), route)
    requires AllAgree(node, route)
    requires normalize(route.baseURL) == Some(route.baseURL)
    ensures HasOwnedIdentity(normalize, Branch(node), route)
  {
    assert FieldAgrees(node, route, 0) && FieldAgrees(node, route, 1) && FieldAgrees(node, route, 2);
  }

  /// A descriptor whose user layer holds the exact route plans nothing.
  lemma ExactPlansNothing(normalize: Normalizer, d: Descriptor, route: Route, node: Node<Tree>)
    requires WellFormedDescriptor(d) && WellFormedTree(route.models) && ValidateDescriptor(d) == None
    requires WellFormedTree(Branch(node)) && RouteFrom(d.user) == Ok(Some(Branch(node)))
    requires HasOwnedIdentity(normalize, Branch(node), route) && RouteIsExact(Branch(node), route)
    ensures PlanSettings(normalize, Some(d), route) == Ok(Plan([], false))
  {
  }

  lemma AppliedStaysValid(normalize: Normalizer, d: Descriptor, route: Route, user': Option<Tree>)
    requires WellFormedDescriptor(d) && ExistingRoute(normalize, Some(d), route).Ok?
    requires WellFormedSection(user') && RouteFrom(user').Ok?
    ensures ValidateDescriptor(d.(user := user')) == None
  {
  }

  /**
   After a plan's operations have been applied to the user layer, the `cpa` route equals the profile,
   every other provider and every other setting is as before, and planning again gives no operations.
   The profile's URL is one that normalising leaves alone.
   */
  lemma PlanningIsAFixpoint(normalize: Normalizer, d: Descriptor, route: Route)
    requires WellFormedDescriptor(d) && WellFormedTree(route.models) && PlanSettings(normalize, Some(d), route).Ok?
    requires normalize(route.baseURL) == Some(route.baseURL)
    ensures var ops := PlanSettings(normalize, Some(d), route).value.ops;
      && WellFormedOps(ops)
      && var user' := ApplyOps(d.user, ops, |ops|);
         && RouteIsExact(Branch(CpaOf(user')), route)
         && OnlyCpaDiffers(d.user, user')
         && PlanSettings(normalize, Some(d.(user := user')), route) == Ok(Plan([], false))
  {
    var ops := PlanSettings(normalize, Some(d), route).value.ops;
    PlannedRouteIsExact(normalize, d, route);
    ApplyOpsFrame(d.user, ops, |ops|);
    ChangedIffOps(normalize, Some(d), route);
    var user' := ApplyOps(d.user, ops, |ops|);
    if ops == [] {
      assert d.(user := user') == d;
      return;
    }
    ExactIsOwned(normalize, CpaOf(user'), route);
    AppliedStaysValid(normalize, d, route, user');
    ExactPlansNothing(normalize, d.(user := user'), route, CpaOf(user'));
  }

  // ---------------------------------------------------------------------- the image flags

  const ID: Text := [0x69, 0x64]
  const NAME: Text := [0x6E, 0x61, 0x6D, 0x65]
  const INPUT: Text := [0x69, 0x6E, 0x70, 0x75, 0x74]
  const TEXT_INPUT: Text := [0x74, 0x65, 0x78, 0x74]
  const IMAGE_INPUT: Text := [0x69, 0x6D, 0x61, 0x67, 0x65]

  function ModelTree(m: Profile.Model): Tree {
    Branch(Object([ID, NAME, INPUT], [Leaf(Str(m.id)), Leaf(Str(m.name)),
      Branch(Array(if m.image then [Leaf(Str(TEXT_INPUT)), Leaf(Str(IMAGE_INPUT))] else [Leaf(Str(TEXT_INPUT))]))]))
  }

  function ModelsTree(ms: seq<Profile.Model>): Tree {
    Branch(Array(seq(|ms|, i requires 0 <= i < |ms| => ModelTree(ms[i]))))
  }

  /// The id of a stored model whose input lists images.
  function ImageId(item: Tree): Option<Text>
    requires WellFormedTree(item)
  {
    match item
    case Branch(Object(keys, values)) =>
      (match (Get(item.node, ID), Get(item.node, INPUT))
       case (Some(Leaf(Str(id))), Some(Branch(Array(inputs)))) =>
         if id != [] && Leaf(Str(IMAGE_INPUT)) in inputs then Some(id) else None
       case _ => None)
    case _ => None
  }

  function ImageIds(items: seq<Tree>): set<Text>
    requires forall i | 0 <= i < |items| :: WellFormedTree(items[i])
  {
    set i | 0 <= i < |items| && ImageId(items[i]).Some? :: ImageId(items[i]).value
  }

  /// The stored models of a route, if it is for this endpoint and credential.
  function StoredIn(normalize: Normalizer, route: Node<Tree>, endpoint: Text, credential: Text,
                    api: Text): (items: Option<seq<Tree>>)
    requires route.Object? && WellFormedTree(Branch(route))
    ensures items.Some? ==> forall i | 0 <= i < |items.value| :: WellFormedTree(items.value[i])
  {
    if Get(route, API) != Some(Leaf(Str(api))) || Get(route, API_KEY_ENV) != Some(Leaf(Str(credential))) then None else
    match (Get(route, BASE_URL), Get(route, MODELS))
    case (Some(Leaf(Str(url))), Some(Branch(Array(items)))) =>
      assert WellFormedTree(route.values[IndexOf(route.keys, MODELS)]);
      if normalize(url).None? || normalize(endpoint).None? || normalize(url) != normalize(endpoint) then None
        else Some(items)
    case _ => None
  }

  function StoredModels(normalize: Normalizer, user: Option<Tree>, endpoint: Text, credential: Text,
                        api: Text): Option<seq<Tree>>
    requires WellFormedSection(user)
  {
    StoredIn(normalize, CpaOf(user), endpoint, credential, api)
  }

  /** `configuredImageModels`. */
  method ConfiguredImageModels(normalize: Normalizer, user: Option<Tree>, endpoint: Text, credential: Text, api: Text)
    returns (ids: set<Text>)
    requires WellFormedSection(user)
    ensures var items := StoredModels(normalize, user, endpoint, credential, api);
      ids == if items.Some? then ImageIds(items.value) else {}
  {
    ids := {};
    var items := StoredModels(normalize, user, endpoint, credential, api);
    if items.None? {
      return;
    }
    for index := 0 to |items.value|
      invariant ids == ImageIds(items.value[..index])
    {
      var id := ImageId(items.value[index]);
      if id.Some? {
        ids := ids + {id.value};
      }
      OneMoreItem(items.value, index);
    }
    assert items.value[..|items.value|] == items.value;
  }

  lemma OneMoreItem(items: seq<Tree>, n: nat)
    requires n < |items| && forall i | 0 <= i < |items| :: WellFormedTree(items[i])
    ensures ImageIds(items[..n + 1]) ==
      ImageIds(items[..n]) + if ImageId(items[n]).Some? then {ImageId(items[n]).value} else {}
  {
    var few, more := items[..n], items[..n + 1];
    forall i | 0 <= i < n ensures more[i] == few[i] {
    }
    assert more[n] == items[n];
    forall id | id in ImageIds(few) ensures id in ImageIds(more) {
      var i :| 0 <= i < |few| && ImageId(few[i]).Some? && ImageId(few[i]).value == id;
      assert more[i] == few[i];
    }
  }

  lemma EqualInputsAgree(xs: seq<Tree>, ys: seq<Tree>)
    requires forall i | 0 <= i < |xs| :: WellFormedTree(xs[i])
    requires forall i | 0 <= i < |ys| :: WellFormedTree(ys[i])
    requires |xs| == |ys| && forall i | 0 <= i < |xs| :: JsonEqual(xs[i], ys[i])
    ensures Leaf(Str(IMAGE_INPUT)) in xs <==> Leaf(Str(IMAGE_INPUT)) in ys
  {
    if Leaf(Str(IMAGE_INPUT)) in xs {
      var i :| 0 <= i < |xs| && xs[i] == Leaf(Str(IMAGE_INPUT));
      assert JsonEqual(xs[i], ys[i]);
      assert ys[i] == Leaf(Str(IMAGE_INPUT));
    }
    if Leaf(Str(IMAGE_INPUT)) in ys {
      var i :| 0 <= i < |ys| && ys[i] == Leaf(Str(IMAGE_INPUT));
      assert JsonEqual(xs[i], ys[i]);
      assert xs[i] == Leaf(Str(IMAGE_INPUT));
    }
  }

  lemma EqualItemsHaveEqualFields(m: Node<Tree>, n: Node<Tree>, key: Text)
    requires m.Object? && n.Object? && WellFormedTree(Branch(m)) && WellFormedTree(Branch(n))
    requires JsonEqual(Branch(m), Branch(n))
    ensures Get(m, key).Some? <==> Get(n, key).Some?
    ensures Get(m, key).Some? ==> JsonEqual(Get(m, key).value, Get(n, key).value)
  {
    SameKeysIff(m.keys, n.keys);
    if key in m.keys {
      EqualObjectsKey(m, n, key);
    }
  }

  /// Equal values have the same image flag.
  lemma EqualItemsAgree(a: Tree, b: Tree)
    requires WellFormedTree(a) && WellFormedTree(b) && JsonEqual(a, b)
    ensures ImageId(a) == ImageId(b)
  {
    if a.Leaf? || b.Leaf? || a.node.Array? || b.node.Array? {
      return;
    }
    EqualItemsHaveEqualFields(a.node, b.node, ID);
    EqualItemsHaveEqualFields(a.node, b.node, INPUT);
    match (Get(a.node, INPUT), Get(b.node, INPUT))
    case (Some(Branch(Array(xs))), Some(Branch(Array(ys)))) => EqualInputsAgree(xs, ys);
    case _ =>
  }

  lemma EqualModelsAgree(xs: seq<Tree>, ys: seq<Tree>)
    requires WellFormedTree(Branch(Array(xs))) && WellFormedTree(Branch(Array(ys)))
    requires JsonEqual(Branch(Array(xs)), Branch(Array(ys)))
    ensures ImageIds(xs) == ImageIds(ys)
  {
    forall i | 0 <= i < |xs| ensures ImageId(xs[i]) == ImageId(ys[i]) {
      EqualItemsAgree(xs[i], ys[i]);
    }
  }

  lemma ModelTreeReads(m: Profile.Model)
    ensures WellFormedTree(ModelTree(m))
    ensures ImageId(ModelTree(m)) == if m.image && m.id != [] then Some(m.id) else None
  {
    var node := ModelTree(m).node;
    assert |ID| != |NAME| && |ID| != |INPUT| && |NAME| != |INPUT|;
    forall i | 0 <= i < 3 ensures WellFormedTree(node.values[i]) {
    }
    IndexOfDistinct(node.keys, 0);
    IndexOfDistinct(node.keys, 2);
    assert node.keys[0] == ID && node.keys[2] == INPUT;
    assert TEXT_INPUT[0] != IMAGE_INPUT[0];
  }

  /// The ids flagged in a list of models.
  function FlaggedIds(ms: seq<Profile.Model>): set<Text> {
    set i | 0 <= i < |ms| && ms[i].image && ms[i].id != [] :: ms[i].id
  }

  lemma ModelsTreeReads(ms: seq<Profile.Model>)
    ensures WellFormedTree(ModelsTree(ms)) && ImageIds(ModelsTree(ms).node.values) == FlaggedIds(ms)
  {
    var items := ModelsTree(ms).node.values;
    forall i | 0 <= i < |ms|
      ensures WellFormedTree(items[i]) && ImageId(items[i]) == if ms[i].image && ms[i].id != []
        then Some(ms[i].id) else None
    {
      ModelTreeReads(ms[i]);
    }
    forall id | id in FlaggedIds(ms) ensures id in ImageIds(items) {
      var i :| 0 <= i < |ms| && ms[i].image && ms[i].id != [] && ms[i].id == id;
      assert ImageId(items[i]) == Some(id);
    }
  }

  lemma ExactRouteStores(normalize: Normalizer, cpa: Node<Tree>, route: Route, endpoint: Text)
    requires cpa.Object? && WellFormedTree(Branch(cpa)) && WellFormedTree(route.models) && AllAgree(cpa, route)
    requires route.models.Branch? && route.models.node.Array?
    requires normalize(route.baseURL) == Some(route.baseURL) == normalize(endpoint)
    ensures var items := StoredIn(normalize, cpa, endpoint, route.apiKeyEnv, route.api);
      items.Some? && WellFormedTree(Branch(Array(items.value))) && JsonEqual(Branch(Array(items.value)), route.models)
  {
    assert FieldAgrees(cpa, route, 0) && FieldAgrees(cpa, route, 1) && FieldAgrees(cpa, route, 2) &&
      FieldAgrees(cpa, route, 3);
  }

  /** After a plan has been applied, the image flags read back are those of the profile's models. */
  lemma AppliedModelsRead(normalize: Normalizer, d: Descriptor, route: Route, endpoint: Text, ms: seq<Profile.Model>)
    requires WellFormedDescriptor(d) && route.models == ModelsTree(ms) && WellFormedTree(route.models)
    requires PlanSettings(normalize, Some(d), route).Ok?
    requires normalize(route.baseURL) == Some(route.baseURL) == normalize(endpoint)
    ensures var ops := PlanSettings(normalize, Some(d), route).value.ops;
      && WellFormedOps(ops)
      && var items := StoredModels(normalize, ApplyOps(d.user, ops, |ops|), endpoint, route.apiKeyEnv, route.api);
         items.Some? && ImageIds(items.value) == FlaggedIds(ms)
  {
    var ops := PlanSettings(normalize, Some(d), route).value.ops;
    PlannedRouteIsExact(normalize, d, route);
    var cpa := CpaOf(ApplyOps(d.user, ops, |ops|));
    ExactRouteStores(normalize, cpa, route, endpoint);
    ModelsTreeReads(ms);
    EqualModelsAgree(StoredIn(normalize, cpa, endpoint, route.apiKeyEnv, route.api).value, route.models.node.values);
  }

  /// The models whose first declaration asks for images.
  ghost predicate DeclaredWithImages(cs: seq<Profile.Capability>, id: Text) {
    exists c :: c in cs && Profile.IsFirst(cs, c) && c.id == id && c.imageInput == Some(true)
  }

  lemma FirstIsUnique(cs: seq<Profile.Capability>, c: Profile.Capability, d: Profile.Capability)
    requires Profile.IsFirst(cs, c) && Profile.IsFirst(cs, d) && c.id == d.id
    ensures c == d
  {
    var i :| 0 <= i < |cs| && cs[i] == c && forall j | 0 <= j < i :: cs[j].id != c.id;
    var k :| 0 <= k < |cs| && cs[k] == d && forall j | 0 <= j < k :: cs[j].id != d.id;
    assert i <= k && k <= i;
  }

  /// The profile's models for the declarations and image models of a request.
  function ModelsFor(cs: seq<Profile.Capability>, images: seq<Text>): Profile.Result<seq<Profile.Model>> {
    match Profile.Normalized(cs)
    case Err(error) => Profile.Err(error)
    case Ok(kept) =>
      match Profile.NormalizedImages(images)
      case Err(error) => Profile.Err(error)
      case Ok(ids) => Profile.Built(kept, ids)
  }

  lemma FlagIsOfFirst(cs: seq<Profile.Capability>, images: seq<Text>, id: Text)
    requires ModelsFor(cs, images).Ok?
    ensures id in FlaggedIds(ModelsFor(cs, images).value) <==> DeclaredWithImages(cs, id) || id in images
  {
    var kept, ids := Profile.Normalized(cs).value, Profile.NormalizedImages(images).value;
    var ms := Profile.Built(kept, ids).value;
    Profile.NormalizedIsFirstWins(cs);
    Profile.NormalizedImagesAreSorted(images);
    Profile.BuiltIff(kept, ids);
    if id in FlaggedIds(ms) {
      var i :| 0 <= i < |ms| && ms[i].image && ms[i].id != [] && ms[i].id == id;
      FirstIsDeclared(cs, kept[i]);
      assert id in images || DeclaredWithImages(cs, id);
    }
    if DeclaredWithImages(cs, id) {
      DeclaredIsFlagged(cs, ids, id);
    }
    if id in images {
      var i :| 0 <= i < |Profile.Ids(kept)| && Profile.Ids(kept)[i] == id;
      FirstIsDeclared(cs, kept[i]);
      var k :| 0 <= k < |cs| && cs[k] == kept[i];
      assert Profile.ValidCapability(cs[k]);
      assert ms[i].image && ms[i].id == id;
    }
  }

  lemma DeclaredIsFlagged(cs: seq<Profile.Capability>, ids: seq<Text>, id: Text)
    requires Profile.Normalized(cs).Ok? && Profile.Built(Profile.Normalized(cs).value, ids).Ok?
    requires DeclaredWithImages(cs, id)
    ensures id in FlaggedIds(Profile.Built(Profile.Normalized(cs).value, ids).value)
  {
    var kept := Profile.Normalized(cs).value;
    Profile.NormalizedIsFirstWins(cs);
    Profile.BuiltIff(kept, ids);
    var c :| c in cs && Profile.IsFirst(cs, c) && c.id == id && c.imageInput == Some(true);
    var d :| d in kept && d.id == c.id;
    FirstIsUnique(cs, c, d);
    var i :| 0 <= i < |kept| && kept[i] == d;
    var k :| 0 <= k < |cs| && cs[k] == c;
    assert Profile.ValidCapability(cs[k]);
    assert Profile.Built(kept, ids).value[i].image && Profile.Built(kept, ids).value[i].id == id;
  }

  lemma FirstIsDeclared(cs: seq<Profile.Capability>, c: Profile.Capability)
    requires Profile.IsFirst(cs, c)
    ensures c in cs
  {
  }

  datatype Applied = RevisionConflict | Rejected(error: SettingsError) | Applied(user: Option<Tree>, changed: bool)

  /// `applyModels`: a stale revision is refused, and a plan is applied only when it changes something.
  function ApplyModels(normalize: Normalizer, d: Descriptor, expectedRevision: int, route: Route): Applied
    requires WellFormedDescriptor(d) && WellFormedTree(route.models)
  {
    if expectedRevision != d.revision then RevisionConflict else
    match PlanSettings(normalize, Some(d), route)
    case Err(error) => Rejected(error)
    case Ok(plan) =>
      if !plan.changed then Applied(d.user, false) else
      RouteOpsWellFormed(ExistingRoute(normalize, Some(d), route).value, route, 4);
      Applied(ApplyOps(d.user, plan.ops, |plan.ops|), true)
  }

  lemma ApplyModelsApplies(normalize: Normalizer, d: Descriptor, expectedRevision: int, route: Route)
    requires WellFormedDescriptor(d) && WellFormedTree(route.models)
    requires ApplyModels(normalize, d, expectedRevision, route).Applied?
    ensures PlanSettings(normalize, Some(d), route).Ok?
    ensures var ops := PlanSettings(normalize, Some(d), route).value.ops;
      WellFormedOps(ops) && ApplyModels(normalize, d, expectedRevision, route).user == ApplyOps(d.user, ops, |ops|)
  {
    ChangedIffOps(normalize, Some(d), route);
    RouteOpsWellFormed(ExistingRoute(normalize, Some(d), route).value, route, 4);
  }

  /**
   Through the whole of `applyModels`: what is read back afterwards are exactly the ids whose first
   declaration in the request asked for images, and those in the list of image models, if there is one.
   */
  lemma ImageFlagsReadBack(normalize: Normalizer, d: Descriptor, expectedRevision: int, route: Route, endpoint: Text,
                           cs: seq<Profile.Capability>, images: seq<Text>)
    requires ModelsFor(cs, images).Ok? && route.models == ModelsTree(ModelsFor(cs, images).value)
    requires WellFormedTree(route.models)
    requires WellFormedDescriptor(d) && ApplyModels(normalize, d, expectedRevision, route).Applied?
    requires normalize(route.baseURL) == Some(route.baseURL) == normalize(endpoint)
    ensures var user' := ApplyModels(normalize, d, expectedRevision, route).user;
      && WellFormedSection(user')
      && var items := StoredModels(normalize, user', endpoint, route.apiKeyEnv, route.api);
         items.Some? && forall id :: id in ImageIds(items.value) <==> DeclaredWithImages(cs, id) || id in images
  {
    ApplyModelsApplies(normalize, d, expectedRevision, route);
    AppliedModelsRead(normalize, d, route, endpoint, ModelsFor(cs, images).value);
    forall id: Text
      ensures id in FlaggedIds(ModelsFor(cs, images).value) <==> DeclaredWithImages(cs, id) || id in images
    {
      FlagIsOfFirst(cs, images, id);
    }
  }
}
