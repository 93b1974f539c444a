/**
 What the settings planner accepts and `applyModels` answers, in terms of the keys and values of the settings
 themselves: each refusal with its exact condition, and what is left alone.
 */
module SettingsOutcomes {
  import opened Basics
  import opened JsonText
  import opened CanonicalJson
  import opened ProviderSettings
  import Profile = ProviderProfile

  /// The object has the key with this value.
  ghost predicate Holds(node: Node<Tree>, key: Text, value: Tree)
    requires node.Object? && WellFormed(node)
  {
    exists i | 0 <= i < |node.keys| :: node.keys[i] == key && node.values[i] == value
  }

  lemma GetIffHolds(node: Node<Tree>, key: Text, value: Tree)
    requires node.Object? && WellFormed(node)
    ensures Get(node, key) == Some(value) <==> Holds(node, key, value)
  {
    if Holds(node, key, value) {
      var i: nat :| i < |node.keys| && node.keys[i] == key && node.values[i] == value;
      IndexOfDistinct(node.keys, i);
    }
  }

  // ------------------------------------------------------------------------- descriptors

  predicate IsObject(t: Tree) {
    t.Branch? && t.node.Object?
  }

  /// A section that is not an object, or whose providers are not one.
  ghost predicate Unreadable(section: Option<Tree>)
    requires WellFormedSection(section)
  {
    section.Some? && (IsObject(section.value) ==>
      exists providers :: Holds(section.value.node, PROVIDERS, providers) && !IsObject(providers))
  }

  lemma UnreadableIff(section: Option<Tree>)
    requires WellFormedSection(section)
    ensures SectionProviders(section).Err? <==> Unreadable(section)
    ensures SectionProviders(section).Err? ==> SectionProviders(section) == Err(InvalidDescriptor)
  {
    if section.Some? && IsObject(section.value) {
      var node := section.value.node;
      forall value ensures Get(node, PROVIDERS) == Some(value) <==> Holds(node, PROVIDERS, value) {
        GetIffHolds(node, PROVIDERS, value);
      }
    }
  }

  /** A descriptor is refused for its namespace first, and then for its revision and its two sections. */
  lemma RefusedDescriptorIff(d: Descriptor)
    requires WellFormedDescriptor(d)
    ensures ValidateDescriptor(d) == Some(NamespaceMismatch) <==> !d.namespaceMatches
    ensures ValidateDescriptor(d) == Some(InvalidDescriptor) <==>
      d.namespaceMatches && (d.revision < 0 || d.revision > MAX_SAFE || Unreadable(d.user) || Unreadable(d.value))
    ensures ValidateDescriptor(d) != Some(ProviderConflict)
  {
    UnreadableIff(d.user);
    UnreadableIff(d.value);
  }

  // ------------------------------------------------------------------------------- routes

  ghost predicate HasUrl(normalize: Normalizer, node: Node<Tree>, url: Option<Text>)
    requires node.Object? && WellFormed(node)
  {
    url.Some? && exists text :: Holds(node, BASE_URL, Leaf(Str(text))) && normalize(text) == url
  }

  lemma UrlIff(normalize: Normalizer, node: Node<Tree>, url: Option<Text>)
    requires node.Object? && WellFormed(node)
    ensures HasUrl(normalize, node, url) <==>
      (url.Some? && exists text :: Get(node, BASE_URL) == Some(Leaf(Str(text))) && normalize(text) == url)
  {
    forall value ensures Get(node, BASE_URL) == Some(value) <==> Holds(node, BASE_URL, value) {
      GetIffHolds(node, BASE_URL, value);
    }
  }

  /**
   A route is ours exactly when it has the four managed keys and no other, our API and credential, and a URL
   that normalises to ours; its models do not matter.
   */
  lemma OwnedIff(normalize: Normalizer, value: Tree, route: Route)
    requires WellFormedTree(value)
    ensures HasOwnedIdentity(normalize, value, route) <==>
      && IsObject(value)
      && (forall k :: k in value.node.keys <==> k in FIELDS)
      && Holds(value.node, API, Leaf(Str(route.api)))
      && Holds(value.node, API_KEY_ENV, Leaf(Str(route.apiKeyEnv)))
      && HasUrl(normalize, value.node, Some(route.baseURL))
  {
    if IsObject(value) {
      FieldsAreDistinct();
      SameKeysIff(value.node.keys, FIELDS);
      GetIffHolds(value.node, API, Leaf(Str(route.api)));
      GetIffHolds(value.node, API_KEY_ENV, Leaf(Str(route.apiKeyEnv)));
      UrlIff(normalize, value.node, Some(route.baseURL));
    }
  }

  // ------------------------------------------------------------------------- `applyModels`

  /**
   `applyModels` answers a revision conflict exactly when the expected revision is not the descriptor's,
   whatever else is wrong with it; otherwise it fails as planning does, or applies.
   */
  lemma ApplyModelsOutcome(normalize: Normalizer, d: Descriptor, expectedRevision: int, route: Route)
    requires WellFormedDescriptor(d) && WellFormedTree(route.models)
    ensures var r := ApplyModels(normalize, d, expectedRevision, route);
      && (r == RevisionConflict <==> expectedRevision != d.revision)
      && (forall error :: r == Rejected(error) <==>
            expectedRevision == d.revision && PlanSettings(normalize, Some(d), route) == ProviderSettings.Err(error))
      && (r.Applied? <==> expectedRevision == d.revision && PlanSettings(normalize, Some(d), route).Ok?)
  {
  }

  /** It changes nothing exactly when the user's own route is the profile's already. */
  lemma UnchangedIffExact(normalize: Normalizer, d: Descriptor, expectedRevision: int, route: Route)
    requires WellFormedDescriptor(d) && WellFormedTree(route.models)
    requires ApplyModels(normalize, d, expectedRevision, route).Applied?
    ensures var r := ApplyModels(normalize, d, expectedRevision, route);
      && (!r.changed <==> RouteFrom(d.user).value.Some? && RouteIsExact(RouteFrom(d.user).value.value, route))
      && (!r.changed ==> r.user == d.user)
      && (r.changed ==> WellFormedSection(r.user) && OnlyCpaDiffers(d.user, r.user))
  {
    var ops := PlanSettings(normalize, Some(d), route).value.ops;
    ApplyModelsApplies(normalize, d, expectedRevision, route);
    ApplyOpsFrame(d.user, ops, |ops|);
  }

  // ---------------------------------------------------------------------------- reading back

  /**
   Models are read only from a route with this API, this credential and a URL that normalises as the
   endpoint does.
   */
  lemma StoredInIff(normalize: Normalizer, route: Node<Tree>, endpoint: Text, credential: Text, api: Text,
                    items: seq<Tree>)
    requires route.Object? && WellFormedTree(Branch(route))
    ensures StoredIn(normalize, route, endpoint, credential, api) == Some(items) <==>
      && Holds(route, API, Leaf(Str(api))) && Holds(route, API_KEY_ENV, Leaf(Str(credential)))
      && HasUrl(normalize, route, normalize(endpoint)) && Holds(route, MODELS, Branch(Array(items)))
  {
    GetIffHolds(route, API, Leaf(Str(api)));
    GetIffHolds(route, API_KEY_ENV, Leaf(Str(credential)));
    UrlIff(normalize, route, normalize(endpoint));
    GetIffHolds(route, MODELS, Branch(Array(items)));
  }

  /** A stored model takes images exactly when it has an id that is not empty and its inputs list images. */
  lemma ImageIdIff(item: Tree, id: Text)
    requires WellFormedTree(item)
    ensures ImageId(item) == Some(id) <==>
      && IsObject(item) && id != [] && Holds(item.node, ID, Leaf(Str(id)))
      && exists inputs :: Holds(item.node, INPUT, Branch(Array(inputs))) && Leaf(Str(IMAGE_INPUT)) in inputs
  {
    if IsObject(item) {
      GetIffHolds(item.node, ID, Leaf(Str(id)));
      forall value ensures Get(item.node, INPUT) == Some(value) <==> Holds(item.node, INPUT, value) {
        GetIffHolds(item.node, INPUT, value);
      }
    }
  }

  // ---------------------------------------------------------------------- what a request may say

  predicate WithinLimits(c: Profile.Capability) {
    1 <= |c.id| <= 128 && (c.name == None || 1 <= |c.name.value| <= 256)
  }

  /**
   A request gives a profile exactly when it declares at most 256 models, each with an id of 1 to 128 code units
   and a name, if any, of 1 to 256, and lists at most 256 image models, each of them declared.
   */
  lemma RequestAcceptedIff(cs: seq<Profile.Capability>, images: seq<Text>)
    ensures ModelsFor(cs, images).Ok? <==>
      && |cs| <= 256 && (forall c | c in cs :: WithinLimits(c))
      && |images| <= 256 && (forall id | id in images :: exists c :: c in cs && c.id == id)
  {
    if exists i | 0 <= i < |cs| :: !Profile.ValidCapability(cs[i]) {
      var i :| 0 <= i < |cs| && !Profile.ValidCapability(cs[i]);
      assert cs[i] in cs && !WithinLimits(cs[i]);
      return;
    }
    assert forall i | 0 <= i < |cs| :: cs[i] in cs && WithinLimits(cs[i]);
    if |cs| <= 256 && |images| <= 256 {
      DeclaredIffKept(cs, images);
    }
  }

  lemma DeclaredIffKept(cs: seq<Profile.Capability>, images: seq<Text>)
    requires Profile.Normalized(cs).Ok? && |images| <= 256
    ensures ModelsFor(cs, images).Ok? <==> forall id | id in images :: exists c :: c in cs && c.id == id
  {
    var kept := Profile.Normalized(cs).value;
    forall id ensures id in Profile.Ids(kept) <==> exists c :: c in cs && c.id == id {
      KeptIds(cs, id);
    }
    if Profile.NormalizedImages(images).Ok? {
      Profile.NormalizedImagesAreSorted(images);
      Profile.BuiltIff(kept, Profile.NormalizedImages(images).value);
      return;
    }
    var i :| 0 <= i < |images| && !Profile.ValidId(images[i]);
    forall c | c in cs ensures c.id != images[i] {
      var k :| 0 <= k < |cs| && cs[k] == c;
      assert Profile.ValidCapability(cs[k]);
    }
    assert images[i] in images;
  }

  lemma KeptIds(cs: seq<Profile.Capability>, id: Text)
    requires Profile.Normalized(cs).Ok?
    ensures id in Profile.Ids(Profile.Normalized(cs).value) <==> exists c :: c in cs && c.id == id
  {
    var kept := Profile.Normalized(cs).value;
    Profile.NormalizedIsFirstWins(cs);
    if id in Profile.Ids(kept) {
      var i :| 0 <= i < |kept| && Profile.Ids(kept)[i] == id;
      FirstIsDeclared(cs, kept[i]);
    }
    if c :| c in cs && c.id == id {
      var d :| d in kept && d.id == c.id;
      var i :| 0 <= i < |kept| && kept[i] == d;
      assert Profile.Ids(kept)[i] == id;
    }
  }
}
