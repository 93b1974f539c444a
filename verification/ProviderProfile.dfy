/**
 The generated provider profile (host/provider/profile.ts): model declarations are deduplicated,
 the first one winning, then sorted, and turned into model entries with their image flag.
 */
module ProviderProfile {
  import opened Basics
  import opened JsonText
  import opened CanonicalJson

  const MAX_MODELS: nat := 256
  const MAX_MODEL_ID: nat := 128
  const MAX_MODEL_NAME: nat := 256
  const MAX_IMAGE_CAPABILITIES: nat := 256

  /// An operator's declaration of a model.
  datatype Capability = Capability(id: Text, name: Option<Text>, imageInput: Option<bool>)

  /// An entry of the generated profile; `image` says whether its input lists images.
  datatype Model = Model(id: Text, name: Text, image: bool)

  datatype ProfileError = InvalidModelCapability | InvalidModel | UnknownImageModel(model: Text)

  datatype Result<+T> = Ok(value: T) | Err(error: ProfileError)

  // ------------------------------------------------------------------------ capabilities

  predicate ValidCapability(c: Capability) {
    0 < |c.id| <= MAX_MODEL_ID && (c.name.Some? ==> 0 < |c.name.value| <= MAX_MODEL_NAME)
  }

  function Ids(cs: seq<Capability>): (ids: seq<Text>)
    ensures |ids| == |cs| && forall i | 0 <= i < |cs| :: ids[i] == cs[i].id
  {
    seq(|cs|, i requires 0 <= i < |cs| => cs[i].id)
  }

  /// The declarations that are the first of their id, in order.
  function Firsts(cs: seq<Capability>, n: nat): seq<Capability>
    requires n <= |cs|
  {
    if n == 0 then [] else
    var before := Firsts(cs, n - 1);
    if cs[n - 1].id in Ids(before) then before else before + [cs[n - 1]]
  }

  function InsertById(c: Capability, sorted: seq<Capability>): (r: seq<Capability>)
    ensures |r| == |sorted| + 1
  {
    if sorted == [] then [c]
    else if Less(c.id, sorted[0].id) then [c] + sorted
    else [sorted[0]] + InsertById(c, sorted[1..])
  }

  /// `sort` by id.
  function SortById(cs: seq<Capability>): (r: seq<Capability>)
    ensures |r| == |cs|
  {
    if cs == [] then [] else InsertById(cs[0], SortById(cs[1..]))
  }

  function Normalized(cs: seq<Capability>): Result<seq<Capability>> {
    if |cs| > MAX_MODELS then Err(InvalidModelCapability)
    else if exists i | 0 <= i < |cs| :: !ValidCapability(cs[i]) then Err(InvalidModel)
    else Ok(SortById(Firsts(cs, |cs|)))
  }

  /** `normalizeCapabilities` for a list of declarations. */
  method NormalizeCapabilities(cs: seq<Capability>) returns (r: Result<seq<Capability>>)
    ensures r == Normalized(cs)
  {
    if |cs| > MAX_MODELS {
      return Err(InvalidModelCapability);
    }
    var byId: seq<Capability> := [];
    for index := 0 to |cs|
      invariant byId == Firsts(cs, index)
      invariant forall i | 0 <= i < index :: ValidCapability(cs[i])
    {
      if !ValidCapability(cs[index]) {
        return Err(InvalidModel);
      }
      if cs[index].id !in Ids(byId) {
        byId := byId + [cs[index]];
      }
    }
    r := Ok(SortById(byId));
  }

  /// `c` is the declaration of its id that comes first.
  ghost predicate IsFirst(cs: seq<Capability>, c: Capability) {
    exists i | 0 <= i < |cs| :: cs[i] == c && forall j | 0 <= j < i :: cs[j].id != c.id
  }

  lemma {:induction false} FirstsAreFirst(cs: seq<Capability>, n: nat)
    requires n <= |cs|
    ensures forall c | c in Firsts(cs, n) :: IsFirst(cs[..n], c)
    ensures forall i | 0 <= i < n :: cs[i].id in Ids(Firsts(cs, n))
  {
    if n == 0 {
      return;
    }
    FirstsAreFirst(cs, n - 1);
    var before := Firsts(cs, n - 1);
    forall c | c in before ensures IsFirst(cs[..n], c) {
      var few, more := cs[..n - 1], cs[..n];
      var i :| 0 <= i < |few| && few[i] == c && forall j | 0 <= j < i :: few[j].id != c.id;
      assert more[i] == c && forall j | 0 <= j < i :: more[j] == few[j];
    }
    if cs[n - 1].id !in Ids(before) {
      NewIsFirst(cs, n, before);
    }
    forall i | 0 <= i < n ensures cs[i].id in Ids(Firsts(cs, n)) {
      if i < n - 1 {
        IdStays(before, cs[n - 1], cs[i].id);
      } else if cs[i].id !in Ids(before) {
        assert Ids(before + [cs[i]])[|before|] == cs[i].id;
      }
    }
  }

  lemma IdStays(before: seq<Capability>, c: Capability, id: Text)
    requires id in Ids(before)
    ensures id in Ids(before + [c])
  {
    var k :| 0 <= k < |before| && Ids(before)[k] == id;
    assert Ids(before + [c])[k] == id;
  }

  lemma NewIsFirst(cs: seq<Capability>, n: nat, before: seq<Capability>)
    requires 0 < n <= |cs| && cs[n - 1].id !in Ids(before)
    requires forall i | 0 <= i < n - 1 :: cs[i].id in Ids(before)
    ensures IsFirst(cs[..n], cs[n - 1])
  {
    forall j | 0 <= j < n - 1 ensures cs[..n][j].id != cs[n - 1].id {
      assert cs[j].id in Ids(before);
    }
    assert cs[..n][n - 1] == cs[n - 1];
  }

  ghost predicate AscendingIds(cs: seq<Capability>) {
    forall i, j | 0 <= i < j < |cs| :: Less(cs[i].id, cs[j].id)
  }

  lemma BelowAllIds(c: Capability, sorted: seq<Capability>)
    requires AscendingIds(sorted) && (sorted != [] ==> Less(c.id, sorted[0].id))
    ensures AscendingIds([c] + sorted)
  {
    forall j | 0 < j < |sorted| ensures Less(c.id, sorted[j].id) {
      LessIsTransitive(c.id, sorted[0].id, sorted[j].id);
    }
  }

  lemma {:induction false} InsertMembers(c: Capability, sorted: seq<Capability>)
    ensures forall x :: x in InsertById(c, sorted) <==> x == c || x in sorted
  {
    if sorted != [] && !Less(c.id, sorted[0].id) {
      InsertMembers(c, sorted[1..]);
      assert sorted == [sorted[0]] + sorted[1..];
    }
  }

  lemma {:induction false} InsertKeepsIdsAscending(c: Capability, sorted: seq<Capability>)
    requires AscendingIds(sorted) && forall x | x in sorted :: x.id != c.id
    ensures AscendingIds(InsertById(c, sorted))
  {
    if sorted == [] {
      return;
    }
    if Less(c.id, sorted[0].id) {
      BelowAllIds(c, sorted);
      return;
    }
    var rest := InsertById(c, sorted[1..]);
    LessIsTotal(c.id, sorted[0].id);
    InsertKeepsIdsAscending(c, sorted[1..]);
    InsertMembers(c, sorted[1..]);
    assert rest[0] in rest;
    BelowAllIds(sorted[0], rest);
  }

  ghost predicate DistinctIds(cs: seq<Capability>) {
    forall i, j | 0 <= i < j < |cs| :: cs[i].id != cs[j].id
  }

  lemma {:induction false} SortedById(cs: seq<Capability>)
    requires DistinctIds(cs)
    ensures AscendingIds(SortById(cs)) && forall x :: x in SortById(cs) <==> x in cs
  {
    if cs == [] {
      return;
    }
    SortedById(cs[1..]);
    InsertMembers(cs[0], SortById(cs[1..]));
    assert cs == [cs[0]] + cs[1..];
    forall x | x in SortById(cs[1..]) ensures x.id != cs[0].id {
      var i :| 0 <= i < |cs[1..]| && cs[1..][i] == x;
      assert cs[i + 1] == x;
    }
    InsertKeepsIdsAscending(cs[0], SortById(cs[1..]));
  }

  lemma {:induction false} FirstsAreDistinct(cs: seq<Capability>, n: nat)
    requires n <= |cs|
    ensures DistinctIds(Firsts(cs, n))
  {
    if n == 0 {
      return;
    }
    FirstsAreDistinct(cs, n - 1);
    var before := Firsts(cs, n - 1);
    assert forall i | 0 <= i < |before| :: before[i].id in Ids(before) by {
      assert forall i | 0 <= i < |before| :: Ids(before)[i] == before[i].id;
    }
  }

  /** The result holds exactly the first declaration of each id, in strictly ascending order of ids. */
  lemma NormalizedIsFirstWins(cs: seq<Capability>)
    requires Normalized(cs).Ok?
    ensures var r := Normalized(cs).value;
      && AscendingIds(r)
      && (forall c | c in r :: IsFirst(cs, c))
      && (forall c | c in cs :: exists d | d in r :: d.id == c.id)
  {
    var firsts, r := Firsts(cs, |cs|), Normalized(cs).value;
    assert cs[..|cs|] == cs;
    FirstsAreFirst(cs, |cs|);
    FirstsAreDistinct(cs, |cs|);
    SortedById(firsts);
    forall c | c in cs ensures exists d | d in r :: d.id == c.id {
      var i :| 0 <= i < |cs| && cs[i] == c;
      var k :| 0 <= k < |firsts| && Ids(firsts)[k] == c.id;
      assert firsts[k] in r;
    }
  }

  // -------------------------------------------------------------------- the image models

  predicate ValidId(id: Text) {
    0 < |id| <= MAX_MODEL_ID
  }

  /// The ids that occur, each once, in the order in which they first occur.
  function Distinct(ids: seq<Text>, n: nat): seq<Text>
    requires n <= |ids|
  {
    if n == 0 then [] else
    var before := Distinct(ids, n - 1);
    if ids[n - 1] in before then before else before + [ids[n - 1]]
  }

  function NormalizedImages(ids: seq<Text>): Result<seq<Text>> {
    if |ids| > MAX_IMAGE_CAPABILITIES then Err(InvalidModelCapability)
    else if exists i | 0 <= i < |ids| :: !ValidId(ids[i]) then Err(InvalidModel)
    else Ok(Sort(Distinct(ids, |ids|)))
  }

  /** `normalizeImageModels`. */
  method NormalizeImageModels(ids: seq<Text>) returns (r: Result<seq<Text>>)
    ensures r == NormalizedImages(ids)
  {
    if |ids| > MAX_IMAGE_CAPABILITIES {
      return Err(InvalidModelCapability);
    }
    var unique: seq<Text> := [];
    for index := 0 to |ids|
      invariant unique == Distinct(ids, index)
      invariant forall i | 0 <= i < index :: ValidId(ids[i])
    {
      if !ValidId(ids[index]) {
        return Err(InvalidModel);
      }
      if ids[index] !in unique {
        unique := unique + [ids[index]];
      }
    }
    r := Ok(Sort(unique));
  }

  lemma {:induction false} EachOnce(ids: seq<Text>, n: nat)
    requires n <= |ids|
    ensures NoDuplicates(Distinct(ids, n)) && forall id :: id in Distinct(ids, n) <==> id in ids[..n]
  {
    if n > 0 {
      EachOnce(ids, n - 1);
      assert ids[..n] == ids[..n - 1] + [ids[n - 1]];
    }
  }

  /** The requested image models, each once, in strictly ascending order. */
  lemma NormalizedImagesAreSorted(ids: seq<Text>)
    requires NormalizedImages(ids).Ok?
    ensures var r := NormalizedImages(ids).value; Ascending(r) && forall id :: id in r <==> id in ids
  {
    EachOnce(ids, |ids|);
    assert ids[..|ids|] == ids;
    SortIsAscending(Distinct(ids, |ids|));
  }

  // -------------------------------------------------------------------------- the models

  function Built(cs: seq<Capability>, imageModels: seq<Text>): Result<seq<Model>> {
    if exists i | 0 <= i < |imageModels| :: imageModels[i] !in Ids(cs) then
      Err(UnknownImageModel(imageModels[FirstUnknown(cs, imageModels, 0)]))
    else Ok(seq(|cs|, i requires 0 <= i < |cs| => ModelOf(cs[i], imageModels)))
  }

  function FirstUnknown(cs: seq<Capability>, imageModels: seq<Text>, from: nat): (i: nat)
    requires exists i | from <= i < |imageModels| :: imageModels[i] !in Ids(cs)
    ensures from <= i < |imageModels| && imageModels[i] !in Ids(cs)
    decreases |imageModels| - from
  {
    if imageModels[from] !in Ids(cs) then from else FirstUnknown(cs, imageModels, from + 1)
  }

  function ModelOf(c: Capability, imageModels: seq<Text>): Model {
    Model(c.id, if c.name.Some? then c.name.value else c.id, c.imageInput == Some(true) || c.id in imageModels)
  }

  /** `buildModels`: an image flag for a model that is not declared is refused. */
  method BuildModels(cs: seq<Capability>, imageModels: seq<Text>) returns (r: Result<seq<Model>>)
    ensures r == Built(cs, imageModels)
  {
    for index := 0 to |imageModels|
      invariant forall i | 0 <= i < index :: imageModels[i] in Ids(cs)
    {
      if imageModels[index] !in Ids(cs) {
        FirstUnknownIs(cs, imageModels, 0, index);
        return Err(UnknownImageModel(imageModels[index]));
      }
    }
    r := Ok(seq(|cs|, i requires 0 <= i < |cs| => ModelOf(cs[i], imageModels)));
  }

  lemma {:induction false} FirstUnknownIs(cs: seq<Capability>, imageModels: seq<Text>, from: nat, index: nat)
    requires from <= index < |imageModels| && imageModels[index] !in Ids(cs)
    requires forall i | from <= i < index :: imageModels[i] in Ids(cs)
    ensures FirstUnknown(cs, imageModels, from) == index
    decreases index - from
  {
    if from < index {
      FirstUnknownIs(cs, imageModels, from + 1, index);
    }
  }

  /**
   The models are built if and only if every image model is declared. Each declaration then gives one
   entry, in order, whose input lists images exactly when its own flag or the list of image models asks for it.
   */
  lemma BuiltIff(cs: seq<Capability>, imageModels: seq<Text>)
    ensures Built(cs, imageModels).Ok? <==> forall id | id in imageModels :: id in Ids(cs)
    ensures Built(cs, imageModels).Ok? ==> var ms := Built(cs, imageModels).value;
      |ms| == |cs| && forall i | 0 <= i < |ms| ::
        && ms[i].id == cs[i].id && ms[i].name == (if cs[i].name.Some? then cs[i].name.value else cs[i].id)
        && (ms[i].image <==> cs[i].imageInput == Some(true) || cs[i].id in imageModels)
  {
  }

  /** Otherwise the error names the least image model that is not declared. */
  lemma UnknownIsLeast(cs: seq<Capability>, ids: seq<Text>)
    requires NormalizedImages(ids).Ok? && Built(cs, NormalizedImages(ids).value).Err?
    ensures var error := Built(cs, NormalizedImages(ids).value).error;
      && error.UnknownImageModel? && error.model in ids && error.model !in Ids(cs)
      && forall id | id in ids && id !in Ids(cs) :: id == error.model || Less(error.model, id)
  {
    var images := NormalizedImages(ids).value;
    var k := FirstUnknown(cs, images, 0);
    NormalizedImagesAreSorted(ids);
    forall id | id in ids && id !in Ids(cs) ensures id == images[k] || Less(images[k], id) {
      var i :| 0 <= i < |images| && images[i] == id;
      FirstUnknownIsFirst(cs, images, 0, i);
    }
  }

  lemma {:induction false} FirstUnknownIsFirst(cs: seq<Capability>, imageModels: seq<Text>, from: nat, i: nat)
    requires from <= i < |imageModels| && imageModels[i] !in Ids(cs)
    ensures FirstUnknown(cs, imageModels, from) <= i
    decreases i - from
  {
    if imageModels[from] in Ids(cs) {
      FirstUnknownIsFirst(cs, imageModels, from + 1, i);
    }
  }
}
