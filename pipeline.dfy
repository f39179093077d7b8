/** The two views whose core is modelled: `PrepareTrainData.post` (select
    titles, vectorise, shuffle, split, upload in parts) and
    `MapTitleInformation.post` (import titles from the content service).
    The vectoriser, the random permutation and the content service are
    parameters; uploads are returned as events. */
module Pipeline {
  import opened Wrappers
  import opened Paths
  import opened Chunking
  import opened Dataset
  import opened TitleStore
  import opened Locations

  /** What `PrepareTrainData.post` uploads and the S3 locations it reports. */
  datatype PrepareResponse = PrepareResponse(
    trainUploads: seq<Upload<Vector>>,
    valUploads: seq<Upload<Vector>>,
    s3TrainData: string,
    s3ValData: string,
    outputPath: string)

  /** The row permutation the view applies: `vectors[new_index]` with
      `new_index = shuffle(n)`. */
  ghost function Shuffled(vectors: seq<Vector>, shuffle: nat -> seq<nat>): (r: seq<Vector>)
    requires forall n: nat :: IsPermutationOf(shuffle(n), n)
    ensures multiset(r) == multiset(vectors)
  {
    var p := shuffle(|vectors|);
    assert IsPermutationOf(p, |vectors|);
    ShuffleKeepsRows(vectors, p);
    Permute(vectors, p)
  }

  /** `PrepareTrainData.post`. `vectorize` stands for
      `CountVectorizer.fit_transform` (one row per document) and
      `shuffle(n)` for `np.random.permutation(np.arange(n))`. Each title is
      given the vector of its own text before the rows are shuffled (see
      ShuffledPairingMismatch for the order the view uses). */
  method PrepareTrainData(
    store: TitleTable, bookLimit: int, listKeys: seq<string>, themeFilter: Option<string>,
    vectorize: seq<string> -> seq<Vector>, shuffle: nat -> seq<nat>)
    returns (response: PrepareResponse)
    requires store.Valid()
    requires forall docs :: |vectorize(docs)| == |docs|
    requires forall n: nat :: IsPermutationOf(shuffle(n), n)
    modifies store
    ensures store.Valid() && store.nextPk == old(store.nextPk)
    ensures
      var queryset := TitleQueryset(old(store.rows), bookLimit, listKeys, themeFilter);
      store.rows == AssignVectors(old(store.rows), queryset, vectorize(NonEmptyTexts(queryset)))
    ensures
      var queryset := TitleQueryset(old(store.rows), bookLimit, listKeys, themeFilter);
      var split := TrainValSplit(Shuffled(vectorize(NonEmptyTexts(queryset)), shuffle));
      && response.trainUploads == PlannedUploads(split.0, "recommender/train", TrainTemplate, TrainParts)
      && response.valUploads == PlannedUploads(split.1, "recommender/val", ValTemplate, ValParts)
    ensures response.s3TrainData == "s3://sagemaker-erecommender/recommender/train"
    ensures response.s3ValData == "s3://sagemaker-erecommender/recommender/val"
    ensures response.outputPath == "s3://sagemaker-erecommender/recommender/output"
  {
    var queryset := TitleQueryset(store.rows, bookLimit, listKeys, themeFilter);
    var titles := TitlesText(queryset);
    var vectors := vectorize(titles);
    store.MapVectorsTitles(vectors, queryset);

    var newIndex := shuffle(|vectors|);
    assert IsPermutationOf(newIndex, |vectors|);
    var shuffled := Permute(vectors, newIndex);
    assert shuffled == Shuffled(vectors, shuffle);
    var split := TrainValSplit(shuffled);

    KeyPrefixes();
    BucketRoot();
    TrainLocation();
    ValLocation();
    OutputLocation();
    var trainPrefix := Join(Prefix, "train");
    var valPrefix := Join(Prefix, "val");
    var outputPrefix := Join(Prefix, "output");
    var bucketRoot := Join("s3://", SagemakerBucket);

    var trainResult := SplitConvertUpload(split.0, trainPrefix, TrainTemplate, TrainParts);
    var valResult := SplitConvertUpload(split.1, valPrefix, ValTemplate, ValParts);
    response := PrepareResponse(
      trainResult.value, valResult.value,
      Join(bucketRoot, trainPrefix), Join(bucketRoot, valPrefix), Join(bucketRoot, outputPrefix));
  }

  /** Each title of the queryset receives the vector computed from its own
      text: the row with the `k`-th title's pk holds vector `k`, and document
      `k` is that title's text. */
  lemma TitlesGetOwnVectors(rows: seq<Title>, bookLimit: int, listKeys: seq<string>, themeFilter: Option<string>,
    vectors: seq<Vector>, j: nat, k: nat)
    requires AscendingPks(rows)
    requires var q := TitleQueryset(rows, bookLimit, listKeys, themeFilter);
      |vectors| == |q| && j < |rows| && k < |q| && q[k].pk == rows[j].pk
    ensures var q := TitleQueryset(rows, bookLimit, listKeys, themeFilter);
      && AssignVectors(rows, q, vectors)[j].vectorFile == Some(vectors[k])
      && NonEmptyTexts(q)[k] == rows[j].completeText
  {
    var q := TitleQueryset(rows, bookLimit, listKeys, themeFilter);
    QuerysetDescending(rows, bookLimit, listKeys, themeFilter);
    AssignedRow(rows, q, vectors, j, k);
    assert forall t :: t in q ==> t.completeText != "";
    NonEmptyTextsAligned(q);
    assert q[k] in rows;
    var i :| 0 <= i < |rows| && rows[i] == q[k];
    SamePkSameRow(rows, i, j);
  }

  /** The view as written assigns the SHUFFLED rows to the titles in
      queryset order: the `k`-th title receives row `new_index[k]`, which is
      the vector of title `new_index[k]`. */
  lemma ShuffledPairing(rows: seq<Title>, queryset: seq<Title>, vectors: seq<Vector>, p: seq<nat>, j: nat, k: nat)
    requires DescendingPks(queryset) && |vectors| == |queryset|
    requires IsPermutationOf(p, |vectors|)
    requires j < |rows| && k < |queryset| && queryset[k].pk == rows[j].pk
    ensures |p| == |vectors| && p[k] < |vectors|
    ensures AssignVectors(rows, queryset, Permute(vectors, p))[j].vectorFile == Some(vectors[p[k]])
  {
    PermuteAt(vectors, p, k);
    AssignedRow(rows, queryset, Permute(vectors, p), j, k);
  }

  /** With pairwise distinct vectors, the `k`-th title keeps the vector of
      its own text exactly when the permutation leaves position `k` in
      place. */
  lemma ShuffledPairingKeepsOwnIff(rows: seq<Title>, queryset: seq<Title>, vectors: seq<Vector>, p: seq<nat>, j: nat, k: nat)
    requires DescendingPks(queryset) && |vectors| == |queryset|
    requires forall x, y :: 0 <= x < y < |vectors| ==> vectors[x] != vectors[y]
    requires IsPermutationOf(p, |vectors|)
    requires j < |rows| && k < |queryset| && queryset[k].pk == rows[j].pk
    ensures |p| == |vectors|
    ensures AssignVectors(rows, queryset, Permute(vectors, p))[j].vectorFile == Some(vectors[k]) <==> p[k] == k
  {
    ShuffledPairing(rows, queryset, vectors, p, j, k);
    if p[k] != k {
      assert vectors[p[k]] != vectors[k];
    }
  }

  // The table of the mismatch witness below: texts of `a` and `b` share a word.
  const TitleA := Title(1, "a", "p", "", "A", "libro rojo", None)
  const TitleB := Title(2, "b", "p", "", "B", "libro azul", None)
  const TitleC := Title(3, "c", "p", "", "C", "mar", None)

  /** No filter: every title of the table has a text and is selected. */
  lemma ThreeTitlesMatching()
    ensures Matching([TitleA, TitleB, TitleC], [], None) == [TitleA, TitleB, TitleC]
  {
    var rows := [TitleA, TitleB, TitleC];
    UnfilteredMatchingKeepsAll(rows);
  }

  /** With no filter and no limit, the three titles come newest first. */
  lemma ThreeTitlesQueryset()
    ensures TitleQueryset([TitleA, TitleB, TitleC], 0, [], None) == [TitleC, TitleB, TitleA]
  {
    var a, b, c := TitleA, TitleB, TitleC;
    ThreeTitlesMatching();
    var r := Reverse([a, b, c]);
    assert r[0] == c && r[1] == b && r[2] == a;
  }

  /** The documents of that queryset, in queryset order. */
  lemma ThreeTitlesTexts()
    ensures NonEmptyTexts([TitleC, TitleB, TitleA]) == ["mar", "libro azul", "libro rojo"]
  {
    var q := [TitleC, TitleB, TitleA];
    assert q[..2] == [TitleC, TitleB] && q[..2][..1] == [TitleC];
    assert NonEmptyTexts([TitleC]) == ["mar"];
    assert NonEmptyTexts([TitleC, TitleB]) == ["mar", "libro azul"];
  }

  /** `[1, 0, 2]` is a permutation of `arange(3)`. */
  lemma SwapFirstTwo()
    ensures IsPermutationOf([1, 0, 2], 3)
  {
    assert Indices(3) == [0, 1, 2];
    assert multiset([1, 0, 2]) == multiset([0, 1, 2]);
  }

  /** Three titles, `a` (pk 1), `b` (pk 2) and `c` (pk 3); the texts of `a`
      and `b` share a word, so a vectoriser keeping words found in two
      documents has a non-empty vocabulary. The queryset is `[c, b, a]`, so
      document 0 is c's text and document 1 is b's. With the permutation
      `[1, 0, 2]` the view stores document 1's vector, b's, on title c
      (row 2 of the table). ThreeTitlesQueryset shows that `[c, b, a]` is
      the queryset the view builds for this table. */
  lemma ShuffledPairingMismatch(vectors: seq<Vector>)
    requires |vectors| == 3 && vectors[0] != vectors[1]
    ensures IsPermutationOf([1, 0, 2], 3)
    ensures NonEmptyTexts([TitleC, TitleB, TitleA]) == ["mar", "libro azul", "libro rojo"]
    ensures
      var stored := AssignVectors([TitleA, TitleB, TitleC], [TitleC, TitleB, TitleA], Permute(vectors, [1, 0, 2]));
      stored[2].vectorFile == Some(vectors[1]) && stored[2].vectorFile != Some(vectors[0])
  {
    SwapFirstTwo();
    ThreeTitlesTexts();
    var q := [TitleC, TitleB, TitleA];
    assert DescendingPks(q);
    ShuffledPairing([TitleA, TitleB, TitleC], q, vectors, [1, 0, 2], 2, 0);
  }

  datatype RequestError = NotImplementedError | TypeError | KeyError

  /** `MapTitleInformation.post`. With `has_service`, every key the content
      service resolves is imported with `_create_title_from_service`; a
      missing `list_keys` (None) cannot be iterated. Without it, the body's
      `titles` are handed to `_create_title`, which raises on the first one. */
  method MapTitleInformation<Item>(
    store: TitleTable, hasService: bool, listKeys: Option<seq<string>>, titles: Option<seq<Item>>,
    lookup: string -> Option<ServiceTitle>)
    returns (r: Result<(), RequestError>)
    requires store.Valid()
    modifies store
    ensures store.Valid()
    ensures hasService && listKeys.None? ==> r == Failure(TypeError) && store.State() == old(store.State())
    ensures hasService && listKeys.Some? ==>
      r == Success(()) && store.State() == CreateAll(old(store.State()), FoundTitles(listKeys.value, lookup))
    ensures !hasService ==> store.State() == old(store.State())
    ensures !hasService && titles.None? ==> r == Failure(KeyError)
    ensures !hasService && titles.Some? ==>
      r == if titles.value == [] then Success(()) else Failure(NotImplementedError)
  {
    if hasService {
      if listKeys.None? {
        return Failure(TypeError);
      }
      ImportKeys(store, listKeys.value, lookup);
      return Success(());
    } else {
      if titles.None? {
        return Failure(KeyError);
      }
      if titles.value != [] {
        return Failure(NotImplementedError);
      }
      return Success(());
    }
  }

  /** The `has_service` loop of `MapTitleInformation.post`: each key is
      looked up and, when the service knows it, imported. */
  method ImportKeys(store: TitleTable, keys: seq<string>, lookup: string -> Option<ServiceTitle>)
    requires store.Valid()
    modifies store
    ensures store.Valid()
    ensures store.State() == CreateAll(old(store.State()), FoundTitles(keys, lookup))
  {
    var i := 0;
    ghost var found: seq<ServiceTitle> := [];
    while i < |keys|
      invariant 0 <= i <= |keys|
      invariant store.Valid()
      invariant found == FoundTitles(keys[..i], lookup)
      invariant store.State() == CreateAll(old(store.State()), found)
    {
      FoundTitlesStep(keys, i, lookup);
      var title := lookup(keys[i]);
      if title.Some? {
        CreateAllStep(old(store.State()), found, title.value);
        store.CreateTitleFromService(title.value);
        found := found + [title.value];
      }
      i := i + 1;
    }
    assert keys[..i] == keys;
  }
}
