# erecommender: the training-data preparation core of `recommender/api/titles.py`

This project models the logic in `recommender/api/titles.py` that decides which
titles go into a training run, what text is vectorised, and how the resulting
rows are paired with titles, shuffled, split and uploaded. It also models how
titles are imported from the content service. It then proves the properties
that these views rely on.

Modules, one file each:

- `Wrappers` (`wrappers.dfy`) defines `Option` and `Result`.
- `Paths` (`paths.dfy`) models `str(i)`, `template.format(i)` for a template with
  one `{}`, and POSIX `os.path.join` of two components. Object keys of distinct
  parts are proved distinct.
- `Chunking` (`chunking.dfy`) models `_split_convert_upload`. The method emits
  one `Upload(key, start, end, payload)` event per part instead of talking to
  S3. It is proved equal to a specification function. The parts are proved to
  tile the matrix, each row is proved to land in exactly one part, part sizes
  are proved, and the parts are proved to reassemble the matrix.
- `Dataset` (`dataset.dfy`) models `np.arange`, the reindexing
  `vectors[new_index]` by a permutation, and the 80/20 cut at
  `int(0.8 * n)`. The shuffle is proved to keep every row exactly as often as
  before, and the split is proved to be a partition.
- `TitleStore` (`titles.dfy`) holds the `Title` record and the table.
  - The database table is the class `TitleTable`: its rows are kept in
    ascending primary-key order, and it tracks the next key to hand out.
  - `_get_title_queryset` is modelled as a function. `_get_titles_text` is a
    loop method proved against a function.
  - `_create_title_from_service` is an insert-if-absent, modelled both as a
    function on the table state and as a class method.
  - `_map_vectors_titles` is a counter loop that updates the table in place.
- `Locations` (`locations.dfy`) holds the bucket, prefix, templates and part
  counts, and the S3 keys and locations built from them.
- `Pipeline` (`pipeline.dfy`) composes these into `PrepareTrainData.post` and
  `MapTitleInformation.post`. The vectoriser (`CountVectorizer.fit_transform`),
  the random permutation (`np.random.permutation`) and the content service
  (`service.get_title`) are parameters of these methods.

The view `PrepareTrainData.post` shuffles the vector rows before it assigns
them to titles. Title `k` therefore receives document `new_index[k]`'s vector,
which is another title's whenever `new_index[k] != k` (see "## Findings"). The model's `Pipeline.PrepareTrainData` assigns the vectors
first and shuffles afterwards. In that order each title keeps the vector of
its own text, and the uploads are the same as in the view's order.

## Model

| member | source | states |
|---|---|---|
| Paths.NatToString | recommender/api/titles.py:294 | `str(i)` of a part number is a non-empty string of decimal digits with no leading zero unless `i` is 0 |
| Paths.ParseNatToString | recommender/api/titles.py:294 | reading the digits of `str(i)` back gives `i` |
| Paths.NatToStringInjective | recommender/api/titles.py:294 | distinct part numbers have distinct decimal strings |
| Paths.Format | recommender/api/titles.py:294 | `template.format(i)` starts with the text before `{}`, ends with the text after it, and is longer than both together |
| Paths.FormatInjective | recommender/api/titles.py:294 | distinct part numbers give distinct file names for the same template |
| Paths.Join | recommender/api/titles.py:199-205 | `os.path.join(a, b)`: an absolute `b` replaces `a`; otherwise the result starts with `a`, ends with `b`, and between them stands exactly one separator character, `/`, when `a` is non-empty and does not end in `/`, and nothing otherwise |
| Paths.JoinInjective | recommender/api/titles.py:294 | joining two relative names (or two absolute ones) onto the same prefix keeps them apart |
| Paths.ObjectKeysDistinct | recommender/api/titles.py:294-295 | for any prefix and template, parts `i != j` are uploaded under different keys, so no part overwrites another |
| Chunking.PartBounds | recommender/api/titles.py:277-286 | for every part `i < n_parts`, `0 <= start <= end <= n` |
| Chunking.PartUpload | recommender/api/titles.py:283-290 | the object emitted for part `i` carries exactly the rows `sparray[start:end]`, within bounds |
| Chunking.PlannedUploads | recommender/api/titles.py:281-295 | there is exactly one upload per part, `n_parts` in all |
| Chunking.SplitConvertUpload | recommender/api/titles.py:276-296 | `n_parts == 0` fails with ZeroDivisionError; a negative `n_parts` uploads nothing; otherwise the loop emits exactly the planned uploads, in part order |
| Chunking.PartsAreConsecutive | recommender/api/titles.py:281-286 | the first part starts at row 0, each part starts where the previous one ended, the last part ends at the last row, and each part carries the rows of its range |
| Chunking.RowInExactlyOnePart | recommender/api/titles.py:277-286 | for every row and part, the part's range contains the row if and only if the part is the row's designated part |
| Chunking.PartSizes | recommender/api/titles.py:277-286 | each non-last part has `n // n_parts` rows; the last has `n // n_parts + n % n_parts` rows |
| Chunking.FewRowsGoToLastPart | recommender/api/titles.py:277-286 | when there are fewer rows than parts, every part but the last is empty and the last holds all rows |
| Chunking.KeysArePartNamesAndDistinct | recommender/api/titles.py:281-295 | part `i` is stored under `os.path.join(prefix, template.format(i))`, and no two parts share a key |
| Chunking.UploadsReassemble | recommender/api/titles.py:281-295 | concatenating the payloads in upload order gives back the whole matrix: no row is lost, repeated or reordered |
| Dataset.Indices | recommender/api/titles.py:165 | `np.arange(n)` has length `n`, and position `i` holds `i` |
| Dataset.PermutationInRange | recommender/api/titles.py:165-167 | a permutation of `arange(n)` has length `n` and only entries below `n`, so every index it holds is valid |
| Dataset.Permute | recommender/api/titles.py:171 | `vectors[new_index]` has as many rows as `vectors` |
| Dataset.PermuteAt | recommender/api/titles.py:171 | row `i` of `vectors[new_index]` is row `new_index[i]` of `vectors` |
| Dataset.ShuffleKeepsRows | recommender/api/titles.py:165-171 | the shuffled matrix holds exactly the original rows, each as often as before |
| Dataset.ShuffleIsBijective | recommender/api/titles.py:165-171 | every original row number occurs in `new_index`, and no two positions of `new_index` hold the same row number |
| Dataset.TrainCount | recommender/api/titles.py:187 | `n_train` is at most `n`, and it is the largest count with `5 * n_train <= 4 * n` |
| Dataset.TrainValSplit | recommender/api/titles.py:187-191 | the training part has `n_train` rows, and training followed by validation is the whole matrix |
| Dataset.SplitIsDisjoint | recommender/api/titles.py:187-191 | row `i` is the training row `i` when `i < n_train`, and the validation row `i - n_train` otherwise; the sizes add up to `n` |
| TitleStore.Matching | recommender/api/titles.py:253-258 | a title is kept if and only if it is in the table and passes the filter: a non-empty key list selects by identifier, otherwise a non-empty theme selects by theme, and empty texts are always excluded |
| TitleStore.Reverse | recommender/api/titles.py:254-258 | the reversed sequence has the same length and the same members, with position `i` holding element `n-1-i` |
| TitleStore.TitleQueryset | recommender/api/titles.py:252-262 | every title returned is in the table and has a non-empty text; with keys every identifier is requested; with a theme (and no keys) every theme matches; a positive `book_limit` bounds the count; without a limit every selected title is returned |
| TitleStore.UnfilteredMatchingKeepsAll | recommender/api/titles.py:253-258 | with no key list and no theme, a table whose titles all have a text is selected whole, in table order |
| TitleStore.MatchingKeepsOrder | recommender/api/titles.py:253-258 | filtering keeps the table's ascending pk order |
| TitleStore.ReverseDescending | recommender/api/titles.py:254-258 | reversing an ascending-pk sequence gives a strictly descending one |
| TitleStore.QuerysetDescending | recommender/api/titles.py:254-260 | whatever the filter and limit, the queryset is in strictly descending pk order (`order_by("-pk")`) |
| TitleStore.MatchingIgnoresTheme | recommender/api/titles.py:253-256 | with a non-empty key list, the theme filter has no effect on which titles are selected |
| TitleStore.KeysOverrideTheme | recommender/api/titles.py:253-256 | with a non-empty key list, the queryset is the same for any theme filter |
| TitleStore.LimitKeepsNewest | recommender/api/titles.py:259-260 | a positive `book_limit` keeps the first `min(book_limit, count)` titles of the unlimited queryset, which are the newest ones |
| TitleStore.NonEmptyTexts | recommender/api/titles.py:270-274 | the compiled texts are all non-empty and at most one per title; a text is compiled if and only if it is non-empty and some title has it; with no empty texts there is exactly one per title |
| TitleStore.TitlesText | recommender/api/titles.py:264-274 | the loop appends exactly the non-empty texts, in queryset order |
| TitleStore.NonEmptyTextsStep | recommender/api/titles.py:271-273 | one more loop iteration appends the title's text exactly when it is non-empty |
| TitleStore.NonEmptyTextsAppend | recommender/api/titles.py:271-273 | texts keep their relative order: the texts of `a + b` are the texts of `a` followed by those of `b` |
| TitleStore.NonEmptyTextsAligned | recommender/api/titles.py:270-274 | when no title has an empty text, document `i` is the text of title `i` |
| TitleStore.QuerysetTextsAligned | recommender/api/titles.py:252-274 | the documents sent to the vectoriser line up one to one with the queryset |
| TitleStore.NewTitle | recommender/api/titles.py:99-109 | the new record has the given pk, the sync key as its identifier, the first theme's name (or "" when there is none), an empty text and no vector file |
| TitleStore.CreateFromService | recommender/api/titles.py:96-110 | afterwards the identifier is present; an existing identifier leaves the table unchanged; otherwise exactly one new record is appended and the pk counter goes up by one |
| TitleStore.CreateIdempotent | recommender/api/titles.py:97-98 | creating the same service title twice changes nothing the second time |
| TitleStore.CreateKeepsIdentifiersUnique | recommender/api/titles.py:96-110 | insert-if-absent preserves the uniqueness of identifiers |
| TitleStore.ByIdentifier | recommender/api/titles.py:97 | the identifier-keyed view of the table has exactly the identifiers present in the table as keys |
| TitleStore.CreateAsMapInsert | recommender/api/titles.py:96-110 | over the identifier-keyed view, creation inserts `sync_key` with the new record when the key is absent, and changes nothing otherwise |
| TitleStore.FoundTitles | recommender/api/titles.py:84-86 | at most one service title is looked up per requested key |
| TitleStore.FoundTitlesMembers | recommender/api/titles.py:84-87 | a service title is imported if and only if some requested key resolves to it |
| TitleStore.FoundTitlesStep | recommender/api/titles.py:84-86 | processing one more key adds nothing when the service does not know the key, and adds exactly the title it resolves to otherwise |
| TitleStore.CreateAllStep | recommender/api/titles.py:84-87 | importing one more title is creating it on the state left by the earlier ones |
| TitleStore.CreateAllKeepsIdentifiers | recommender/api/titles.py:96-98 | importing never removes an identifier |
| TitleStore.CreateAllCoversTitles | recommender/api/titles.py:84-87 | after an import, every imported title's sync key is present |
| TitleStore.CreateAllNoop | recommender/api/titles.py:97-98 | importing titles whose keys are all present changes nothing |
| TitleStore.CreateAllIdempotent | recommender/api/titles.py:82-87 | repeating an import with the same keys changes nothing |
| TitleStore.AssignVectors | recommender/api/titles.py:239-248 | saving vector files changes only the `vector_file` of each row and keeps the number of rows |
| TitleStore.AssignedRow | recommender/api/titles.py:239-248 | in a queryset whose pks are pairwise distinct, in any order, the row of the `k`-th title ends up with vector `k` |
| TitleStore.UnassignedRow | recommender/api/titles.py:241-248 | rows of titles outside the queryset are untouched |
| TitleStore.TitleTable.CreateTitleFromService | recommender/api/titles.py:96-110 | the table moves to `CreateFromService` of its old state, and ascending pks stay below the counter |
| TitleStore.TitleTable.MapVectorsTitles | recommender/api/titles.py:231-250 | the loop with `item_counter` leaves the rows equal to `AssignVectors(old rows, queryset, vectors)`, keeps the table valid and does not touch the pk counter |
| Locations.JoinRelative | recommender/api/titles.py:199-205 | joining a relative name onto a directory not ending in `/` inserts exactly one `/` |
| Locations.KeyPrefixes | recommender/api/titles.py:199-201 | joining `PREFIX` (`recommender`, line 47) with `train`, `val` and `output` gives the key prefixes `recommender/train`, `recommender/val` and `recommender/output` |
| Locations.BucketRoot | recommender/api/titles.py:203-205 | `os.path.join('s3://', bucket)` is `s3://sagemaker-erecommender`, with no doubled slash |
| Locations.TrainLocation | recommender/api/titles.py:203 | the reported training location is `s3://sagemaker-erecommender/recommender/train` |
| Locations.ValLocation | recommender/api/titles.py:204 | the reported validation location is `s3://sagemaker-erecommender/recommender/val` |
| Locations.OutputLocation | recommender/api/titles.py:205 | the reported output location is `s3://sagemaker-erecommender/recommender/output` |
| Locations.ValidationIsOneObject | recommender/api/titles.py:213-214 | with `n_parts=1` the validation set is one object, `recommender/val/val_part0.pbr`, holding every validation row |
| Pipeline.Shuffled | recommender/api/titles.py:165-171 | the shuffled matrix holds the same rows, each as often |
| Pipeline.PrepareTrainData | recommender/api/titles.py:137-229 | the table ends with each queryset title holding the vector of its own text, and nothing else changes; the training and validation uploads are the planned uploads of the 80/20 split of the shuffled matrix (8 parts and 1 part); the three reported S3 locations are the literal paths |
| Pipeline.TitlesGetOwnVectors | recommender/api/titles.py:231-248 | in the corrected order, the row of the `k`-th queryset title holds vector `k`, and document `k` is that title's own text |
| Pipeline.ShuffledPairing | recommender/api/titles.py:165-177 | in the order as written, the `k`-th title receives the vector of document `new_index[k]` |
| Pipeline.ShuffledPairingKeepsOwnIff | recommender/api/titles.py:165-177 | in the order as written, with pairwise-distinct document vectors, the `k`-th title receives the vector of its own document `k` if and only if `new_index[k] == k` |
| Pipeline.ThreeTitlesQueryset | recommender/api/titles.py:252-262 | for titles a, b, c (pks 1, 2, 3) with texts and no filter, the queryset is `[c, b, a]` |
| Pipeline.ThreeTitlesTexts | recommender/api/titles.py:270-274 | the documents of `[c, b, a]` are `mar`, `libro azul`, `libro rojo`, in that order |
| Pipeline.ShuffledPairingMismatch | recommender/api/titles.py:165-177 | three titles (two sharing the word `libro`, so a `min_df=2` vocabulary exists) and the permutation `[1, 0, 2]` exhibit title c, which gets document 0 (`mar`) in the unshuffled order, receiving document 1's vector, which is b's |
| Pipeline.MapTitleInformation | recommender/api/titles.py:78-91 | with `has_service` and keys, every resolved key is imported and the view succeeds; with `has_service` and no `list_keys` the view raises TypeError; without `has_service`, a missing `titles` raises KeyError, a non-empty one raises NotImplementedError, and an empty one succeeds; the table changes only in the import case |
| Pipeline.ImportKeys | recommender/api/titles.py:82-87 | the key loop leaves the table in the state of creating, in key order, every title the service resolves |

## Left out

- HTTP, request parsing and the response bodies are not modelled. The views take their request fields as parameters; the statuses, timings and `print` output are left out.
- S3, boto3 sessions and SageMaker are not modelled: the upload is an `Upload` event and the S3 locations are strings. `CreateNTMEstimator`, `DownloadTitles`, `GetTextJSONFiles` and `GetPredictorInformation` are not part of this model.
- The protobuf conversion (`write_spmatrix_to_sparse_tensor`) and the sparse/dense matrix types are not modelled: a matrix is a sequence of rows, and an upload's payload is those rows.
- `CountVectorizer.fit_transform` is a parameter that returns one row per document. Its vocabulary and its failures (for example on too few documents with `min_df=2`) are not modelled, and neither are the `float32` conversion and `VOCAB_SIZE`.
- `np.random.permutation` is a parameter, assumed to return a permutation of `arange(n)`.
- Files written to `BOOK_PATH` (`savetxt`, `joblib.dump`, the per-title CSV) are not modelled.
- Pipeline.PrepareTrainData: it follows the corrected order (assign vectors, then shuffle) rather than the view's order (see "## Findings"). The as-written order is stated separately by `Pipeline.ShuffledPairing`.
- Dataset.TrainCount: `int(0.8 * n)` is computed exactly as `(4 * n) // 5`. Floating-point rounding of the product is not modelled; it agrees with the exact value for any row count a matrix can have.
- The Django ORM is modelled as a sequence of rows in ascending pk order. Primary keys come from a counter starting at 1, and filtering and `order_by("-pk")` are sequence operations.
- TitleStore.TitleTable.MapVectorsTitles: a queryset item whose pk is not in the table is ignored; the ORM's `save` on such an item is not modelled.
- `_create_title` raises on any item, so `MapTitleInformation` returns NotImplementedError for a non-empty `titles`; what it would create is not modelled.
- The content service's title dict is taken to be well formed: `publisher` is present, and a missing or `None` theme is an empty list. A malformed dict, and a service or database failure, are not modelled.
- File-name templates hold exactly one `{}` placeholder, which is all the view uses.
- Concurrent requests and database transactions are not modelled.

## Findings

| source | as written | input that shows it | evidently intended | confidence | as-written member | corrected member |
|---|---|---|---|---|---|---|
| recommender/api/titles.py:165-177 | the rows are shuffled (`vectors = vectors[new_index]`) before `_map_vectors_titles`, which gives row `k` to the `k`-th queryset title, so that title receives the vector of title `new_index[k]` | titles a (pk 1, `libro rojo`), b (pk 2, `libro azul`) and c (pk 3, `mar`), no filter: the queryset is `[c, b, a]` and the documents are `mar`, `libro azul`, `libro rojo` (`libro` occurs in two of three documents, so `min_df=2, max_df=0.95` keep a vocabulary); with `new_index = [1, 0, 2]`, title c is given the vector of document 1, which is b's text | each title receives the vector computed from its own text ("assigns the right vector file to the title"), e.g. by mapping before the shuffle | medium, not executed | Pipeline.ShuffledPairingMismatch | Pipeline.TitlesGetOwnVectors |
