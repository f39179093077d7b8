/** The constants of `recommender/api/titles.py` that name where the
    training data goes, and the S3 keys and locations built from them. */
module Locations {
  import opened Paths
  import opened Chunking

  const SagemakerBucket: string := "sagemaker-erecommender"
  const Prefix: string := "recommender"
  const TrainTemplate: Template := Template("train_part", ".pbr")
  const ValTemplate: Template := Template("val_part", ".pbr")
  const TrainParts: nat := 8
  const ValParts: nat := 1

  /** `os.path.join(a, b)` for a directory `a` that does not end in `/`
      and a relative `b`. */
  lemma JoinRelative(a: string, b: string)
    requires a != [] && a[|a| - 1] != '/' && b != [] && b[0] != '/'
    ensures Join(a, b) == a + "/" + b
  {}

  /** `os.path.join(prefix, 'train')` and its siblings. */
  lemma KeyPrefixes()
    ensures Join(Prefix, "train") == "recommender/train"
    ensures Join(Prefix, "val") == "recommender/val"
    ensures Join(Prefix, "output") == "recommender/output"
  {
    JoinRelative(Prefix, "train");
    JoinRelative(Prefix, "val");
    JoinRelative(Prefix, "output");
  }

  /** `os.path.join('s3://', bucket)`: the scheme already ends in `/`. */
  lemma BucketRoot()
    ensures Join("s3://", SagemakerBucket) == "s3://sagemaker-erecommender"
  {}

  /** The S3 location of the training data. */
  lemma TrainLocation()
    ensures Join("s3://sagemaker-erecommender", "recommender/train") == "s3://sagemaker-erecommender/recommender/train"
  {
    JoinRelative("s3://sagemaker-erecommender", "recommender/train");
  }

  /** The S3 location of the validation data. */
  lemma ValLocation()
    ensures Join("s3://sagemaker-erecommender", "recommender/val") == "s3://sagemaker-erecommender/recommender/val"
  {
    JoinRelative("s3://sagemaker-erecommender", "recommender/val");
  }

  /** The S3 location where the trained model is written. */
  lemma OutputLocation()
    ensures Join("s3://sagemaker-erecommender", "recommender/output") == "s3://sagemaker-erecommender/recommender/output"
  {
    JoinRelative("s3://sagemaker-erecommender", "recommender/output");
  }

  /** The key of the single validation part. */
  lemma ValPartKey()
    ensures ObjectKey("recommender/val", ValTemplate, 0) == "recommender/val/val_part0.pbr"
  {
    assert NatToString(0) == "0";
    assert Format(ValTemplate, 0) == "val_part0.pbr";
    JoinRelative("recommender/val", "val_part0.pbr");
  }

  /** Validation is uploaded with `n_parts=1`: one object,
      `recommender/val/val_part0.pbr`, holding every validation row. */
  lemma ValidationIsOneObject<T>(val: seq<T>)
    ensures PlannedUploads(val, "recommender/val", ValTemplate, ValParts)
      == [Upload("recommender/val/val_part0.pbr", 0, |val|, val)]
  {
    var us := PlannedUploads(val, "recommender/val", ValTemplate, ValParts);
    PlannedRange(val, "recommender/val", ValTemplate, 1, 0);
    assert us[0] == PartUpload(val, "recommender/val", ValTemplate, 1, 0);
    ValPartKey();
    assert val[0..|val|] == val;
  }
}
