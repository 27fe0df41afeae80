/** Where an attachment lands in S3: its object key and the public URL of that object. */
module S3Location {
  import opened Wrappers
  import opened StringOps

  /** The `s3` settings the migrator reads. `region` is None when unset. */
  datatype S3Settings = S3Settings(bucket: string, region: Option<string>)

  /** JavaScript truthiness of `s3.region`: set and not the empty string. */
  predicate HasRegion(cfg: S3Settings) {
    cfg.region.Some? && cfg.region.value != ""
  }

  /** JavaScript truthiness of `githubRepoId`: set and not 0. */
  predicate HasRepoId(repoId: Option<int>) {
    repoId.Some? && repoId.value != 0
  }

  /** `newFileName` is `<digest>/<basename>`; `relativePath` puts `<repoId>/` in front when the id is truthy. */
  function ObjectKey(repoId: Option<int>, digest: string, basename: string): string {
    var newFileName := digest + "/" + basename;
    if HasRepoId(repoId) then Decimal(repoId.value) + "/" + newFileName else newFileName
  }

  /** `hostname`: the bucket sub-domain, or the regional endpoint followed by the bucket when a region is set. */
  function Host(cfg: S3Settings): string {
    if HasRegion(cfg) then "s3." + cfg.region.value + ".amazonaws.com/" + cfg.bucket
    else cfg.bucket + ".s3.amazonaws.com"
  }

  /** `s3url`. */
  function ObjectUrl(cfg: S3Settings, key: string): string {
    "https://" + Host(cfg) + "/" + key
  }

  /** The two URL forms, chosen by the truthiness of the region. */
  lemma ObjectUrlForms(cfg: S3Settings, key: string)
    ensures !HasRegion(cfg) ==> ObjectUrl(cfg, key) == "https://" + cfg.bucket + ".s3.amazonaws.com/" + key
    ensures HasRegion(cfg) ==>
      ObjectUrl(cfg, key) == "https://s3." + cfg.region.value + ".amazonaws.com/" + cfg.bucket + "/" + key
  {
  }

  /** Under one configuration distinct keys get distinct URLs: the URL names the object. */
  lemma ObjectUrlInjective(cfg: S3Settings, k1: string, k2: string)
    requires ObjectUrl(cfg, k1) == ObjectUrl(cfg, k2)
    ensures k1 == k2
  {
    var h := "https://" + Host(cfg) + "/";
    assert ObjectUrl(cfg, k1) == h + k1 && ObjectUrl(cfg, k2) == h + k2;
    assert k1 == (h + k1)[|h|..];
    assert k2 == (h + k2)[|h|..];
  }

  /** The object keeps the attachment's file name as its last segment, and the repository id, when truthy, as its first. */
  lemma ObjectKeyParts(repoId: Option<int>, digest: string, basename: string)
    requires basename != [] && '/' !in basename
    ensures Basename(ObjectKey(repoId, digest, basename)) == basename
    ensures HasRepoId(repoId) ==>
      var d := Decimal(repoId.value);
      |d| < |ObjectKey(repoId, digest, basename)| && ObjectKey(repoId, digest, basename)[..|d| + 1] == d + "/"
  {
    var pre := if HasRepoId(repoId) then Decimal(repoId.value) + "/" else "";
    assert ObjectKey(repoId, digest, basename) == (pre + digest) + "/" + basename;
    BasenameOfJoin(pre + digest, basename);
  }

  /** Two truthy repository ids give the same key prefix only when they are equal. */
  lemma RepoPrefixInjective(a: int, b: int, digest: string, basename: string)
    requires a != 0 && b != 0
    requires ObjectKey(Some(a), digest, basename) == ObjectKey(Some(b), digest, basename)
    ensures a == b
  {
    var da, db := Decimal(a), Decimal(b);
    var tail := digest + "/" + basename;
    assert ObjectKey(Some(a), digest, basename) == da + "/" + tail;
    assert ObjectKey(Some(b), digest, basename) == db + "/" + tail;
    assert |da| == |db|;
    assert da == (da + "/" + tail)[..|da|];
    assert db == (db + "/" + tail)[..|db|];
    DecimalInjective(a, b);
  }
}
