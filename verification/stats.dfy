/** `AcquisitionStats` and `_add_to_stats`. Sizes are whole bytes rather than
    the source's floating-point megabytes. */
module Stats {

  /** The six category names a caller can pass to `_add_to_stats`. */
  const KnownCategories: set<string> := {"volatile", "app_data", "media", "documents", "downloads", "system"}

  datatype Stats = Stats(
    volatileBytes: nat,
    appDataBytes: nat,
    mediaBytes: nat,
    documentsBytes: nat,
    downloadsBytes: nat,
    systemBytes: nat,
    totalBytes: nat,
    processesScanned: nat,
    memoryMapsAcquired: nat,
    appsProcessed: nat,
    databasesAcquired: nat,
    photosAcquired: nat,
    videosAcquired: nat,
    audioAcquired: nat,
    documentsAcquired: nat,
    totalFiles: nat,
    failedFiles: nat,
    pathErrors: nat,
    extractionErrors: nat)

  const Empty: Stats := Stats(0, 0, 0, 0, 0, 0, 0, 0, 0, 0, 0, 0, 0, 0, 0, 0, 0, 0, 0)

  /** The byte bucket a category name selects; unknown names select none. */
  function Bucket(s: Stats, category: string): nat {
    if category == "volatile" then s.volatileBytes
    else if category == "app_data" then s.appDataBytes
    else if category == "media" then s.mediaBytes
    else if category == "documents" then s.documentsBytes
    else if category == "downloads" then s.downloadsBytes
    else if category == "system" then s.systemBytes
    else 0
  }

  function BucketSum(s: Stats): nat {
    s.volatileBytes + s.appDataBytes + s.mediaBytes + s.documentsBytes + s.downloadsBytes + s.systemBytes
  }

  /** The counters other than the byte totals and `totalFiles`. */
  predicate SameCounters(a: Stats, b: Stats) {
    && a.processesScanned == b.processesScanned
    && a.memoryMapsAcquired == b.memoryMapsAcquired
    && a.appsProcessed == b.appsProcessed
    && a.databasesAcquired == b.databasesAcquired
    && a.photosAcquired == b.photosAcquired
    && a.videosAcquired == b.videosAcquired
    && a.audioAcquired == b.audioAcquired
    && a.documentsAcquired == b.documentsAcquired
    && a.failedFiles == b.failedFiles
    && a.pathErrors == b.pathErrors
    && a.extractionErrors == b.extractionErrors
  }

  /** The counters the per-file engine never touches: they belong to the
      callers that drive it (process scan, memory maps, apps, media kinds,
      documents). */
  predicate SameTallies(a: Stats, b: Stats) {
    && a.processesScanned == b.processesScanned
    && a.memoryMapsAcquired == b.memoryMapsAcquired
    && a.appsProcessed == b.appsProcessed
    && a.photosAcquired == b.photosAcquired
    && a.videosAcquired == b.videosAcquired
    && a.audioAcquired == b.audioAcquired
    && a.documentsAcquired == b.documentsAcquired
  }

  /** No field of `b` is below the same field of `a`. */
  predicate NoneDecreased(a: Stats, b: Stats) {
    && a.volatileBytes <= b.volatileBytes
    && a.appDataBytes <= b.appDataBytes
    && a.mediaBytes <= b.mediaBytes
    && a.documentsBytes <= b.documentsBytes
    && a.downloadsBytes <= b.downloadsBytes
    && a.systemBytes <= b.systemBytes
    && a.totalBytes <= b.totalBytes
    && a.processesScanned <= b.processesScanned
    && a.memoryMapsAcquired <= b.memoryMapsAcquired
    && a.appsProcessed <= b.appsProcessed
    && a.databasesAcquired <= b.databasesAcquired
    && a.photosAcquired <= b.photosAcquired
    && a.videosAcquired <= b.videosAcquired
    && a.audioAcquired <= b.audioAcquired
    && a.documentsAcquired <= b.documentsAcquired
    && a.totalFiles <= b.totalFiles
    && a.failedFiles <= b.failedFiles
    && a.pathErrors <= b.pathErrors
    && a.extractionErrors <= b.extractionErrors
  }

  /** `total` covers at least the six buckets; equality holds while every
      size added so far went to a known category. */
  predicate Covered(s: Stats) {
    BucketSum(s) <= s.totalBytes
  }

  predicate Balanced(s: Stats) {
    BucketSum(s) == s.totalBytes
  }

  /** `_add_to_stats(category, size)`: the matching bucket and the grand
      total grow by `size`, and one more file is counted. */
  function AddToStats(s: Stats, category: string, size: nat): (r: Stats)
    ensures forall c :: c in KnownCategories ==>
      Bucket(r, c) == Bucket(s, c) + (if c == category then size else 0)
    ensures BucketSum(r) == BucketSum(s) + (if category in KnownCategories then size else 0)
    ensures r.totalBytes == s.totalBytes + size
    ensures r.totalFiles == s.totalFiles + 1
    ensures SameCounters(s, r)
    ensures NoneDecreased(s, r)
  {
    var s1 :=
      if category == "volatile" then s.(volatileBytes := s.volatileBytes + size)
      else if category == "app_data" then s.(appDataBytes := s.appDataBytes + size)
      else if category == "media" then s.(mediaBytes := s.mediaBytes + size)
      else if category == "documents" then s.(documentsBytes := s.documentsBytes + size)
      else if category == "downloads" then s.(downloadsBytes := s.downloadsBytes + size)
      else if category == "system" then s.(systemBytes := s.systemBytes + size)
      else s;
    s1.(totalBytes := s1.totalBytes + size, totalFiles := s1.totalFiles + 1)
  }

  /** Adding to a known category keeps `total` equal to the sum of the six
      buckets; any addition keeps it at least that sum. */
  lemma AddToStatsKeepsBalance(s: Stats, category: string, size: nat)
    ensures Covered(s) ==> Covered(AddToStats(s, category, size))
    ensures Balanced(s) && category in KnownCategories ==> Balanced(AddToStats(s, category, size))
    ensures Balanced(s) && category !in KnownCategories && size > 0 ==>
      !Balanced(AddToStats(s, category, size))
  {
  }

  lemma NoneDecreasedTransitive(a: Stats, b: Stats, c: Stats)
    requires NoneDecreased(a, b) && NoneDecreased(b, c)
    ensures NoneDecreased(a, c)
  {
  }

  /** Bucket-wise growth by `size` in one known category adds `size` to the
      bucket sum. */
  lemma BucketSumGrows(a: Stats, b: Stats, category: string, size: nat)
    requires category in KnownCategories
    requires forall c :: c in KnownCategories ==>
      Bucket(b, c) == Bucket(a, c) + (if c == category then size else 0)
    ensures BucketSum(b) == BucketSum(a) + size
  {
    assert Bucket(b, "volatile") == Bucket(a, "volatile") + (if "volatile" == category then size else 0);
    assert Bucket(b, "app_data") == Bucket(a, "app_data") + (if "app_data" == category then size else 0);
    assert Bucket(b, "media") == Bucket(a, "media") + (if "media" == category then size else 0);
    assert Bucket(b, "documents") == Bucket(a, "documents") + (if "documents" == category then size else 0);
    assert Bucket(b, "downloads") == Bucket(a, "downloads") + (if "downloads" == category then size else 0);
    assert Bucket(b, "system") == Bucket(a, "system") + (if "system" == category then size else 0);
  }
}
