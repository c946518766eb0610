/**
 * The small helpers of the web front end: integer form fields, unique
 * upload names, the streaming size limit, upload validation, the archive's
 * entry names and the output count of a job.
 */
module WebHelpers {
  import opened Wrappers
  import opened Text
  import opened Paths

  newtype byte = x: int | 0 <= x < 256

  const DefaultMaxConcurrentJobs := 2
  const MaxFiles := 200
  const MaxFileBytes := 64 * 1024 * 1024
  const ReadChunk := 1024 * 1024

  /** `value` brought into `[low, high]`; the upper bound is applied last. */
  function Clamp(value: int, low: Option<int>, high: Option<int>): (v: int)
    ensures high.Some? ==> v <= high.value
    ensures low.Some? && (high.None? || low.value <= high.value) ==> v >= low.value
    ensures (low.None? || value >= low.value) && (high.None? || value <= high.value) ==> v == value
    ensures v == value || (low.Some? && v == low.value) || (high.Some? && v == high.value)
  {
    var v1 := if low.Some? && value < low.value then low.value else value;
    if high.Some? && v1 > high.value then high.value else v1
  }

  /**
   * `_parse_int`: the decimal value of `raw`, or `default` when `raw` is
   * absent or not a number, then clamped.
   */
  function ParseInt(raw: Option<string>, default: int, low: Option<int>, high: Option<int>): int {
    var value := if raw.None? then default else ParseDecimal(raw.value).GetOr(default);
    Clamp(value, low, high)
  }

  /** A number written by `str` is read back, then clamped. */
  lemma ParseIntReadsNumbers(n: int, default: int, low: Option<int>, high: Option<int>)
    requires WithinStrDigits(n)
    ensures ParseInt(Some(IntToString(n)), default, low, high) == Clamp(n, low, high)
  {
    ParseDecimalOfIntToString(n);
  }

  /**
   * A missing field, or one that is not a number ("", "abc", "12abc",
   * "1.5"), yields the (clamped) default.
   */
  lemma ParseIntFallsBack(raw: Option<string>, default: int, low: Option<int>, high: Option<int>)
    requires raw.Some? ==> NotANumber(raw.value)
    ensures ParseInt(raw, default, low, high) == Clamp(default, low, high)
  {
    if raw.Some? {
      ParseDecimalRejects(raw.value);
    }
  }

  /**
   * A number of more than `MaxStrDigits` digits makes `int()` raise, so it
   * yields the (clamped) default rather than a clamped huge value.
   */
  lemma ParseIntFallsBackOnLongNumbers(sign: string, digits: string, default: int, low: Option<int>, high: Option<int>)
    requires sign == "" || sign == "+" || sign == "-"
    requires WellFormedDigits(digits) && |RemoveUnderscores(digits)| > MaxStrDigits
    ensures ParseInt(Some(sign + digits), default, low, high) == Clamp(default, low, high)
  {
    ParseDecimalRejectsLong(sign, digits);
  }

  /**
   * `MAX_CONCURRENT_JOBS` at start-up: `SEMI_WEB_MAX_CONCURRENT_JOBS`
   * (default 2, and 2 again when it is not a number) clamped to 1..16.
   */
  function InitialMaxConcurrentJobs(env: Option<string>): (n: int)
    ensures 1 <= n <= 16
  {
    var raw := env.GetOr(IntToString(DefaultMaxConcurrentJobs));
    var value := ParseDecimal(raw).GetOr(DefaultMaxConcurrentJobs);
    var limited := if value < 16 then value else 16;
    if limited < 1 then 1 else limited
  }

  /** Without the variable, or with a value that is not a number, the limit is 2. */
  lemma InitialMaxConcurrentJobsDefault(env: Option<string>)
    requires env.Some? ==> NotANumber(env.value)
    ensures InitialMaxConcurrentJobs(env) == DefaultMaxConcurrentJobs
  {
    if env.Some? {
      ParseDecimalRejects(env.value);
    } else {
      NatToStringLength(DefaultMaxConcurrentJobs);
      ParseDecimalOfIntToString(DefaultMaxConcurrentJobs);
    }
  }

  /** A number within 1..16 is taken as it is. */
  lemma InitialMaxConcurrentJobsReadsNumber(n: int)
    requires 1 <= n <= 16
    ensures InitialMaxConcurrentJobs(Some(IntToString(n))) == n
  {
    NatToStringLength(n);
    ParseDecimalOfIntToString(n);
  }

  /** `Path(filename).name or "image.jpg"`. */
  function UploadBaseName(filename: string): (n: string)
    ensures n != ""
  {
    if Name(filename) == "" then "image.jpg" else Name(filename)
  }

  /** The `attempt`-th candidate: the base name itself, then `stem_1.suffix`, `stem_2.suffix`, .... */
  function Candidate(base: string, attempt: nat): string {
    if attempt == 0 then base else Stem(base) + "_" + NatToString(attempt) + Suffix(base)
  }

  lemma SliceHasNoSlash(s: string, i: int, j: int)
    requires 0 <= i <= j <= |s| && '/' !in s
    ensures '/' !in s[i..j]
  {
    assert forall k :: 0 <= k < j - i ==> s[i..j][k] == s[i + k];
  }

  /** Every candidate is a single path component. */
  lemma CandidateIsComponent(base: string, attempt: nat)
    requires IsComponent(base)
    ensures IsComponent(Candidate(base, attempt))
  {
    if attempt > 0 {
      var i := LastDot(base);
      var digits := NatToString(attempt);
      if 0 < i < |base| - 1 {
        SliceHasNoSlash(base, 0, i);
        SliceHasNoSlash(base, i, |base|);
      }
      assert forall k :: 0 <= k < |digits| ==> digits[k] != '/';
      var c := Candidate(base, attempt);
      assert c == Stem(base) + "_" + digits + Suffix(base);
      assert |c| >= 2;
    }
  }

  /** Different attempts give different candidates. */
  lemma CandidateInjective(base: string, i: nat, j: nat)
    requires Candidate(base, i) == Candidate(base, j)
    ensures i == j
  {
    if i == 0 || j == 0 {
      CandidateLength(base, i);
      CandidateLength(base, j);
    } else {
      NumberedCandidateInjective(base, i, j);
    }
  }

  lemma NumberedCandidateInjective(base: string, i: nat, j: nat)
    requires i > 0 && j > 0 && Candidate(base, i) == Candidate(base, j)
    ensures i == j
  {
    NumberCancels(Stem(base), NatToString(i), NatToString(j), Suffix(base));
    NatToStringInjective(i, j);
  }

  lemma NumberCancels(a: string, n1: string, n2: string, c: string)
    requires a + "_" + n1 + c == a + "_" + n2 + c
    ensures n1 == n2
  {
    var s := a + "_" + n1 + c;
    assert |n1| == |n2|;
    assert n1 == s[|a| + 1..|a| + 1 + |n1|];
  }

  lemma CandidateLength(base: string, k: nat)
    ensures k > 0 ==> |Candidate(base, k)| > |base|
  {
    StemThenSuffix(base);
  }

  /**
   * `_unique_path`: the first candidate not yet in `used`, recorded in
   * `used` and placed in `baseDir`.
   */
  method UniquePath(baseDir: string, filename: string, used: set<string>)
    returns (path: string, name: string, newUsed: set<string>)
    ensures IsComponent(name) && FirstFree(UploadBaseName(filename), used, name)
    ensures newUsed == used + {name}
    ensures path == Join(baseDir, name)
  {
    var baseName := if Name(filename) == "" then "image.jpg" else Name(filename);
    assert baseName == UploadBaseName(filename);
    name := FirstUnused(baseName, used);
    newUsed := used + {name};
    path := Join(baseDir, name);
  }

  /**
   * `name` is the first free candidate for `baseName`: it is not in use,
   * it is the base name itself when that is free, and every candidate
   * before it is taken.
   */
  ghost predicate FirstFree(baseName: string, used: set<string>, name: string) {
    && name !in used
    && (baseName !in used ==> name == baseName)
    && exists k: nat :: name == Candidate(baseName, k) && forall j: nat :: j < k ==> Candidate(baseName, j) in used
  }

  /** A candidate not tried before is not among the tried ones. */
  lemma FreshCandidate(baseName: string, tried: set<string>, n: nat)
    requires Among(baseName, tried, n)
    ensures Candidate(baseName, n) !in tried
  {
    if Candidate(baseName, n) in tried {
      var j: nat :| j < n && Candidate(baseName, n) == Candidate(baseName, j);
      CandidateInjective(baseName, j, n);
    }
  }

  /** Every name in `tried` is one of the first `n` candidates. */
  predicate Among(baseName: string, tried: set<string>, n: nat) {
    forall x :: x in tried ==> exists j: nat :: j < n && x == Candidate(baseName, j)
  }

  /** After `n` rounds of the loop: the first `n` candidates were all taken, and `tried` holds them. */
  predicate Tried(baseName: string, used: set<string>, tried: set<string>, n: nat) {
    && (forall j: nat :: j < n ==> Candidate(baseName, j) in used)
    && tried <= used && |tried| == n
    && Among(baseName, tried, n)
  }

  lemma AmongStep(baseName: string, tried: set<string>, n: nat)
    requires Among(baseName, tried, n)
    ensures Among(baseName, tried + {Candidate(baseName, n)}, n + 1)
  {
    var c := Candidate(baseName, n);
    forall x | x in tried + {c} ensures exists j: nat :: j < n + 1 && x == Candidate(baseName, j) {
      if x == c {
        assert n < n + 1 && x == Candidate(baseName, n);
      } else {
        var j: nat :| j < n && x == Candidate(baseName, j);
        assert j < n + 1;
      }
    }
  }

  /** Adding a used name not tried yet: one more tried, one untried fewer. */
  lemma GrowTried(used: set<string>, tried: set<string>, c: string)
    requires tried <= used && c in used && c !in tried
    ensures tried + {c} <= used && |tried + {c}| == |tried| + 1
    ensures |used - (tried + {c})| < |used - tried|
  {
    assert used - tried == (used - (tried + {c})) + {c};
  }

  /** One more taken candidate: one more round, and one untried name fewer. */
  lemma TriedStep(baseName: string, used: set<string>, tried: set<string>, n: nat)
    requires Tried(baseName, used, tried, n) && Candidate(baseName, n) in used
    ensures Tried(baseName, used, tried + {Candidate(baseName, n)}, n + 1)
    ensures |used - (tried + {Candidate(baseName, n)})| < |used - tried|
  {
    var c := Candidate(baseName, n);
    FreshCandidate(baseName, tried, n);
    GrowTried(used, tried, c);
    AmongStep(baseName, tried, n);
  }

  /** The `while candidate in used` loop of `_unique_path`. */
  method FirstUnused(baseName: string, used: set<string>) returns (candidate: string)
    requires IsComponent(baseName)
    ensures IsComponent(candidate) && FirstFree(baseName, used, candidate)
  {
    var stem := Stem(baseName);
    var suffix := Suffix(baseName);
    candidate := baseName;
    var index := 1;
    ghost var tried: set<string> := {};
    while candidate in used
      invariant index >= 1
      invariant candidate == Candidate(baseName, index - 1)
      invariant Tried(baseName, used, tried, index - 1)
      decreases |used - tried|
    {
      TriedStep(baseName, used, tried, index - 1);
      tried := tried + {candidate};
      candidate := stem + "_" + NatToString(index) + suffix;
      index := index + 1;
    }
    CandidateIsComponent(baseName, index - 1);
  }

  /** What `_write_with_limit` did: the bytes it counted, or the size error. */
  datatype WriteResult = Copied(total: nat) | TooLarge(message: string)

  /** How much of the source is written before the chunk that crosses `maxBytes`. */
  function BytesBeforeLimit(maxBytes: int): nat {
    if maxBytes < 0 then 0 else (maxBytes / ReadChunk) * ReadChunk
  }

  /**
   * `_write_with_limit`: copy `src` in chunks of `ReadChunk` bytes, stopping
   * with an error at the first chunk that takes the running total past
   * `maxBytes`; that chunk and everything after it is not written.
   */
  method WriteWithLimit(src: seq<byte>, maxBytes: int) returns (r: WriteResult, written: seq<byte>)
    ensures |src| == 0 || |src| <= maxBytes ==> r == Copied(|src|) && written == src
    ensures |src| > 0 && |src| > maxBytes ==>
      && r == TooLarge("File exceeds maximum size: " + IntToString(maxBytes) + " bytes")
      && written == src[..BytesBeforeLimit(maxBytes)]
    ensures |written| <= |src| && written == src[..|written|]
  {
    var total := 0;
    written := [];
    while true
      invariant 0 <= total <= |src|
      invariant total < |src| ==> total == (total / ReadChunk) * ReadChunk
      invariant total <= maxBytes || total == 0
      invariant written == src[..total]
      decreases |src| - total
    {
      var end := if total + ReadChunk < |src| then total + ReadChunk else |src|;
      var chunk := src[total..end];
      if |chunk| == 0 {
        r := Copied(total);
        return;
      }
      var newTotal := total + |chunk|;
      if newTotal > maxBytes {
        ChunkBoundary(total, maxBytes, |src|);
        r := TooLarge("File exceeds maximum size: " + IntToString(maxBytes) + " bytes");
        return;
      }
      written := written + chunk;
      assert written == src[..newTotal];
      total := newTotal;
    }
  }

  /**
   * The chunk that overflows starts at the last multiple of `ReadChunk` not
   * beyond `maxBytes`.
   */
  lemma ChunkBoundary(total: int, maxBytes: int, size: int)
    requires 0 <= total < size && total == (total / ReadChunk) * ReadChunk
    requires total <= maxBytes || total == 0
    requires size > maxBytes
    requires (if total + ReadChunk < size then total + ReadChunk else size) > maxBytes
    ensures total == BytesBeforeLimit(maxBytes)
  {
    if maxBytes >= 0 {
      var q := total / ReadChunk;
      assert q * ReadChunk <= maxBytes < (q + 1) * ReadChunk;
      DivisionIsUnique(maxBytes, q);
    }
  }

  lemma DivisionIsUnique(m: int, q: int)
    requires 0 <= m && q * ReadChunk <= m < (q + 1) * ReadChunk
    ensures m / ReadChunk == q
  {
  }

  /** One part of the `files` field of the upload form. */
  datatype UploadItem = UploadItem(
    filename: Option<string>,
    content: seq<byte>,
    /** What `_validate_image` reports: `None` when PIL accepts the file. */
    imageError: Option<string>)

  /** `getattr(item, "filename", None)` is truthy. */
  predicate HasFilename(item: UploadItem) {
    item.filename.Some? && item.filename.value != ""
  }

  function UploadItems(items: seq<UploadItem>): (r: seq<UploadItem>)
    ensures |r| <= |items|
    ensures forall i :: 0 <= i < |r| ==> HasFilename(r[i]) && r[i] in items
    ensures forall item :: item in items && HasFilename(item) ==> item in r
  {
    if |items| == 0 then []
    else
      var rest := UploadItems(items[1..]);
      assert forall item :: item in items[1..] ==> item in items;
      (if HasFilename(items[0]) then [items[0]] else []) + rest
  }

  /**
   * The filter keeps the order of the form: the uploads of two runs of
   * fields are those of the first run followed by those of the second.
   */
  lemma {:induction false} UploadItemsAppend(a: seq<UploadItem>, b: seq<UploadItem>)
    ensures UploadItems(a + b) == UploadItems(a) + UploadItems(b)
  {
    if |a| > 0 {
      assert (a + b)[1..] == a[1..] + b;
      UploadItemsAppend(a[1..], b);
    } else {
      assert a + b == b;
    }
  }

  /** A single field is kept exactly when it carries a file name. */
  lemma UploadItemsSingle(item: UploadItem)
    ensures UploadItems([item]) == if HasFilename(item) then [item] else []
  {
    assert [item][1..] == [];
  }

  /** `Path(filename).suffix.lower()`. */
  function Extension(filename: string): string {
    Lower(Suffix(Name(filename)))
  }

  predicate AllowedExtension(ext: string) {
    ext == ".jpg" || ext == ".jpeg" || ext == ".png"
  }

  /** Why `_extract_uploads` refuses an item, checked in the source's order. */
  function ItemError(item: UploadItem): Option<string>
    requires HasFilename(item)
  {
    var filename := item.filename.value;
    if !AllowedExtension(Extension(filename)) then
      Some("Unsupported file type: " + filename + ". Allowed: .jpeg, .jpg, .png")
    else if |item.content| > MaxFileBytes then
      Some("File exceeds maximum size: " + IntToString(MaxFileBytes) + " bytes")
    else if item.imageError.Some? then
      Some("Invalid image file: " + filename + ". " + item.imageError.value)
    else None
  }

  /**
   * The body of `_extract_uploads`'s loop for one item: the extension
   * check, a unique name, the bounded copy, then image validation.
   */
  method StoreUpload(item: UploadItem, inputDir: string, used: set<string>)
    returns (error: Option<string>, targetPath: string, name: string, newUsed: set<string>)
    requires HasFilename(item)
    ensures error == ItemError(item)
    ensures error.None? ==> name !in used && IsComponent(name) && newUsed == used + {name} && targetPath == Join(inputDir, name)
    ensures error.None? ==> FirstFree(UploadBaseName(item.filename.value), used, name)
  {
    var filename := item.filename.value;
    targetPath, name, newUsed := "", "", used;
    var ext := Extension(filename);
    if !AllowedExtension(ext) {
      error := Some("Unsupported file type: " + filename + ". Allowed: .jpeg, .jpg, .png");
      return;
    }
    targetPath, name, newUsed := UniquePath(inputDir, filename, used);
    var written, bytes := WriteWithLimit(item.content, MaxFileBytes);
    if written.TooLarge? {
      error := Some(written.message);
      return;
    }
    if item.imageError.Some? {
      error := Some("Invalid image file: " + filename + ". " + item.imageError.value);
      return;
    }
    error := None;
  }

  datatype Uploads = Accepted(paths: seq<string>) | Rejected(message: string)

  /** The verdict on each item, in upload order. */
  function Verdicts(items: seq<UploadItem>): (vs: seq<Option<string>>)
    requires forall k :: 0 <= k < |items| ==> HasFilename(items[k])
    ensures |vs| == |items| && forall k :: 0 <= k < |items| ==> vs[k] == ItemError(items[k])
  {
    seq(|items|, k requires 0 <= k < |items| => ItemError(items[k]))
  }

  /** The first refusal among the verdicts, if any. */
  function FirstError(vs: seq<Option<string>>): Option<string> {
    if |vs| == 0 then None
    else if vs[0].Some? then vs[0]
    else FirstError(vs[1..])
  }

  /**
   * `FirstError` is what its name says: `None` exactly when every verdict
   * is `None`, otherwise a verdict all of whose predecessors are `None`.
   */
  lemma {:induction false} FirstErrorIsFirst(vs: seq<Option<string>>)
    ensures FirstError(vs).None? <==> forall k :: 0 <= k < |vs| ==> vs[k].None?
    ensures FirstError(vs).Some? ==>
      exists k :: 0 <= k < |vs| && vs[k] == FirstError(vs) && forall j :: 0 <= j < k ==> vs[j].None?
  {
    if |vs| > 0 && vs[0].None? {
      var rest := vs[1..];
      FirstErrorIsFirst(rest);
      if FirstError(rest).Some? {
        var k :| 0 <= k < |rest| && rest[k] == FirstError(rest) && forall j :: 0 <= j < k ==> rest[j].None?;
        assert vs[k + 1] == FirstError(vs);
        forall j | 0 <= j < k + 1 ensures vs[j].None? {
          if j > 0 { assert vs[j] == rest[j - 1]; }
        }
      } else {
        forall k | 0 <= k < |vs| ensures vs[k].None? {
          if k > 0 { assert vs[k] == rest[k - 1]; }
        }
      }
    }
  }

  /** The message `_extract_uploads` raises for these items, if it raises. */
  function UploadRejection(items: seq<UploadItem>): Option<string> {
    var named := UploadItems(items);
    if |named| == 0 then Some("No input files provided")
    else if |named| > MaxFiles then Some("Too many files. Maximum allowed: 200")
    else FirstError(Verdicts(named))
  }

  /**
   * `_extract_uploads`: at least one and at most `MaxFiles` named items;
   * the first bad item stops the upload with its reason; otherwise every
   * item gets its own name in `inputDir`, in upload order.
   */
  method ExtractUploads(items: seq<UploadItem>, inputDir: string) returns (r: Uploads)
    ensures r.Rejected? <==> UploadRejection(items).Some?
    ensures r.Rejected? ==> r.message == UploadRejection(items).value
    ensures r.Accepted? ==> |r.paths| == |UploadItems(items)|
    ensures r.Accepted? ==> forall i, j :: 0 <= i < j < |r.paths| ==> Name(r.paths[i]) != Name(r.paths[j])
    ensures r.Accepted? ==> forall i :: 0 <= i < |r.paths| ==> Parent(r.paths[i]) == Normalize(inputDir)
    ensures r.Accepted? ==> StoredInOrder(UploadItems(items), r.paths)
  {
    var named := UploadItems(items);
    if |named| == 0 {
      return Rejected("No input files provided");
    }
    if |named| > MaxFiles {
      assert NatToString(200) == "200";
      return Rejected("Too many files. Maximum allowed: " + NatToString(MaxFiles));
    }
    r := StoreUploads(named, inputDir);
  }

  /** Each stored path is `inputDir` with its item's name. */
  predicate StoredPaths(paths: seq<string>, names: seq<string>, inputDir: string) {
    && |paths| == |names|
    && (forall k :: 0 <= k < |names| ==> Name(paths[k]) == names[k])
    && (forall k :: 0 <= k < |paths| ==> Parent(paths[k]) == Normalize(inputDir))
  }

  /** The names of the first `k` stored paths. */
  function NamesBefore(paths: seq<string>, k: nat): set<string>
    requires k <= |paths|
  {
    set j | 0 <= j < k :: Name(paths[j])
  }

  /**
   * The `k`-th path is stored under the name `_unique_path` picks for the
   * `k`-th item: the first candidate for the item's file name that none of
   * the paths before it uses.
   */
  ghost predicate StoredInOrder(items: seq<UploadItem>, paths: seq<string>) {
    && |paths| <= |items|
    && forall k :: 0 <= k < |paths| ==>
         && items[k].filename.Some?
         && FirstFree(UploadBaseName(items[k].filename.value), NamesBefore(paths, k), Name(paths[k]))
  }

  /** Appending a path leaves the names before every earlier position alone. */
  lemma NamesBeforeSnoc(paths: seq<string>, p: string)
    ensures forall k :: 0 <= k <= |paths| ==> NamesBefore(paths + [p], k) == NamesBefore(paths, k)
    ensures NamesBefore(paths + [p], |paths| + 1) == NamesBefore(paths, |paths|) + {Name(p)}
  {
    var paths' := paths + [p];
    forall k | 0 <= k <= |paths| ensures NamesBefore(paths', k) == NamesBefore(paths, k) {
      assert forall j :: 0 <= j < k ==> paths'[j] == paths[j];
    }
    assert paths'[|paths|] == p;
  }

  lemma StoredInOrderSnoc(items: seq<UploadItem>, paths: seq<string>, p: string)
    requires StoredInOrder(items, paths) && |paths| < |items|
    requires items[|paths|].filename.Some?
    requires FirstFree(UploadBaseName(items[|paths|].filename.value), NamesBefore(paths, |paths|), Name(p))
    ensures StoredInOrder(items, paths + [p])
  {
    NamesBeforeSnoc(paths, p);
    var paths' := paths + [p];
    forall k | 0 <= k < |paths'|
      ensures items[k].filename.Some? && FirstFree(UploadBaseName(items[k].filename.value), NamesBefore(paths', k), Name(paths'[k]))
    {
      if k < |paths| {
        SameFirstFree(items[k], NamesBefore(paths, k), NamesBefore(paths', k), Name(paths[k]), Name(paths'[k]));
      } else {
        SameFirstFree(items[k], NamesBefore(paths, |paths|), NamesBefore(paths', k), Name(p), Name(paths'[k]));
      }
    }
  }

  lemma SameFirstFree(item: UploadItem, used: set<string>, used': set<string>, name: string, name': string)
    requires item.filename.Some? && FirstFree(UploadBaseName(item.filename.value), used, name)
    requires used == used' && name == name'
    ensures FirstFree(UploadBaseName(item.filename.value), used', name')
  {
  }

  /** The names handed out so far: all different, and exactly the ones in use. */
  predicate NamesInUse(names: seq<string>, used: set<string>) {
    && (forall k :: 0 <= k < |names| ==> names[k] in used)
    && (forall k, l :: 0 <= k < l < |names| ==> names[k] != names[l])
    && (forall x :: x in used ==> x in names)
  }

  lemma StoredPathsStep(paths: seq<string>, names: seq<string>, inputDir: string, name: string)
    requires StoredPaths(paths, names, inputDir)
    requires IsComponent(name)
    ensures StoredPaths(paths + [Join(inputDir, name)], names + [name], inputDir)
  {
    NameOfJoin(inputDir, name);
    ParentOfJoin(inputDir, name);
    StoredPathsSnoc(paths, names, inputDir, Join(inputDir, name), name);
  }

  lemma StoredPathsSnoc(paths: seq<string>, names: seq<string>, inputDir: string, path: string, name: string)
    requires StoredPaths(paths, names, inputDir)
    requires Name(path) == name && Parent(path) == Normalize(inputDir)
    ensures StoredPaths(paths + [path], names + [name], inputDir)
  {
    var paths', names' := paths + [path], names + [name];
    forall k | 0 <= k < |names'| ensures Name(paths'[k]) == names'[k] {
      if k < |names| {
        assert names'[k] == names[k] && paths'[k] == paths[k];
      }
    }
    forall k | 0 <= k < |paths'| ensures Parent(paths'[k]) == Normalize(inputDir) {
      if k < |paths| {
        assert paths'[k] == paths[k];
      }
    }
  }

  lemma NamesInUseStep(names: seq<string>, used: set<string>, name: string)
    requires NamesInUse(names, used) && name !in used
    ensures NamesInUse(names + [name], used + {name})
  {
    var names', used' := names + [name], used + {name};
    forall x | x in used' ensures x in names' {
      if x != name {
        var k :| 0 <= k < |names| && names[k] == x;
        assert names'[k] == x;
      }
    }
  }

  /** The `for item in upload_items` loop of `_extract_uploads`. */
  method StoreUploads(named: seq<UploadItem>, inputDir: string) returns (r: Uploads)
    requires forall k :: 0 <= k < |named| ==> HasFilename(named[k])
    ensures FirstError(Verdicts(named)).Some? ==> r == Rejected(FirstError(Verdicts(named)).value)
    ensures FirstError(Verdicts(named)).None? ==> r.Accepted? && |r.paths| == |named|
    ensures r.Accepted? ==> forall i, j :: 0 <= i < j < |r.paths| ==> Name(r.paths[i]) != Name(r.paths[j])
    ensures r.Accepted? ==> forall i :: 0 <= i < |r.paths| ==> Parent(r.paths[i]) == Normalize(inputDir)
    ensures r.Accepted? ==> StoredInOrder(named, r.paths)
  {
    ghost var verdicts := Verdicts(named);
    var inputPaths: seq<string> := [];
    ghost var names: seq<string> := [];
    var used: set<string> := {};
    var i := 0;
    while i < |named|
      invariant 0 <= i <= |named| && |inputPaths| == i
      invariant FirstError(verdicts) == FirstError(verdicts[i..])
      invariant StoredPaths(inputPaths, names, inputDir)
      invariant NamesInUse(names, used)
      invariant used == NamesBefore(inputPaths, i)
      invariant StoredInOrder(named, inputPaths)
    {
      var error, targetPath, name, newUsed := StoreUpload(named[i], inputDir, used);
      assert error == verdicts[i];
      FirstErrorStep(verdicts, i);
      if error.Some? {
        return Rejected(error.value);
      }
      StoredPathsStep(inputPaths, names, inputDir, name);
      NamesInUseStep(names, used, name);
      NameOfJoin(inputDir, name);
      StoredInOrderSnoc(named, inputPaths, targetPath);
      NamesBeforeSnoc(inputPaths, targetPath);
      used := newUsed;
      inputPaths := inputPaths + [targetPath];
      names := names + [name];
      i := i + 1;
    }
    StoredNamesDistinct(inputPaths, names, used, inputDir);
    return Accepted(inputPaths);
  }

  lemma FirstErrorStep(vs: seq<Option<string>>, i: nat)
    requires i < |vs|
    ensures FirstError(vs[i..]) == if vs[i].Some? then vs[i] else FirstError(vs[i + 1..])
  {
    assert vs[i..][0] == vs[i] && vs[i..][1..] == vs[i + 1..];
  }

  lemma StoredNamesDistinct(paths: seq<string>, names: seq<string>, used: set<string>, inputDir: string)
    requires StoredPaths(paths, names, inputDir) && NamesInUse(names, used)
    ensures forall i, j :: 0 <= i < j < |paths| ==> Name(paths[i]) != Name(paths[j])
  {
  }

  /** `[p for p in paths if p.exists()]`, with the file system as the set of existing paths. */
  function Existing(paths: seq<string>, onDisk: set<string>): (r: seq<string>)
    ensures |r| <= |paths|
    ensures forall k :: 0 <= k < |r| ==> r[k] in onDisk && r[k] in paths
    ensures forall p :: p in paths && p in onDisk ==> p in r
  {
    if |paths| == 0 then []
    else
      var last := paths[|paths| - 1];
      var front := paths[..|paths| - 1];
      assert forall p :: p in front ==> p in paths;
      assert paths == front + [last];
      Existing(front, onDisk) + (if last in onDisk then [last] else [])
  }

  /**
   * The filter keeps the order of `paths`: the existing paths of two runs
   * are those of the first run followed by those of the second.
   */
  lemma {:induction false} ExistingAppend(a: seq<string>, b: seq<string>, onDisk: set<string>)
    ensures Existing(a + b, onDisk) == Existing(a, onDisk) + Existing(b, onDisk)
    decreases |b|
  {
    if |b| > 0 {
      var n := |b| - 1;
      assert (a + b)[..|a + b| - 1] == a + b[..n];
      assert b[..n] + [b[n]] == b;
      ExistingAppend(a, b[..n], onDisk);
    } else {
      assert a + b == a;
    }
  }

  /** A single path is kept exactly when it exists. */
  lemma ExistingSingle(p: string, onDisk: set<string>)
    ensures Existing([p], onDisk) == if p in onDisk then [p] else []
  {
    assert [p][..0] == [];
  }

  lemma ExistingStep(paths: seq<string>, i: nat, onDisk: set<string>)
    requires i < |paths|
    ensures |Existing(paths[..i + 1], onDisk)| == |Existing(paths[..i], onDisk)| + (if paths[i] in onDisk then 1 else 0)
  {
    assert paths[..i + 1][..i] == paths[..i];
  }

  /** Where the normal mode writes each input: the output directory with the input's name. */
  function OutputTargets(inputs: seq<string>, outputDir: string): (r: seq<string>)
    ensures |r| == |inputs| && forall k :: 0 <= k < |inputs| ==> r[k] == Join(outputDir, Name(inputs[k]))
  {
    seq(|inputs|, k requires 0 <= k < |inputs| => Join(outputDir, Name(inputs[k])))
  }

  /** The outputs a job has on disk: its preview files, or its inputs' targets in the output directory. */
  function OutputFiles(previewMode: bool, inputs: seq<string>, outputDir: Option<string>, previewPaths: seq<string>, onDisk: set<string>): seq<string> {
    if previewMode then Existing(previewPaths, onDisk)
    else if outputDir.None? then []
    else Existing(OutputTargets(inputs, outputDir.value), onDisk)
  }

  /**
   * `_count_output_files`: how many of the job's outputs exist, counted the
   * way the source counts them.
   */
  method CountOutputFiles(previewMode: bool, inputs: seq<string>, outputDir: Option<string>, previewPaths: seq<string>, onDisk: set<string>)
    returns (count: nat)
    ensures count == |OutputFiles(previewMode, inputs, outputDir, previewPaths, onDisk)|
  {
    if previewMode {
      return |Existing(previewPaths, onDisk)|;
    }
    if outputDir.None? {
      return 0;
    }
    ghost var targets := OutputTargets(inputs, outputDir.value);
    count := 0;
    var i := 0;
    while i < |inputs|
      invariant 0 <= i <= |inputs|
      invariant count == |Existing(targets[..i], onDisk)|
    {
      var target := Join(outputDir.value, Name(inputs[i]));
      assert target == targets[i];
      ExistingStep(targets, i, onDisk);
      if target in onDisk {
        count := count + 1;
      }
      i := i + 1;
    }
    assert targets[..i] == targets;
  }

  /** Every output counted exists and there are never more than the job could have produced. */
  lemma OutputFilesBounded(previewMode: bool, inputs: seq<string>, outputDir: Option<string>, previewPaths: seq<string>, onDisk: set<string>)
    ensures var files := OutputFiles(previewMode, inputs, outputDir, previewPaths, onDisk);
      && |files| <= (if previewMode then |previewPaths| else |inputs|)
      && forall k :: 0 <= k < |files| ==> files[k] in onDisk
  {
  }

  /** `_create_zip`'s entry names: each file under `folder` by its name, then the report. */
  function ZipEntries(files: seq<string>, folder: string): (entries: seq<string>)
    ensures |entries| == |files| + 1 && entries[|files|] == "report.json"
    ensures forall k :: 0 <= k < |files| ==> entries[k] == folder + "/" + Name(files[k])
  {
    seq(|files|, k requires 0 <= k < |files| => folder + "/" + Name(files[k])) + ["report.json"]
  }

  /**
   * The archive has no two entries of the same name exactly when the files
   * have distinct names; the report never collides with a file.
   */
  lemma ZipEntriesDistinct(files: seq<string>, folder: string)
    ensures var entries := ZipEntries(files, folder);
      && (forall k :: 0 <= k < |files| ==> entries[k] != "report.json")
      && ((forall i, j :: 0 <= i < j < |entries| ==> entries[i] != entries[j])
          <==> (forall i, j :: 0 <= i < j < |files| ==> Name(files[i]) != Name(files[j])))
  {
    var entries := ZipEntries(files, folder);
    forall k | 0 <= k < |files| ensures entries[k] != "report.json" {
      assert entries[k][|folder|] == '/';
      assert '/' !in "report.json";
    }
    forall i, j | 0 <= i < j < |files| && entries[i] == entries[j] ensures Name(files[i]) == Name(files[j]) {
      assert Name(files[i]) == entries[i][|folder| + 1..];
      assert Name(files[j]) == entries[j][|folder| + 1..];
    }
  }
}
