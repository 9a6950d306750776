/** The path sanitizer `_sanitize_path`: turns a device-side path into a
    relative local path that is safe on the acquisition workstation. */
module Sanitizer {
  import opened Strings

  /** `Config.MAX_PATH_LENGTH`. */
  const MaxPathLength: nat := 200
  /** Per-component cap applied to every path component. */
  const MaxComponentLength: nat := 100

  /** The ten characters the sanitizer replaces with `_`. */
  predicate IsIllegal(c: char) {
    c in {':', '*', '?', '"', '<', '>', '|', '\n', '\r', '\t'}
  }

  predicate NoIllegal(s: string) {
    forall i :: 0 <= i < |s| ==> !IsIllegal(s[i])
  }

  predicate IsLowerHex(c: char) {
    '0' <= c <= '9' || 'a' <= c <= 'f'
  }

  /** The first eight characters of an MD5 `hexdigest()`. */
  type Digest8 = s: string | |s| == 8 && forall i :: 0 <= i < |s| ==> IsLowerHex(s[i])
    witness "00000000"

  /** What every component of a sanitized path looks like. */
  predicate ValidComponent(p: string) {
    && 0 < |p| <= MaxComponentLength
    && '/' !in p
    && p[0] != '.'
    && NoIllegal(p)
  }

  /** Character-level shape of a relative path whose components are all
      non-empty and do not start with a dot: no leading `/`, no `//`, no
      trailing `/`, and no `.` at the start of a component. */
  predicate Shaped(r: string) {
    && (|r| > 0 ==> r[0] != '/' && r[0] != '.' && r[|r| - 1] != '/')
    && (forall i :: 0 < i < |r| && r[i - 1] == '/' ==> r[i] != '/' && r[i] != '.')
  }

  /** One component: illegal characters become `_`, then a leading `.`
      becomes `_`, then the component is cut to 100 characters. The source
      replaces the ten characters one after the other; since `_` is not one
      of them, that is the same as one substitution per character. */
  function SanitizeComponent(part: string): (r: string)
    requires part != [] && '/' !in part
    ensures ValidComponent(r)
    ensures |r| == if |part| < MaxComponentLength then |part| else MaxComponentLength
    ensures forall i :: 0 <= i < |r| ==>
      r[i] == (if IsIllegal(part[i]) || (i == 0 && part[i] == '.') then '_' else part[i])
  {
    var replaced := seq(|part|, i requires 0 <= i < |part| => if IsIllegal(part[i]) then '_' else part[i]);
    var undotted := if replaced[0] == '.' then "_" + replaced[1..] else replaced;
    if |undotted| > MaxComponentLength then undotted[..MaxComponentLength] else undotted
  }

  /** The non-empty parts of a split. */
  function NonEmpty(parts: seq<string>): (r: seq<string>)
    ensures forall i :: 0 <= i < |r| ==> r[i] != [] && r[i] in parts
    decreases |parts|
  {
    if |parts| == 0 then []
    else if parts[0] == [] then NonEmpty(parts[1..])
    else [parts[0]] + NonEmpty(parts[1..])
  }

  function SanitizeAll(parts: seq<string>): (r: seq<string>)
    requires forall i :: 0 <= i < |parts| ==> parts[i] != [] && '/' !in parts[i]
    ensures |r| == |parts|
    ensures forall i :: 0 <= i < |r| ==> r[i] == SanitizeComponent(parts[i])
    decreases |parts|
  {
    if |parts| == 0 then [] else [SanitizeComponent(parts[0])] + SanitizeAll(parts[1..])
  }

  /** The sanitized components of a device path, in order. */
  function SanitizedParts(path: string): (r: seq<string>)
    ensures forall i :: 0 <= i < |r| ==> ValidComponent(r[i])
  {
    SanitizeAll(NonEmpty(Split(path, '/')))
  }

  /** The components rejoined with `/`, before any length limit. */
  function Joined(path: string): string {
    Join(SanitizedParts(path), '/')
  }

  /** `_sanitize_path` with `MAX_PATH_LENGTH = maxLen` and the MD5 prefix
      supplied as `digest`. A joined result longer than `maxLen` is replaced
      by `result[:maxLen-10] + "_" + md5(result)[:8]`, the digest being taken
      over the whole joined string. */
  function Sanitize(path: string, maxLen: nat, digest: string -> Digest8): (r: string)
    ensures |Joined(path)| <= maxLen ==> r == Joined(path)
    ensures |Joined(path)| > maxLen && maxLen >= 10 ==>
      && |r| == maxLen - 1
      && r[..maxLen - 10] == Joined(path)[..maxLen - 10]
      && r[maxLen - 10] == '_'
      && r[maxLen - 9..] == digest(Joined(path))
    ensures maxLen >= 10 ==> |r| <= maxLen
    ensures NoIllegal(r)
    ensures maxLen >= 10 ==> Shaped(r)
  {
    var j := Joined(path);
    JoinedProperties(path);
    if |j| > maxLen then
      var r := PySlicePrefix(j, maxLen - 10) + "_" + digest(j);
      TruncatedProperties(j, PySlicePrefix(j, maxLen - 10), digest(j));
      r
    else j
  }

  lemma JoinedProperties(path: string)
    ensures NoIllegal(Joined(path))
    ensures Shaped(Joined(path))
  {
    var parts := SanitizedParts(path);
    JoinChars(parts, '/', c => !IsIllegal(c));
    JoinShaped(parts);
  }

  /** A join of valid components is shaped, and non-empty when there is at
      least one component. */
  lemma {:induction false} JoinShaped(parts: seq<string>)
    requires forall i :: 0 <= i < |parts| ==> ValidComponent(parts[i])
    ensures Shaped(Join(parts, '/'))
    ensures |parts| > 0 ==> |Join(parts, '/')| > 0 && Join(parts, '/')[0] == parts[0][0]
    decreases |parts|
  {
    if |parts| == 1 {
      var p := parts[0];
      assert forall i :: 0 <= i < |p| ==> p[i] != '/';
    } else if |parts| > 1 {
      JoinShaped(parts[1..]);
      var p := parts[0];
      var rest := Join(parts[1..], '/');
      var r := Join(parts, '/');
      assert r == p + "/" + rest;
      assert forall i :: 0 <= i < |p| ==> p[i] != '/';
      forall i | 0 < i < |r| && r[i - 1] == '/'
        ensures r[i] != '/' && r[i] != '.'
      {
        if i == |p| + 1 {
          assert r[i] == rest[0];
        } else if i > |p| + 1 {
          assert r[i] == rest[i - |p| - 1] && r[i - 1] == rest[i - 1 - |p| - 1];
        }
      }
      assert r[|r| - 1] == rest[|rest| - 1];
    }
  }

  /** Cutting a shaped, legal string and appending `_` plus eight hex digits
      keeps it shaped and legal. */
  lemma TruncatedProperties(j: string, prefix: string, h: Digest8)
    requires Shaped(j) && NoIllegal(j)
    requires |prefix| <= |j| && prefix == j[..|prefix|]
    ensures NoIllegal(prefix + "_" + h)
    ensures Shaped(prefix + "_" + h)
  {
    var r := prefix + "_" + h;
    assert forall i :: 0 <= i < |h| ==> IsLowerHex(h[i]);
    forall i | 0 <= i < |r|
      ensures !IsIllegal(r[i]) && (i >= |prefix| ==> r[i] != '/' && r[i] != '.')
    {
      if i < |prefix| {
        assert r[i] == j[i];
      } else if i > |prefix| {
        assert r[i] == h[i - |prefix| - 1];
      }
    }
    forall i | 0 < i < |r| && r[i - 1] == '/'
      ensures r[i] != '/' && r[i] != '.'
    {
      if i < |prefix| {
        assert r[i - 1] == j[i - 1] && r[i] == j[i];
      }
    }
  }

  /** When no truncation happens, splitting the output on `/` gives back
      exactly the sanitized components: each one non-empty, at most 100
      characters, dot-free at its start and free of illegal characters. */
  lemma SanitizeComponents(path: string, maxLen: nat, digest: string -> Digest8)
    requires |Joined(path)| <= maxLen
    ensures SanitizedParts(path) == [] ==> Sanitize(path, maxLen, digest) == ""
    ensures SanitizedParts(path) != [] ==>
      var cs := Split(Sanitize(path, maxLen, digest), '/');
      && cs == SanitizedParts(path)
      && forall i :: 0 <= i < |cs| ==> ValidComponent(cs[i])
  {
    var parts := SanitizedParts(path);
    if parts != [] {
      SplitJoin(parts, '/');
    }
  }

  /** Two truncated outputs can only coincide when their cut prefixes and the
      digests of their full joined strings coincide: the suffix is a function
      of the whole string, not of the kept prefix. */
  lemma TruncationKeepsDigest(p: string, q: string, maxLen: nat, digest: string -> Digest8)
    requires maxLen >= 10
    requires |Joined(p)| > maxLen && |Joined(q)| > maxLen
    requires digest(Joined(p)) != digest(Joined(q))
    ensures Sanitize(p, maxLen, digest) != Sanitize(q, maxLen, digest)
  {
    var rp := Sanitize(p, maxLen, digest);
    var rq := Sanitize(q, maxLen, digest);
    assert rp[maxLen - 9..] != rq[maxLen - 9..];
  }

  /** `lstrip('/')` before sanitizing changes nothing: empty components are
      dropped anyway. */
  lemma {:induction false} SanitizeIgnoresLeadingSlashes(path: string)
    ensures SanitizedParts(LStripChar(path, '/')) == SanitizedParts(path)
    decreases |path|
  {
    if |path| > 0 && path[0] == '/' {
      SanitizeIgnoresLeadingSlashes(path[1..]);
      assert Split(path, '/') == [""] + Split(path[1..], '/');
      assert NonEmpty([""] + Split(path[1..], '/')) == NonEmpty(Split(path[1..], '/'));
    }
  }

  /** Sanitizing a basename (no `/` in it) yields a single component:
      the output itself contains no `/`. */
  lemma SanitizeBasenameIsFlat(name: string, maxLen: nat, digest: string -> Digest8)
    requires '/' !in name
    ensures '/' !in Sanitize(name, maxLen, digest)
  {
    SplitNoSep(name, '/');
    var r := Sanitize(name, maxLen, digest);
    var parts := SanitizedParts(name);
    assert [name][1..] == [];
    assert |NonEmpty([name])| <= 1;
    var j := Joined(name);
    assert '/' !in j by {
      if |parts| == 1 {
        assert j == parts[0];
      }
    }
    if |j| > maxLen {
      var prefix := PySlicePrefix(j, maxLen - 10);
      var h := digest(j);
      assert r == prefix + "_" + h;
      assert forall i :: 0 <= i < |h| ==> IsLowerHex(h[i]);
      forall i | 0 <= i < |r| ensures r[i] != '/' {
        if i < |prefix| {
          assert r[i] == j[i];
        } else if i > |prefix| {
          assert r[i] == h[i - |prefix| - 1];
        }
      }
    }
  }

  /** Sanitizing is not injective: two different device paths can map to
      the same local path. */
  lemma DistinctPathsCanCollide(maxLen: nat, digest: string -> Digest8)
    requires maxLen >= 3
    ensures "a:b" != "a?b"
    ensures Sanitize("a:b", maxLen, digest) == Sanitize("a?b", maxLen, digest) == "a_b"
  {
    assert Split("a:b", '/') == ["a:b"] by { SplitNoSep("a:b", '/'); }
    assert Split("a?b", '/') == ["a?b"] by { SplitNoSep("a?b", '/'); }
    assert NonEmpty(["a:b"]) == ["a:b"];
    assert NonEmpty(["a?b"]) == ["a?b"];
    var x := SanitizeComponent("a:b");
    var y := SanitizeComponent("a?b");
    assert x == "a_b" && y == "a_b";
  }
}
