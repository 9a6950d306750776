/** The pure helpers of the offline analyzer: the package list and its
    system/third-party partition, database discovery and app-name
    derivation, SQLite cell display, text search with line numbers, the
    head/tail log view and SMS display. */
module Analyzer {
  import opened Strings

  // ---------------------------------------------------------------------
  // Packages

  /** An installed package as `(name, path)`. */
  datatype Package = Package(name: string, path: string)

  const PackagePrefix: string := "package:"

  /** The text after the `package:` markers, stripped, when the line is a
      package line that holds a `=`. */
  function PackageBody(line: string): (r: Option<string>)
    ensures r.Some? ==> '=' in r.value
    ensures r.Some? <==> StartsWith(line, PackagePrefix) && '=' in Strip(ReplaceAll(line, PackagePrefix, ""))
  {
    if StartsWith(line, PackagePrefix) then
      var pkg := Strip(ReplaceAll(line, PackagePrefix, ""));
      if '=' in pkg then Some(pkg) else None
    else None
  }

  /** The line parser as written: `path, name = pkg.split('=', 1)`, which
      cuts at the FIRST `=`. */
  function ParsePackageLineAsWritten(line: string): (r: Option<Package>)
    ensures r.Some? <==> PackageBody(line).Some?
    ensures r.Some? ==> '=' !in r.value.path && PackageBody(line).value == r.value.path + "=" + r.value.name
  {
    match PackageBody(line)
    case None => None
    case Some(pkg) =>
      var i := IndexOf(pkg, '=');
      CutAt(pkg, i);
      Some(Package(pkg[i + 1..], pkg[..i]))
  }

  /** The line parser with the cut at the LAST `=`: a package name never
      holds `=`, while an install path may. */
  function ParsePackageLine(line: string): (r: Option<Package>)
    ensures r.Some? <==> PackageBody(line).Some?
    ensures r.Some? ==> '=' !in r.value.name && PackageBody(line).value == r.value.path + "=" + r.value.name
  {
    match PackageBody(line)
    case None => None
    case Some(pkg) =>
      var i := LastIndexOf(pkg, '=');
      CutAt(pkg, i);
      Some(Package(pkg[i + 1..], pkg[..i]))
  }

  lemma CutAt(s: string, i: nat)
    requires i < |s| && s[i] == '='
    ensures s == s[..i] + "=" + s[i + 1..]
  {
  }

  /** A `pm list packages -f` line for `path` and `name`. */
  function PackageLine(path: string, name: string): string {
    PackagePrefix + path + "=" + name
  }

  /** What a well-formed listing line carries: a non-blank path and name,
      a name without `=`, and no stray `package:` marker. */
  predicate WellFormedEntry(path: string, name: string) {
    && |path| > 0 && !IsSpace(path[0])
    && |name| > 0 && !IsSpace(name[|name| - 1])
    && '=' !in name
    && !Contains(path + "=" + name, PackagePrefix)
  }

  /** Removing the markers from a line that starts with exactly one leaves
      the rest of the line. */
  lemma ReplacePrefixOnce(rest: string)
    requires !Contains(rest, PackagePrefix)
    ensures ReplaceAll(PackagePrefix + rest, PackagePrefix, "") == rest
  {
    var line := PackagePrefix + rest;
    assert StartsWith(line, PackagePrefix);
    assert line[|PackagePrefix|..] == rest;
    ReplaceAllAbsent(rest, PackagePrefix, "");
  }

  /** An entry with non-blank ends is its own stripped form. */
  lemma StripEntry(path: string, name: string)
    requires |path| > 0 && !IsSpace(path[0])
    requires |name| > 0 && !IsSpace(name[|name| - 1])
    ensures Strip(path + "=" + name) == path + "=" + name
  {
    var rest := path + "=" + name;
    assert rest[0] == path[0] && rest[|rest| - 1] == name[|name| - 1];
    StripNoSpaceEnds(rest);
  }

  /** The body of a line with one leading marker is its stripped rest. */
  lemma BodyAfterMarker(rest: string)
    requires !Contains(rest, PackagePrefix)
    ensures PackageBody(PackagePrefix + rest) == if '=' in Strip(rest) then Some(Strip(rest)) else None
  {
    assert StartsWith(PackagePrefix + rest, PackagePrefix);
    ReplacePrefixOnce(rest);
  }

  lemma PackageBodyOf(path: string, name: string)
    requires WellFormedEntry(path, name)
    ensures PackageBody(PackageLine(path, name)) == Some(path + "=" + name)
  {
    var rest := path + "=" + name;
    assert PackageLine(path, name) == PackagePrefix + rest;
    BodyAfterMarker(rest);
    StripEntry(path, name);
    assert rest[|path|] == '=';
  }

  /** The corrected parser reads back every well-formed line. */
  lemma ParsePackageLineRoundTrip(path: string, name: string)
    requires WellFormedEntry(path, name)
    ensures ParsePackageLine(PackageLine(path, name)) == Some(Package(name, path))
  {
    PackageBodyOf(path, name);
    CorrectedCut(PackageLine(path, name), path, name);
  }

  lemma CorrectedCut(line: string, a: string, b: string)
    requires '=' !in b && PackageBody(line) == Some(a + "=" + b)
    ensures ParsePackageLine(line) == Some(Package(b, a))
  {
    LastEquals(a, b);
  }

  lemma AsWrittenCut(line: string, a: string, b: string)
    requires '=' !in a && PackageBody(line) == Some(a + "=" + b)
    ensures ParsePackageLineAsWritten(line) == Some(Package(b, a))
  {
    FirstEquals(a, b);
  }

  /** Cutting `a=b` at its last `=` gives `a` and `b` back when `b` holds
      no `=`. */
  lemma LastEquals(a: string, b: string)
    requires '=' !in b
    ensures var s := a + "=" + b;
      LastIndexOf(s, '=') == |a| && s[..|a|] == a && s[|a| + 1..] == b
  {
    var s := a + "=" + b;
    var i := LastIndexOf(s, '=');
    assert s[|a|] == '=';
    assert s[|a| + 1..] == b;
  }

  /** On lines whose path holds no `=` the two parsers agree. */
  lemma ParsersAgreeWithoutEqualsInPath(path: string, name: string)
    requires WellFormedEntry(path, name) && '=' !in path
    ensures ParsePackageLineAsWritten(PackageLine(path, name)) == ParsePackageLine(PackageLine(path, name))
  {
    PackageBodyOf(path, name);
    AsWrittenCut(PackageLine(path, name), path, name);
    CorrectedCut(PackageLine(path, name), path, name);
  }

  /** An install path as Android 11 and later report it: the APK sits in a
      randomly named `~~<base64>==` directory. */
  const ModernDir: string := "/data/app/~~Q"
  const ModernPath: string := ModernDir + "==/base.apk"
  const PhoneApp: string := "com.android.phone"

  lemma ModernEntryWellFormed()
    ensures WellFormedEntry(ModernPath, PhoneApp)
  {
    var rest := ModernPath + "=" + PhoneApp;
    assert ':' !in rest;
    NotContainsWithout(rest, ':');
  }

  /** The first `=` of `a + "=" + b` is the one after `a` when `a` has none. */
  lemma FirstEquals(a: string, b: string)
    requires '=' !in a
    ensures var s := a + "=" + b;
      IndexOf(s, '=') == |a| && s[..|a|] == a && s[|a| + 1..] == b
  {
    var s := a + "=" + b;
    var i := IndexOf(s, '=');
    assert s[|a|] == '=';
    assert s[..i] == a[..i];
  }

  const MangledName: string := "=/base.apk=" + PhoneApp

  lemma ModernShape()
    ensures ModernPath + "=" + PhoneApp == ModernDir + "=" + MangledName
    ensures '=' !in ModernDir
  {
  }

  lemma PhoneAppNames()
    ensures IsSystemName(PhoneApp)
    ensures !IsSystemName(MangledName)
  {
    assert PhoneApp[..12] == "com.android.";
    assert MangledName[0] == '=';
  }

  /** The parser as written mangles such a line: it cuts at the `=` inside
      the directory name, so the name it returns starts with `=` and the
      system package lands among the third-party ones. The corrected parser
      reads the line back. */
  lemma AsWrittenMisparsesModernPath()
    ensures ParsePackageLine(PackageLine(ModernPath, PhoneApp)) == Some(Package(PhoneApp, ModernPath))
    ensures IsSystemName(PhoneApp)
    ensures ParsePackageLineAsWritten(PackageLine(ModernPath, PhoneApp)) == Some(Package(MangledName, ModernDir))
    ensures !IsSystemName(MangledName)
  {
    PhoneAppNames();
    ModernShape();
    ModernEntryWellFormed();
    ParsePackageLineRoundTrip(ModernPath, PhoneApp);
    PackageBodyOf(ModernPath, PhoneApp);
    AsWrittenCut(PackageLine(ModernPath, PhoneApp), ModernDir, MangledName);
  }

  /** A string that lacks one of the marker's characters lacks the marker. */
  lemma {:induction false} NotContainsWithout(s: string, c: char)
    requires c in PackagePrefix && c !in s
    ensures !Contains(s, PackagePrefix)
    decreases |s|
  {
    if |s| > 0 {
      NotContainsWithout(s[1..], c);
    }
  }

  /** Every package line of the listing, in order, read by the parser as
      written (cut at the first `=`). */
  function ParsePackagesAsWritten(lines: seq<string>): (r: seq<Package>)
    ensures |r| <= |lines|
    ensures forall i :: 0 <= i < |r| ==> '=' !in r[i].path
    decreases |lines|
  {
    if |lines| == 0 then []
    else
      var rest := ParsePackagesAsWritten(lines[1..]);
      match ParsePackageLineAsWritten(lines[0])
      case None => rest
      case Some(p) => [p] + rest
  }

  /** The cut position does not change how many packages are found: both
      parsers accept exactly the lines with a body. */
  lemma {:induction false} ParsePackagesSameCount(lines: seq<string>)
    ensures |ParsePackagesAsWritten(lines)| == |ParsePackages(lines)|
    decreases |lines|
  {
    if |lines| > 0 {
      ParsePackagesSameCount(lines[1..]);
    }
  }

  /** Every package line of the listing, in order, read by the corrected
      parser (cut at the last `=`). */
  function ParsePackages(lines: seq<string>): (r: seq<Package>)
    ensures |r| <= |lines|
    ensures forall i :: 0 <= i < |r| ==> '=' !in r[i].name
    decreases |lines|
  {
    if |lines| == 0 then []
    else
      var rest := ParsePackages(lines[1..]);
      match ParsePackageLine(lines[0])
      case None => rest
      case Some(p) => [p] + rest
  }

  /** A system package's name starts with `com.android.` or `android.`. */
  predicate IsSystemName(name: string) {
    StartsWith(name, "com.android.") || StartsWith(name, "android.")
  }

  function SystemPackages(ps: seq<Package>): (r: seq<Package>)
    ensures forall i :: 0 <= i < |r| ==> IsSystemName(r[i].name)
    decreases |ps|
  {
    if |ps| == 0 then []
    else (if IsSystemName(ps[0].name) then [ps[0]] else []) + SystemPackages(ps[1..])
  }

  /** `[p for p in packages if p not in system_pkgs]`. */
  function ThirdParty(ps: seq<Package>, system: seq<Package>): (r: seq<Package>)
    ensures forall i :: 0 <= i < |r| ==> r[i] !in system
    decreases |ps|
  {
    if |ps| == 0 then []
    else (if ps[0] !in system then [ps[0]] else []) + ThirdParty(ps[1..], system)
  }

  /** The packages whose names are not system names. */
  function NonSystem(ps: seq<Package>): (r: seq<Package>)
    ensures forall i :: 0 <= i < |r| ==> !IsSystemName(r[i].name)
    decreases |ps|
  {
    if |ps| == 0 then []
    else (if !IsSystemName(ps[0].name) then [ps[0]] else []) + NonSystem(ps[1..])
  }

  lemma {:induction false} SystemMembers(ps: seq<Package>, p: Package)
    ensures p in SystemPackages(ps) <==> p in ps && IsSystemName(p.name)
    decreases |ps|
  {
    if |ps| > 0 {
      SystemMembers(ps[1..], p);
      HeadSplit(ps);
    }
  }

  lemma {:induction false} ThirdPartyIsNonSystem(ps: seq<Package>, all: seq<Package>)
    requires forall i :: 0 <= i < |ps| ==> ps[i] in all
    ensures ThirdParty(ps, SystemPackages(all)) == NonSystem(ps)
    decreases |ps|
  {
    if |ps| > 0 {
      SystemMembers(all, ps[0]);
      ThirdPartyIsNonSystem(ps[1..], all);
    }
  }

  /** The two lists split the packages: third-party is exactly the
      non-system packages in listing order, and together the lists hold
      every package exactly as often as the listing does. */
  lemma PackagesPartition(ps: seq<Package>)
    ensures ThirdParty(ps, SystemPackages(ps)) == NonSystem(ps)
    ensures multiset(SystemPackages(ps)) + multiset(NonSystem(ps)) == multiset(ps)
  {
    ThirdPartyIsNonSystem(ps, ps);
    PartitionCounts(ps);
  }

  lemma {:induction false} PartitionCounts(ps: seq<Package>)
    ensures multiset(SystemPackages(ps)) + multiset(NonSystem(ps)) == multiset(ps)
    decreases |ps|
  {
    if |ps| > 0 {
      var t := ps[1..];
      PartitionCounts(t);
      HeadSplit(ps);
      assert multiset(ps) == multiset{ps[0]} + multiset(t);
      if IsSystemName(ps[0].name) {
        assert SystemPackages(ps) == [ps[0]] + SystemPackages(t);
        assert NonSystem(ps) == NonSystem(t);
      } else {
        assert SystemPackages(ps) == SystemPackages(t);
        assert NonSystem(ps) == [ps[0]] + NonSystem(t);
      }
    }
  }

  // ---------------------------------------------------------------------
  // Database discovery

  /** `Path.suffix`: from the last dot of the name, unless that dot is the
      first or the last character. */
  function Suffix(name: string): (r: string)
    ensures r == [] || (r[0] == '.' && EndsWith(name, r) && |r| < |name| && |r| >= 2)
    ensures r != [] ==> '.' !in r[1..]
  {
    if '.' in name then
      var i := LastIndexOf(name, '.');
      if 0 < i < |name| - 1 then name[i..] else []
    else []
  }

  /** A file path as its components; the name is the last one. */
  type PathParts = seq<string>

  function Name(p: PathParts): string {
    if |p| == 0 then "" else p[|p| - 1]
  }

  /** The names `rglob` looks for. */
  const DatabaseGlobs: seq<string> := [".db", ".sqlite", ".db-wal", ".db-shm"]

  /** Files whose name ends with `ext`, in walk order. */
  function Globbed(files: seq<PathParts>, ext: string): (r: seq<PathParts>)
    ensures forall i :: 0 <= i < |r| ==> EndsWith(Name(r[i]), ext)
    decreases |files|
  {
    if |files| == 0 then []
    else (if EndsWith(Name(files[0]), ext) then [files[0]] else []) + Globbed(files[1..], ext)
  }

  function GlobAll(files: seq<PathParts>, exts: seq<string>): seq<PathParts>
    decreases |exts|
  {
    if |exts| == 0 then [] else Globbed(files, exts[0]) + GlobAll(files, exts[1..])
  }

  predicate IsDatabaseFile(p: PathParts) {
    Suffix(Name(p)) == ".db" || Suffix(Name(p)) == ".sqlite"
  }

  function KeepDatabases(ps: seq<PathParts>): (r: seq<PathParts>)
    ensures forall i :: 0 <= i < |r| ==> IsDatabaseFile(r[i])
    decreases |ps|
  {
    if |ps| == 0 then [] else (if IsDatabaseFile(ps[0]) then [ps[0]] else []) + KeepDatabases(ps[1..])
  }

  /** `find_databases`: glob for the four patterns, then keep `.db` and
      `.sqlite` suffixes. `files` is the recursive walk of the app-data
      directory. */
  function FindDatabases(files: seq<PathParts>): seq<PathParts> {
    KeepDatabases(GlobAll(files, DatabaseGlobs))
  }

  /** A name has suffix `.db` exactly when it ends with `.db` and has
      something before it (and likewise for `.sqlite`). */
  lemma SuffixOfExtension(name: string, ext: string)
    requires ext == ".db" || ext == ".sqlite"
    ensures Suffix(name) == ext <==> EndsWith(name, ext) && |name| > |ext|
  {
    if EndsWith(name, ext) && |name| > |ext| {
      var k := |name| - |ext|;
      assert name[k] == '.';
      var i := LastIndexOf(name, '.');
      assert i == k;
      assert name[i..] == ext;
    }
    if Suffix(name) == ext {
      var i := LastIndexOf(name, '.');
      assert name[i..] == ext;
    }
  }

  lemma {:induction false} GlobbedMembers(files: seq<PathParts>, ext: string, p: PathParts)
    ensures p in Globbed(files, ext) <==> p in files && EndsWith(Name(p), ext)
    decreases |files|
  {
    if |files| > 0 {
      GlobbedMembers(files[1..], ext, p);
      HeadSplit(files);
    }
  }

  lemma {:induction false} KeepMembers(ps: seq<PathParts>, p: PathParts)
    ensures p in KeepDatabases(ps) <==> p in ps && IsDatabaseFile(p)
    decreases |ps|
  {
    if |ps| > 0 {
      KeepMembers(ps[1..], p);
      HeadSplit(ps);
    }
  }

  /** Discovery finds exactly the walked files whose suffix is `.db` or
      `.sqlite`; in particular no `-wal` or `-shm` file is ever listed. */
  lemma FindDatabasesExactly(files: seq<PathParts>, p: PathParts)
    ensures p in FindDatabases(files) <==> p in files && IsDatabaseFile(p)
    ensures p in FindDatabases(files) ==> !EndsWith(Name(p), "-wal") && !EndsWith(Name(p), "-shm")
  {
    var g := GlobAll(files, DatabaseGlobs);
    KeepMembers(g, p);
    GlobbedMembers(files, ".db", p);
    GlobbedMembers(files, ".sqlite", p);
    assert g == Globbed(files, ".db") + (Globbed(files, ".sqlite") + (Globbed(files, ".db-wal") + (Globbed(files, ".db-shm") + [])));
    GlobbedMembers(files, ".db-wal", p);
    GlobbedMembers(files, ".db-shm", p);
    var n := Name(p);
    SuffixOfExtension(n, ".db");
    SuffixOfExtension(n, ".sqlite");
    if IsDatabaseFile(p) {
      assert n[|n| - 1] == 'b' || n[|n| - 1] == 'e';
    }
  }

  /** The app a database belongs to: the component right after the first
      `02_APP_DATA`, or `Unknown` when there is none or nothing follows. */
  const AppDataDirName: string := "02_APP_DATA"

  function AppName(parts: PathParts): (r: string)
    ensures (exists i :: 0 <= i < |parts| - 1 && parts[i] == AppDataDirName && AppDataDirName !in parts[..i] && r == parts[i + 1])
      || r == "Unknown"
  {
    if AppDataDirName in parts then
      var i := FirstIndex(parts, AppDataDirName);
      if i + 1 < |parts| then parts[i + 1] else "Unknown"
    else "Unknown"
  }

  function FirstIndex(parts: PathParts, x: string): (i: nat)
    requires x in parts
    ensures i < |parts| && parts[i] == x && x !in parts[..i]
    decreases |parts|
  {
    if parts[0] == x then 0
    else
      var j := FirstIndex(parts[1..], x);
      assert parts[..j + 1] == [parts[0]] + parts[1..][..j];
      1 + j
  }

  /** The app name of `root/02_APP_DATA/<app>/rest` is `<app>` whatever the
      root and the rest hold, provided the root has no `02_APP_DATA`; a path
      without the component, or ending in it, belongs to `Unknown`. */
  lemma AppNameOf(root: PathParts, app: string, rest: PathParts)
    requires AppDataDirName !in root
    ensures AppName(root + [AppDataDirName, app] + rest) == app
    ensures AppName(root + [AppDataDirName]) == "Unknown"
    ensures AppName(root) == "Unknown"
  {
    var parts := root + [AppDataDirName, app] + rest;
    assert parts[|root|] == AppDataDirName && parts[|root| + 1] == app;
    var i := FirstIndex(parts, AppDataDirName);
    assert parts[..i] == root[..i];
    var q := root + [AppDataDirName];
    var j := FirstIndex(q, AppDataDirName);
  }

  // ---------------------------------------------------------------------
  // SQLite cell display

  /** A SQLite value: `Shown` carries the `str()` of an integer, real or
      text value. */
  datatype SqlValue = Null | Blob(bytes: seq<bv8>) | Shown(text: string)

  const CellWidth: nat := 50

  function RenderCell(v: SqlValue): (r: string)
    ensures v.Null? ==> r == "NULL"
    ensures v.Blob? ==> r == "<BLOB:" + NatToString(|v.bytes|) + "bytes>"
    ensures v.Shown? && |v.text| <= CellWidth ==> r == v.text
    ensures v.Shown? && |v.text| > CellWidth ==> |r| == CellWidth + 3 && EndsWith(r, "...")
  {
    match v
    case Null => "NULL"
    case Blob(b) => "<BLOB:" + NatToString(|b|) + "bytes>"
    case Shown(s) => Ellipsize(s, CellWidth)
  }

  /** A shown cell never exceeds 53 characters and starts with the first 50
      characters of the value. */
  lemma RenderCellBounds(v: SqlValue)
    requires v.Shown?
    ensures |RenderCell(v)| <= CellWidth + 3
    ensures StartsWith(RenderCell(v), Take(v.text, CellWidth))
  {
  }

  /** A blob's size can be read back from its placeholder. */
  lemma BlobPlaceholderSize(b: seq<bv8>, d: string)
    requires RenderCell(Blob(b)) == "<BLOB:" + d + "bytes>"
    ensures IsDigits(d) && DigitsValue(d) == |b|
  {
    var n := NatToString(|b|);
    var r := RenderCell(Blob(b));
    assert |d| == |n|;
    assert d == r[6..6 + |d|] == n;
    DigitsOfNat(|b|);
  }

  // ---------------------------------------------------------------------
  // Search

  datatype Match = Match(line: nat, text: string)

  /** `term.lower() in text.lower()`, with ASCII case folding. */
  predicate Mentions(text: string, term: string) {
    Contains(Lower(text), Lower(term))
  }

  /** Each match names a line of the file that mentions the term and keeps
      that line's stripped text. */
  predicate Genuine(lines: seq<string>, term: string, m: Match) {
    1 <= m.line <= |lines| && Mentions(lines[m.line - 1], term) && m.text == Strip(lines[m.line - 1])
  }

  /** The 1-based numbers of the lines that mention the term, in
      increasing order, every such line included. */
  method MatchingLineNumbers(lines: seq<string>, term: string) returns (found: seq<nat>)
    ensures Ascending(found)
    ensures MentionLines(lines, term, found)
    ensures EveryMention(lines, term, found)
  {
    found := [];
    var k := 0;
    while k < |lines|
      invariant 0 <= k <= |lines|
      invariant forall i, j :: 0 <= i < j < |found| ==> found[i] < found[j]
      invariant forall i :: 0 <= i < |found| ==> 1 <= found[i] <= k && Mentions(lines[found[i] - 1], term)
      invariant forall n :: 0 <= n < k && Mentions(lines[n], term) ==> n + 1 in found
    {
      if Mentions(lines[k], term) {
        found := found + [k + 1];
      }
      k := k + 1;
    }
  }

  predicate Ascending(found: seq<nat>) {
    forall i, j :: 0 <= i < j < |found| ==> found[i] < found[j]
  }

  /** Every number is a line number of the file. */
  predicate LineNumbers(lines: seq<string>, found: seq<nat>) {
    forall i :: 0 <= i < |found| ==> 1 <= found[i] <= |lines|
  }

  /** Every numbered line mentions the term. */
  predicate MentionLines(lines: seq<string>, term: string, found: seq<nat>) {
    && LineNumbers(lines, found)
    && forall i :: 0 <= i < |found| ==> Mentions(lines[found[i] - 1], term)
  }

  /** Every line that mentions the term is numbered. */
  predicate EveryMention(lines: seq<string>, term: string, found: seq<nat>) {
    forall n :: 0 <= n < |lines| && Mentions(lines[n], term) ==> n + 1 in found
  }

  /** Match numbers that strictly increase. */
  predicate Increasing(ms: seq<Match>) {
    forall i, j :: 0 <= i < j < |ms| ==> ms[i].line < ms[j].line
  }

  /** Every line that mentions the term has a match. */
  predicate Complete(lines: seq<string>, term: string, ms: seq<Match>) {
    forall n :: 0 <= n < |lines| && Mentions(lines[n], term) ==>
      exists i :: 0 <= i < |ms| && ms[i].line == n + 1
  }

  /** The matches for the given line numbers, each with its stripped line. */
  function MatchesAt(lines: seq<string>, found: seq<nat>): (ms: seq<Match>)
    requires LineNumbers(lines, found)
    ensures |ms| == |found|
    ensures forall i :: 0 <= i < |ms| ==> ms[i].line == found[i] && ms[i].text == Strip(lines[found[i] - 1])
  {
    seq(|found|, i requires 0 <= i < |found| => Match(found[i], Strip(lines[found[i] - 1])))
  }

  predicate AllGenuine(lines: seq<string>, term: string, ms: seq<Match>) {
    forall i :: 0 <= i < |ms| ==> Genuine(lines, term, ms[i])
  }

  lemma MatchesAtGenuine(lines: seq<string>, term: string, found: seq<nat>)
    requires MentionLines(lines, term, found)
    ensures AllGenuine(lines, term, MatchesAt(lines, found))
  {
  }

  lemma MatchesAtIncreasing(lines: seq<string>, found: seq<nat>)
    requires Ascending(found) && LineNumbers(lines, found)
    ensures Increasing(MatchesAt(lines, found))
  {
  }

  lemma MatchesAtComplete(lines: seq<string>, term: string, found: seq<nat>)
    requires LineNumbers(lines, found) && EveryMention(lines, term, found)
    ensures Complete(lines, term, MatchesAt(lines, found))
  {
    var ms := MatchesAt(lines, found);
    forall n | 0 <= n < |lines| && Mentions(lines[n], term)
      ensures exists i :: 0 <= i < |ms| && ms[i].line == n + 1
    {
      var i :| 0 <= i < |found| && found[i] == n + 1;
      assert ms[i].line == n + 1;
    }
  }

  /** The matches of one file: each matching line's number with its
      stripped text, in line order, and no matching line left out. */
  method MatchLines(lines: seq<string>, term: string) returns (ms: seq<Match>)
    ensures Increasing(ms)
    ensures AllGenuine(lines, term, ms)
    ensures Complete(lines, term, ms)
  {
    var found := MatchingLineNumbers(lines, term);
    MatchesAtGenuine(lines, term, found);
    MatchesAtIncreasing(lines, found);
    MatchesAtComplete(lines, term, found);
    ms := MatchesAt(lines, found);
  }

  /** One file of `search_files`: nothing unless the whole content mentions
      the term, then the matching lines of `content.split('\n')`. */
  method SearchContent(content: string, term: string) returns (r: Option<seq<Match>>)
    ensures !Mentions(content, term) <==> r.None?
    ensures r.Some? ==> forall i :: 0 <= i < |r.value| ==>
      var lines := Split(content, '\n');
      1 <= r.value[i].line <= |lines| && Mentions(lines[r.value[i].line - 1], term)
    // every mentioning line is reported once, in line order, with its stripped text
    ensures r.Some? ==>
      var lines := Split(content, '\n');
      Increasing(r.value) && AllGenuine(lines, term, r.value) && Complete(lines, term, r.value)
  {
    if Mentions(content, term) {
      var ms := MatchLines(Split(content, '\n'), term);
      r := Some(ms);
    } else {
      r := None;
    }
  }

  /** Lower-casing a join on `\n` lower-cases each part. */
  lemma {:induction false} LowerJoin(parts: seq<string>)
    ensures Lower(Join(parts, '\n')) == Join(LowerEach(parts), '\n')
    decreases |parts|
  {
    if |parts| > 1 {
      LowerJoin(parts[1..]);
      LowerAppend(parts[0] + "\n", Join(parts[1..], '\n'));
      LowerAppend(parts[0], "\n");
      assert LowerEach(parts)[1..] == LowerEach(parts[1..]);
    }
  }

  function LowerEach(parts: seq<string>): (r: seq<string>)
    ensures |r| == |parts|
    ensures forall i :: 0 <= i < |parts| ==> r[i] == Lower(parts[i])
  {
    seq(|parts|, i requires 0 <= i < |parts| => Lower(parts[i]))
  }

  /** The whole-content check never hides a file with a matching line: any
      line that mentions the term makes the content mention it. */
  lemma LineMentionMeansContentMention(content: string, term: string, k: nat)
    requires k < |Split(content, '\n')|
    requires Mentions(Split(content, '\n')[k], term)
    ensures Mentions(content, term)
  {
    var lines := Split(content, '\n');
    JoinSplit(content, '\n');
    LowerJoin(lines);
    ContainsJoin(LowerEach(lines), '\n', k, Lower(term));
  }

  const ShownMatches: nat := 5
  const MatchWidth: nat := 100

  /** The display of one file's matches: the first five, each cut to 100
      characters plus `...`, and how many more there were. */
  datatype MatchDisplay = MatchDisplay(shown: seq<Match>, more: nat)

  function DisplayMatches(ms: seq<Match>): (d: MatchDisplay)
    ensures |d.shown| == if |ms| < ShownMatches then |ms| else ShownMatches
    ensures |d.shown| + d.more == |ms|
    ensures forall i :: 0 <= i < |d.shown| ==>
      d.shown[i].line == ms[i].line && d.shown[i].text == Ellipsize(ms[i].text, MatchWidth)
  {
    var n := if |ms| < ShownMatches then |ms| else ShownMatches;
    MatchDisplay(seq(n, i requires 0 <= i < n => Match(ms[i].line, Ellipsize(ms[i].text, MatchWidth))), |ms| - n)
  }

  // ---------------------------------------------------------------------
  // Log view

  const LogHead: nat := 20

  /** `analyze_system_logs`: the first 20 lines, and the last 20 only when
      the file has more than 40; each shown line right-stripped. The line
      numbers shown are kept with the text. */
  datatype LogView = LogView(head: seq<nat>, tail: seq<nat>)

  function ViewLog(n: nat): (v: LogView)
    ensures |v.head| == if n < LogHead then n else LogHead
    ensures forall i :: 0 <= i < |v.head| ==> v.head[i] == i
    ensures n > 2 * LogHead ==> |v.tail| == LogHead && forall i :: 0 <= i < LogHead ==> v.tail[i] == n - LogHead + i
    ensures n <= 2 * LogHead ==> v.tail == []
  {
    var h := if n < LogHead then n else LogHead;
    LogView(seq(h, i requires 0 <= i < h => i),
            if n > 2 * LogHead then seq(LogHead, i requires 0 <= i < LogHead => n - LogHead + i) else [])
  }

  /** The text shown for a view: the right-stripped lines at its indices. */
  function ShowLines(lines: seq<string>, idx: seq<nat>): (r: seq<string>)
    requires forall i :: 0 <= i < |idx| ==> idx[i] < |lines|
    ensures |r| == |idx|
    ensures forall i :: 0 <= i < |idx| ==> r[i] == RStrip(lines[idx[i]])
  {
    seq(|idx|, i requires 0 <= i < |idx| => RStrip(lines[idx[i]]))
  }

  /** No line is shown twice, every shown index is a line of the file, and
      a line is shown exactly when it is among the first 20 or, in a file
      of more than 40 lines, among the last 20. For 21 to 40 lines the lines
      after the 20th are therefore not shown at all. */
  lemma ViewLogShown(n: nat, k: nat)
    ensures var v := ViewLog(n);
      && (forall i :: 0 <= i < |v.head| ==> v.head[i] < n)
      && (forall i :: 0 <= i < |v.tail| ==> v.tail[i] < n)
      && (forall i, j :: 0 <= i < |v.head| && 0 <= j < |v.tail| ==> v.head[i] != v.tail[j])
      && (k < n ==> (k in v.head || k in v.tail <==> k < LogHead || (n > 2 * LogHead && k >= n - LogHead)))
  {
    var v := ViewLog(n);
    if k < n && k < LogHead {
      assert v.head[k] == k;
    }
    if k < n && n > 2 * LogHead && k >= n - LogHead {
      assert v.tail[k - (n - LogHead)] == k;
    }
  }

  // ---------------------------------------------------------------------
  // SMS

  const BodyWidth: nat := 100

  /** `msg_type == 1` reads as received; everything else as sent. */
  function MessageLabel(typeValue: Option<int>): (r: string)
    ensures r == "Received" <==> typeValue == Some(1)
    ensures r == "Received" || r == "Sent"
  {
    if typeValue == Some(1) then "Received" else "Sent"
  }

  /** A body longer than 100 characters is cut to 100 plus `...`; a missing
      or empty body is left as it is. */
  function MessageBody(body: Option<string>): (r: Option<string>)
    ensures body.None? ==> r.None?
    ensures body.Some? ==> r.Some? && (|body.value| <= BodyWidth ==> r == body)
    ensures body.Some? && |body.value| > BodyWidth ==>
      |r.value| == BodyWidth + 3 && r.value[..BodyWidth] == body.value[..BodyWidth] && r.value[BodyWidth..] == "..."
  {
    match body
    case None => None
    case Some(b) => Some(Ellipsize(b, BodyWidth))
  }
}
