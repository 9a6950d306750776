/** The process table of `acquire_volatile_memory`: parsing the output of
    `ps -A -o PID,USER,VSZ,NAME`, ordering it by memory, and naming the
    memory-map files of the largest processes. */
module Volatile {
  import opened Strings
  import opened Sanitizer
  import opened Stats
  import opened Extraction

  /** Length cap on the process-name part of a memory-map file name. */
  const MapsNameLimit: nat := 50
  /** Memory maps are read for this many of the largest processes. */
  const MapsTopCount: nat := 50

  /** `ProcessInfo`. */
  datatype Process = Process(pid: int, name: string, user: string, memoryKb: nat)

  /** One data line: at least four whitespace-separated fields and an
      integer first field, else the line is skipped; the third field counts
      only when it is all digits. */
  function ParsePsLine(line: string): (r: Option<Process>)
    ensures r.Some? <==> |SplitWs(line)| >= 4 && ParseInt(SplitWs(line)[0]).Some?
    ensures r.Some? ==>
      var parts := SplitWs(line);
      && r.value.pid == ParseInt(parts[0]).value
      && r.value.user == parts[1]
      && r.value.name == parts[3]
      && (IsDigits(parts[2]) ==> r.value.memoryKb == DigitsValue(parts[2]))
      && (!IsDigits(parts[2]) ==> r.value.memoryKb == 0)
  {
    var parts := SplitWs(line);
    if |parts| >= 4 then
      match ParseInt(parts[0])
      case None => None
      case Some(pid) =>
        Some(Process(pid, parts[3], parts[1], if IsDigits(parts[2]) then DigitsValue(parts[2]) else 0))
    else None
  }

  /** The parsed processes of the data lines, in line order. */
  function ParseRows(lines: seq<string>): (r: seq<Process>)
    ensures |r| <= |lines|
    ensures forall i :: 0 <= i < |r| ==> IsWord(r[i].name) && IsWord(r[i].user)
    decreases |lines|
  {
    if |lines| == 0 then []
    else
      var rest := ParseRows(lines[1..]);
      match ParsePsLine(lines[0])
      case None => rest
      case Some(p) => [p] + rest
  }

  /** `stdout.split('\n')[1:]`, parsed: the header line is skipped. */
  function ParsePs(out: string): (r: seq<Process>)
    ensures |r| < |Split(out, '\n')|
  {
    ParseRows(Split(out, '\n')[1..])
  }

  /** How `ps` prints one process: its four fields separated by spaces. */
  function FormatRow(p: Process): string {
    Join([IntToString(p.pid), p.user, NatToString(p.memoryKb), p.name], ' ')
  }

  /** A process whose user and name are single words can be printed by `ps`. */
  predicate Printable(p: Process) {
    IsWord(p.user) && IsWord(p.name)
  }

  lemma NumbersAreWords(i: int, n: nat)
    ensures IsWord(IntToString(i)) && IsWord(NatToString(n))
  {
    var d := NatToString(if i < 0 then -i else i);
    assert forall k :: 0 <= k < |d| ==> IsDigit(d[k]);
    var e := NatToString(n);
    assert forall k :: 0 <= k < |e| ==> IsDigit(e[k]);
    if i < 0 {
      assert IntToString(i) == "-" + d;
    }
  }

  /** Parsing a printed row gives the process back. */
  lemma ParseFormatRow(p: Process)
    requires Printable(p)
    ensures ParsePsLine(FormatRow(p)) == Some(p)
  {
    NumbersAreWords(p.pid, p.memoryKb);
    var parts := [IntToString(p.pid), p.user, NatToString(p.memoryKb), p.name];
    SplitWsJoin(parts);
    ParseIntToString(p.pid);
    DigitsOfNat(p.memoryKb);
  }

  /** A printed row is a single line. */
  lemma FormatRowOneLine(p: Process)
    requires Printable(p)
    ensures '\n' !in FormatRow(p)
  {
    NumbersAreWords(p.pid, p.memoryKb);
    var parts := [IntToString(p.pid), p.user, NatToString(p.memoryKb), p.name];
    JoinChars(parts, ' ', c => c != '\n');
    var r := FormatRow(p);
    assert forall k :: 0 <= k < |r| ==> r[k] != '\n';
  }

  function FormatRows(ps: seq<Process>): (r: seq<string>)
    ensures |r| == |ps|
    ensures forall i :: 0 <= i < |ps| ==> r[i] == FormatRow(ps[i])
  {
    if |ps| == 0 then [] else [FormatRow(ps[0])] + FormatRows(ps[1..])
  }

  lemma {:induction false} ParseFormatRows(ps: seq<Process>)
    requires forall i :: 0 <= i < |ps| ==> Printable(ps[i])
    ensures ParseRows(FormatRows(ps)) == ps
    decreases |ps|
  {
    if |ps| > 0 {
      ParseFormatRow(ps[0]);
      assert FormatRows(ps)[1..] == FormatRows(ps[1..]);
      ParseFormatRows(ps[1..]);
    }
  }

  /** A whole `ps` listing, a header line followed by one printed row per
      process, parses back to exactly those processes in order. */
  lemma ParsePsListing(header: string, ps: seq<Process>)
    requires '\n' !in header
    requires forall i :: 0 <= i < |ps| ==> Printable(ps[i])
    ensures ParsePs(Join([header] + FormatRows(ps), '\n')) == ps
  {
    var rows := FormatRows(ps);
    var lines := [header] + rows;
    forall i | 0 <= i < |lines| ensures '\n' !in lines[i] {
      if i > 0 {
        FormatRowOneLine(ps[i - 1]);
      }
    }
    SplitJoin(lines, '\n');
    assert Split(Join(lines, '\n'), '\n')[1..] == rows;
    ParseFormatRows(ps);
  }

  // ---------------------------------------------------------------------
  // Ordering by memory

  predicate SortedByMemory(ps: seq<Process>) {
    forall i, j :: 0 <= i < j < |ps| ==> ps[i].memoryKb >= ps[j].memoryKb
  }

  /** Puts `p` in front of the first entry using no more memory than it. */
  function Insert(p: Process, s: seq<Process>): (r: seq<Process>)
    requires SortedByMemory(s)
    ensures SortedByMemory(r)
    ensures multiset(r) == multiset(s) + multiset{p}
    ensures |r| == |s| + 1
    ensures r[0] == p || (|s| > 0 && r[0] == s[0])
    decreases |s|
  {
    if |s| == 0 || s[0].memoryKb <= p.memoryKb then
      SortedCons(p, s);
      [p] + s
    else
      var t := Insert(p, s[1..]);
      HeadSplit(s);
      SortedCons(s[0], t);
      [s[0]] + t
  }

  /** A process using at least as much memory as the head of a sorted
      table can go in front of it. */
  lemma SortedCons(x: Process, t: seq<Process>)
    requires SortedByMemory(t)
    requires |t| > 0 ==> x.memoryKb >= t[0].memoryKb
    ensures SortedByMemory([x] + t)
  {
    var r := [x] + t;
    forall i, j | 0 <= i < j < |r| ensures r[i].memoryKb >= r[j].memoryKb {
      if i == 0 {
        assert r[j] == t[j - 1];
      }
    }
  }

  /** `processes.sort(key=lambda p: p.memory_kb, reverse=True)`: a stable
      sort, largest memory first. */
  function SortByMemory(ps: seq<Process>): (r: seq<Process>)
    ensures SortedByMemory(r)
    ensures multiset(r) == multiset(ps)
    ensures |r| == |ps|
    decreases |ps|
  {
    if |ps| == 0 then []
    else
      assert ps == [ps[0]] + ps[1..];
      Insert(ps[0], SortByMemory(ps[1..]))
  }

  /** The entries using exactly `k` KB, in order. */
  function WithMemory(ps: seq<Process>, k: nat): seq<Process>
    decreases |ps|
  {
    if |ps| == 0 then []
    else (if ps[0].memoryKb == k then [ps[0]] else []) + WithMemory(ps[1..], k)
  }

  lemma {:induction false} InsertStable(p: Process, s: seq<Process>, k: nat)
    requires SortedByMemory(s)
    ensures WithMemory(Insert(p, s), k) == (if p.memoryKb == k then [p] else []) + WithMemory(s, k)
    decreases |s|
  {
    if |s| > 0 && s[0].memoryKb > p.memoryKb {
      InsertStable(p, s[1..], k);
      WithMemoryCons(s[0], Insert(p, s[1..]), k);
      WithMemoryCons(s[0], s[1..], k);
      HeadSplit(s);
    } else {
      WithMemoryCons(p, s, k);
    }
  }

  lemma WithMemoryCons(x: Process, xs: seq<Process>, k: nat)
    ensures WithMemory([x] + xs, k) == (if x.memoryKb == k then [x] else []) + WithMemory(xs, k)
  {
    assert ([x] + xs)[1..] == xs;
  }

  /** Stability: processes with equal memory keep their `ps` order. */
  lemma {:induction false} SortStable(ps: seq<Process>, k: nat)
    ensures WithMemory(SortByMemory(ps), k) == WithMemory(ps, k)
    decreases |ps|
  {
    if |ps| > 0 {
      SortStable(ps[1..], k);
      InsertStable(ps[0], SortByMemory(ps[1..]), k);
    }
  }

  /** The scan's result: the sorted table, `processes_scanned` set to its
      length and the saved `process_list.txt` counted as one volatile file.
      A failed `ps` leaves everything as it was. */
  datatype Scan = Scan(processes: seq<Process>, stats: Stats)

  /** `reportBytes` is the size of the written `process_list.txt`, which the
      file system decides. */
  function ScanProcesses(st: Stats, reply: ShellReply, reportBytes: nat): (r: Scan)
    ensures reply.code != 0 ==> r == Scan([], st)
    ensures reply.code == 0 ==>
      && multiset(r.processes) == multiset(ParsePs(reply.output))
      && SortedByMemory(r.processes)
      && r.stats == st.(processesScanned := |r.processes|,
                        volatileBytes := st.volatileBytes + reportBytes,
                        totalBytes := st.totalBytes + reportBytes,
                        totalFiles := st.totalFiles + 1)
    ensures Balanced(st) ==> Balanced(r.stats)
  {
    if reply.code == 0 then
      var ps := SortByMemory(ParsePs(reply.output));
      Scan(ps, AddToStats(st.(processesScanned := |ps|), "volatile", reportBytes))
    else Scan([], st)
  }

  /** `processes[:50]`. */
  function TopProcesses(ps: seq<Process>): (r: seq<Process>)
    ensures |r| == if |ps| < MapsTopCount then |ps| else MapsTopCount
    ensures r == ps[..|r|]
  {
    if |ps| <= MapsTopCount then ps else ps[..MapsTopCount]
  }

  /** In a sorted table the chosen processes use at least as much memory as
      every process left out. */
  lemma TopProcessesLargest(ps: seq<Process>)
    requires SortedByMemory(ps)
    ensures forall i, j :: 0 <= i < |TopProcesses(ps)| <= j < |ps| ==>
      TopProcesses(ps)[i].memoryKb >= ps[j].memoryKb
  {
  }

  // ---------------------------------------------------------------------
  // Memory-map file names

  /** `_sanitize_path(name).replace('/', '_')[:50]`. */
  function SafeProcessName(cfg: Config, env: Env, name: string): (r: string)
    ensures |r| <= MapsNameLimit
    ensures NoIllegal(r)
    ensures forall i :: 0 <= i < |r| ==> r[i] != '/'
  {
    var safe := Sanitize(name, cfg.maxPathLength, env.digest);
    Take(ReplaceChar(safe, '/', '_'), MapsNameLimit)
  }

  /** `maps_<pid>_<safe name>.txt`. */
  function MapsFileName(cfg: Config, env: Env, pid: int, name: string): string {
    "maps_" + IntToString(pid) + "_" + SafeProcessName(cfg, env, name) + ".txt"
  }

  lemma NoUnderscoreInNumber(i: int)
    ensures '_' !in IntToString(i)
  {
    var d := NatToString(if i < 0 then -i else i);
    assert forall k :: 0 <= k < |d| ==> IsDigit(d[k]);
    if i < 0 {
      assert IntToString(i) == "-" + d;
    }
  }

  /** The pid can be read back from a map file name: it is the second
      `_`-separated field. */
  lemma MapsFileNamePid(cfg: Config, env: Env, pid: int, name: string)
    ensures var parts := Split(MapsFileName(cfg, env, pid, name), '_');
      |parts| >= 2 && ParseInt(parts[1]) == Some(pid)
  {
    var d := IntToString(pid);
    var rest := SafeProcessName(cfg, env, name) + ".txt";
    NoUnderscoreInNumber(pid);
    assert MapsFileName(cfg, env, pid, name) == "maps" + ['_'] + (d + ['_'] + rest);
    SplitAfterPart("maps", d + ['_'] + rest, '_');
    SplitAfterPart(d, rest, '_');
    ParseIntToString(pid);
  }

  /** Distinct processes get distinct map files, whatever their names. */
  lemma MapsFileNamesDistinct(cfg: Config, env: Env, p: int, q: int, a: string, b: string)
    requires p != q
    ensures MapsFileName(cfg, env, p, a) != MapsFileName(cfg, env, q, b)
  {
    MapsFileNamePid(cfg, env, p, a);
    MapsFileNamePid(cfg, env, q, b);
  }
}
