/** The per-file extraction engine `_extract_file_production`: dedup check,
    local-target computation, resume check, directory creation with one
    flatten retry, the three-strategy fallback chain, post-validation and
    bookkeeping, all under a catch-all fault handler.

    The device and the workstation filesystem are oracles in `Env`; the
    local filesystem itself is a map from path to the size `stat` reports. */
module Extraction {
  import opened Strings
  import opened Sanitizer
  import opened Stats

  const BytesPerMiB: nat := 1024 * 1024
  /** Files are read inline through `cat` only below 5 MiB. */
  const InlineReadCeiling: nat := 5 * 1024 * 1024
  const StagingDir: string := "/sdcard/Download/"
  /** Fault log entries are written only while the error count is below this. */
  const ErrorLogLimit: nat := 10

  /** `MAX_PATH_LENGTH`, `MAX_FILE_SIZE_MB` and `VERBOSE`. */
  datatype Config = Config(maxPathLength: nat, maxFileSizeMb: nat, verbose: bool)

  const Defaults: Config := Config(MaxPathLength, 500, true)

  /** The device commands the engine issues. `Root*` commands run through
      `su -c`; `elevated` records whether a stat or cat did. */
  datatype Command =
    | Pull(src: string, dst: string)
    | RootCopy(src: string, dst: string)
    | RootChmod(path: string)
    | RootRemove(path: string)
    | StatSize(path: string, elevated: bool)
    | Cat(path: string, elevated: bool)

  /** Status of an `adb pull`, and the size of the local file it left behind
      (`None`: it created nothing). */
  datatype PullReply = PullReply(code: int, written: Option<nat>)

  datatype ShellReply = ShellReply(output: string, code: int)

  /** Everything outside the engine. `stat` is the text `stat -c %s` prints,
      `mkdirFails` says whether creating the parent directories of a local
      target raises, `writeFails` whether writing it raises, `unlinkFails`
      whether deleting it raises, and `digest` is the MD5 hex prefix. */
  datatype Env = Env(
    pull: (string, string) -> PullReply,
    stat: (string, bool) -> string,
    cat: (string, bool) -> ShellReply,
    mkdirFails: string -> bool,
    writeFails: string -> bool,
    unlinkFails: string -> bool,
    digest: string -> Digest8)

  type Fs = map<string, nat>

  /** The session state the engine reads and updates. */
  datatype Session = Session(extracted: set<string>, hasRoot: bool, tempCounter: nat, stats: Stats)

  /** Why a call ended. Only `Extracted` is reported to the caller as True. */
  datatype Outcome =
    | Duplicate
    | AlreadyOnDisk
    | PathFailure
    | StrategiesExhausted
    | EmptyResult
    | Oversized
    | Fault
    | Extracted

  datatype LogEntry = SkippedLarge(filename: string, bytes: nat) | ExtractionError(filename: string)

  /** The result of one call: its outcome, the new session and filesystem,
      the local target last computed, the device commands issued in order
      and the log entries written. */
  datatype Run = Run(outcome: Outcome, session: Session, fs: Fs, target: string, commands: seq<Command>, log: seq<LogEntry>)
  {
    predicate Ok() {
      outcome == Extracted
    }
  }

  /** Private app storage, which a plain `adb pull` cannot read. */
  predicate Restricted(remote: string) {
    StartsWith(remote, "/data/data/") || StartsWith(remote, "/data/user/")
  }

  predicate IsDatabasePath(remote: string) {
    EndsWith(remote, ".db") || EndsWith(remote, ".sqlite") || EndsWith(remote, ".db-wal") || EndsWith(remote, ".db-shm")
  }

  /** A local file exists and is non-empty. */
  predicate Landed(fs: Fs, path: string) {
    path in fs && fs[path] > 0
  }

  /** `os.path.basename`. */
  function Basename(remote: string): string {
    LastPart(remote, '/')
  }

  /** `base / rel` for a relative path with no leading `/`. */
  function JoinPath(base: string, rel: string): string {
    if rel == [] then base else base + "/" + rel
  }

  /** Flatten: the sanitized basename directly under `base`; otherwise the
      sanitized device path (leading `/` stripped) under `base`. */
  function LocalTarget(cfg: Config, env: Env, base: string, remote: string, flatten: bool): string {
    if flatten then JoinPath(base, Sanitize(Basename(remote), cfg.maxPathLength, env.digest))
    else JoinPath(base, Sanitize(LStripChar(remote, '/'), cfg.maxPathLength, env.digest))
  }

  /** `/sdcard/Download/amat_<counter>_<md5(basename)[:8]>.tmp`. */
  function StagingPath(counter: nat, h: Digest8): string {
    StagingDir + "amat_" + NatToString(counter) + "_" + h + ".tmp"
  }

  /** Distinct counters give distinct staging paths, whatever the digests. */
  lemma StagingPathInjective(c1: nat, h1: Digest8, c2: nat, h2: Digest8)
    requires StagingPath(c1, h1) == StagingPath(c2, h2)
    ensures c1 == c2 && h1 == h2
  {
    var p := StagingDir + "amat_";
    var d1 := NatToString(c1);
    var d2 := NatToString(c2);
    var s1 := StagingPath(c1, h1);
    var s2 := StagingPath(c2, h2);
    assert s1 == (p + d1) + ("_" + h1 + ".tmp");
    assert s2 == (p + d2) + ("_" + h2 + ".tmp");
    assert |p + d1| == |p + d2|;
    assert s1[..|p + d1|] == p + d1;
    assert s2[..|p + d2|] == p + d2;
    assert (p + d1)[|p|..] == d1;
    assert (p + d2)[|p|..] == d2;
    NatToStringInjective(c1, c2);
    assert s1[|p + d1| + 1..|p + d1| + 9] == h1;
    assert s2[|p + d2| + 1..|p + d2| + 9] == h2;
  }

  function Write(fs: Fs, path: string, written: Option<nat>): Fs {
    match written
    case None => fs
    case Some(n) => fs[path := n]
  }

  // ---------------------------------------------------------------------
  // The strategy chain

  /** State threaded through the strategies. */
  datatype Attempt = Attempt(success: bool, fs: Fs, tempCounter: nat, commands: seq<Command>)

  /** Only the local target may differ between the two filesystems. */
  predicate OnlyTouches(before: Fs, after: Fs, local: string) {
    && after.Keys <= before.Keys + {local}
    && forall p :: p in before && p != local ==> p in after && after[p] == before[p]
  }

  /** What an attempt that has just run guarantees: success means the local
      file is there and non-empty, and only the local file was touched. */
  predicate Sound(before: Fs, a: Attempt, local: string) {
    (a.success ==> Landed(a.fs, local)) && OnlyTouches(before, a.fs, local)
  }

  /** The success test of both pulls: `adb pull` returned code 0 and the
      local file it left behind exists and is non-empty. */
  predicate PullLands(env: Env, src: string, local: string, fs: Fs) {
    env.pull(src, local).code == 0 && Landed(Write(fs, local, env.pull(src, local).written), local)
  }

  /** Strategy 1: `adb pull` straight from the device path, unless the path
      lies in private app storage. */
  function TryDirectPull(env: Env, remote: string, local: string, a: Attempt): (r: Attempt)
    requires !a.success
    ensures r.commands == a.commands + (if Restricted(remote) then [] else [Pull(remote, local)])
    ensures r.tempCounter == a.tempCounter
    ensures Sound(a.fs, r, local)
    ensures Restricted(remote) ==> r == a
    ensures !Restricted(remote) ==>
      r.success == PullLands(env, remote, local, a.fs) && r.fs == Write(a.fs, local, env.pull(remote, local).written)
  {
    if Restricted(remote) then a
    else
      var reply := env.pull(remote, local);
      var fs := Write(a.fs, local, reply.written);
      Attempt(reply.code == 0 && Landed(fs, local), fs, a.tempCounter, a.commands + [Pull(remote, local)])
  }

  /** The four commands of one staged copy through `temp`. */
  function StagedCommands(remote: string, local: string, temp: string): seq<Command> {
    [RootCopy(remote, temp), RootChmod(temp), Pull(temp, local), RootRemove(temp)]
  }

  /** Strategy 2: with root, copy to a fresh staging file, make it readable,
      pull it, and remove it; the replies of copy, chmod and remove are
      ignored. Each attempt takes the next value of the session counter. */
  function TryStagedCopy(env: Env, hasRoot: bool, remote: string, local: string, a: Attempt): (r: Attempt)
    ensures var temp := StagingPath(a.tempCounter + 1, env.digest(Basename(remote)));
      var runs := !a.success && hasRoot;
      && r.commands == a.commands + (if runs then StagedCommands(remote, local, temp) else [])
      && r.tempCounter == a.tempCounter + (if runs then 1 else 0)
    ensures a.success || !hasRoot ==> r == a
    ensures Sound(a.fs, r, local) || r == a
    ensures !a.success && hasRoot ==>
      var temp := StagingPath(a.tempCounter + 1, env.digest(Basename(remote)));
      r.success == PullLands(env, temp, local, a.fs) && r.fs == Write(a.fs, local, env.pull(temp, local).written)
  {
    if a.success || !hasRoot then a
    else
      var counter := a.tempCounter + 1;
      var temp := StagingPath(counter, env.digest(Basename(remote)));
      var reply := env.pull(temp, local);
      var fs := Write(a.fs, local, reply.written);
      Attempt(reply.code == 0 && Landed(fs, local), fs, counter, a.commands + StagedCommands(remote, local, temp))
  }

  /** The commands of an inline read: the size query, then `cat` only when
      the reported size is an integer strictly between 0 and 5 MiB. */
  function InlineCommands(env: Env, hasRoot: bool, remote: string): (cmds: seq<Command>)
    ensures |cmds| > 0 && forall i :: 0 <= i < |cmds| ==> cmds[i].StatSize? || cmds[i].Cat?
    ensures Cat(remote, hasRoot) in cmds <==>
      ParseInt(env.stat(remote, hasRoot)).Some? && 0 < ParseInt(env.stat(remote, hasRoot)).value < InlineReadCeiling
  {
    var parsed := ParseInt(env.stat(remote, hasRoot));
    if parsed.Some? && 0 < parsed.value < InlineReadCeiling then [StatSize(remote, hasRoot), Cat(remote, hasRoot)]
    else [StatSize(remote, hasRoot)]
  }

  /** The size gate of the inline read: `stat` printed an integer strictly
      between 0 and 5 MiB. */
  predicate InlineSizeOk(env: Env, hasRoot: bool, remote: string) {
    ParseInt(env.stat(remote, hasRoot)).Some? && 0 < ParseInt(env.stat(remote, hasRoot)).value < InlineReadCeiling
  }

  /** The file an inline read leaves behind: the captured text written to
      `local`, when the size parsed and lay strictly between 0 and 5 MiB,
      `cat` succeeded with some output and the write did not raise. */
  function InlineWrite(env: Env, hasRoot: bool, remote: string, local: string, fs: Fs): (r: Option<Fs>)
    ensures r.Some? <==>
      && InlineSizeOk(env, hasRoot, remote)
      && env.cat(remote, hasRoot).code == 0 && |env.cat(remote, hasRoot).output| > 0
      && !env.writeFails(local)
    ensures r.Some? ==> r.value == fs[local := |env.cat(remote, hasRoot).output|]
    ensures r.Some? ==> local in r.value && OnlyTouches(fs, r.value, local)
    ensures r.Some? ==> r.value[local] == |env.cat(remote, hasRoot).output| > 0
  {
    match ParseInt(env.stat(remote, hasRoot))
    case None => None
    case Some(size) =>
      if 0 < size < InlineReadCeiling then
        var reply := env.cat(remote, hasRoot);
        if reply.code == 0 && |reply.output| > 0 && !env.writeFails(local) then Some(fs[local := |reply.output|])
        else None
      else None
  }

  /** Strategy 3: ask the device for the file size; if it parses as an
      integer strictly between 0 and 5 MiB, `cat` the file and write the
      captured text locally. A size that does not parse, or a write that
      raises, is swallowed and leaves the attempt failed. */
  function TryInlineRead(env: Env, hasRoot: bool, remote: string, local: string, a: Attempt): (r: Attempt)
    ensures r.commands == a.commands + (if a.success then [] else InlineCommands(env, hasRoot, remote))
    ensures r.tempCounter == a.tempCounter
    ensures a.success ==> r == a
    ensures Sound(a.fs, r, local) || r == a
    ensures !a.success ==>
      && (r.success <==> InlineWrite(env, hasRoot, remote, local, a.fs).Some?)
      && r.fs == (if r.success then InlineWrite(env, hasRoot, remote, local, a.fs).value else a.fs)
  {
    if a.success then a
    else
      var cmds := a.commands + InlineCommands(env, hasRoot, remote);
      match InlineWrite(env, hasRoot, remote, local, a.fs)
      case None => a.(commands := cmds)
      case Some(fs) => Attempt(fs[local] > 0, fs, a.tempCounter, cmds)
  }

  predicate RootCopyIssued(cmds: seq<Command>) {
    exists i :: 0 <= i < |cmds| && cmds[i].RootCopy?
  }

  /** Whether strategy 1 alone succeeds on this filesystem. */
  predicate DirectPullSucceeds(env: Env, remote: string, local: string, fs: Fs, counter: nat) {
    TryDirectPull(env, remote, local, Attempt(false, fs, counter, [])).success
  }

  /** The three strategies in their fixed order, each tried only while the
      earlier ones have failed. */
  function RunChain(env: Env, hasRoot: bool, remote: string, local: string, fs: Fs, counter: nat): (a: Attempt)
    ensures a.success ==> Landed(a.fs, local)
    ensures OnlyTouches(fs, a.fs, local)
    ensures var a1 := TryDirectPull(env, remote, local, Attempt(false, fs, counter, []));
      var a2 := TryStagedCopy(env, hasRoot, remote, local, a1);
      && (a1.success ==> a == a1)
      && (!a1.success && a2.success ==> a == a2)
      && (a.success <==> a1.success || a2.success || InlineWrite(env, hasRoot, remote, local, a2.fs).Some?)
  {
    var a1 := TryDirectPull(env, remote, local, Attempt(false, fs, counter, []));
    var a2 := TryStagedCopy(env, hasRoot, remote, local, a1);
    TryInlineRead(env, hasRoot, remote, local, a2)
  }

  /** The commands the chain sends: the direct pull exactly when the path is
      not private, everything if the direct pull succeeds, a root copy to the
      next staging name exactly when root is available and the direct pull
      failed, and a `cat` only after a size that parsed below the ceiling. */
  lemma RunChainCommands(env: Env, hasRoot: bool, remote: string, local: string, fs: Fs, counter: nat)
    ensures var a := RunChain(env, hasRoot, remote, local, fs, counter);
      && (Pull(remote, local) in a.commands <==> !Restricted(remote))
      && (DirectPullSucceeds(env, remote, local, fs, counter) ==>
            a.commands == [Pull(remote, local)] && a.success && a.tempCounter == counter)
      && (RootCopyIssued(a.commands) <==> hasRoot && !DirectPullSucceeds(env, remote, local, fs, counter))
      && a.tempCounter == counter + (if RootCopyIssued(a.commands) then 1 else 0)
      && (forall i :: 0 <= i < |a.commands| && a.commands[i].RootCopy? ==>
            a.commands[i] == RootCopy(remote, StagingPath(counter + 1, env.digest(Basename(remote)))))
      && (Cat(remote, hasRoot) in a.commands ==>
            ParseInt(env.stat(remote, hasRoot)).Some? && 0 < ParseInt(env.stat(remote, hasRoot)).value < InlineReadCeiling)
      && a.commands != []
  {
    RunChainPulls(env, hasRoot, remote, local, fs, counter);
    RunChainRootCopy(env, hasRoot, remote, local, fs, counter);
    RunChainCat(env, hasRoot, remote, local, fs, counter);
  }

  /** The chain's pulls: the direct one exactly for non-private paths, and
      nothing more once it succeeds. */
  lemma RunChainPulls(env: Env, hasRoot: bool, remote: string, local: string, fs: Fs, counter: nat)
    ensures var a := RunChain(env, hasRoot, remote, local, fs, counter);
      && (Pull(remote, local) in a.commands <==> !Restricted(remote))
      && (DirectPullSucceeds(env, remote, local, fs, counter) ==>
            a.commands == [Pull(remote, local)] && a.success && a.tempCounter == counter)
      && a.commands != []
  {
    var a1 := TryDirectPull(env, remote, local, Attempt(false, fs, counter, []));
    var a2 := TryStagedCopy(env, hasRoot, remote, local, a1);
    var t := StagingPath(counter + 1, env.digest(Basename(remote)));
    var staged: seq<Command> := if !a1.success && hasRoot then StagedCommands(remote, local, t) else [];
    var inline: seq<Command> := if a2.success then [] else InlineCommands(env, hasRoot, remote);
    ChainLayout(env, hasRoot, remote, local, fs, counter);
    StagingIsNotLocalPull(counter + 1, env.digest(Basename(remote)), remote, local);
    PartsPull(remote, local, t, a1.commands, staged, inline);
    if a1.commands == [] && staged == [] {
      assert !a2.success && |inline| > 0;
    }
  }

  /** The chain's root copy: sent exactly with root after a failed direct
      pull, to the staging name of the incremented counter. */
  lemma RunChainRootCopy(env: Env, hasRoot: bool, remote: string, local: string, fs: Fs, counter: nat)
    ensures var a := RunChain(env, hasRoot, remote, local, fs, counter);
      && (RootCopyIssued(a.commands) <==> hasRoot && !DirectPullSucceeds(env, remote, local, fs, counter))
      && a.tempCounter == counter + (if RootCopyIssued(a.commands) then 1 else 0)
      && (forall i :: 0 <= i < |a.commands| && a.commands[i].RootCopy? ==>
            a.commands[i] == RootCopy(remote, StagingPath(counter + 1, env.digest(Basename(remote)))))
  {
    var a1 := TryDirectPull(env, remote, local, Attempt(false, fs, counter, []));
    var a2 := TryStagedCopy(env, hasRoot, remote, local, a1);
    var t := StagingPath(counter + 1, env.digest(Basename(remote)));
    var staged: seq<Command> := if !a1.success && hasRoot then StagedCommands(remote, local, t) else [];
    var inline: seq<Command> := if a2.success then [] else InlineCommands(env, hasRoot, remote);
    ChainLayout(env, hasRoot, remote, local, fs, counter);
    PartsRootCopy(remote, local, t, a1.commands, staged, inline);
  }

  /** The chain's `cat`: only after a size that parsed below the ceiling. */
  lemma RunChainCat(env: Env, hasRoot: bool, remote: string, local: string, fs: Fs, counter: nat)
    ensures var a := RunChain(env, hasRoot, remote, local, fs, counter);
      Cat(remote, hasRoot) in a.commands ==>
        ParseInt(env.stat(remote, hasRoot)).Some? && 0 < ParseInt(env.stat(remote, hasRoot)).value < InlineReadCeiling
  {
    var a1 := TryDirectPull(env, remote, local, Attempt(false, fs, counter, []));
    var a2 := TryStagedCopy(env, hasRoot, remote, local, a1);
    var t := StagingPath(counter + 1, env.digest(Basename(remote)));
    var staged: seq<Command> := if !a1.success && hasRoot then StagedCommands(remote, local, t) else [];
    var inline: seq<Command> := if a2.success then [] else InlineCommands(env, hasRoot, remote);
    ChainLayout(env, hasRoot, remote, local, fs, counter);
    PartsCat(remote, local, t, a1.commands, staged, inline, Cat(remote, hasRoot));
  }

  /** The chain's commands are those of the three strategies in order. */
  lemma ChainLayout(env: Env, hasRoot: bool, remote: string, local: string, fs: Fs, counter: nat)
    ensures var a1 := TryDirectPull(env, remote, local, Attempt(false, fs, counter, []));
      var a2 := TryStagedCopy(env, hasRoot, remote, local, a1);
      var t := StagingPath(counter + 1, env.digest(Basename(remote)));
      RunChain(env, hasRoot, remote, local, fs, counter).commands
        == a1.commands
          + (if !a1.success && hasRoot then StagedCommands(remote, local, t) else [])
          + (if a2.success then [] else InlineCommands(env, hasRoot, remote))
    ensures var a1 := TryDirectPull(env, remote, local, Attempt(false, fs, counter, []));
      var a2 := TryStagedCopy(env, hasRoot, remote, local, a1);
      var t := StagingPath(counter + 1, env.digest(Basename(remote)));
      ChainShape(remote, local, t, a1.commands,
                 if !a1.success && hasRoot then StagedCommands(remote, local, t) else [],
                 if a2.success then [] else InlineCommands(env, hasRoot, remote))
  {
  }

  /** The shape of `pre + staged + inline`: at most the direct pull, then
      at most one staged copy through `t`, then size queries and reads. */
  predicate ChainShape(remote: string, local: string, t: string, pre: seq<Command>, staged: seq<Command>, inline: seq<Command>) {
    && (pre == [] || pre == [Pull(remote, local)])
    && (staged == [] || staged == StagedCommands(remote, local, t))
    && forall i :: 0 <= i < |inline| ==> inline[i].StatSize? || inline[i].Cat?
  }

  /** Where the pull to `local` can sit. */
  lemma PartsPull(remote: string, local: string, t: string, pre: seq<Command>, staged: seq<Command>, inline: seq<Command>)
    requires ChainShape(remote, local, t, pre, staged, inline)
    ensures Pull(remote, local) in pre + staged + inline <==>
      Pull(remote, local) in pre || (staged != [] && Pull(t, local) == Pull(remote, local))
  {
    var all := pre + staged + inline;
    if Pull(remote, local) in all {
      var i :| 0 <= i < |all| && all[i] == Pull(remote, local);
      if |pre| <= i < |pre| + |staged| {
        assert all[i] == staged[i - |pre|];
      }
    }
    if Pull(remote, local) in pre {
      assert all[0] == pre[0];
    }
    if staged != [] && Pull(t, local) == Pull(remote, local) {
      assert all[|pre| + 2] == staged[2];
    }
  }

  /** Root copies come only from the staged part, all to `t`. */
  lemma PartsRootCopy(remote: string, local: string, t: string, pre: seq<Command>, staged: seq<Command>, inline: seq<Command>)
    requires ChainShape(remote, local, t, pre, staged, inline)
    ensures RootCopyIssued(pre + staged + inline) <==> staged != []
    ensures forall i :: 0 <= i < |pre + staged + inline| && (pre + staged + inline)[i].RootCopy? ==>
      (pre + staged + inline)[i] == RootCopy(remote, t)
  {
    var all := pre + staged + inline;
    if staged != [] {
      assert all[|pre|] == RootCopy(remote, t);
    }
    forall i | 0 <= i < |all| && all[i].RootCopy?
      ensures all[i] == RootCopy(remote, t)
    {
      if |pre| <= i < |pre| + |staged| {
        assert all[i] == staged[i - |pre|];
      }
    }
  }

  /** A read command comes only from the inline part. */
  lemma PartsCat(remote: string, local: string, t: string, pre: seq<Command>, staged: seq<Command>, inline: seq<Command>, cat: Command)
    requires ChainShape(remote, local, t, pre, staged, inline) && cat.Cat?
    ensures cat in pre + staged + inline ==> cat in inline
  {
    var all := pre + staged + inline;
    if cat in all {
      var i :| 0 <= i < |all| && all[i] == cat;
      if i >= |pre| + |staged| {
        assert all[i] == inline[i - |pre| - |staged|];
      }
    }
  }

  /** A staging path lies under `/sdcard/`, never in private app storage. */
  lemma StagingIsNotLocalPull(counter: nat, h: Digest8, remote: string, local: string)
    ensures Pull(StagingPath(counter, h), local) == Pull(remote, local) ==> !Restricted(remote)
  {
    var t := StagingPath(counter, h);
    if t == remote {
      assert t[1] == 's';
    }
  }

  // ---------------------------------------------------------------------
  // The per-file pipeline

  function RecordFault(cfg: Config, s: Session, fs: Fs, local: string, cmds: seq<Command>, remote: string): Run {
    var errors := s.stats.extractionErrors + 1;
    var st := s.stats.(extractionErrors := errors);
    Run(Fault, s.(stats := st), fs, local, cmds,
        if cfg.verbose && errors < ErrorLogLimit then [ExtractionError(Basename(remote))] else [])
  }

  /** One more database when `isDatabase`; nothing else changes. */
  function CountDatabase(st: Stats, isDatabase: bool): (r: Stats)
    ensures r.databasesAcquired == st.databasesAcquired + (if isDatabase then 1 else 0)
    ensures forall c :: Bucket(r, c) == Bucket(st, c)
    ensures r == st.(databasesAcquired := r.databasesAcquired)
  {
    if isDatabase then st.(databasesAcquired := st.databasesAcquired + 1) else st
  }

  /** Cap check: `MAX_FILE_SIZE_MB > 0` and the size exceeds it. */
  predicate TooLarge(cfg: Config, bytes: nat) {
    cfg.maxFileSizeMb > 0 && bytes > cfg.maxFileSizeMb * BytesPerMiB
  }

  /** Which outcome a finished chain leads to: a failed chain exhausts the
      strategies; a landed file over the size cap is deleted again, or is a
      fault when the deletion raises; any other landed file is extracted. */
  function Verdict(cfg: Config, env: Env, local: string, a: Attempt): Outcome {
    if !a.success || local !in a.fs then StrategiesExhausted
    else if TooLarge(cfg, a.fs[local]) then (if env.unlinkFails(local) then Fault else Oversized)
    else Extracted
  }

  /** Post-validation and bookkeeping once the chain has run: an empty or
      oversized result is deleted again, a good one is counted under its
      category (and as a database when its name says so) and remembered. */
  function Settle(cfg: Config, env: Env, s: Session, remote: string, local: string, category: string, a: Attempt): (r: Run)
    requires a.success ==> Landed(a.fs, local)
    requires remote !in s.extracted
    ensures r.commands == a.commands && r.target == local
    ensures r.outcome in {StrategiesExhausted, Oversized, Fault, Extracted}
    ensures r.session.hasRoot == s.hasRoot && r.session.tempCounter == a.tempCounter
    ensures r.Ok() ==> r.session.extracted == s.extracted + {remote}
    ensures !r.Ok() ==> r.session.extracted == s.extracted
    ensures NoneDecreased(s.stats, r.session.stats) && SameTallies(s.stats, r.session.stats)
    ensures r.session.stats.totalFiles == s.stats.totalFiles + (if r.Ok() then 1 else 0)
    ensures r.Ok() ==>
      && r.fs == a.fs && Landed(r.fs, local)
      && r.session.stats.totalBytes == s.stats.totalBytes + r.fs[local]
      && (forall c :: c in KnownCategories ==>
            Bucket(r.session.stats, c) == Bucket(s.stats, c) + (if c == category then r.fs[local] else 0))
      && !TooLarge(cfg, r.fs[local])
    ensures !r.Ok() ==> r.session.stats.totalBytes == s.stats.totalBytes && BucketSum(r.session.stats) == BucketSum(s.stats)
    ensures r.session.stats.failedFiles == s.stats.failedFiles + (if r.outcome == StrategiesExhausted then 1 else 0)
    ensures r.session.stats.extractionErrors == s.stats.extractionErrors + (if r.outcome == Fault then 1 else 0)
    ensures r.session.stats.databasesAcquired ==
      s.stats.databasesAcquired + (if r.Ok() && IsDatabasePath(remote) then 1 else 0)
    ensures r.session.stats.pathErrors == s.stats.pathErrors
    ensures r.outcome == StrategiesExhausted <==> !a.success
    ensures a.success && !TooLarge(cfg, a.fs[local]) ==> r.outcome == Extracted
    ensures r.outcome == Oversized <==> a.success && TooLarge(cfg, a.fs[local]) && !env.unlinkFails(local)
    ensures r.outcome == Fault <==> a.success && TooLarge(cfg, a.fs[local]) && env.unlinkFails(local)
    ensures r.outcome == Verdict(cfg, env, local, a)
    ensures r.outcome == Oversized ==>
      && r.fs == a.fs - {local}
      && |r.log| == 1 && r.log[0].SkippedLarge? && TooLarge(cfg, r.log[0].bytes)
    ensures r.outcome == Fault ==>
      (r.log == [ExtractionError(Basename(remote))] <==> cfg.verbose && r.session.stats.extractionErrors < ErrorLogLimit)
  {
    var s1 := s.(tempCounter := a.tempCounter);
    if a.success && local in a.fs then
      var size := a.fs[local];
      if size == 0 || TooLarge(cfg, size) then
        if env.unlinkFails(local) then RecordFault(cfg, s1, a.fs, local, a.commands, remote)
        else if size == 0 then assert false; Run(EmptyResult, s1, a.fs - {local}, local, a.commands, [])
        else Run(Oversized, s1, a.fs - {local}, local, a.commands, [SkippedLarge(Basename(remote), size)])
      else
        var st' := CountDatabase(AddToStats(s1.stats, category, size), IsDatabasePath(remote));
        Run(Extracted, s1.(extracted := s.extracted + {remote}, stats := st'), a.fs, local, a.commands, [])
    else
      Run(StrategiesExhausted, s1.(stats := s1.stats.(failedFiles := s1.stats.failedFiles + 1)), a.fs, local, a.commands, [])
  }

  /** What one call promises about the session, the statistics and the log,
      whatever path it takes: the extracted-path set and the byte totals move
      only on success, and each outcome moves its own counter. */
  predicate Accounted(cfg: Config, remote: string, category: string, s: Session, r: Run) {
    && (r.Ok() ==> remote !in s.extracted && r.session.extracted == s.extracted + {remote})
    && (!r.Ok() ==> r.session.extracted == s.extracted)
    && r.session.hasRoot == s.hasRoot
    && NoneDecreased(s.stats, r.session.stats)
    && SameTallies(s.stats, r.session.stats)
    && r.session.stats.totalFiles == s.stats.totalFiles + (if r.Ok() then 1 else 0)
    && (r.Ok() ==>
          && Landed(r.fs, r.target)
          && r.session.stats.totalBytes == s.stats.totalBytes + r.fs[r.target]
          && (forall c :: c in KnownCategories ==>
                Bucket(r.session.stats, c) == Bucket(s.stats, c) + (if c == category then r.fs[r.target] else 0))
          && !TooLarge(cfg, r.fs[r.target]))
    && (!r.Ok() ==> r.session.stats.totalBytes == s.stats.totalBytes && BucketSum(r.session.stats) == BucketSum(s.stats))
    && r.session.stats.failedFiles == s.stats.failedFiles + (if r.outcome == StrategiesExhausted then 1 else 0)
    && r.session.stats.extractionErrors == s.stats.extractionErrors + (if r.outcome == Fault then 1 else 0)
    && r.session.stats.databasesAcquired ==
         s.stats.databasesAcquired + (if r.Ok() && IsDatabasePath(remote) then 1 else 0)
    && (r.outcome == Oversized ==>
          && r.target !in r.fs
          && |r.log| == 1 && r.log[0].SkippedLarge? && TooLarge(cfg, r.log[0].bytes))
    && (r.outcome == Fault ==>
          (r.log == [ExtractionError(Basename(remote))] <==> cfg.verbose && r.session.stats.extractionErrors < ErrorLogLimit))
    && r.outcome != EmptyResult
  }

  /** Everything after the dedup check, at a fixed local target: the resume
      check, directory creation, the chain and the validation. A failed
      directory creation is reported as `PathFailure` after counting it. */
  function ExtractAt(cfg: Config, env: Env, s: Session, fs: Fs, remote: string, local: string, category: string): (r: Run)
    requires remote !in s.extracted
    ensures r.target == local
    ensures Accounted(cfg, remote, category, s, r)
    ensures r.session.stats.pathErrors == s.stats.pathErrors + (if r.outcome == PathFailure then 1 else 0)
    ensures r.outcome == PathFailure ==> r.session == s.(stats := r.session.stats)
    ensures r.outcome == PathFailure ==> r.session.stats == s.stats.(pathErrors := s.stats.pathErrors + 1)
    ensures r.outcome in {AlreadyOnDisk, PathFailure} ==> r.commands == [] && r.fs == fs && r.log == []
    ensures r.outcome == AlreadyOnDisk <==> Landed(fs, local)
    ensures r.outcome != Duplicate
    // a missing file fails on the path exactly when its directory cannot be made
    ensures !Landed(fs, local) ==> (r.outcome == PathFailure <==> env.mkdirFails(local))
    // otherwise the chain runs from the session's counter and decides the outcome
    ensures !Landed(fs, local) && !env.mkdirFails(local) ==>
      r.outcome == Verdict(cfg, env, local, RunChain(env, s.hasRoot, remote, local, fs, s.tempCounter))
  {
    if Landed(fs, local) then Run(AlreadyOnDisk, s, fs, local, [], [])
    else if env.mkdirFails(local) then
      Run(PathFailure, s.(stats := s.stats.(pathErrors := s.stats.pathErrors + 1)), fs, local, [], [])
    else
      var a := RunChain(env, s.hasRoot, remote, local, fs, s.tempCounter);
      SettleAccounted(cfg, env, s, remote, local, category, a);
      Settle(cfg, env, s, remote, local, category, a)
  }

  /** Validation settles every attempt with the accounting a call promises. */
  lemma SettleAccounted(cfg: Config, env: Env, s: Session, remote: string, local: string, category: string, a: Attempt)
    requires a.success ==> Landed(a.fs, local)
    requires remote !in s.extracted
    ensures Accounted(cfg, remote, category, s, Settle(cfg, env, s, remote, local, category, a))
  {
  }

  /** A call that only counted a path error can be chained with the next
      one: the accounting composes. */
  lemma AccountedAfterPathError(cfg: Config, remote: string, category: string, s: Session, s1: Session, r: Run)
    requires s1 == s.(stats := s.stats.(pathErrors := s.stats.pathErrors + 1))
    requires Accounted(cfg, remote, category, s1, r)
    ensures Accounted(cfg, remote, category, s, r)
  {
    NoneDecreasedTransitive(s.stats, s1.stats, r.session.stats);
  }

  /** `_extract_file_production(remote, base, category, flatten)`. */
  function Extract(cfg: Config, env: Env, s: Session, fs: Fs, remote: string, base: string, category: string, flatten: bool): (r: Run)
    // a path already extracted is skipped with nothing changed and nothing sent
    ensures remote in s.extracted ==> r == Run(Duplicate, s, fs, r.target, [], [])
    ensures remote !in s.extracted ==> Accounted(cfg, remote, category, s, r)
    ensures r.session.stats.pathErrors <= s.stats.pathErrors + (if flatten then 1 else 2)
    ensures r.outcome in {Duplicate, AlreadyOnDisk, PathFailure} ==> r.commands == [] && r.fs == fs
    ensures flatten ==> r.target == LocalTarget(cfg, env, base, remote, true)
    decreases !flatten
  {
    var local := LocalTarget(cfg, env, base, remote, flatten);
    if remote in s.extracted then Run(Duplicate, s, fs, local, [], [])
    else
      var r := ExtractAt(cfg, env, s, fs, remote, local, category);
      if r.outcome == PathFailure && !flatten then
        var r' := Extract(cfg, env, r.session, fs, remote, base, category, true);
        AccountedAfterPathError(cfg, remote, category, s, r.session, r');
        r'
      else r
  }

  // ---------------------------------------------------------------------
  // Properties of whole calls

  /** A missing file whose directory can be made runs the chain at its own
      target, from the session's counter, and the chain's result decides the
      outcome. */
  lemma ExtractRunsChain(cfg: Config, env: Env, s: Session, fs: Fs, remote: string, base: string, category: string, flatten: bool)
    requires remote !in s.extracted
    requires !Landed(fs, LocalTarget(cfg, env, base, remote, flatten))
    requires !env.mkdirFails(LocalTarget(cfg, env, base, remote, flatten))
    ensures var local := LocalTarget(cfg, env, base, remote, flatten);
      var r := Extract(cfg, env, s, fs, remote, base, category, flatten);
      && r.target == local
      && r.outcome == Verdict(cfg, env, local, RunChain(env, s.hasRoot, remote, local, fs, s.tempCounter))
  {
    var local := LocalTarget(cfg, env, base, remote, flatten);
    var at := ExtractAt(cfg, env, s, fs, remote, local, category);
    assert at.outcome != PathFailure;
  }

  /** A directory that cannot be made is counted once as a path error and
      the call is retried flattened, exactly once: a flattened call whose
      directory cannot be made gives up with `PathFailure`. */
  lemma ExtractRetriesFlat(cfg: Config, env: Env, s: Session, fs: Fs, remote: string, base: string, category: string, flatten: bool)
    requires remote !in s.extracted
    requires !Landed(fs, LocalTarget(cfg, env, base, remote, flatten))
    requires env.mkdirFails(LocalTarget(cfg, env, base, remote, flatten))
    ensures var s' := s.(stats := s.stats.(pathErrors := s.stats.pathErrors + 1));
      Extract(cfg, env, s, fs, remote, base, category, flatten) ==
        (if flatten then Run(PathFailure, s', fs, LocalTarget(cfg, env, base, remote, flatten), [], [])
         else Extract(cfg, env, s', fs, remote, base, category, true))
  {
    var local := LocalTarget(cfg, env, base, remote, flatten);
    var at := ExtractAt(cfg, env, s, fs, remote, local, category);
    assert at.outcome == PathFailure;
  }

  /** A good file is extracted: when nothing is on disk yet, the directory
      can be made and some strategy lands a file within the size cap, the
      call returns success, remembers the path and counts the file. */
  lemma GoodFileExtracted(cfg: Config, env: Env, s: Session, fs: Fs, remote: string, base: string, category: string, flatten: bool)
    requires remote !in s.extracted
    requires var local := LocalTarget(cfg, env, base, remote, flatten);
      var a := RunChain(env, s.hasRoot, remote, local, fs, s.tempCounter);
      !Landed(fs, local) && !env.mkdirFails(local) && a.success && !TooLarge(cfg, a.fs[local])
    ensures var r := Extract(cfg, env, s, fs, remote, base, category, flatten);
      && r.Ok()
      && r.session.extracted == s.extracted + {remote}
      && r.session.stats.totalFiles == s.stats.totalFiles + 1
  {
    ExtractRunsChain(cfg, env, s, fs, remote, base, category, flatten);
  }

  /** What the commands of a call that sent anything say: the direct pull
      to `local` exactly for non-private paths, at most one root copy (only
      with root) to the staging name of the incremented counter, and a `cat`
      only after a size below the ceiling. */
  predicate CommandsFollow(env: Env, s: Session, remote: string, local: string, r: Run) {
    && (r.commands != [] ==> (Pull(remote, local) in r.commands <==> !Restricted(remote)))
    && (RootCopyIssued(r.commands) ==> s.hasRoot)
    && r.session.tempCounter == s.tempCounter + (if RootCopyIssued(r.commands) then 1 else 0)
    && (forall i :: 0 <= i < |r.commands| && r.commands[i].RootCopy? ==>
          r.commands[i] == RootCopy(remote, StagingPath(r.session.tempCounter, env.digest(Basename(remote)))))
    && (Cat(remote, s.hasRoot) in r.commands ==>
          ParseInt(env.stat(remote, s.hasRoot)).Some? && 0 < ParseInt(env.stat(remote, s.hasRoot)).value < InlineReadCeiling)
  }

  /** A run that took over the chain's commands and counter follows them. */
  lemma FollowsChain(env: Env, s: Session, remote: string, local: string, fs: Fs, r: Run)
    requires var a := RunChain(env, s.hasRoot, remote, local, fs, s.tempCounter);
      r.commands == a.commands && r.session.tempCounter == a.tempCounter
    ensures CommandsFollow(env, s, remote, local, r) && r.commands != []
  {
    RunChainCommands(env, s.hasRoot, remote, local, fs, s.tempCounter);
  }

  /** A run that sent nothing and kept the counter follows trivially. */
  lemma FollowsSilence(env: Env, s: Session, remote: string, local: string, r: Run)
    requires r.commands == [] && r.session.tempCounter == s.tempCounter
    ensures CommandsFollow(env, s, remote, local, r)
  {
    assert !RootCopyIssued(r.commands);
  }

  /** The commands of one call at a fixed target: none unless the chain ran,
      and then as `CommandsFollow` says. */
  lemma ExtractAtCommands(cfg: Config, env: Env, s: Session, fs: Fs, remote: string, local: string, category: string)
    requires remote !in s.extracted
    ensures var r := ExtractAt(cfg, env, s, fs, remote, local, category);
      && (r.commands == [] <==> r.outcome in {AlreadyOnDisk, PathFailure})
      && CommandsFollow(env, s, remote, local, r)
  {
    var r := ExtractAt(cfg, env, s, fs, remote, local, category);
    if !Landed(fs, local) && !env.mkdirFails(local) {
      FollowsChain(env, s, remote, local, fs, r);
    } else {
      FollowsSilence(env, s, remote, local, r);
    }
  }

  /** The same for a whole call, flatten retry included: the session's
      temp counter moves exactly when a root copy was sent, and the copy
      went to the staging name built from the new counter value. */
  lemma {:induction false} ExtractCommands(cfg: Config, env: Env, s: Session, fs: Fs, remote: string, base: string, category: string, flatten: bool)
    ensures var r := Extract(cfg, env, s, fs, remote, base, category, flatten);
      && (r.commands == [] <==> r.outcome in {Duplicate, AlreadyOnDisk, PathFailure})
      && CommandsFollow(env, s, remote, r.target, r)
    decreases !flatten
  {
    var r := Extract(cfg, env, s, fs, remote, base, category, flatten);
    var local := LocalTarget(cfg, env, base, remote, flatten);
    if remote in s.extracted {
      FollowsSilence(env, s, remote, r.target, r);
    } else {
      var ra := ExtractAt(cfg, env, s, fs, remote, local, category);
      ExtractAtCommands(cfg, env, s, fs, remote, local, category);
      if ra.outcome == PathFailure && !flatten {
        ExtractCommands(cfg, env, ra.session, fs, remote, base, category, true);
      }
    }
  }

  /** Resume: a non-empty file already at the target ends the call before
      anything is sent, and nothing changes. */
  lemma ExtractResume(cfg: Config, env: Env, s: Session, fs: Fs, remote: string, base: string, category: string, flatten: bool)
    requires remote !in s.extracted
    requires Landed(fs, LocalTarget(cfg, env, base, remote, flatten))
    ensures Extract(cfg, env, s, fs, remote, base, category, flatten)
      == Run(AlreadyOnDisk, s, fs, LocalTarget(cfg, env, base, remote, flatten), [], [])
  {
  }

  /** A path is reported as extracted at most once per session: after a
      successful call, calling again with the returned session, in any mode
      and into any directory, is a duplicate that changes nothing. */
  lemma ExtractTwice(cfg: Config, env: Env, s: Session, fs: Fs, remote: string, base: string, category: string, flatten: bool,
                     base2: string, category2: string, flatten2: bool)
    requires Extract(cfg, env, s, fs, remote, base, category, flatten).Ok()
    ensures var r1 := Extract(cfg, env, s, fs, remote, base, category, flatten);
      var r2 := Extract(cfg, env, r1.session, r1.fs, remote, base2, category2, flatten2);
      && r2.outcome == Duplicate && !r2.Ok()
      && r2.session == r1.session && r2.fs == r1.fs && r2.commands == []
  {
  }

  /** Flattened targets depend only on the basename: once one file has been
      extracted flat into a directory, a different device file with the same
      basename is skipped as already present, and `False` is returned for it
      without anything being pulled. */
  lemma FlattenSameBasenameSkips(cfg: Config, env: Env, s: Session, fs: Fs, p: string, q: string,
                                 base: string, category: string)
    requires Basename(p) == Basename(q) && q != p
    requires q !in s.extracted
    requires Extract(cfg, env, s, fs, p, base, category, true).Ok()
    ensures var r1 := Extract(cfg, env, s, fs, p, base, category, true);
      var r2 := Extract(cfg, env, r1.session, r1.fs, q, base, category, true);
      && r2.outcome == AlreadyOnDisk && r2.session == r1.session && r2.commands == []
  {
    var r1 := Extract(cfg, env, s, fs, p, base, category, true);
    FlatSuccessLands(cfg, env, s, fs, p, base, category);
    assert LocalTarget(cfg, env, base, p, true) == LocalTarget(cfg, env, base, q, true);
    ExtractResume(cfg, env, r1.session, r1.fs, q, base, category, true);
  }

  /** A successful flattened call leaves its file at the flat target and
      remembers only its own path. */
  lemma FlatSuccessLands(cfg: Config, env: Env, s: Session, fs: Fs, p: string, base: string, category: string)
    requires Extract(cfg, env, s, fs, p, base, category, true).Ok()
    ensures var r1 := Extract(cfg, env, s, fs, p, base, category, true);
      Landed(r1.fs, LocalTarget(cfg, env, base, p, true)) && r1.session.extracted == s.extracted + {p}
  {
    var r1 := Extract(cfg, env, s, fs, p, base, category, true);
    assert Accounted(cfg, p, category, s, r1);
  }

  /** Two calls in a row that both send a root copy use different staging
      files on the device, because the session counter has moved. */
  lemma StagingNamesFresh(cfg: Config, env: Env, s: Session, fs: Fs, p: string, q: string,
                          base: string, category: string, flatten: bool, flatten2: bool, i: nat, j: nat)
    requires var r1 := Extract(cfg, env, s, fs, p, base, category, flatten);
      var r2 := Extract(cfg, env, r1.session, r1.fs, q, base, category, flatten2);
      && i < |r1.commands| && r1.commands[i].RootCopy?
      && j < |r2.commands| && r2.commands[j].RootCopy?
    ensures var r1 := Extract(cfg, env, s, fs, p, base, category, flatten);
      var r2 := Extract(cfg, env, r1.session, r1.fs, q, base, category, flatten2);
      r1.commands[i].dst != r2.commands[j].dst
  {
    var r1 := Extract(cfg, env, s, fs, p, base, category, flatten);
    var r2 := Extract(cfg, env, r1.session, r1.fs, q, base, category, flatten2);
    ExtractCommands(cfg, env, s, fs, p, base, category, flatten);
    ExtractCommands(cfg, env, r1.session, r1.fs, q, base, category, flatten2);
    assert RootCopyIssued(r1.commands) && RootCopyIssued(r2.commands);
    if r1.commands[i].dst == r2.commands[j].dst {
      StagingPathInjective(r1.session.tempCounter, env.digest(Basename(p)), r2.session.tempCounter, env.digest(Basename(q)));
    }
  }
}
