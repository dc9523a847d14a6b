/** The backup workflow: name the archive after the current time, dump the
    database into a temporary file, check the archive, upload it (with an
    MD5 digest when the bucket uses object lock), then delete the temporary
    file. Every external call is recorded as an `Effect`; what each call
    answers is an input. */
module Backup {
  import opened Common
  import opened Promises
  import Retention

  // ----- the archive name -----

  /** The characters of the pattern `[:.]+` in the timestamp rewrite. */
  predicate IsSeparator(c: char)
  {
    c == ':' || c == '.'
  }

  predicate SeparatorFree(s: string)
  {
    forall i :: 0 <= i < |s| ==> !IsSeparator(s[i])
  }

  /** `s` without its leading run of separators. */
  function DropSeparators(s: string): (r: string)
    ensures |r| <= |s|
    ensures s != [] && IsSeparator(s[0]) ==> |r| < |s|
  {
    if s != [] && IsSeparator(s[0]) then DropSeparators(s[1..]) else s
  }

  /** `s` is a run of separators followed by `DropSeparators(s)`, which
      does not start with one. */
  lemma {:induction false} DropSeparatorsSplits(s: string)
    ensures var r := DropSeparators(s);
            && r == s[|s| - |r|..]
            && (r == [] || !IsSeparator(r[0]))
            && (forall i :: 0 <= i < |s| - |r| ==> IsSeparator(s[i]))
  {
    if s != [] && IsSeparator(s[0]) {
      DropSeparatorsSplits(s[1..]);
      var r := DropSeparators(s);
      assert r == DropSeparators(s[1..]);
      forall i | 0 <= i < |s| - |r| ensures IsSeparator(s[i]) {
        if i > 0 {
          assert s[i] == s[1..][i - 1];
        }
      }
    }
  }

  /** The global rewrite of every maximal run of `:` and `.` into one `-`. */
  function SanitizeTimestamp(s: string): (r: string)
    ensures SeparatorFree(r)
    decreases |s|
  {
    if s == [] then ""
    else if IsSeparator(s[0]) then
      "-" + SanitizeTimestamp(DropSeparators(s))
    else [s[0]] + SanitizeTimestamp(s[1..])
  }

  /** A string without separators is left as it is. */
  lemma {:induction false} SanitizeKeepsSeparatorFree(s: string)
    requires SeparatorFree(s)
    ensures SanitizeTimestamp(s) == s
    decreases |s|
  {
    if s != [] {
      assert SeparatorFree(s[1..]) by {
        forall i | 0 <= i < |s[1..]| ensures !IsSeparator(s[1..][i]) {
          assert s[1..][i] == s[i + 1];
        }
      }
      SanitizeKeepsSeparatorFree(s[1..]);
    }
  }

  /** Sanitizing twice is sanitizing once. */
  lemma SanitizeIdempotent(s: string)
    ensures SanitizeTimestamp(SanitizeTimestamp(s)) == SanitizeTimestamp(s)
  {
    SanitizeKeepsSeparatorFree(SanitizeTimestamp(s));
  }

  lemma {:induction false} DropWholeRun(run: string, v: string)
    requires forall i :: 0 <= i < |run| ==> IsSeparator(run[i])
    requires v == [] || !IsSeparator(v[0])
    ensures DropSeparators(run + v) == v
    decreases |run|
  {
    if run == [] {
      assert run + v == v;
    } else {
      assert (run + v)[0] == run[0];
      assert (run + v)[1..] == run[1..] + v;
      DropWholeRun(run[1..], v);
    }
  }

  lemma {:induction false} DropWithinPrefix(u: string, w: string)
    requires u != [] && !IsSeparator(u[|u| - 1])
    ensures DropSeparators(u + w) == DropSeparators(u) + w
    decreases |u|
  {
    assert (u + w)[0] == u[0];
    if IsSeparator(u[0]) {
      assert (u + w)[1..] == u[1..] + w;
      DropWithinPrefix(u[1..], w);
    }
  }

  /** Sanitizing splits at a boundary that is not inside a run. */
  lemma {:induction false} SanitizeAppend(u: string, w: string)
    requires u == [] || !IsSeparator(u[|u| - 1])
    ensures SanitizeTimestamp(u + w) == SanitizeTimestamp(u) + SanitizeTimestamp(w)
    decreases |u|
  {
    if u == [] {
      assert u + w == w;
    } else if IsSeparator(u[0]) {
      var d := DropSeparators(u);
      DropSeparatorsSplits(u);
      assert d != [] && d[|d| - 1] == u[|u| - 1];
      SanitizeAppend(d, w);
      SanitizeAppendAtRun(u, w);
    } else {
      var t := u[1..];
      assert (u + w)[0] == u[0] && (u + w)[1..] == t + w;
      calc {
        SanitizeTimestamp(u + w);
        [u[0]] + SanitizeTimestamp(t + w);
        { SanitizeAppend(t, w); }
        [u[0]] + (SanitizeTimestamp(t) + SanitizeTimestamp(w));
        ([u[0]] + SanitizeTimestamp(t)) + SanitizeTimestamp(w);
      }
    }
  }

  /** The step of `SanitizeAppend` for a text that starts with a run. */
  lemma SanitizeAppendAtRun(u: string, w: string)
    requires u != [] && IsSeparator(u[0]) && !IsSeparator(u[|u| - 1])
    requires SanitizeTimestamp(DropSeparators(u) + w)
             == SanitizeTimestamp(DropSeparators(u)) + SanitizeTimestamp(w)
    ensures SanitizeTimestamp(u + w) == SanitizeTimestamp(u) + SanitizeTimestamp(w)
  {
    assert (u + w)[0] == u[0];
    DropWithinPrefix(u, w);
    assert "-" + (SanitizeTimestamp(DropSeparators(u)) + SanitizeTimestamp(w))
        == ("-" + SanitizeTimestamp(DropSeparators(u))) + SanitizeTimestamp(w);
  }

  /** A whole run of separators at the front becomes one `-`. */
  lemma SanitizeLeadingRun(run: string, v: string)
    requires run != [] && forall i :: 0 <= i < |run| ==> IsSeparator(run[i])
    requires v == [] || !IsSeparator(v[0])
    ensures SanitizeTimestamp(run + v) == "-" + SanitizeTimestamp(v)
  {
    DropWholeRun(run, v);
    assert (run + v)[0] == run[0];
  }

  /** A maximal run of separators, wherever it stands, becomes exactly one
      `-`, and the text on both sides is sanitized independently. */
  lemma SanitizeSplitsAtRun(u: string, run: string, v: string)
    requires u == [] || !IsSeparator(u[|u| - 1])
    requires run != [] && forall i :: 0 <= i < |run| ==> IsSeparator(run[i])
    requires v == [] || !IsSeparator(v[0])
    ensures SanitizeTimestamp(u + (run + v)) == SanitizeTimestamp(u) + ("-" + SanitizeTimestamp(v))
  {
    SanitizeAppend(u, run + v);
    SanitizeLeadingRun(run, v);
  }

  /** `s` with every character of `drop` removed. */
  function Erase(s: string, drop: set<char>): (r: string)
    ensures forall i :: 0 <= i < |r| ==> r[i] !in drop
  {
    if s == [] then ""
    else (if s[0] in drop then "" else [s[0]]) + Erase(s[1..], drop)
  }

  lemma {:induction false} EraseAppend(a: string, b: string, drop: set<char>)
    ensures Erase(a + b, drop) == Erase(a, drop) + Erase(b, drop)
  {
    if a == [] {
      assert a + b == b;
    } else {
      assert (a + b)[0] == a[0];
      assert (a + b)[1..] == a[1..] + b;
      EraseAppend(a[1..], b, drop);
    }
  }

  lemma {:induction false} EraseRun(run: string, drop: set<char>)
    requires forall i :: 0 <= i < |run| ==> run[i] in drop
    ensures Erase(run, drop) == ""
  {
    if run != [] {
      EraseRun(run[1..], drop);
    }
  }

  /** Apart from the dashes, sanitizing keeps every character that is not a
      separator, in order, and adds none. */
  lemma {:induction false} SanitizeKeepsOthers(s: string)
    ensures Erase(SanitizeTimestamp(s), {'-'}) == Erase(s, {':', '.', '-'})
    decreases |s|
  {
    if s == [] {
    } else if IsSeparator(s[0]) {
      var d := DropSeparators(s);
      DropSeparatorsSplits(s);
      var run := s[..|s| - |d|];
      assert s == run + d;
      EraseAppend(run, d, {':', '.', '-'});
      EraseRun(run, {':', '.', '-'});
      EraseAppend("-", SanitizeTimestamp(d), {'-'});
      SanitizeKeepsOthers(d);
    } else {
      assert s == [s[0]] + s[1..];
      EraseAppend([s[0]], s[1..], {':', '.', '-'});
      EraseAppend([s[0]], SanitizeTimestamp(s[1..]), {'-'});
      SanitizeKeepsOthers(s[1..]);
    }
  }

  /** The archive name: the prefix, a dash, the sanitized timestamp and the
      archive extension. */
  function FileName(prefix: string, isoTime: string): (name: string)
    ensures |name| == |prefix| + |SanitizeTimestamp(isoTime)| + 8
    ensures name[..|prefix|] == prefix && name[|prefix|] == '-'
    ensures name[|prefix| + 1..|name| - 7] == SanitizeTimestamp(isoTime)
    ensures name[|name| - 7..] == ".tar.gz"
  {
    var stamp := SanitizeTimestamp(isoTime);
    var name := prefix + "-" + stamp + ".tar.gz";
    assert name == prefix + ("-" + stamp) + ".tar.gz";
    name
  }

  /** The stem of the name (everything before the extension) holds no `:`
      or `.` when the prefix holds none. */
  lemma FileStemSeparatorFree(prefix: string, isoTime: string)
    requires SeparatorFree(prefix)
    ensures var name := FileName(prefix, isoTime);
            SeparatorFree(name[..|name| - 7])
  {
    var name := FileName(prefix, isoTime);
    var stamp := SanitizeTimestamp(isoTime);
    var stem := name[..|name| - 7];
    assert stem == prefix + "-" + stamp;
    forall i | 0 <= i < |stem| ensures !IsSeparator(stem[i]) {
      if i < |prefix| {
        assert stem[i] == prefix[i];
      } else if i > |prefix| {
        assert stem[i] == stamp[i - |prefix| - 1];
      }
    }
  }

  /** For a fixed prefix, the name determines the sanitized timestamp. */
  lemma FileNameDeterminesStamp(prefix: string, t1: string, t2: string)
    requires FileName(prefix, t1) == FileName(prefix, t2)
    ensures SanitizeTimestamp(t1) == SanitizeTimestamp(t2)
  {
    var n1 := FileName(prefix, t1);
    assert n1[|prefix| + 1..|n1| - 7] == SanitizeTimestamp(t1);
  }

  /** The object key: the name under the subfolder, if there is one. */
  function ObjectKey(subfolder: string, name: string): (key: string)
    ensures key == Retention.ListPrefix(subfolder) + name
  {
    if subfolder != "" then subfolder + "/" + name else name
  }

  /** Different names never share a key. */
  lemma ObjectKeyInjective(subfolder: string, a: string, b: string)
    requires ObjectKey(subfolder, a) == ObjectKey(subfolder, b)
    ensures a == b
  {
    var p := Retention.ListPrefix(subfolder);
    assert a == (p + a)[|p|..];
    assert b == (p + b)[|p|..];
  }

  // ----- the dump step -----

  /** The characters `String.prototype.trimEnd` removes: white space and
      line terminators. */
  predicate IsTrimmable(c: char)
  {
    c in {'\t', '\U{000B}', '\U{000C}', ' ', '\U{00A0}', '\U{FEFF}', '\U{1680}',
          '\U{2000}', '\U{2001}', '\U{2002}', '\U{2003}', '\U{2004}', '\U{2005}',
          '\U{2006}', '\U{2007}', '\U{2008}', '\U{2009}', '\U{200A}', '\U{202F}',
          '\U{205F}', '\U{3000}', '\n', '\r', '\U{2028}', '\U{2029}'}
  }

  /** `trimEnd`: the longest prefix that does not end in a trimmable
      character, with only trimmable characters cut off. */
  function TrimEnd(s: string): (r: string)
    ensures |r| <= |s| && r == s[..|r|]
    ensures r == [] || !IsTrimmable(r[|r| - 1])
    ensures forall i :: |r| <= i < |s| ==> IsTrimmable(s[i])
  {
    if s != [] && IsTrimmable(s[|s| - 1]) then TrimEnd(s[..|s| - 1]) else s
  }

  /** Trailing white space of any length makes no difference. */
  lemma {:induction false} TrimEndIgnoresPadding(s: string, pad: string)
    requires forall i :: 0 <= i < |pad| ==> IsTrimmable(pad[i])
    ensures TrimEnd(s + pad) == TrimEnd(s)
    decreases |pad|
  {
    if pad == [] {
      assert s + pad == s;
    } else {
      var shorter := pad[..|pad| - 1];
      assert (s + pad)[..|s + pad| - 1] == s + shorter;
      assert (s + pad)[|s + pad| - 1] == pad[|pad| - 1];
      TrimEndIgnoresPadding(s, shorter);
    }
  }

  /** How the dump callback settles. `headLength` is the number of bytes
      that decompressing the archive and keeping its first byte printed. A
      failing dump rejects with its trimmed stderr; a dump whose archive is
      empty rejects as invalid; otherwise it resolves and stderr only
      triggers warnings. */
  function DumpDecision(dump: ExecResult, headLength: nat): (r: Outcome<Error>)
    ensures r.Pass? <==> !dump.failed && headLength == 1
    ensures dump.failed ==> r == Fail(DumpFailed(TrimEnd(dump.stderr)))
    ensures !dump.failed && headLength != 1 ==> r == Fail(EmptyArchive)
  {
    if dump.failed then Fail(DumpFailed(TrimEnd(dump.stderr)))
    else if headLength != 1 then Fail(EmptyArchive)
    else Pass
  }

  /** Once the dump command succeeds, its stderr never changes the outcome. */
  lemma DumpIgnoresWarnings(dump: ExecResult, other: string, headLength: nat)
    requires !dump.failed
    ensures DumpDecision(dump, headLength) == DumpDecision(ExecResult(false, other), headLength)
  {
  }

  /** The calls the dump makes: the dump command, then, once it succeeded,
      the read of the archive head, then, once that yielded a byte, the stat
      of the file whose size is logged. */
  function DumpTrace(databaseUrl: string, path: TempPath, dump: ExecResult, headLength: nat): (es: seq<Effect>)
    ensures 1 <= |es| <= 3 && es[0] == RunDump(databaseUrl, path)
    ensures ReadArchiveHead(path) in es <==> !dump.failed
    ensures StatFile(path) in es <==> DumpDecision(dump, headLength).Pass?
  {
    [RunDump(databaseUrl, path)]
    + (if dump.failed then []
       else [ReadArchiveHead(path)] + (if headLength == 1 then [StatFile(path)] else []))
  }

  /** Runs the dump into `path`, checking the archive only when the dump
      succeeded. */
  method DumpToFile(env: Env, path: TempPath, dump: ExecResult, headLength: nat)
    returns (effects: seq<Effect>, result: Outcome<Error>)
    ensures effects == DumpTrace(env.backupDatabaseUrl, path, dump, headLength)
    ensures result == DumpDecision(dump, headLength)
  {
    effects := [RunDump(env.backupDatabaseUrl, path)];
    if dump.failed {
      result := Fail(DumpFailed(TrimEnd(dump.stderr)));
      return;
    }
    effects := effects + [ReadArchiveHead(path)];
    if headLength != 1 {
      result := Fail(EmptyArchive);
      return;
    }
    // the size is only logged
    effects := effects + [StatFile(path)];
    result := Pass;
  }

  // ----- the upload step -----

  /** The upload parameters: the configured bucket, the key under the
      subfolder, the file, and the digest exactly under object lock. */
  function UploadParams(env: Env, name: string, path: TempPath, digest: Option<string>): (params: PutParams)
    ensures params.bucket == env.bucket && params.body == path
    ensures params.key == ObjectKey(env.bucketSubfolder, name)
    ensures params.contentMD5.Some? <==> env.supportObjectLock && digest.Some?
    ensures params.contentMD5.Some? ==> params.contentMD5 == digest
  {
    PutParams(env.bucket, ObjectKey(env.bucketSubfolder, name), path,
              if env.supportObjectLock then digest else None)
  }

  /** The calls the upload makes: the hash under object lock, then the
      upload unless hashing failed. */
  function UploadTrace(env: Env, name: string, path: TempPath, digest: Option<string>): (es: seq<Effect>)
    ensures HashFile(path) in es <==> env.supportObjectLock
    ensures PutObject(UploadParams(env, name, path, digest)) in es <==> !(env.supportObjectLock && digest.None?)
    ensures forall i :: 0 <= i < |es| ==> es[i].HashFile? || es[i] == PutObject(UploadParams(env, name, path, digest))
  {
    (if env.supportObjectLock then [HashFile(path)] else [])
    + (if env.supportObjectLock && digest.None? then [] else [PutObject(UploadParams(env, name, path, digest))])
  }

  /** How the upload settles: a failed hash, then a failed upload. */
  function UploadOutcome(env: Env, digest: Option<string>, uploadOk: bool): (r: Outcome<Error>)
    ensures r.Pass? <==> (env.supportObjectLock ==> digest.Some?) && uploadOk
    ensures env.supportObjectLock && digest.None? ==> r == Fail(HashFailed)
    ensures !(env.supportObjectLock && digest.None?) && !uploadOk ==> r == Fail(UploadFailed)
  {
    if env.supportObjectLock && digest.None? then Fail(HashFailed)
    else if !uploadOk then Fail(UploadFailed)
    else Pass
  }

  /** Uploads the archive under its key. With object lock on, the file is
      hashed first and the digest (`digest`, already in the encoding the
      upload expects; `None` when hashing fails) goes into `ContentMD5`; a
      failed hash means no upload at all. */
  method UploadToS3(env: Env, name: string, path: TempPath, digest: Option<string>, uploadOk: bool)
    returns (effects: seq<Effect>, params: PutParams, result: Outcome<Error>)
    ensures params == UploadParams(env, name, path, digest)
    ensures effects == UploadTrace(env, name, path, digest)
    ensures result == UploadOutcome(env, digest, uploadOk)
  {
    var key := name;
    if env.bucketSubfolder != "" {
      key := env.bucketSubfolder + "/" + key;
    }
    params := PutParams(env.bucket, key, path, None);
    effects := [];
    if env.supportObjectLock {
      effects := effects + [HashFile(path)];
      if digest.None? {
        result := Fail(HashFailed);
        return;
      }
      params := params.(contentMD5 := digest);
    }
    effects := effects + [PutObject(params)];
    result := if uploadOk then Pass else Fail(UploadFailed);
  }

  // ----- the delete step -----

  /** Deletes the temporary file. `resolve` runs synchronously, before the
      unlink callback, so the promise is already fulfilled when the callback
      rejects; whatever unlink reports is ignored. */
  method DeleteFile(path: TempPath, unlinkError: Option<string>)
    returns (effects: seq<Effect>, settled: State<Error>)
    ensures effects == [Unlink(path)]
    ensures settled == Fulfilled
  {
    var promise := new Promise<Error>();
    effects := [Unlink(path)];
    promise.Resolve();
    // the unlink callback, run later by the event loop
    promise.Reject(UnlinkFailed(unlinkError));
    settled := promise.state;
  }

  // ----- the workflow -----

  /** What every external call of one backup answers. */
  datatype BackupOracle = BackupOracle(
    dump: ExecResult,
    headLength: nat,
    digest: Option<string>,
    uploadOk: bool,
    unlinkError: Option<string>)

  /** `${BACKUP_FILE_PREFIX}` in a template literal: the text, or
      `undefined` when the variable is unset. */
  function TemplateText(v: Option<string>): (t: string)
    ensures v.None? ==> t == "undefined"
    ensures v.Some? ==> t == v.value
  {
    if v.Some? then v.value else "undefined"
  }

  /** The archive name the backup at `isoTime` uses. */
  function ArchiveName(env: Env, isoTime: string): string
  {
    FileName(TemplateText(env.backupFilePrefix), isoTime)
  }

  /** The temporary file the backup at `isoTime` writes. */
  function ArchivePath(env: Env, isoTime: string): TempPath
  {
    TempFile(ArchiveName(env, isoTime))
  }

  /** How a backup settles: the first failing stage's error. */
  function BackupOutcome(env: Env, oracle: BackupOracle): (r: Outcome<Error>)
    ensures r.Pass? <==>
              !oracle.dump.failed && oracle.headLength == 1
              && (env.supportObjectLock ==> oracle.digest.Some?) && oracle.uploadOk
    ensures DumpDecision(oracle.dump, oracle.headLength).Fail? ==> r == DumpDecision(oracle.dump, oracle.headLength)
    ensures DumpDecision(oracle.dump, oracle.headLength).Pass? ==> r == UploadOutcome(env, oracle.digest, oracle.uploadOk)
  {
    var dumped := DumpDecision(oracle.dump, oracle.headLength);
    if dumped.Fail? then dumped else UploadOutcome(env, oracle.digest, oracle.uploadOk)
  }

  /** Every call of one backup of the archive `name` at `path`, in order: the
      dump's, then the upload's once the dump succeeded, then the delete once
      the upload succeeded. */
  function StagedEffects(env: Env, name: string, path: TempPath, oracle: BackupOracle): seq<Effect>
  {
    DumpTrace(env.backupDatabaseUrl, path, oracle.dump, oracle.headLength)
    + (if DumpDecision(oracle.dump, oracle.headLength).Fail? then []
       else UploadTrace(env, name, path, oracle.digest)
            + (if BackupOutcome(env, oracle).Pass? then [Unlink(path)] else []))
  }

  /** Every call of the backup at `isoTime`, in order. */
  function BackupEffects(env: Env, isoTime: string, oracle: BackupOracle): seq<Effect>
  {
    StagedEffects(env, ArchiveName(env, isoTime), ArchivePath(env, isoTime), oracle)
  }

  predicate HasUpload(effects: seq<Effect>)
  {
    exists i :: 0 <= i < |effects| && effects[i].PutObject?
  }

  /** The backup starts with the dump into the archive path. */
  lemma BackupStartsWithDump(env: Env, isoTime: string, oracle: BackupOracle)
    ensures var es := BackupEffects(env, isoTime, oracle);
            |es| > 0 && es[0] == RunDump(env.backupDatabaseUrl, ArchivePath(env, isoTime))
  {
  }

  /** A failed dump or an empty archive ends the backup before any hash or
      upload, with the dump's error. */
  lemma DumpFailureStopsBackup(env: Env, isoTime: string, oracle: BackupOracle)
    requires DumpDecision(oracle.dump, oracle.headLength).Fail?
    ensures BackupEffects(env, isoTime, oracle)
            == DumpTrace(env.backupDatabaseUrl, ArchivePath(env, isoTime), oracle.dump, oracle.headLength)
    ensures !HasUpload(BackupEffects(env, isoTime, oracle))
    ensures oracle.dump.failed ==> BackupOutcome(env, oracle) == Fail(DumpFailed(TrimEnd(oracle.dump.stderr)))
    ensures !oracle.dump.failed ==> BackupOutcome(env, oracle) == Fail(EmptyArchive)
  {
    var es := BackupEffects(env, isoTime, oracle);
    assert es == DumpTrace(env.backupDatabaseUrl, ArchivePath(env, isoTime), oracle.dump, oracle.headLength);
    assert forall i :: 0 <= i < |es| ==> !es[i].PutObject?;
  }

  /** The upload step puts its object once, unless hashing failed. */
  lemma UploadCount(env: Env, name: string, path: TempPath, digest: Option<string>)
    ensures Count(UploadTrace(env, name, path, digest), PutObject(UploadParams(env, name, path, digest)))
            == if env.supportObjectLock && digest.None? then 0 else 1
  {
    var put := PutObject(UploadParams(env, name, path, digest));
    var upload := UploadTrace(env, name, path, digest);
    if env.supportObjectLock && digest.Some? {
      assert upload == [HashFile(path)] + [put];
      CountAppend([HashFile(path)], [put], put);
    } else if !env.supportObjectLock {
      assert upload == [put];
    }
  }

  /** Occurrences inside the middle stage of a three-stage trace. */
  lemma CountMiddle(dump: seq<Effect>, upload: seq<Effect>, tail: seq<Effect>, e: Effect)
    requires e !in dump && e !in tail
    ensures Count(dump + (upload + tail), e) == Count(upload, e)
  {
    CountAppend(upload, tail, e);
    CountAppend(dump, upload + tail, e);
  }

  /** The only uploads of a three-stage trace are those of its middle stage. */
  lemma PutsInMiddle(dump: seq<Effect>, upload: seq<Effect>, tail: seq<Effect>, put: Effect)
    requires forall i :: 0 <= i < |dump| ==> !dump[i].PutObject?
    requires forall i :: 0 <= i < |tail| ==> !tail[i].PutObject?
    requires forall i :: 0 <= i < |upload| ==> upload[i].HashFile? || upload[i] == put
    ensures var es := dump + (upload + tail);
            forall i :: 0 <= i < |es| && es[i].PutObject? ==> es[i] == put
  {
    var es := dump + (upload + tail);
    forall i | 0 <= i < |es| && es[i].PutObject? ensures es[i] == put {
      if |dump| <= i < |dump| + |upload| {
        assert es[i] == upload[i - |dump|];
      }
    }
  }

  /** A backup's trace, stage by stage. */
  lemma StagedShape(env: Env, name: string, path: TempPath, oracle: BackupOracle)
    ensures var dump := DumpTrace(env.backupDatabaseUrl, path, oracle.dump, oracle.headLength);
            var upload := UploadTrace(env, name, path, oracle.digest);
            var tail: seq<Effect> := if BackupOutcome(env, oracle).Pass? then [Unlink(path)] else [];
            && (DumpDecision(oracle.dump, oracle.headLength).Fail? ==> StagedEffects(env, name, path, oracle) == dump)
            && (DumpDecision(oracle.dump, oracle.headLength).Pass? ==>
                  StagedEffects(env, name, path, oracle) == dump + (upload + tail))
  {
  }

  /** The uploads of a backup of `name` at `path`. */
  lemma StagedUploadsOnce(env: Env, name: string, path: TempPath, oracle: BackupOracle)
    ensures var es := StagedEffects(env, name, path, oracle);
            var put := PutObject(UploadParams(env, name, path, oracle.digest));
            && (forall i :: 0 <= i < |es| && es[i].PutObject? ==> es[i] == put)
            && Count(es, put)
               == (if DumpDecision(oracle.dump, oracle.headLength).Pass?
                      && (env.supportObjectLock ==> oracle.digest.Some?) then 1 else 0)
  {
    var put := PutObject(UploadParams(env, name, path, oracle.digest));
    var dump := DumpTrace(env.backupDatabaseUrl, path, oracle.dump, oracle.headLength);
    var upload := UploadTrace(env, name, path, oracle.digest);
    var tail: seq<Effect> := if BackupOutcome(env, oracle).Pass? then [Unlink(path)] else [];
    StagedShape(env, name, path, oracle);
    assert forall i :: 0 <= i < |dump| ==> !dump[i].PutObject?;
    if DumpDecision(oracle.dump, oracle.headLength).Pass? {
      UploadCount(env, name, path, oracle.digest);
      CountMiddle(dump, upload, tail, put);
      PutsInMiddle(dump, upload, tail, put);
    }
  }

  /** The deletes of a backup of `name` at `path`. */
  lemma StagedDeletes(env: Env, name: string, path: TempPath, oracle: BackupOracle)
    ensures var es := StagedEffects(env, name, path, oracle);
            && (BackupOutcome(env, oracle).Pass? ==> es[|es| - 1] == Unlink(path) && Count(es, Unlink(path)) == 1)
            && (BackupOutcome(env, oracle).Fail? ==> Unlink(path) !in es)
  {
    var unlink := Unlink(path);
    var dump := DumpTrace(env.backupDatabaseUrl, path, oracle.dump, oracle.headLength);
    StagedShape(env, name, path, oracle);
    assert unlink !in dump;
    if DumpDecision(oracle.dump, oracle.headLength).Pass? {
      var upload := UploadTrace(env, name, path, oracle.digest);
      var tail: seq<Effect> := if BackupOutcome(env, oracle).Pass? then [unlink] else [];
      assert unlink !in upload by {
        assert forall i :: 0 <= i < |upload| ==> upload[i] != unlink;
      }
      CountAppend(upload, tail, unlink);
      CountAppend(dump, upload + tail, unlink);
    }
  }

  /** At most one object is uploaded, and exactly one when the dump and the
      hash succeed, always with the upload parameters of the archive. */
  lemma BackupUploadsOnce(env: Env, isoTime: string, oracle: BackupOracle)
    ensures var es := BackupEffects(env, isoTime, oracle);
            var put := PutObject(UploadParams(env, ArchiveName(env, isoTime), ArchivePath(env, isoTime), oracle.digest));
            && (forall i :: 0 <= i < |es| && es[i].PutObject? ==> es[i] == put)
            && Count(es, put)
               == (if DumpDecision(oracle.dump, oracle.headLength).Pass?
                      && (env.supportObjectLock ==> oracle.digest.Some?) then 1 else 0)
  {
    StagedUploadsOnce(env, ArchiveName(env, isoTime), ArchivePath(env, isoTime), oracle);
  }

  /** The uploaded object goes to the configured bucket, under the key
      derived from the prefix and the time, from the archive, with a digest
      exactly under object lock once hashing succeeded. */
  lemma BackupUploadTarget(env: Env, isoTime: string, oracle: BackupOracle)
    ensures var params := UploadParams(env, ArchiveName(env, isoTime), ArchivePath(env, isoTime), oracle.digest);
            && params.bucket == env.bucket && params.body == ArchivePath(env, isoTime)
            && params.key == ObjectKey(env.bucketSubfolder, ArchiveName(env, isoTime))
            && (params.contentMD5.Some? <==> env.supportObjectLock && oracle.digest.Some?)
  {
  }

  /** On success the archive ends the backup deleted, exactly once; on a
      failure it is never deleted. */
  lemma BackupDeletesOnSuccess(env: Env, isoTime: string, oracle: BackupOracle)
    ensures var es := BackupEffects(env, isoTime, oracle);
            var unlink := Unlink(ArchivePath(env, isoTime));
            && (BackupOutcome(env, oracle).Pass? ==> es[|es| - 1] == unlink && Count(es, unlink) == 1)
            && (BackupOutcome(env, oracle).Fail? ==> unlink !in es)
  {
    StagedDeletes(env, ArchiveName(env, isoTime), ArchivePath(env, isoTime), oracle);
  }

  /** Dump, upload, delete. A failing stage throws and skips every later
      stage, so the temporary file is deleted only after a successful
      upload, and the delete itself can never fail the backup. */
  method RunBackup(env: Env, isoTime: string, oracle: BackupOracle)
    returns (effects: seq<Effect>, result: Outcome<Error>)
    ensures effects == BackupEffects(env, isoTime, oracle)
    ensures result == BackupOutcome(env, oracle)
  {
    var name := FileName(TemplateText(env.backupFilePrefix), isoTime);
    var path := TempFile(name);
    effects, result := DumpToFile(env, path, oracle.dump, oracle.headLength);
    if result.Fail? {
      return;
    }
    var uploadEffects, params, uploaded := UploadToS3(env, name, path, oracle.digest, oracle.uploadOk);
    effects := effects + uploadEffects;
    result := uploaded;
    if result.Fail? {
      return;
    }
    var deleteEffects, settled := DeleteFile(path, oracle.unlinkError);
    effects := effects + deleteEffects;
    assert settled.Fulfilled?;
    result := Pass;
  }
}
