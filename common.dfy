/** Shared vocabulary of the backup, restore and retention workflows: the
    configuration record the workflows read, the errors they throw, and the
    external effects (subprocesses, object-storage calls, file operations)
    they issue, recorded in order as a trace. */
module Common {

  datatype Option<+T> = None | Some(value: T)

  /** Pass or Fail: how an awaited step settles (resolve or throw). */
  datatype Outcome<+E> = Pass | Fail(error: E)

  /** The environment variables the workflows read. A string variable that
      the workflows only test for truthiness, or use only once that test
      passed, is the empty string when unset: unset and "" behave alike.
      Two variables are used where unset is not "". `backupFilePrefix` is
      `None` when `BACKUP_FILE_PREFIX` is unset, because the archive name
      interpolates it into a template literal (giving `undefined`).
      `retentionDays` is `None` when `RETENTION_DAYS` is unset, because the
      sweep compares it numerically (`undefined <= 0` is false) and moves a
      date by it (by `NaN` days when unset). */
  datatype Env = Env(
    bucket: string,
    bucketSubfolder: string,
    backupDatabaseUrl: string,
    backupFilePrefix: Option<string>,
    supportObjectLock: bool,
    retentionDays: Option<int>,
    restoreDatabaseUrl: string,
    restoreFileName: string)

  /** A file in the operating system's temporary directory, named by its
      base name (the directory join is left to the runtime). */
  datatype TempPath = TempFile(name: string)

  /** What an `exec` callback receives: whether `error` was set, and stderr. */
  datatype ExecResult = ExecResult(failed: bool, stderr: string)

  /** The three administrative statements of a database reset. */
  datatype AdminCommand =
    | TerminateBackends(database: string)
    | DropDatabase(database: string)
    | CreateDatabase(database: string)

  /** The parameters handed to the multipart upload. */
  datatype PutParams = PutParams(bucket: string, key: string, body: TempPath, contentMD5: Option<string>)

  /** Every effect a workflow can have on the outside world. */
  datatype Effect =
    | RunDump(databaseUrl: string, path: TempPath)        // pg_dump | gzip > path
    | ReadArchiveHead(path: TempPath)                     // gzip -cd path | head -c1
    | HashFile(path: TempPath)                            // streaming MD5 of path
    | PutObject(params: PutParams)                        // multipart upload
    | Unlink(path: TempPath)                              // fs.unlink
    | GetObject(bucket: string, key: string, path: TempPath)
    | TestArchive(path: TempPath)                         // gzip -t path
    | StatFile(path: TempPath)                            // fs.statSync
    | Psql(adminUrl: string, command: AdminCommand)       // psql adminUrl -c ...
    | PgRestore(path: TempPath, databaseUrl: string)      // gzip -cd path | pg_restore ...

  /** The errors the workflows reject with. */
  datatype Error =
    | DumpFailed(stderr: string)
    | EmptyArchive
    | HashFailed
    | UploadFailed
    | UnlinkFailed(cause: Option<string>)
    | MissingRestoreConfig
    | DownloadFailed
    | InvalidBackupFile
    | InvalidUrl
    | CommandFailed(stderr: string)

  /** Number of occurrences of `e` in the trace `es`. */
  function Count(es: seq<Effect>, e: Effect): (n: nat)
    ensures n <= |es|
    ensures n == 0 <==> e !in es
  {
    if es == [] then 0 else (if es[0] == e then 1 else 0) + Count(es[1..], e)
  }

  lemma {:induction false} CountAppend(a: seq<Effect>, b: seq<Effect>, e: Effect)
    ensures Count(a + b, e) == Count(a, e) + Count(b, e)
  {
    if a == [] {
      assert a + b == b;
    } else {
      assert (a + b)[1..] == a[1..] + b;
      CountAppend(a[1..], b, e);
    }
  }
}
