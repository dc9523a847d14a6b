/** The restore workflow: after a configuration guard, download the named
    backup into a temporary file, check that it is a gzip archive, estimate
    the restore time, drop and re-create the target database, and restore
    the archive into it; the temporary file is deleted on every path once
    the guard is passed. Every external call is recorded as an `Effect`;
    what each call answers is an input. */
module Restore {
  import opened Common
  import opened Promises
  import Backup

  // ----- locating the backup -----

  /** Downloads the backup `fileName` into `path`, under the same key rule as
      the upload, so it reads exactly the object that backing up under that
      name wrote. */
  method DownloadFromS3(env: Env, fileName: string, path: TempPath, downloadOk: bool)
    returns (effects: seq<Effect>, result: Outcome<Error>)
    ensures effects == [GetObject(env.bucket, Backup.ObjectKey(env.bucketSubfolder, fileName), path)]
    ensures result == if downloadOk then Pass else Fail(DownloadFailed)
  {
    var key := fileName;
    if env.bucketSubfolder != "" {
      key := env.bucketSubfolder + "/" + fileName;
    }
    effects := [GetObject(env.bucket, key, path)];
    result := if downloadOk then Pass else Fail(DownloadFailed);
  }

  /** `gzip -t`: a failing test throws an invalid-backup error. */
  method ValidateBackupFile(path: TempPath, gzipOk: bool)
    returns (effects: seq<Effect>, result: Outcome<Error>)
    ensures effects == [TestArchive(path)]
    ensures result == if gzipOk then Pass else Fail(InvalidBackupFile)
  {
    effects := [TestArchive(path)];
    result := if gzipOk then Pass else Fail(InvalidBackupFile);
  }

  // ----- the restore-time estimate -----

  /** Bytes restored per minute: 100 MiB. */
  const Throughput: nat := 100 * 1024 * 1024

  /** Whole minutes at `Throughput`, rounded up. */
  function EstimatedMinutes(size: nat): (m: nat)
    ensures m * Throughput >= size
    ensures m > 0 ==> (m - 1) * Throughput < size
  {
    (size + Throughput - 1) / Throughput
  }

  /** A larger file never gets a smaller estimate. */
  lemma EstimateMonotone(a: nat, b: nat)
    requires a <= b
    ensures EstimatedMinutes(a) <= EstimatedMinutes(b)
  {
  }

  /** An exact multiple of the throughput takes exactly that many minutes. */
  lemma EstimateOfMultiple(k: nat)
    ensures EstimatedMinutes(k * Throughput) == k
  {
  }

  /** Reads the file size; the estimate is only logged. */
  method EstimateRestoreTime(path: TempPath, size: nat) returns (effects: seq<Effect>, minutes: nat)
    ensures effects == [StatFile(path)]
    ensures minutes == EstimatedMinutes(size)
  {
    effects := [StatFile(path)];
    minutes := EstimatedMinutes(size);
  }

  // ----- resetting the database -----

  /** How the URL parser splits the connection string: the serialisation
      before the path (scheme, credentials, host, port), the path, and what
      follows it (query, fragment). */
  datatype ParsedUrl = ParsedUrl(beforePath: string, pathname: string, afterPath: string)

  function Href(u: ParsedUrl): string
  {
    u.beforePath + u.pathname + u.afterPath
  }

  /** `p` occurs in `s` at index `i`. */
  predicate OccursAt(s: string, p: string, i: nat)
  {
    i + |p| <= |s| && s[i..i + |p|] == p
  }

  function IndexFrom(s: string, p: string, i: nat): (r: Option<nat>)
    requires i <= |s| + 1
    ensures r.Some? ==> i <= r.value && OccursAt(s, p, r.value)
    ensures r.Some? ==> forall j :: i <= j < r.value ==> !OccursAt(s, p, j)
    ensures r.None? ==> forall j :: i <= j ==> !OccursAt(s, p, j)
    decreases |s| + 1 - i
  {
    if i + |p| > |s| then None
    else if s[i..i + |p|] == p then Some(i)
    else IndexFrom(s, p, i + 1)
  }

  /** The first occurrence of `p` in `s`, as `String.prototype.indexOf`. */
  function IndexOf(s: string, p: string): (r: Option<nat>)
    ensures r.Some? ==> OccursAt(s, p, r.value) && forall j :: 0 <= j < r.value ==> !OccursAt(s, p, j)
    ensures r.None? ==> forall j :: 0 <= j ==> !OccursAt(s, p, j)
  {
    IndexFrom(s, p, 0)
  }

  /** `s.replace(p, q)` with a string pattern: only the first occurrence is
      replaced, and `s` is unchanged when there is none. */
  function ReplaceFirst(s: string, p: string, q: string): (r: string)
    ensures IndexOf(s, p).None? ==> r == s
    ensures IndexOf(s, p).Some? ==>
              var i := IndexOf(s, p).value;
              r == s[..i] + q + s[i + |p|..]
  {
    match IndexOf(s, p)
    case None => s
    case Some(i) => s[..i] + q + s[i + |p|..]
  }

  /** The database name: the path without its first character. */
  function DbName(pathname: string): (name: string)
    ensures pathname == "" ==> name == ""
    ensures pathname != "" ==> pathname == [pathname[0]] + name
  {
    if pathname == "" then "" else pathname[1..]
  }

  /** The administrative URL as the workflow writes it: the first
      occurrence of the path in the connection string becomes
      `/postgres`, wherever that occurrence is. */
  function RootUrl(databaseUrl: string, pathname: string): (r: string)
    ensures IndexOf(databaseUrl, pathname).None? ==> r == databaseUrl
    ensures IndexOf(databaseUrl, pathname).Some? ==>
              var i := IndexOf(databaseUrl, pathname).value;
              && |r| == |databaseUrl| - |pathname| + 9
              && r[..i] == databaseUrl[..i]
              && r[i..i + 9] == "/postgres"
              && r[i + 9..] == databaseUrl[i + |pathname|..]
  {
    ReplaceFirst(databaseUrl, pathname, "/postgres")
  }

  /** The administrative URL as intended: the same connection string with
      its path replaced by `/postgres`. It keeps the scheme, credentials,
      host and port and the query, and has path `/postgres`. */
  function AdminUrl(u: ParsedUrl): (admin: string)
    ensures |admin| == |Href(u)| - |u.pathname| + 9
    ensures admin[..|u.beforePath|] == Href(u)[..|u.beforePath|]
    ensures admin[|u.beforePath|..|admin| - |u.afterPath|] == "/postgres"
    ensures admin[|admin| - |u.afterPath|..] == Href(u)[|Href(u)| - |u.afterPath|..]
  {
    var admin := u.beforePath + "/postgres" + u.afterPath;
    assert admin == u.beforePath + ("/postgres" + u.afterPath);
    assert Href(u) == u.beforePath + (u.pathname + u.afterPath);
    assert admin[|u.beforePath|..|admin| - |u.afterPath|] == "/postgres";
    admin
  }

  /** The two agree whenever the first occurrence of the path in the
      connection string is the path itself. */
  lemma RootUrlAgrees(u: ParsedUrl)
    requires IndexOf(Href(u), u.pathname) == Some(|u.beforePath|)
    ensures RootUrl(Href(u), u.pathname) == AdminUrl(u)
  {
    var url := Href(u);
    var i := |u.beforePath|;
    assert url[..i] == u.beforePath;
    assert url[i + |u.pathname|..] == u.afterPath;
  }

  /** The example connection string has the same user and database name,
      and no `/app` starts in it before index 12. */
  lemma ExampleNoEarlierPath(j: nat)
    requires j < 12
    ensures !OccursAt("postgresql://app:pw@host/app", "/app", j)
  {
    assert "postgresql://app:pw@host/app"[j..j + 4][0] == "postgresql://app:pw@host/app"[j];
    assert "postgresql://app:pw@host/app"[j..j + 4][1] == "postgresql://app:pw@host/app"[j + 1];
  }

  lemma ExamplePathAt12()
    ensures OccursAt("postgresql://app:pw@host/app", "/app", 12)
  {
    assert "postgresql://app:pw@host/app"[12..16] == "/app";
  }

  /** The first `/app` of the example is the one that starts `//app`. */
  lemma ExampleFirstOccurrence()
    ensures IndexOf("postgresql://app:pw@host/app", "/app") == Some(12)
  {
    ExamplePathAt12();
    forall j | 0 <= j < 12 ensures !OccursAt("postgresql://app:pw@host/app", "/app", j) {
      ExampleNoEarlierPath(j);
    }
  }

  lemma ExampleSlices()
    ensures "postgresql://app:pw@host/app"[..12] == "postgresql:/"
    ensures "postgresql://app:pw@host/app"[16..] == ":pw@host/app"
  {
  }

  lemma ExampleJoin()
    ensures "postgresql:/" + "/postgres" + ":pw@host/app" == "postgresql://postgres:pw@host/app"
  {
  }

  lemma ExampleRootUrl()
    ensures ReplaceFirst("postgresql://app:pw@host/app", "/app", "/postgres") == "postgresql://postgres:pw@host/app"
  {
    ExampleFirstOccurrence();
    ExampleSlices();
    ExampleJoin();
  }

  lemma ExampleHref()
    ensures Href(ParsedUrl("postgresql://app:pw@host", "/app", "")) == "postgresql://app:pw@host/app"
  {
  }

  lemma ExampleUserChanges()
    ensures "postgresql://postgres:pw@host/app"[..24] != "postgresql://app:pw@host/app"[..24]
  {
    assert "postgresql://postgres:pw@host/app"[13] == 'p';
    assert "postgresql://app:pw@host/app"[13] == 'a';
  }

  /** A user name equal to the database name is hit first: for the example
      the workflow's URL logs in as user `postgres` to database `app`,
      instead of as `app` to database `postgres`, so the part before the
      path changes. */
  lemma RootUrlHitsCredentials()
    ensures var u := ParsedUrl("postgresql://app:pw@host", "/app", "");
            && RootUrl(Href(u), u.pathname) == "postgresql://postgres:pw@host/app"
            && RootUrl(Href(u), u.pathname)[..|u.beforePath|] != Href(u)[..|u.beforePath|]
            && RootUrl(Href(u), u.pathname) != AdminUrl(u)
            && ResetPlan(Href(u), u.pathname)[0]
               == Psql("postgresql://postgres:pw@host/app", TerminateBackends("app"))
  {
    var u := ParsedUrl("postgresql://app:pw@host", "/app", "");
    ExampleHref();
    ExampleRootUrl();
    assert RootUrl(Href(u), u.pathname) == "postgresql://postgres:pw@host/app";
    assert |u.beforePath| == 24;
    ExampleUserChanges();
    assert AdminUrl(u)[..24] == Href(u)[..24];
  }

  /** What the three administrative commands answer. */
  datatype AdminAnswers = AdminAnswers(terminate: ExecResult, drop: ExecResult, create: ExecResult)

  /** The three commands of a reset, in order, for the connection string
      `databaseUrl` whose parsed path is `pathname`: each connects to the
      workflow's administrative URL and names the database of the path. */
  function ResetPlan(databaseUrl: string, pathname: string): (plan: seq<Effect>)
    ensures |plan| == 3
    ensures forall j :: 0 <= j < 3 ==>
              plan[j].Psql? && plan[j].adminUrl == RootUrl(databaseUrl, pathname)
              && plan[j].command.database == DbName(pathname)
    ensures plan[0].command.TerminateBackends? && plan[1].command.DropDatabase?
            && plan[2].command.CreateDatabase?
  {
    var admin := RootUrl(databaseUrl, pathname);
    var db := DbName(pathname);
    [Psql(admin, TerminateBackends(db)), Psql(admin, DropDatabase(db)), Psql(admin, CreateDatabase(db))]
  }

  /** Where the path's first occurrence is the path itself, the reset
      connects to the corrected administrative URL. */
  lemma ResetPlanAgrees(u: ParsedUrl)
    requires IndexOf(Href(u), u.pathname) == Some(|u.beforePath|)
    ensures forall j :: 0 <= j < 3 ==> ResetPlan(Href(u), u.pathname)[j].adminUrl == AdminUrl(u)
  {
    RootUrlAgrees(u);
  }

  /** How many of the commands run: up to and including the first failure. */
  function ResetSteps(a: AdminAnswers): (n: nat)
    ensures 1 <= n <= 3
    ensures n == 3 <==> !a.terminate.failed && !a.drop.failed
  {
    if a.terminate.failed then 1 else if a.drop.failed then 2 else 3
  }

  /** How the reset settles for a connection string that parses. */
  function ResetOutcome(a: AdminAnswers): (r: Outcome<Error>)
    ensures r.Pass? <==> !a.terminate.failed && !a.drop.failed && !a.create.failed
    ensures a.terminate.failed ==> r == Fail(CommandFailed(a.terminate.stderr))
    ensures !a.terminate.failed && a.drop.failed ==> r == Fail(CommandFailed(a.drop.stderr))
    ensures !a.terminate.failed && !a.drop.failed && a.create.failed ==> r == Fail(CommandFailed(a.create.stderr))
  {
    if a.terminate.failed then Fail(CommandFailed(a.terminate.stderr))
    else if a.drop.failed then Fail(CommandFailed(a.drop.stderr))
    else if a.create.failed then Fail(CommandFailed(a.create.stderr))
    else Pass
  }

  /** One `psql -c` command. Its callback rejects on error and then
      resolves; the first settle wins, so an error rejects the step. */
  method RunAdminCommand(admin: string, command: AdminCommand, answer: ExecResult)
    returns (effect: Effect, settled: State<Error>)
    ensures effect == Psql(admin, command)
    ensures settled == if answer.failed then Rejected(CommandFailed(answer.stderr)) else Fulfilled
  {
    var promise := new Promise<Error>();
    effect := Psql(admin, command);
    if answer.failed {
      promise.Reject(CommandFailed(answer.stderr));
    }
    promise.Resolve();
    settled := promise.state;
  }

  /** Terminates the other sessions, drops and re-creates the database, in
      that order, stopping at the first command that fails. `pathname` is the
      path the URL parser finds in `databaseUrl`; `None` if it throws. */
  method ResetDatabase(databaseUrl: string, pathname: Option<string>, answers: AdminAnswers)
    returns (effects: seq<Effect>, result: Outcome<Error>)
    ensures pathname.None? ==> effects == [] && result == Fail(InvalidUrl)
    ensures pathname.Some? ==> effects == ResetPlan(databaseUrl, pathname.value)[..ResetSteps(answers)]
    ensures pathname.Some? ==> result == ResetOutcome(answers)
  {
    if pathname.None? {
      return [], Fail(InvalidUrl);
    }
    var db := DbName(pathname.value);
    var admin := RootUrl(databaseUrl, pathname.value);
    ghost var plan := ResetPlan(databaseUrl, pathname.value);
    var effect, settled := RunAdminCommand(admin, TerminateBackends(db), answers.terminate);
    effects := [effect];
    if settled.Rejected? {
      return effects, Fail(settled.reason);
    }
    effect, settled := RunAdminCommand(admin, DropDatabase(db), answers.drop);
    effects := effects + [effect];
    if settled.Rejected? {
      assert effects == plan[..2];
      return effects, Fail(settled.reason);
    }
    effect, settled := RunAdminCommand(admin, CreateDatabase(db), answers.create);
    effects := effects + [effect];
    assert effects == plan;
    if settled.Rejected? {
      return effects, Fail(settled.reason);
    }
    result := Pass;
  }

  /** Restores the archive into the target database. */
  method RestoreDatabase(path: TempPath, databaseUrl: string, answer: ExecResult)
    returns (effects: seq<Effect>, result: Outcome<Error>)
    ensures effects == [PgRestore(path, databaseUrl)]
    ensures result == if answer.failed then Fail(CommandFailed(answer.stderr)) else Pass
  {
    effects := [PgRestore(path, databaseUrl)];
    result := if answer.failed then Fail(CommandFailed(answer.stderr)) else Pass;
  }

  // ----- the workflow -----

  /** What every external call of one restore answers. `pathname` is what
      the URL parser makes of the target connection string: its path, or
      `None` when the parser throws. */
  datatype RestoreOracle = RestoreOracle(
    downloadOk: bool,
    gzipOk: bool,
    size: nat,
    pathname: Option<string>,
    reset: AdminAnswers,
    pgRestore: ExecResult,
    unlinkError: Option<string>)

  /** How the stages settle: the first failure in stage order. */
  function StagesOutcome(o: RestoreOracle): (r: Outcome<Error>)
    ensures r.Pass? <==>
              o.downloadOk && o.gzipOk && o.pathname.Some? && ResetOutcome(o.reset).Pass? && !o.pgRestore.failed
  {
    if !o.downloadOk then Fail(DownloadFailed)
    else if !o.gzipOk then Fail(InvalidBackupFile)
    else if o.pathname.None? then Fail(InvalidUrl)
    else if ResetOutcome(o.reset).Fail? then ResetOutcome(o.reset)
    else if o.pgRestore.failed then Fail(CommandFailed(o.pgRestore.stderr))
    else Pass
  }

  /** The position of an effect's stage in the stage order. */
  function StageRank(e: Effect): nat
  {
    match e
    case GetObject(_, _, _) => 0
    case TestArchive(_) => 1
    case StatFile(_) => 2
    case Psql(_, _) => 3
    case PgRestore(_, _) => 4
    case _ => 5
  }

  /** No effect belongs to an earlier stage than the effect before it. */
  predicate InStageOrder(effects: seq<Effect>)
  {
    forall i :: 0 < i < |effects| ==> StageRank(effects[i - 1]) <= StageRank(effects[i])
  }

  predicate HasReset(effects: seq<Effect>)
  {
    exists i :: 0 <= i < |effects| && effects[i].Psql?
  }

  lemma OrderAppend(a: seq<Effect>, b: seq<Effect>)
    requires InStageOrder(a) && InStageOrder(b)
    requires a != [] && b != [] ==> StageRank(a[|a| - 1]) <= StageRank(b[0])
    ensures InStageOrder(a + b)
  {
    forall i | 0 < i < |a + b| ensures StageRank((a + b)[i - 1]) <= StageRank((a + b)[i]) {
      if i < |a| {
        assert (a + b)[i - 1] == a[i - 1] && (a + b)[i] == a[i];
      } else if i > |a| {
        assert (a + b)[i - 1] == b[i - 1 - |a|] && (a + b)[i] == b[i - |a|];
      }
    }
  }

  /** The effects of the stages: download, validate, estimate, reset,
      restore, each run only if every earlier one succeeded. */
  function StageEffects(env: Env, path: TempPath, o: RestoreOracle): (es: seq<Effect>)
    ensures 1 <= |es| <= 7
    ensures es[0] == GetObject(env.bucket, Backup.ObjectKey(env.bucketSubfolder, env.restoreFileName), path)
  {
    var downloaded := [GetObject(env.bucket, Backup.ObjectKey(env.bucketSubfolder, env.restoreFileName), path)];
    if !o.downloadOk then downloaded
    else
      var validated := downloaded + [TestArchive(path)];
      if !o.gzipOk then validated
      else
        var estimated := validated + [StatFile(path)];
        if o.pathname.None? then estimated
        else
          var reset := estimated + ResetPlan(env.restoreDatabaseUrl, o.pathname.value)[..ResetSteps(o.reset)];
          if ResetOutcome(o.reset).Fail? then reset
          else reset + [PgRestore(path, env.restoreDatabaseUrl)]
  }

  /** The commands of a reset are administrative commands. */
  lemma PlanIsAdmin(databaseUrl: string, pathname: string, a: AdminAnswers)
    ensures var plan := ResetPlan(databaseUrl, pathname)[..ResetSteps(a)];
            && |plan| > 0
            && (forall j :: 0 <= j < |plan| ==> plan[j].Psql?)
            && InStageOrder(plan)
  {
  }

  /** The stages never delete the temporary file. */
  lemma StagesNeverUnlink(env: Env, path: TempPath, o: RestoreOracle)
    ensures var es := StageEffects(env, path, o);
            forall i :: 0 <= i < |es| ==> !es[i].Unlink?
  {
    if o.downloadOk && o.gzipOk && o.pathname.Some? {
      PlanIsAdmin(env.restoreDatabaseUrl, o.pathname.value, o.reset);
    }
  }

  /** The stages run in stage order. */
  lemma StagesInOrder(env: Env, path: TempPath, o: RestoreOracle)
    ensures InStageOrder(StageEffects(env, path, o))
  {
    var es := StageEffects(env, path, o);
    var download := GetObject(env.bucket, Backup.ObjectKey(env.bucketSubfolder, env.restoreFileName), path);
    if !o.downloadOk || !o.gzipOk {
    } else if o.pathname.None? {
      assert es == [download, TestArchive(path), StatFile(path)];
    } else {
      var plan := ResetPlan(env.restoreDatabaseUrl, o.pathname.value)[..ResetSteps(o.reset)];
      var tail := if ResetOutcome(o.reset).Fail? then [] else [PgRestore(path, env.restoreDatabaseUrl)];
      assert es == [download] + [TestArchive(path)] + [StatFile(path)] + plan + tail;
      PlanIsAdmin(env.restoreDatabaseUrl, o.pathname.value, o.reset);
      OrderAfterEstimate(download, path, plan, tail);
    }
  }

  /** Download, test and stat, then admin commands in order, then at most a
      restore, are in stage order. */
  lemma OrderAfterEstimate(download: Effect, path: TempPath, plan: seq<Effect>, tail: seq<Effect>)
    requires download.GetObject? && plan != [] && InStageOrder(plan)
    requires forall j :: 0 <= j < |plan| ==> plan[j].Psql?
    requires tail == [] || (|tail| == 1 && tail[0].PgRestore?)
    ensures InStageOrder([download] + [TestArchive(path)] + [StatFile(path)] + plan + tail)
  {
    var estimated := [download] + [TestArchive(path)] + [StatFile(path)];
    assert InStageOrder(estimated);
    OrderAppend(estimated, plan);
    OrderAppend(estimated + plan, tail);
  }

  /** The destructive reset runs exactly when the download and the archive
      check succeeded and the connection string parses. */
  lemma ResetOnlyAfterChecks(env: Env, path: TempPath, o: RestoreOracle)
    ensures HasReset(StageEffects(env, path, o)) <==> o.downloadOk && o.gzipOk && o.pathname.Some?
  {
    var es := StageEffects(env, path, o);
    if o.downloadOk && o.gzipOk && o.pathname.Some? {
      assert es[3].Psql?;
    } else {
      assert forall i :: 0 <= i < |es| ==> !es[i].Psql?;
    }
  }

  /** The archive is restored exactly when every earlier stage succeeded. */
  lemma RestoreOnlyAfterReset(env: Env, path: TempPath, o: RestoreOracle)
    ensures PgRestore(path, env.restoreDatabaseUrl) in StageEffects(env, path, o) <==>
              o.downloadOk && o.gzipOk && o.pathname.Some? && ResetOutcome(o.reset).Pass?
  {
    var es := StageEffects(env, path, o);
    if !(o.downloadOk && o.gzipOk && o.pathname.Some? && ResetOutcome(o.reset).Pass?) {
      assert forall i :: 0 <= i < |es| ==> !es[i].PgRestore?;
    }
  }

  /** The first failing stage ends the stages: after a failed download only
      the download happened, after a failed check only the download and the
      check. */
  lemma FirstFailureEndsStages(env: Env, path: TempPath, o: RestoreOracle)
    ensures !o.downloadOk ==> |StageEffects(env, path, o)| == 1
    ensures o.downloadOk && !o.gzipOk ==> StageEffects(env, path, o)[1..] == [TestArchive(path)]
    ensures o.downloadOk && o.gzipOk ==>
              var es := StageEffects(env, path, o);
              |es| >= 3 && es[1..3] == [TestArchive(path), StatFile(path)]
    ensures o.downloadOk && o.gzipOk && o.pathname.Some? ==>
              var es := StageEffects(env, path, o);
              es[3..3 + ResetSteps(o.reset)] == ResetPlan(env.restoreDatabaseUrl, o.pathname.value)[..ResetSteps(o.reset)]
  {
    var es := StageEffects(env, path, o);
    if o.downloadOk && o.gzipOk && o.pathname.Some? {
      var plan := ResetPlan(env.restoreDatabaseUrl, o.pathname.value)[..ResetSteps(o.reset)];
      var downloaded := [GetObject(env.bucket, Backup.ObjectKey(env.bucketSubfolder, env.restoreFileName), path)];
      var estimated := downloaded + [TestArchive(path)] + [StatFile(path)];
      var tail := if ResetOutcome(o.reset).Fail? then [] else [PgRestore(path, env.restoreDatabaseUrl)];
      assert |plan| == ResetSteps(o.reset);
      assert es == estimated + plan + tail;
      assert (estimated + plan + tail)[3..3 + |plan|] == plan;
    }
  }

  /** Runs the stages; the outcome is the first failure in stage order. */
  method RestoreStages(env: Env, path: TempPath, o: RestoreOracle)
    returns (effects: seq<Effect>, result: Outcome<Error>)
    ensures effects == StageEffects(env, path, o)
    ensures result == StagesOutcome(o)
  {
    effects, result := DownloadFromS3(env, env.restoreFileName, path, o.downloadOk);
    if result.Fail? {
      return;
    }
    var more;
    more, result := ValidateBackupFile(path, o.gzipOk);
    effects := effects + more;
    if result.Fail? {
      return;
    }
    var minutes;
    more, minutes := EstimateRestoreTime(path, o.size);
    effects := effects + more;
    more, result := ResetDatabase(env.restoreDatabaseUrl, o.pathname, o.reset);
    effects := effects + more;
    if result.Fail? {
      return;
    }
    more, result := RestoreDatabase(path, env.restoreDatabaseUrl, o.pgRestore);
    effects := effects + more;
  }

  /** The whole restore. Without a target URL or a file name nothing at all
      happens. Otherwise the stages run and then the temporary file is
      deleted exactly once, as the last effect, on every path; the stages'
      outcome is the result, and nothing the delete reports can change it. */
  method RunRestore(env: Env, o: RestoreOracle)
    returns (effects: seq<Effect>, result: Outcome<Error>)
    ensures env.restoreDatabaseUrl == "" || env.restoreFileName == "" ==>
              effects == [] && result == Fail(MissingRestoreConfig)
    ensures env.restoreDatabaseUrl != "" && env.restoreFileName != "" ==>
              var path := TempFile(env.restoreFileName);
              && effects == StageEffects(env, path, o) + [Unlink(path)]
              && Count(effects, Unlink(path)) == 1
              && result == StagesOutcome(o)
  {
    if env.restoreDatabaseUrl == "" || env.restoreFileName == "" {
      return [], Fail(MissingRestoreConfig);
    }
    var path := TempFile(env.restoreFileName);
    var staged;
    staged, result := RestoreStages(env, path, o);
    var cleanup, settled := Backup.DeleteFile(path, o.unlinkError);
    // a rejected delete would be caught and logged here; the stages'
    // outcome propagates either way
    effects := staged + cleanup;
    StagesNeverUnlink(env, path, o);
    assert Count(staged, Unlink(path)) == 0;
    CountAppend(staged, cleanup, Unlink(path));
  }
}
