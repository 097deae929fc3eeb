// The command-line tool: main's argument loop and the mode and ordering
// skeleton of fix_database around the scan and the rebuild.

module Tool {
  import opened Bytes
  import opened Scanner
  import opened DeviceList
  import opened Rebuild

  datatype Option<T> = None | Some(value: T)

  const DefaultDbPath: string := "/mnt/persist_new/persistence/persistence.sqlite"
  /** The key of the device list in the persistence table. */
  const DeviceListKey: int := 1
  /** fix_database keeps at most this many issues. */
  const MaxIssues: int := 32

  /** The options main hands to fix_database. */
  datatype Args = Args(listOnly: bool, dryRun: bool, doFix: bool, noBackup: bool, dbPath: string)

  // ---------------------------------------------------------------------
  // Arguments

  /** One option as main reads it; a rejected option ends the reading. */
  datatype Token =
    | ListFlag | DryRunFlag | FixFlag | NoBackupFlag
    | DbPath(path: string)
    | MissingPath
    | UnknownOption(arg: string)

  /** The options from argv[i] on: "--db-path" takes the next argument as
      its value whatever it looks like. */
  function Tokens(argv: seq<string>, i: nat): (ts: seq<Token>)
    ensures i <= |argv| ==> |ts| <= |argv| - i
    decreases |argv| - i
  {
    if i >= |argv| then []
    else if argv[i] == "--list" then [ListFlag] + Tokens(argv, i + 1)
    else if argv[i] == "--dry-run" then [DryRunFlag] + Tokens(argv, i + 1)
    else if argv[i] == "--fix" then [FixFlag] + Tokens(argv, i + 1)
    else if argv[i] == "--no-backup" then [NoBackupFlag] + Tokens(argv, i + 1)
    else if argv[i] == "--db-path" then
      (if i + 1 < |argv| then [DbPath(argv[i + 1])] + Tokens(argv, i + 2) else [MissingPath])
    else [UnknownOption(argv[i])]
  }

  predicate Rejected(t: Token)
  {
    t.MissingPath? || t.UnknownOption?
  }

  /** main stops at the first option it refuses: a refused option is the
      last token read. */
  lemma {:induction false} RejectedEndsReading(argv: seq<string>, i: nat)
    ensures var ts := Tokens(argv, i);
            forall k :: 0 <= k < |ts| && Rejected(ts[k]) ==> k == |ts| - 1
    decreases |argv| - i
  {
    var ts := Tokens(argv, i);
    if i < |argv| && |ts| > 1 {
      var next := if argv[i] == "--db-path" then i + 2 else i + 1;
      RejectedEndsReading(argv, next);
      assert ts == [ts[0]] + Tokens(argv, next);
      forall k | 0 <= k < |ts| && Rejected(ts[k])
        ensures k == |ts| - 1
      {
        if k > 0 {
          assert ts[k] == Tokens(argv, next)[k - 1];
        }
      }
    }
  }

  predicate IsAction(t: Token)
  {
    t.ListFlag? || t.DryRunFlag? || t.FixFlag?
  }

  /** How many action options occur, repeats included. */
  function Actions(ts: seq<Token>): nat
  {
    if ts == [] then 0
    else Actions(ts[..|ts| - 1]) + (if IsAction(ts[|ts| - 1]) then 1 else 0)
  }

  /** The value of the last "--db-path", or the default. */
  function LastPath(ts: seq<Token>): string
  {
    if ts == [] then DefaultDbPath
    else if ts[|ts| - 1].DbPath? then ts[|ts| - 1].path
    else LastPath(ts[..|ts| - 1])
  }

  /** The options the tokens set. */
  function ArgsOf(ts: seq<Token>): Args
  {
    Args(ListFlag in ts, DryRunFlag in ts, FixFlag in ts, NoBackupFlag in ts, LastPath(ts))
  }

  /** No option was rejected. */
  predicate NoneRejected(ts: seq<Token>)
  {
    forall k :: 0 <= k < |ts| ==> !Rejected(ts[k])
  }

  /** main goes on to fix_database: no rejected option and exactly one
      action. */
  predicate Accepts(argv: seq<string>)
  {
    var ts := Tokens(argv, 1);
    NoneRejected(ts) && Actions(ts) == 1
  }

  datatype Parsed = Run(args: Args) | Exit(code: int)

  /** main's argument loop and the action-count checks after it. */
  method ParseArguments(argv: seq<string>) returns (r: Parsed)
    ensures r.Run? <==> Accepts(argv)
    ensures r.Exit? ==> r.code == 1
    ensures r.Run? ==> r.args == ArgsOf(Tokens(argv, 1))
  {
    var args := Args(false, false, false, false, DefaultDbPath);
    var actionCount: nat := 0;
    var i: nat := 1;
    ghost var seen: seq<Token> := [];
    while i < |argv|
      invariant seen + Tokens(argv, i) == Tokens(argv, 1)
      invariant NoneRejected(seen)
      invariant args == ArgsOf(seen) && actionCount == Actions(seen)
      decreases |argv| - i
    {
      ghost var tok: Token;
      ghost var at := i;
      if argv[i] == "--list" {
        args := args.(listOnly := true);
        actionCount := actionCount + 1;
        tok := ListFlag;
      } else if argv[i] == "--dry-run" {
        args := args.(dryRun := true);
        actionCount := actionCount + 1;
        tok := DryRunFlag;
      } else if argv[i] == "--fix" {
        args := args.(doFix := true);
        actionCount := actionCount + 1;
        tok := FixFlag;
      } else if argv[i] == "--no-backup" {
        args := args.(noBackup := true);
        tok := NoBackupFlag;
      } else if argv[i] == "--db-path" {
        if i + 1 < |argv| {
          i := i + 1;
          args := args.(dbPath := argv[i]);
          tok := DbPath(argv[i]);
        } else {
          Consume(seen, MissingPath, [], Tokens(argv, 1));
          return Exit(1);
        }
      } else {
        Consume(seen, UnknownOption(argv[i]), [], Tokens(argv, 1));
        return Exit(1);
      }
      assert Tokens(argv, at) == [tok] + Tokens(argv, i + 1);
      Consume(seen, tok, Tokens(argv, i + 1), Tokens(argv, 1));
      Extend(seen, tok);
      seen := seen + [tok];
      i := i + 1;
    }
    assert seen == Tokens(argv, 1);
    if actionCount == 0 {
      return Exit(1);
    }
    if actionCount > 1 {
      return Exit(1);
    }
    return Run(args);
  }

  /** Reading token `t` moves it from the tokens ahead to those seen. */
  lemma Consume(seen: seq<Token>, t: Token, ahead: seq<Token>, all: seq<Token>)
    requires seen + ([t] + ahead) == all
    ensures (seen + [t]) + ahead == all && all[|seen|] == t
  {
  }

  /** One more option read: how the options set, the action count and the
      rejection change. */
  lemma Extend(seen: seq<Token>, t: Token)
    ensures Actions(seen + [t]) == Actions(seen) + (if IsAction(t) then 1 else 0)
    ensures LastPath(seen + [t]) == if t.DbPath? then t.path else LastPath(seen)
    ensures ArgsOf(seen + [t])
            == Args(ArgsOf(seen).listOnly || t == ListFlag, ArgsOf(seen).dryRun || t == DryRunFlag,
                    ArgsOf(seen).doFix || t == FixFlag, ArgsOf(seen).noBackup || t == NoBackupFlag,
                    LastPath(seen + [t]))
    ensures NoneRejected(seen + [t]) <==> NoneRejected(seen) && !Rejected(t)
  {
    assert (seen + [t])[..|seen|] == seen;
    assert forall k :: 0 <= k < |seen| ==> (seen + [t])[k] == seen[k];
  }

  /** Exactly one of three switches is on. */
  predicate ExactlyOne(a: bool, b: bool, c: bool)
  {
    (a && !b && !c) || (!a && b && !c) || (!a && !b && c)
  }

  /** Exactly one action counted means one action option given once. */
  lemma {:induction false} OneAction(ts: seq<Token>)
    requires Actions(ts) == 1
    ensures ExactlyOne(ListFlag in ts, DryRunFlag in ts, FixFlag in ts)
  {
    var last := ts[|ts| - 1];
    var front := ts[..|ts| - 1];
    assert ts == front + [last];
    if IsAction(last) {
      NoAction(front);
    } else {
      OneAction(front);
    }
  }

  /** No action counted means no action option given. */
  lemma {:induction false} NoAction(ts: seq<Token>)
    requires Actions(ts) == 0
    ensures ListFlag !in ts && DryRunFlag !in ts && FixFlag !in ts
  {
    if ts != [] {
      var front := ts[..|ts| - 1];
      assert ts == front + [ts[|ts| - 1]];
      NoAction(front);
    }
  }

  /** An accepted command line selects exactly one of listing, dry run and
      fixing. */
  lemma AcceptedHasOneMode(argv: seq<string>)
    requires Accepts(argv)
    ensures var a := ArgsOf(Tokens(argv, 1));
            ExactlyOne(a.listOnly, a.dryRun, a.doFix)
  {
    OneAction(Tokens(argv, 1));
  }

  /** "--no-backup" and "--db-path VALUE" leave the action count alone. */
  lemma OptionsWithoutAction(argv: seq<string>, i: nat)
    requires i < |argv|
    ensures argv[i] == "--no-backup" ==> Actions(Tokens(argv, i)) == Actions(Tokens(argv, i + 1))
    ensures argv[i] == "--db-path" && i + 1 < |argv| ==>
              Actions(Tokens(argv, i)) == Actions(Tokens(argv, i + 2))
  {
    if argv[i] == "--no-backup" {
      FrontActions(NoBackupFlag, Tokens(argv, i + 1));
    }
    if argv[i] == "--db-path" && i + 1 < |argv| {
      FrontActions(DbPath(argv[i + 1]), Tokens(argv, i + 2));
    }
  }

  /** A token in front adds one to the count exactly when it is an action. */
  lemma {:induction false} FrontActions(t: Token, ts: seq<Token>)
    ensures Actions([t] + ts) == Actions(ts) + (if IsAction(t) then 1 else 0)
    decreases |ts|
  {
    if ts != [] {
      var front := ts[..|ts| - 1];
      assert ([t] + ts)[..|ts|] == [t] + front;
      FrontActions(t, front);
    }
  }

  /** A repeated action is counted twice and rejected. */
  lemma RepeatedActionRejected()
    ensures !Accepts(["fix", "--list", "--list"])
  {
    assert Tokens(["fix", "--list", "--list"], 1) == [ListFlag, ListFlag];
  }

  /** An action that is only the value of "--db-path" does not count. */
  lemma PathValueIsNoAction()
    ensures !Accepts(["fix", "--db-path", "--fix"])
  {
    assert Tokens(["fix", "--db-path", "--fix"], 1) == [DbPath("--fix")];
  }

  /** A trailing "--db-path" and an unknown option are rejected even after
      a valid action. */
  lemma BadOptionRejected()
    ensures !Accepts(["fix", "--fix", "--db-path"])
    ensures !Accepts(["fix", "--fix", "--verbose"])
  {
    var missing := Tokens(["fix", "--fix", "--db-path"], 1);
    assert missing == [FixFlag, MissingPath] && missing[1] in missing;
    var unknown := Tokens(["fix", "--fix", "--verbose"], 1);
    assert unknown == [FixFlag, UnknownOption("--verbose")] && unknown[1] in unknown;
  }

  /** "--no-backup" and "--db-path" may accompany the single action. */
  lemma OptionsAccepted()
    ensures Accepts(["fix", "--no-backup", "--dry-run", "--db-path", "x.sqlite"])
    ensures ArgsOf(Tokens(["fix", "--no-backup", "--dry-run", "--db-path", "x.sqlite"], 1))
            == Args(false, true, false, true, "x.sqlite")
  {
    var ts := Tokens(["fix", "--no-backup", "--dry-run", "--db-path", "x.sqlite"], 1);
    assert ts == [NoBackupFlag, DryRunFlag, DbPath("x.sqlite")];
    var two, one := ts[..2], ts[..2][..1];
    assert two == [NoBackupFlag, DryRunFlag] && one == [NoBackupFlag] && one[..0] == [];
    assert Actions(one) == 0;
    assert Actions(two) == 1;
  }

  // ---------------------------------------------------------------------
  // fix_database

  /** What the database and the file system answer during one run. */
  datatype Storage = Storage(
    opens: bool,                  // the database opens
    partition: Option<int>,       // the id of partition 1008, if found
    selectPrepares: bool,         // the SELECT statement prepares
    value: Option<seq<byte>>,     // the device-list row, if there is one
    backupSucceeds: bool,         // the backup copy succeeds
    updatePrepares: bool,         // the UPDATE statement prepares
    updateDone: bool)             // the UPDATE runs to completion

  /** What a run does outside itself, in order. */
  datatype Effect =
    | ChecksumWarning                                   // stored and computed CRC differ
    | Backup(path: string)                              // a backup of the database is made
    | Update(partition: int, key: int, value: seq<byte>) // the device list is replaced

  predicate Updates(effects: seq<Effect>)
  {
    exists k :: 0 <= k < |effects| && effects[k].Update?
  }

  /** The run reaches the stored device list. */
  predicate Loaded(store: Storage)
  {
    store.opens && store.partition.Some? && store.selectPrepares && store.value.Some?
  }

  /** The issue positions fix_database works with. */
  function Reported(blob: seq<byte>): (ps: seq<nat>)
  {
    Matches(blob)[..Min(|Matches(blob)|, Cap(MaxIssues))]
  }

  /** The blob fix_database writes back for the stored blob `blob`. */
  function RepairedValue(blob: seq<byte>): (v: seq<byte>)
    requires |blob| >= 8
  {
    ReportedIssues(blob, MaxIssues);
    Repaired(blob, Reported(blob), DisclaimerAccepted)
  }

  /** The warning fix_database prints when the stored CRC is not the one
      computed over the payload; the one printed message the model keeps. */
  function Warning(blob: seq<byte>): (w: seq<Effect>)
    requires |blob| >= 8
  {
    if ReadBe64(blob, 0) != Crc32(blob[8..]) then [ChecksumWarning] else []
  }

  /** The backup fix mode makes before the UPDATE, unless --no-backup. */
  function BackupStep(args: Args): (b: seq<Effect>)
  {
    if args.noBackup then [] else [Backup(args.dbPath)]
  }

  /** What fix_database does once it holds the stored blob `blob` of
      partition `pid`, case by case in the order of its early returns: the
      warning, the return code of each mode, and in fix mode the backup,
      then the UPDATE with the repaired blob. */
  predicate BlobOutcome(args: Args, store: Storage, pid: int, blob: seq<byte>, code: int, effects: seq<Effect>)
  {
    if |blob| < 8 then code == 1 && effects == []
    else
      var issues := Reported(blob);
      var fixing := issues != [] && !args.listOnly && !args.dryRun && args.doFix;
      var written := args.noBackup || store.backupSucceeds;
      && (ChecksumWarning in effects <==> ReadBe64(blob, 0) != Crc32(blob[8..]))
      && (!fixing ==> effects == Warning(blob))
      && (issues == [] ==> code == 0)
      && (issues != [] && args.listOnly ==> code == |issues|)
      && (issues != [] && !args.listOnly && args.dryRun ==> code == 0)
      && (issues != [] && !args.listOnly && !args.dryRun && !args.doFix ==> code == 1)
      && (fixing && !written ==> code == 1 && effects == Warning(blob) + [Backup(args.dbPath)])
      && (fixing && written && !(store.updatePrepares && store.updateDone) ==>
            code == 1 && effects == Warning(blob) + BackupStep(args))
      && (fixing && written && store.updatePrepares && store.updateDone ==>
            code == 0 && effects == Warning(blob) + BackupStep(args) + [Update(pid, DeviceListKey, RepairedValue(blob))])
  }

  /** Effects made only of the warning and a backup hold no update. */
  lemma NoUpdateBeforeWrite(blob: seq<byte>, args: Args)
    requires |blob| >= 8
    ensures !Updates(Warning(blob)) && !Updates(Warning(blob) + BackupStep(args))
    ensures !Updates(Warning(blob) + [Backup(args.dbPath)])
  {
  }

  /** The device list is replaced only by a fix run that found issues and
      whose backup, when one is due, succeeded; the UPDATE is the last
      effect, right after the backup, and writes the repaired blob. */
  lemma UpdateOnlyWhenFixing(args: Args, store: Storage, pid: int, blob: seq<byte>, code: int, effects: seq<Effect>)
    requires BlobOutcome(args, store, pid, blob, code, effects) && Updates(effects)
    ensures |blob| >= 8 && Reported(blob) != [] && code == 0
    ensures args.doFix && !args.listOnly && !args.dryRun
    ensures args.noBackup || store.backupSucceeds
    ensures effects[|effects| - 1] == Update(pid, DeviceListKey, RepairedValue(blob))
    ensures !args.noBackup ==> |effects| >= 2 && effects[|effects| - 2] == Backup(args.dbPath)
  {
    NoUpdateBeforeWrite(blob, args);
  }

  /** A backup is made only in a fix run that found issues, without
      --no-backup, and of the database named by the arguments. */
  lemma BackupOnlyWhenFixing(args: Args, store: Storage, pid: int, blob: seq<byte>, code: int, effects: seq<Effect>, path: string)
    requires BlobOutcome(args, store, pid, blob, code, effects) && Backup(path) in effects
    ensures |blob| >= 8 && Reported(blob) != [] && args.doFix && !args.listOnly && !args.dryRun
    ensures !args.noBackup && path == args.dbPath
  {
  }

  /** What fix_database does, from opening the database on. */
  predicate DatabaseOutcome(args: Args, store: Storage, code: int, effects: seq<Effect>)
  {
    && (!(store.opens && store.partition.Some? && store.selectPrepares) ==> code == 1 && effects == [])
    && (store.opens && store.partition.Some? && store.selectPrepares && store.value.None? ==>
          code == 0 && effects == [])
    && (Loaded(store) ==>
          BlobOutcome(args, store, store.partition.value, store.value.value, code, effects))
  }

  /** fix_database: the steps and early returns in the source's order. */
  method FixDatabase(args: Args, store: Storage) returns (code: int, effects: seq<Effect>)
    ensures DatabaseOutcome(args, store, code, effects)
  {
    if !store.opens {
      return 1, [];
    }
    if store.partition.None? {
      return 1, [];
    }
    var partitionId := store.partition.value;
    if !store.selectPrepares {
      return 1, [];
    }
    if store.value.None? {
      return 0, [];
    }
    code, effects := FixBlob(args, store, partitionId, store.value.value);
  }

  /** fix_database from the point where it holds the stored blob. */
  method FixBlob(args: Args, store: Storage, partitionId: int, blob: seq<byte>)
    returns (code: int, effects: seq<Effect>)
    ensures BlobOutcome(args, store, partitionId, blob, code, effects)
  {
    if |blob| < 8 {
      return 1, [];
    }
    var storedCrc := ReadBe64(blob, 0);
    var calculatedCrc := Crc32(blob[8..]);
    var warning: seq<Effect> := [];
    if storedCrc != calculatedCrc {
      warning := [ChecksumWarning];
    }
    var issues := FindIssues(blob, MaxIssues);
    var issueCount := |issues|;
    if issueCount == 0 {
      return 0, warning;
    }
    if args.listOnly {
      return issueCount, warning;
    }
    var positions := Positions(issues);
    ReportedIssues(blob, MaxIssues);
    var newBlob := RebuildBlob(blob, positions);
    var tail;
    code, tail := FinishFix(args, store, partitionId, newBlob[..]);
    effects := warning + tail;
    FinishedBlob(args, store, partitionId, blob, code, tail);
  }

  /** The effects after an optional checksum warning: the warning is the
      only one, and the rest decides whether and how the list is updated. */
  lemma AfterWarning(warning: seq<Effect>, tail: seq<Effect>)
    requires warning == [] || warning == [ChecksumWarning]
    requires ChecksumWarning !in tail
    ensures ChecksumWarning in warning + tail <==> warning != []
    ensures Updates(warning + tail) <==> Updates(tail)
    ensures forall e :: e in warning + tail && e != ChecksumWarning ==> e in tail
    ensures |tail| > 0 ==> (warning + tail)[|warning + tail| - 1] == tail[|tail| - 1]
    ensures |tail| > 1 ==> (warning + tail)[|warning + tail| - 2] == tail[|tail| - 2]
  {
    if Updates(warning + tail) {
      var k :| 0 <= k < |warning + tail| && (warning + tail)[k].Update?;
      assert tail[k - |warning|].Update?;
    }
    if Updates(tail) {
      var k :| 0 <= k < |tail| && tail[k].Update?;
      assert (warning + tail)[k + |warning|].Update?;
    }
  }

  /** The end of fix_database once the repaired blob `newValue` is built,
      case by case: a dry run returns 0, a run without --fix returns 1, a
      failed backup returns 1 with nothing written, a failed UPDATE returns
      1 after the backup, and otherwise the UPDATE follows the backup. */
  predicate FinishOutcome(args: Args, store: Storage, pid: int, newValue: seq<byte>, code: int, effects: seq<Effect>)
  {
    var written := args.noBackup || store.backupSucceeds;
    && (args.dryRun ==> code == 0 && effects == [])
    && (!args.dryRun && !args.doFix ==> code == 1 && effects == [])
    && (!args.dryRun && args.doFix && !written ==> code == 1 && effects == [Backup(args.dbPath)])
    && (!args.dryRun && args.doFix && written && !(store.updatePrepares && store.updateDone) ==>
          code == 1 && effects == BackupStep(args))
    && (!args.dryRun && args.doFix && written && store.updatePrepares && store.updateDone ==>
          code == 0 && effects == BackupStep(args) + [Update(pid, DeviceListKey, newValue)])
  }

  /** The end of fix_database, once the repaired blob `newValue` is built:
      dry run, the check for --fix, the backup and the UPDATE. */
  method FinishFix(args: Args, store: Storage, partitionId: int, newValue: seq<byte>)
    returns (code: int, effects: seq<Effect>)
    ensures FinishOutcome(args, store, partitionId, newValue, code, effects)
    ensures ChecksumWarning !in effects
    ensures !args.dryRun && args.doFix && !args.noBackup ==>
              |effects| >= 1 && effects[0] == Backup(args.dbPath)
    ensures Updates(effects) ==>
              && code == 0 && args.doFix && !args.dryRun
              && effects[|effects| - 1] == Update(partitionId, DeviceListKey, newValue)
              && (!args.noBackup ==> |effects| >= 2 && effects[|effects| - 2] == Backup(args.dbPath))
  {
    effects := [];
    if args.dryRun {
      return 0, effects;
    }
    if !args.doFix {
      return 1, effects;
    }
    if !args.noBackup {
      effects := effects + [Backup(args.dbPath)];
      if !store.backupSucceeds {
        return 1, effects;
      }
    }
    if !store.updatePrepares {
      return 1, effects;
    }
    if !store.updateDone {
      return 1, effects;
    }
    effects := effects + [Update(partitionId, DeviceListKey, newValue)];
    assert effects[|effects| - 1].Update?;
    return 0, effects;
  }

  /** The warning followed by the end of a fix run is the outcome
      fix_database promises for a blob with issues outside list mode. */
  lemma FinishedBlob(args: Args, store: Storage, pid: int, blob: seq<byte>, code: int, tail: seq<Effect>)
    requires |blob| >= 8 && Reported(blob) != [] && !args.listOnly
    requires FinishOutcome(args, store, pid, RepairedValue(blob), code, tail)
    ensures BlobOutcome(args, store, pid, blob, code, Warning(blob) + tail)
  {
    var w := Warning(blob);
    assert ChecksumWarning !in tail;
    AfterWarning(w, tail);
    if !args.dryRun && args.doFix && (args.noBackup || store.backupSucceeds) && store.updatePrepares && store.updateDone {
      assert w + tail == w + BackupStep(args) + [Update(pid, DeviceListKey, RepairedValue(blob))];
    }
  }

  /** main: the arguments first, then fix_database on the options they set. */
  method RunTool(argv: seq<string>, store: Storage) returns (code: int, effects: seq<Effect>)
    ensures !Accepts(argv) ==> code == 1 && effects == []
    ensures Accepts(argv) ==> DatabaseOutcome(ArgsOf(Tokens(argv, 1)), store, code, effects)
    ensures Updates(effects) ==> Accepts(argv) && FixFlag in Tokens(argv, 1)
    ensures Updates(effects) && NoBackupFlag !in Tokens(argv, 1) ==>
              |effects| >= 2 && effects[|effects| - 2] == Backup(LastPath(Tokens(argv, 1)))
  {
    var parsed := ParseArguments(argv);
    if parsed.Exit? {
      return parsed.code, [];
    }
    code, effects := FixDatabase(parsed.args, store);
    if Updates(effects) {
      UpdateOnlyWhenFixing(parsed.args, store, store.partition.value, store.value.value, code, effects);
    }
  }

  /** "--list" and "--dry-run" never change the database and make no
      backup: the only effect they can have is the checksum warning. */
  lemma ReadOnlyModes(argv: seq<string>, store: Storage, code: int, effects: seq<Effect>)
    requires Accepts(argv) && FixFlag !in Tokens(argv, 1)
    requires DatabaseOutcome(ArgsOf(Tokens(argv, 1)), store, code, effects)
    ensures forall k :: 0 <= k < |effects| ==> effects[k] == ChecksumWarning
  {
    AcceptedHasOneMode(argv);
  }

  /** In list mode main's exit code is the number of devices to fix, at
      most 32, when the stored blob has any. */
  lemma ListExitCode(argv: seq<string>, store: Storage, code: int, effects: seq<Effect>)
    requires Accepts(argv) && ListFlag in Tokens(argv, 1) && Loaded(store)
    requires |store.value.value| >= 8 && Reported(store.value.value) != []
    requires DatabaseOutcome(ArgsOf(Tokens(argv, 1)), store, code, effects)
    ensures 1 <= code <= MaxIssues && code == |Reported(store.value.value)|
  {
  }
}
