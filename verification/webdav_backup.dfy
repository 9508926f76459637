/** The WebDAV backup plugin: reading its configuration, registering its cron
    service, and one backup run (archive, upload, local clean-up, prune,
    notification). The WebDAV server, the file system, the clock and the
    scheduler are outside the model: what they answer is an input. */
module WebDavBackup {
  import opened Decimal
  import opened Py
  import opened DateTime
  import opened ArchiveName
  import opened Retention

  // ---------------------------------------------------------------------
  // Configuration (`init_plugin`)

  /** The plugin's fields once `init_plugin` has read its configuration. */
  datatype Settings = Settings(
    enabled: Value,
    cron: Value,
    notify: Value,
    onlyOnce: Value,
    maxCount: int,
    hostname: Value,
    login: Value,
    password: Value,
    digestAuth: Value)

  /** `int(config.get("max_count", 0))` where a ValueError falls back to 0;
      `None` when `int` raises TypeError (on a stored `None`), which the
      `except ValueError` does not catch. */
  function MaxCount(config: Config): (r: Option<int>)
    ensures r.None? <==> "max_count" in config && config["max_count"].Null?
    ensures "max_count" !in config ==> r == Some(0)
    ensures "max_count" in config && config["max_count"].Int? ==> r == Some(config["max_count"].i)
    ensures "max_count" in config && config["max_count"].Bool? ==> r == Some(if config["max_count"].b then 1 else 0)
    ensures "max_count" in config && config["max_count"].Str? ==>
      r == Some(match ParseIntText(config["max_count"].s) case Some(n) => n case None => 0)
  {
    match ToInt(Get(config, "max_count", Int(0)))
    case IntValue(n) => Some(n)
    case ValueError => Some(0)
    case TypeError => None
  }

  /** The decimal text the form's field holds is read back as its number,
      and text that is not an integer (say "5.0" or "five") becomes 0. */
  lemma MaxCountOfText(n: nat, junk: string)
    requires |NatToString(n)| <= MaxStrDigits
    requires ParseIntText(junk).None?
    ensures MaxCount(map["max_count" := Str(NatToString(n))]) == Some(n)
    ensures MaxCount(map["max_count" := Str(junk)]) == Some(0)
  {
    ParseIntTextOfNat(n);
  }

  /** The examples of the form's text field: `"5.0"` and `"five"` are not
      integers to `int()`, so both read as 0. */
  lemma MaxCountOfNonIntegers()
    ensures MaxCount(map["max_count" := Str("5.0")]) == Some(0)
    ensures MaxCount(map["max_count" := Str("five")]) == Some(0)
  {
    DecimalPointRefused();
    WordRefused();
  }

  datatype InitOutcome =
    | NoConfig                 // `return False`: nothing is touched
    | Raised                   // `int(None)` or the client's constructor raised after the jobs were stopped
    | Initialised(settings: Settings, connected: bool, oneShot: bool)

  /** `init_plugin(config)`, where `clientOk` says whether constructing the
      WebDAV client returns normally (nothing guards it, so an exception
      escapes) and `connects` whether listing the WebDAV root (the
      connection test) succeeds. The one-shot run is queued when the
      connection works and "run once" is on, whether or not the plugin is
      enabled; it then clears the in-memory flag. */
  function Init(config: Option<Config>, clientOk: bool, connects: bool): (r: InitOutcome)
    ensures r.NoConfig? <==> !HasConfig(config)
    ensures r.Raised? <==> HasConfig(config) && (MaxCount(config.value).None? || !clientOk)
    ensures r.Initialised? ==>
      && r.settings.maxCount == MaxCount(config.value).value
      && r.settings.enabled == Get(config.value, "enabled", Bool(false))
      && r.settings.cron == Get(config.value, "cron", Null)
      && r.settings.notify == Get(config.value, "notify", Bool(false))
      && r.settings.hostname == Get(config.value, "hostname", Null)
      && r.settings.login == Get(config.value, "login", Null)
      && r.settings.password == Get(config.value, "password", Null)
      && r.settings.digestAuth == Get(config.value, "digest_auth", Bool(false))
      && (!r.oneShot ==> r.settings.onlyOnce == Get(config.value, "onlyonce", Bool(false)))
      && r.connected == connects
      && (r.oneShot <==> connects && Truthy(Get(config.value, "onlyonce", Bool(false))))
      && (r.oneShot ==> !Truthy(r.settings.onlyOnce))
  {
    if !HasConfig(config) then NoConfig
    else
      var c := config.value;
      match MaxCount(c)
      case None => Raised
      case Some(maxCount) =>
        if !clientOk then Raised
        else
        var onlyOnce := Get(c, "onlyonce", Bool(false));
        var oneShot := connects && Truthy(onlyOnce);
        var settings := Settings(
          Get(c, "enabled", Bool(false)),
          Get(c, "cron", Null),
          Get(c, "notify", Bool(false)),
          if oneShot then Bool(false) else onlyOnce,
          maxCount,
          Get(c, "hostname", Null),
          Get(c, "login", Null),
          Get(c, "password", Null),
          Get(c, "digest_auth", Bool(false)));
        Initialised(settings, connects, oneShot)
  }

  // ---------------------------------------------------------------------
  // The cron service (`get_service`)

  datatype Service = Service(id: string, name: string, cron: Value)

  /** `get_service()`: one cron service when the plugin is enabled and has a
      cron expression, none otherwise. */
  function Services(s: Settings): (r: seq<Service>)
    ensures |r| <= 1
    ensures |r| == 1 <==> Truthy(s.enabled) && Truthy(s.cron)
    ensures |r| == 1 ==> r[0].id == "WebDAVBackup" && r[0].cron == s.cron
  {
    if Truthy(s.enabled) && Truthy(s.cron) then [Service("WebDAVBackup", "WebDAV备份", s.cron)]
    else []
  }

  /** After a successful `init_plugin`, the cron service is registered
      exactly when the stored configuration enables the plugin and holds a
      non-empty cron expression; a missing `enabled` means disabled. */
  lemma ServiceAfterInit(config: Config, clientOk: bool, connects: bool)
    requires Init(Some(config), clientOk, connects).Initialised?
    ensures var r := Services(Init(Some(config), clientOk, connects).settings);
      && (|r| == 1 <==> "enabled" in config && Truthy(config["enabled"])
                        && "cron" in config && Truthy(config["cron"]))
      && (|r| == 1 ==> r[0].cron == config["cron"])
  {
  }

  // ---------------------------------------------------------------------
  // One backup run (`backup`)

  /** The configuration files a backup copies, in order. */
  const BackupFiles: seq<string> := ["user.db", "app.env", "category.yaml"]

  /** The files that end up in the archive: those of `BackupFiles` that
      exist, in the same order; a missing one is skipped. */
  function ArchiveContents(present: set<string>, files: seq<string>): (r: seq<string>)
    ensures |r| <= |files|
    ensures forall x :: x in r <==> x in files && x in present
  {
    if |files| == 0 then []
    else (if files[0] in present then [files[0]] else []) + ArchiveContents(present, files[1..])
  }

  datatype Archive = Archive(name: string, contents: seq<string>)

  /** `__backup_and_zip_file()` started at `now`, with `present` the files
      that exist and `ioOk` whether copying and zipping succeed; `None` is
      the empty path it returns after an exception. Missing files never make
      it fail. */
  function MakeArchive(now: Timestamp, present: set<string>, ioOk: bool): (r: Option<Archive>)
    requires Valid(now)
    ensures r.Some? <==> ioOk
    ensures r.Some? ==> r.value.name == ArchiveFileName(now)
    ensures r.Some? ==> forall x :: x in r.value.contents <==> x in BackupFiles && x in present
  {
    if ioOk then Some(Archive(ArchiveFileName(now), ArchiveContents(present, BackupFiles))) else None
  }

  /** What a backup run does to the outside world, in order. */
  datatype Event =
    | Upload(remote: string)        // `upload_sync(remote_path=basename, ...)`
    | RemoveLocal(file: string)     // `os.remove` of the local archive
    | Remote(call: RemoteCall)      // the pruner's requests
    | Notify(success: bool)         // `post_message`: success or failure text

  /** The run uploads and removes exactly the local archive `file`, if any. */
  ghost predicate TouchesOnly(events: seq<Event>, file: Option<string>) {
    && (forall f :: Upload(f) in events <==> file == Some(f))
    && (forall f :: RemoveLocal(f) in events <==> file == Some(f))
  }

  /** `raised` says an exception escaped: the removal of the local archive
      in the `finally` clause is not guarded by any handler. */
  datatype UploadRun = UploadRun(events: seq<Event>, file: Option<string>, success: bool, raised: bool)

  /** `__backup_files_to_webdav()`: no archive, no upload; otherwise one
      upload attempt and, whatever its outcome, removal of the local file.
      The result is `(basename, True)` on success and `(None, False)`
      otherwise, unless the removal raises, in which case no result is
      returned and the exception reaches the caller. */
  function UploadArchive(archive: Option<Archive>, uploadOk: bool, removeOk: bool): (r: UploadRun)
    ensures r.raised <==> archive.Some? && !removeOk
    ensures r.success <==> archive.Some? && uploadOk && removeOk
    ensures r.file == (if r.success then Some(archive.value.name) else None)
    ensures forall e :: e in r.events ==> e.Upload? || e.RemoveLocal?
    ensures TouchesOnly(r.events, if archive.Some? then Some(archive.value.name) else None)
    ensures forall i, j :: 0 <= i < j < |r.events| ==> r.events[i].Upload? && r.events[j].RemoveLocal?
    ensures LocalStepsFirst(r.events, if archive.Some? then Some(archive.value.name) else None)
  {
    match archive
    case None => UploadRun([], None, false, false)
    case Some(a) =>
      var events := [Upload(a.name), RemoveLocal(a.name)];
      if !removeOk then UploadRun(events, None, false, true)
      else if uploadOk then UploadRun(events, Some(a.name), true, false)
      else UploadRun(events, None, false, false)
  }

  /** What the outside world answers during one backup run. */
  datatype World = World(
    now: Timestamp,                  // `datetime.now()`
    present: set<string>,            // which configuration files exist
    ioOk: bool,                      // copying and zipping succeed
    uploadOk: bool,                  // `upload_sync` succeeds
    removeOk: bool,                  // `os.remove` of the local archive succeeds
    listing: Option<seq<string>>,    // `list('/')`, `None` if it raises
    refused: set<string>)            // remote paths whose `clean` raises

  /** Upload events come first, the pruner's requests next, the
      notification last. */
  function Phase(e: Event): nat {
    match e
    case Upload(_) => 0
    case RemoveLocal(_) => 0
    case Remote(_) => 1
    case Notify(_) => 2
  }

  function RemoteCalls(events: seq<Event>): (r: seq<RemoteCall>)
    ensures |r| <= |events|
  {
    if |events| == 0 then []
    else (if events[0].Remote? then [events[0].call] else []) + RemoteCalls(events[1..])
  }

  lemma {:induction false} RemoteCallsConcat(a: seq<Event>, b: seq<Event>)
    ensures RemoteCalls(a + b) == RemoteCalls(a) + RemoteCalls(b)
  {
    if |a| == 0 {
      assert a + b == b;
    } else {
      var head := if a[0].Remote? then [a[0].call] else [];
      assert (a + b)[0] == a[0];
      assert (a + b)[1..] == a[1..] + b;
      RemoteCallsConcat(a[1..], b);
      assert RemoteCalls(a + b) == head + RemoteCalls(a[1..] + b);
      assert RemoteCalls(a) == head + RemoteCalls(a[1..]);
    }
  }

  lemma {:induction false} NoRemoteCalls(events: seq<Event>)
    requires forall i :: 0 <= i < |events| ==> !events[i].Remote?
    ensures RemoteCalls(events) == []
  {
    if |events| > 0 {
      NoRemoteCalls(events[1..]);
    }
  }

  /** The pruner's requests as events of the run. */
  function AsEvents(calls: seq<RemoteCall>): (r: seq<Event>)
    ensures |r| == |calls|
    ensures forall i :: 0 <= i < |r| ==> r[i] == Remote(calls[i])
    ensures RemoteCalls(r) == calls
  {
    if |calls| == 0 then []
    else
      var r := [Remote(calls[0])] + AsEvents(calls[1..]);
      assert r[1..] == AsEvents(calls[1..]);
      r
  }

  /** Three blocks of events, each of a single phase, in phase order. */
  lemma PhasesInOrder(a: seq<Event>, b: seq<Event>, c: seq<Event>)
    requires forall e :: e in a ==> Phase(e) == 0
    requires forall e :: e in b ==> Phase(e) == 1
    requires forall e :: e in c ==> Phase(e) == 2
    ensures var all := a + b + c;
      forall i, j :: 0 <= i < j < |all| ==> Phase(all[i]) <= Phase(all[j])
  {
  }

  lemma {:induction false} RunRemoteCalls(up: seq<Event>, calls: seq<RemoteCall>, note: seq<Event>)
    requires forall e :: e in up ==> e.Upload? || e.RemoveLocal?
    requires forall e :: e in note ==> e.Notify?
    ensures RemoteCalls(up + AsEvents(calls) + note) == calls
  {
    assert forall i :: 0 <= i < |up| ==> up[i] in up;
    assert forall i :: 0 <= i < |note| ==> note[i] in note;
    NoRemoteCalls(up);
    NoRemoteCalls(note);
    RemoteCallsConcat(up, AsEvents(calls));
    RemoteCallsConcat(up + AsEvents(calls), note);
  }

  /** The upload block is the only source of upload and removal events. */
  lemma RunLocalFiles(up: seq<Event>, pruning: seq<Event>, note: seq<Event>)
    requires forall e :: e in pruning ==> e.Remote?
    requires forall e :: e in note ==> e.Notify?
    ensures forall f :: RemoveLocal(f) in up + pruning + note <==> RemoveLocal(f) in up
    ensures forall f :: Upload(f) in up + pruning + note <==> Upload(f) in up
  {
  }

  /** A notification block of at most one event, placed last. */
  lemma RunNotification(up: seq<Event>, pruning: seq<Event>, note: seq<Event>, success: bool)
    requires forall e :: e in up ==> e.Upload? || e.RemoveLocal?
    requires forall e :: e in pruning ==> e.Remote?
    requires note == [] || note == [Notify(success)]
    ensures var events := up + pruning + note;
      && ((exists i :: 0 <= i < |events| && events[i].Notify?) <==> note != [])
      && (forall b :: Notify(b) in events ==> b == success && events[|events| - 1] == Notify(b))
  {
    var prefix := up + pruning;
    var events := prefix + note;
    assert forall e :: e in prefix ==> !e.Notify?;
    if note != [] {
      assert events[|events| - 1].Notify?;
    }
    assert forall i :: 0 <= i < |prefix| ==> events[i] == prefix[i];
    assert forall i :: 0 <= i < |prefix| ==> prefix[i] in prefix;
  }

  /** Upload events come first, the pruner's requests next, the
      notification last. */
  ghost predicate PhasesOrdered(events: seq<Event>) {
    forall i, j :: 0 <= i < j < |events| ==> Phase(events[i]) <= Phase(events[j])
  }

  /** A notification is sent exactly when `notify` is on; it reports
      `success` and is the last thing the run does. */
  ghost predicate NotifiesLast(events: seq<Event>, notify: bool, success: bool) {
    && ((exists i :: 0 <= i < |events| && events[i].Notify?) <==> notify)
    && (forall b :: Notify(b) in events ==> b == success && events[|events| - 1] == Notify(b))
  }

  /** The local steps: with an archive `file`, exactly one upload of it and
      then exactly one removal of it, before anything else; without one,
      neither. */
  ghost predicate LocalStepsFirst(events: seq<Event>, file: Option<string>) {
    && (file.Some? ==> 2 <= |events| && events[0] == Upload(file.value) && events[1] == RemoveLocal(file.value))
    && (forall i :: (if file.Some? then 2 else 0) <= i < |events| ==> !events[i].Upload? && !events[i].RemoveLocal?)
  }

  /** At most one notification: nothing before the last event is one. */
  ghost predicate NotifiesOnce(events: seq<Event>) {
    forall i :: 0 <= i < |events| - 1 ==> !events[i].Notify?
  }

  /** The local steps stay in front, and the notification block adds at
      most one notification, at the end. */
  lemma RunSteps(up: seq<Event>, file: Option<string>, calls: seq<RemoteCall>, notify: bool, success: bool)
    requires LocalStepsFirst(up, file)
    requires forall e :: e in up ==> e.Upload? || e.RemoveLocal?
    ensures var events := up + AsEvents(calls) + (if notify then [Notify(success)] else []);
      && LocalStepsFirst(events, file)
      && NotifiesOnce(events)
  {
    var rest := AsEvents(calls) + (if notify then [Notify(success)] else []);
    assert up + AsEvents(calls) + (if notify then [Notify(success)] else []) == up + rest;
    assert forall i :: 0 <= i < |rest| ==> !rest[i].Upload? && !rest[i].RemoveLocal?;
    assert forall i :: 0 <= i < |rest| - 1 ==> !rest[i].Notify?;
    LocalStepsKept(up, rest, file);
    NotifiesOnceAfter(up, rest);
  }

  lemma LocalStepsKept(up: seq<Event>, rest: seq<Event>, file: Option<string>)
    requires LocalStepsFirst(up, file)
    requires forall i :: 0 <= i < |rest| ==> !rest[i].Upload? && !rest[i].RemoveLocal?
    ensures LocalStepsFirst(up + rest, file)
  {
    var events := up + rest;
    forall i | (if file.Some? then 2 else 0) <= i < |events|
      ensures !events[i].Upload? && !events[i].RemoveLocal?
    {
      if i >= |up| {
        assert events[i] == rest[i - |up|];
      }
    }
  }

  lemma NotifiesOnceAfter(up: seq<Event>, rest: seq<Event>)
    requires forall e :: e in up ==> e.Upload? || e.RemoveLocal?
    requires NotifiesOnce(rest)
    ensures NotifiesOnce(up + rest)
  {
    var events := up + rest;
    forall i | 0 <= i < |events| - 1
      ensures !events[i].Notify?
    {
      if i < |up| {
        assert events[i] == up[i] && up[i] in up;
      } else {
        assert events[i] == rest[i - |up|];
      }
    }
  }

  /** The facts about a run assembled from its three blocks. */
  lemma RunShape(up: seq<Event>, file: Option<string>, calls: seq<RemoteCall>, notify: bool, success: bool)
    requires forall e :: e in up ==> e.Upload? || e.RemoveLocal?
    requires TouchesOnly(up, file)
    ensures var events := up + AsEvents(calls) + (if notify then [Notify(success)] else []);
      && PhasesOrdered(events)
      && RemoteCalls(events) == calls
      && TouchesOnly(events, file)
      && NotifiesLast(events, notify, success)
  {
    var pruning := AsEvents(calls);
    var note := if notify then [Notify(success)] else [];
    assert forall e :: e in pruning ==> e.Remote?;
    PhasesInOrder(up, pruning, note);
    RunRemoteCalls(up, calls, note);
    RunLocalFiles(up, pruning, note);
    RunNotification(up, pruning, note, success);
  }

  /** The pruner's requests in a run: none when `max_count` is 0, otherwise
      those of `__clean_old_backups`. */
  predicate PrunedAs(calls: seq<RemoteCall>, maxCount: int, listing: Option<seq<string>>, refused: set<string>) {
    && (maxCount == 0 ==> calls == [])
    && (maxCount != 0 && !PlanPrune(listing, maxCount).Prune? ==> calls == [ListRoot])
    && (maxCount != 0 && PlanPrune(listing, maxCount).Prune? ==>
          CleansInOrder(calls, PlanPrune(listing, maxCount).doomed, refused))
  }

  /** `if self._max_count: self.__clean_old_backups(self._max_count)`. */
  method PruneStep(maxCount: int, listing: Option<seq<string>>, refused: set<string>)
    returns (calls: seq<RemoteCall>)
    ensures PrunedAs(calls, maxCount, listing, refused)
  {
    calls := [];
    if maxCount != 0 {
      calls := PruneCalls(listing, maxCount, refused);
    }
  }

  /** `backup()`: archive and upload, prune when `max_count` is non-zero,
      then notify when notifications are on. Pruning does not depend on the
      upload having succeeded. If removing the local archive raises, the
      outer handler takes over: the prune is skipped and the notification,
      if any, reports failure. */
  method Backup(s: Settings, w: World) returns (events: seq<Event>, success: bool)
    requires Valid(w.now)
    ensures success <==> w.ioOk && w.uploadOk && w.removeOk
    ensures PhasesOrdered(events)
    ensures TouchesOnly(events, if w.ioOk then Some(ArchiveFileName(w.now)) else None)
    ensures w.ioOk && !w.removeOk ==> RemoteCalls(events) == []
    ensures !(w.ioOk && !w.removeOk) ==> PrunedAs(RemoteCalls(events), s.maxCount, w.listing, w.refused)
    ensures NotifiesLast(events, Truthy(s.notify), success)
    ensures LocalStepsFirst(events, if w.ioOk then Some(ArchiveFileName(w.now)) else None)
    ensures NotifiesOnce(events)
  {
    var archive := MakeArchive(w.now, w.present, w.ioOk);
    var up := UploadArchive(archive, w.uploadOk, w.removeOk);
    success := up.success;
    var calls: seq<RemoteCall> := [];
    if !up.raised {
      calls := PruneStep(s.maxCount, w.listing, w.refused);
    }
    events := up.events + AsEvents(calls) + (if Truthy(s.notify) then [Notify(success)] else []);
    RunShape(up.events, if w.ioOk then Some(ArchiveFileName(w.now)) else None, calls, Truthy(s.notify), success);
    RunSteps(up.events, if w.ioOk then Some(ArchiveFileName(w.now)) else None, calls, Truthy(s.notify), success);
  }
}
