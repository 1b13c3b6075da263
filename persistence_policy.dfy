/**
 * What the filesystem persistence manager does, as functions on a value view
 * of its state: the registry of session beans (session id -> bean or null),
 * the checksum index (session id -> checksum last written) and the files of
 * the session directory (path -> contents).
 */
module PersistencePolicy {
  import opened Nullable
  import opened SessionBeanWrapper

  /** `DIRECTORY_SEPARATOR` on the platforms the server runs on. */
  const DirectorySeparator := '/'

  /** A file in the session directory: its contents, or a file that exists but cannot be read. */
  datatype FileEntry = Contents(text: string) | Unreadable

  /** The session marshaller (`serialize` / `unserialize`); None is `unserialize` returning false. */
  datatype Codec = Codec(marshall: Snapshot -> string, unmarshall: string -> Option<Snapshot>)

  /** The assumption a recovery property needs: unmarshalling gives back what was marshalled. */
  ghost predicate RoundTrips(codec: Codec)
  {
    forall s :: codec.unmarshall(codec.marshall(s)) == Some(s)
  }

  /** What the manager reads from its settings and collaborators. */
  datatype Config = Config(
    savePath: string,
    prefix: string,
    timeout: int,
    lifetime: int,
    codec: Codec,
    digest: Digest,
    classes: ClassTable)

  /** `getSessionSavePath($toAppend)`: the save path, followed by the separator and the argument unless it is loosely null. */
  function SavePath(base: string, toAppend: Option<string>): (p: string)
    ensures base <= p
    ensures LooselyNull(toAppend) ==> p == base
    ensures !LooselyNull(toAppend) ==>
              |p| == |base| + 1 + |toAppend.value| && p[|base|] == DirectorySeparator && p[|base| + 1..] == toAppend.value
  {
    if !LooselyNull(toAppend) then base + [DirectorySeparator] + toAppend.value else base
  }

  /** The file that holds the session with the given id: `<save path>/<prefix><id>`. */
  function SessionFile(cfg: Config, id: string): string
  {
    SavePath(cfg.savePath, Some(cfg.prefix + id))
  }

  /** Different sessions never share a file. */
  lemma SessionFileInjective(cfg: Config, a: string, b: string)
    requires SessionFile(cfg, a) == SessionFile(cfg, b)
    ensures a == b
  {
    var x, y := cfg.prefix + a, cfg.prefix + b;
    if x != "" && y != "" {
      assert x == SessionFile(cfg, a)[|cfg.savePath| + 1..];
      assert a == x[|cfg.prefix|..] && b == y[|cfg.prefix|..];
    }
  }

  /** The session files of a set of ids. */
  function SessionFiles(cfg: Config, ids: set<string>): set<string>
  {
    set id | id in ids :: SessionFile(cfg, id)
  }

  /** The three things `persist` can do with a resident session. */
  datatype Action = Keep | Passivate | WriteThrough

  /**
   * The branch `persist` takes for one session, given the stored checksum
   * (null when the session was never written), the wrapper's checksum, the
   * idle value and the inactivity timeout. An idle value equal to the timeout
   * passes neither strict comparison and falls through every branch.
   */
  function Decide(stored: Option<string>, current: string, idle: int, timeout: int): (a: Action)
    ensures a == WriteThrough <==> stored != Some(current)
    ensures a == Passivate <==> stored == Some(current) && idle > timeout
    ensures a == Keep <==> stored == Some(current) && idle <= timeout
  {
    if stored == Some(current) && idle < timeout then Keep
    else if stored == Some(current) && idle > timeout then Passivate
    else if stored != Some(current) then WriteThrough
    else Keep
  }

  /** The idle value exactly as `persist` computes it from the registry's expiry of the session. */
  function IdleValue(expiry: int, lifetime: int, now: int): int
  {
    (expiry - lifetime) - now
  }

  /**
   * While the registered expiry is at most one lifetime ahead of now (as it
   * is when it was set to the time of the last touch plus the lifetime), the
   * idle value is not positive, so with a non-negative timeout the session
   * is never passivated.
   */
  lemma NoPassivationBeforeExpiry(stored: Option<string>, current: string, expiry: int, lifetime: int, now: int, timeout: int)
    requires expiry <= now + lifetime && timeout >= 0
    ensures Decide(stored, current, IdleValue(expiry, lifetime, now), timeout) != Passivate
  {
  }

  /** The manager's state, with every bean replaced by its current class and properties. */
  datatype StoreView = StoreView(
    beans: map<string, Option<BeanView>>,
    checksums: map<string, string>,
    files: map<string, FileEntry>)

  /** Everything the manager keeps about one session id: registry entry, checksum, file. */
  datatype Entry = Entry(bean: Option<Option<BeanView>>, checksum: Option<string>, file: Option<FileEntry>)

  function At(s: StoreView, id: string, cfg: Config): Entry
  {
    Entry(Lookup(s.beans, id), Lookup(s.checksums, id), Lookup(s.files, SessionFile(cfg, id)))
  }

  /** The branch `persist` takes for a resident, non-null session. */
  function ActionOf(s: StoreView, id: string, now: int, expiry: string -> int, cfg: Config): Action
    requires id in s.beans && s.beans[id].Some?
  {
    var w := WrapperFor(id, s.beans[id].value);
    Decide(Lookup(s.checksums, id), ChecksumOf(w, cfg.digest), IdleValue(expiry(id), cfg.lifetime, now), cfg.timeout)
  }

  /** One iteration of `persist`'s scan, for the session `id`. */
  function Step(s: StoreView, id: string, now: int, expiry: string -> int, cfg: Config): StoreView
  {
    if id !in s.beans || s.beans[id].None? then s
    else
      var w := WrapperFor(id, s.beans[id].value);
      match ActionOf(s, id, now, expiry, cfg)
      case Keep => s
      case Passivate =>
        StoreView(s.beans - {id}, s.checksums - {id},
                  s.files[SessionFile(cfg, id) := Contents(cfg.codec.marshall(w))])
      case WriteThrough =>
        StoreView(s.beans, s.checksums[id := ChecksumOf(w, cfg.digest)],
                  s.files[SessionFile(cfg, id) := Contents(cfg.codec.marshall(w))])
  }

  /** `persist` over the session ids in the order given. */
  function Scan(s: StoreView, ids: seq<string>, now: int, expiry: string -> int, cfg: Config): StoreView
    decreases |ids|
  {
    if ids == [] then s
    else Step(Scan(s, ids[..|ids| - 1], now, expiry, cfg), ids[|ids| - 1], now, expiry, cfg)
  }

  /** A session whose registry value is null (or that has left the registry) is skipped. */
  lemma NullBeanSkipped(s: StoreView, id: string, now: int, expiry: string -> int, cfg: Config)
    requires id !in s.beans || s.beans[id].None?
    ensures Step(s, id, now, expiry, cfg) == s
  {
  }

  /** Unchanged checksum and an idle value not above the timeout: nothing changes. */
  lemma UnchangedAndActiveKept(s: StoreView, id: string, now: int, expiry: string -> int, cfg: Config)
    requires id in s.beans && s.beans[id].Some?
    requires var w := WrapperFor(id, s.beans[id].value);
             Lookup(s.checksums, id) == Some(ChecksumOf(w, cfg.digest)) && IdleValue(expiry(id), cfg.lifetime, now) <= cfg.timeout
    ensures Step(s, id, now, expiry, cfg) == s
  {
  }

  /**
   * Unchanged checksum and an idle value above the timeout: the session file
   * receives the marshalled wrapper and the session leaves the registry and
   * the checksum index.
   */
  lemma UnchangedAndIdlePassivated(s: StoreView, id: string, now: int, expiry: string -> int, cfg: Config)
    requires id in s.beans && s.beans[id].Some?
    requires var w := WrapperFor(id, s.beans[id].value);
             Lookup(s.checksums, id) == Some(ChecksumOf(w, cfg.digest)) && IdleValue(expiry(id), cfg.lifetime, now) > cfg.timeout
    ensures var t := Step(s, id, now, expiry, cfg);
            && t.files == s.files[SessionFile(cfg, id) := Contents(cfg.codec.marshall(WrapperFor(id, s.beans[id].value)))]
            && t.beans == s.beans - {id}
            && t.checksums == s.checksums - {id}
  {
  }

  /**
   * Checksum different from the stored one, or none stored: the session file
   * receives the marshalled wrapper, the index records the new checksum and
   * the registry keeps the session.
   */
  lemma ChangedWrittenThrough(s: StoreView, id: string, now: int, expiry: string -> int, cfg: Config)
    requires id in s.beans && s.beans[id].Some?
    requires var w := WrapperFor(id, s.beans[id].value);
             Lookup(s.checksums, id) != Some(ChecksumOf(w, cfg.digest))
    ensures var w := WrapperFor(id, s.beans[id].value);
            var t := Step(s, id, now, expiry, cfg);
            && t.files == s.files[SessionFile(cfg, id) := Contents(cfg.codec.marshall(w))]
            && t.beans == s.beans
            && t.checksums == s.checksums[id := ChecksumOf(w, cfg.digest)]
  {
  }

  /** A step for one session leaves every other session's registry entry, checksum and file alone. */
  lemma StepFrame(s: StoreView, id: string, other: string, now: int, expiry: string -> int, cfg: Config)
    requires other != id
    ensures At(Step(s, id, now, expiry, cfg), other, cfg) == At(s, other, cfg)
  {
    if SessionFile(cfg, id) == SessionFile(cfg, other) {
      SessionFileInjective(cfg, id, other);
    }
  }

  /** A step writes at most the session's own file. */
  lemma StepOtherFiles(s: StoreView, id: string, p: string, now: int, expiry: string -> int, cfg: Config)
    requires p != SessionFile(cfg, id)
    ensures Lookup(Step(s, id, now, expiry, cfg).files, p) == Lookup(s.files, p)
  {
  }

  /** What a step does to its own session depends only on what was kept about that session. */
  lemma StepLocal(a: StoreView, b: StoreView, id: string, now: int, expiry: string -> int, cfg: Config)
    requires At(a, id, cfg) == At(b, id, cfg)
    ensures At(Step(a, id, now, expiry, cfg), id, cfg) == At(Step(b, id, now, expiry, cfg), id, cfg)
  {
  }

  /**
   * After a scan over distinct ids, each scanned session is as its own step
   * left it and every other session is untouched.
   */
  lemma {:induction false} ScanAt(s: StoreView, ids: seq<string>, id: string, now: int, expiry: string -> int, cfg: Config)
    requires forall i, j :: 0 <= i < j < |ids| ==> ids[i] != ids[j]
    ensures At(Scan(s, ids, now, expiry, cfg), id, cfg)
            == if id in ids then At(Step(s, id, now, expiry, cfg), id, cfg) else At(s, id, cfg)
    decreases |ids|
  {
    if ids != [] {
      var init, last := ids[..|ids| - 1], ids[|ids| - 1];
      var before := Scan(s, init, now, expiry, cfg);
      ScanAt(s, init, id, now, expiry, cfg);
      if id == last {
        assert id !in init;
        StepLocal(before, s, id, now, expiry, cfg);
      } else {
        StepFrame(before, last, id, now, expiry, cfg);
        assert id in ids <==> id in init;
      }
    }
  }

  /** A scan writes no file other than the session files of the scanned ids. */
  lemma {:induction false} ScanOtherFiles(s: StoreView, ids: seq<string>, p: string, now: int, expiry: string -> int, cfg: Config)
    requires forall id :: id in ids ==> SessionFile(cfg, id) != p
    ensures Lookup(Scan(s, ids, now, expiry, cfg).files, p) == Lookup(s.files, p)
    decreases |ids|
  {
    if ids != [] {
      var init, last := ids[..|ids| - 1], ids[|ids| - 1];
      ScanOtherFiles(s, init, p, now, expiry, cfg);
      StepOtherFiles(Scan(s, init, now, expiry, cfg), last, p, now, expiry, cfg);
    }
  }

  /** A session a step leaves resident has, in the index, the checksum of its current wrapper. */
  lemma StepKeepsChecksumCurrent(s: StoreView, id: string, now: int, expiry: string -> int, cfg: Config)
    requires id in s.beans && s.beans[id].Some?
    ensures var t := Step(s, id, now, expiry, cfg);
            id in t.beans ==> id in t.checksums && t.checksums[id] == ChecksumOf(WrapperFor(id, s.beans[id].value), cfg.digest)
  {
  }

  /**
   * After a scan over distinct ids, every scanned session still resident with
   * a bean has, in the index, the checksum of its current wrapper.
   */
  lemma ScanKeepsChecksumsCurrent(s: StoreView, ids: seq<string>, id: string, now: int, expiry: string -> int, cfg: Config)
    requires forall i, j :: 0 <= i < j < |ids| ==> ids[i] != ids[j]
    requires id in ids
    ensures var t := Scan(s, ids, now, expiry, cfg);
            id in t.beans && t.beans[id].Some? ==>
              id in t.checksums && t.checksums[id] == ChecksumOf(WrapperFor(id, t.beans[id].value), cfg.digest)
  {
    ScanAt(s, ids, id, now, expiry, cfg);
    if id in s.beans && s.beans[id].Some? {
      StepKeepsChecksumCurrent(s, id, now, expiry, cfg);
    }
  }

  /**
   * A scan over sessions whose stored checksums are current and whose idle
   * values do not exceed the timeout changes nothing: no file is written.
   */
  lemma {:induction false} ScanStable(t: StoreView, ids: seq<string>, now: int, expiry: string -> int, cfg: Config)
    requires forall id :: id in ids && id in t.beans && t.beans[id].Some? ==>
               && Lookup(t.checksums, id) == Some(ChecksumOf(WrapperFor(id, t.beans[id].value), cfg.digest))
               && IdleValue(expiry(id), cfg.lifetime, now) <= cfg.timeout
    ensures Scan(t, ids, now, expiry, cfg) == t
    decreases |ids|
  {
    if ids != [] {
      var init, last := ids[..|ids| - 1], ids[|ids| - 1];
      ScanStable(t, init, now, expiry, cfg);
      if last in t.beans && t.beans[last].Some? {
        UnchangedAndActiveKept(t, last, now, expiry, cfg);
      }
    }
  }

  /**
   * Write-through minimality: after one scan, a second scan over the same
   * sessions, with no bean changed in between and no idle value above the
   * timeout, writes no file and changes nothing.
   */
  lemma SecondScanWritesNothing(s: StoreView, ids: seq<string>, now: int, expiry: string -> int,
                                later: int, laterExpiry: string -> int, cfg: Config)
    requires forall i, j :: 0 <= i < j < |ids| ==> ids[i] != ids[j]
    requires forall id :: id in ids ==> IdleValue(laterExpiry(id), cfg.lifetime, later) <= cfg.timeout
    ensures var t := Scan(s, ids, now, expiry, cfg);
            Scan(t, ids, later, laterExpiry, cfg) == t
  {
    var t := Scan(s, ids, now, expiry, cfg);
    forall id | id in ids && id in t.beans && t.beans[id].Some?
      ensures Lookup(t.checksums, id) == Some(ChecksumOf(WrapperFor(id, t.beans[id].value), cfg.digest))
    {
      ScanKeepsChecksumsCurrent(s, ids, id, now, expiry, cfg);
    }
    ScanStable(t, ids, later, laterExpiry, cfg);
  }

  /** How `loadSessionFromFile` ends: normally, with `SessionDataNotReadableException`, or with a fatal error. */
  datatype LoadResult = Returned | NotReadable | FatalError

  /**
   * `loadSessionFromFile($path)`. A missing file is a no-op; a file that
   * cannot be read throws. Otherwise the unmarshalled wrapper's checksum is
   * recorded and the rebuilt bean registered, both under the wrapper's own id.
   * Contents that do not unmarshall to a wrapper, and a wrapper whose class
   * cannot be instantiated, end in a fatal error (after the checksum was
   * recorded, in the second case).
   */
  function LoadView(s: StoreView, path: string, cfg: Config): (StoreView, LoadResult)
  {
    if path !in s.files then (s, Returned)
    else if s.files[path].Unreadable? then (s, NotReadable)
    else
      match cfg.codec.unmarshall(s.files[path].text)
      case None => (s, FatalError)
      case Some(w) =>
        var id := AsText(w.id);
        var checksums := s.checksums[id := ChecksumOf(w, cfg.digest)];
        match Instantiate(w, cfg.classes)
        case None => (StoreView(s.beans, checksums, s.files), FatalError)
        case Some(v) => (StoreView(s.beans[id := Some(v)], checksums, s.files), Returned)
  }

  /** `removeSessionFile($path)`. */
  function RemoveFile(s: StoreView, path: string): StoreView
  {
    s.(files := s.files - {path})
  }

  /** Load a session file; when it cannot be read, delete it instead (the catch block of `initialize` and `unpersist`). */
  function RecoverFile(s: StoreView, path: string, cfg: Config): (StoreView, LoadResult)
  {
    var (t, r) := LoadView(s, path, cfg);
    if r == NotReadable then (RemoveFile(t, path), Returned) else (t, r)
  }

  /** `unpersist($id)`: nothing when the session is resident, otherwise recover its session file. */
  function UnpersistView(s: StoreView, id: string, cfg: Config): (StoreView, LoadResult)
  {
    if id in s.beans then (s, Returned) else RecoverFile(s, SessionFile(cfg, id), cfg)
  }

  /** `initialize()` over the candidate files in the order given; a fatal error ends it. */
  function InitializeView(s: StoreView, paths: seq<string>, cfg: Config): (StoreView, LoadResult)
    decreases |paths|
  {
    if paths == [] then (s, Returned)
    else
      var (t, r) := InitializeView(s, paths[..|paths| - 1], cfg);
      if r == FatalError then (t, r) else RecoverFile(t, paths[|paths| - 1], cfg)
  }

  /** Loading a path that is not a file changes nothing and returns normally. */
  lemma LoadMissingFile(s: StoreView, path: string, cfg: Config)
    requires path !in s.files
    ensures LoadView(s, path, cfg) == (s, Returned)
  {
  }

  /** Loading a file that cannot be read throws and changes nothing. */
  lemma LoadUnreadableThrows(s: StoreView, path: string, cfg: Config)
    requires path in s.files && s.files[path].Unreadable?
    ensures LoadView(s, path, cfg) == (s, NotReadable)
  {
  }

  /**
   * A file that unmarshalls to a wrapper of a known class registers the
   * rebuilt bean and its checksum under the id stored in the wrapper, whatever
   * the file is called, and changes nothing else.
   */
  lemma LoadRegistersUnderWrapperId(s: StoreView, path: string, cfg: Config, w: Snapshot)
    requires path in s.files && s.files[path].Contents?
    requires cfg.codec.unmarshall(s.files[path].text) == Some(w)
    requires Instantiate(w, cfg.classes).Some?
    ensures var (t, r) := LoadView(s, path, cfg);
            && r == Returned
            && t.beans == s.beans[AsText(w.id) := Instantiate(w, cfg.classes)]
            && t.checksums == s.checksums[AsText(w.id) := ChecksumOf(w, cfg.digest)]
            && t.files == s.files
  {
  }

  /** `unpersist` of a resident session does nothing. */
  lemma UnpersistResident(s: StoreView, id: string, cfg: Config)
    requires id in s.beans
    ensures UnpersistView(s, id, cfg) == (s, Returned)
  {
  }

  /** A session file that cannot be read is deleted, and nothing else changes. */
  lemma RecoverDeletesUnreadable(s: StoreView, path: string, cfg: Config)
    requires path in s.files && s.files[path].Unreadable?
    ensures RecoverFile(s, path, cfg) == (RemoveFile(s, path), Returned)
  {
  }

  /** Recovery never creates or rewrites a file: it may only delete one. */
  lemma {:induction false} InitializeOnlyDeletesFiles(s: StoreView, paths: seq<string>, cfg: Config)
    ensures var t := InitializeView(s, paths, cfg).0;
            forall p :: p in t.files ==> p in s.files && t.files[p] == s.files[p]
    decreases |paths|
  {
    if paths != [] {
      InitializeOnlyDeletesFiles(s, paths[..|paths| - 1], cfg);
    }
  }

  /**
   * When `initialize` completes without a fatal error, no candidate file that
   * could not be read is left in the session directory.
   */
  lemma {:induction false} InitializeRemovesUnreadable(s: StoreView, paths: seq<string>, cfg: Config)
    requires InitializeView(s, paths, cfg).1 == Returned
    ensures var t := InitializeView(s, paths, cfg).0;
            forall p :: p in paths && p in s.files && s.files[p].Unreadable? ==> p !in t.files
    decreases |paths|
  {
    if paths != [] {
      var init, last := paths[..|paths| - 1], paths[|paths| - 1];
      var (before, r) := InitializeView(s, init, cfg);
      InitializeRemovesUnreadable(s, init, cfg);
      InitializeOnlyDeletesFiles(s, init, cfg);
      var t := InitializeView(s, paths, cfg).0;
      forall p | p in paths && p in s.files && s.files[p].Unreadable?
        ensures p !in t.files
      {
        if p == last {
          if p in before.files {
            assert before.files[p].Unreadable?;
          }
        } else {
          assert p in init;
        }
      }
    }
  }

  /** A fatal error ends `initialize`: the candidates after it are never looked at. */
  lemma {:induction false} InitializeStopsAtFatal(s: StoreView, paths: seq<string>, k: nat, cfg: Config)
    requires k <= |paths|
    requires InitializeView(s, paths[..k], cfg).1 == FatalError
    ensures InitializeView(s, paths, cfg) == InitializeView(s, paths[..k], cfg)
    decreases |paths| - k
  {
    if k < |paths| {
      assert paths[..k + 1][..k] == paths[..k];
      InitializeStopsAtFatal(s, paths, k + 1, cfg);
    } else {
      assert paths[..k] == paths;
    }
  }

  /**
   * A passivated session comes back intact: when the codec round-trips and
   * the bean's class declares exactly its properties, none of which holds a
   * thread, a stackable or null, `unpersist` after the passivating step puts
   * the registry and the checksum index back exactly as they were before it.
   */
  lemma PassivatedSessionIsRecoverable(s: StoreView, id: string, now: int, expiry: string -> int, cfg: Config)
    requires id in s.beans && s.beans[id].Some?
    requires ActionOf(s, id, now, expiry, cfg) == Passivate
    requires RoundTrips(cfg.codec)
    requires var v := s.beans[id].value;
             v.className in cfg.classes && cfg.classes[v.className].Keys == v.fields.Keys && RoundTripSafe(v.fields)
    ensures var (t, r) := UnpersistView(Step(s, id, now, expiry, cfg), id, cfg);
            r == Returned && t.beans == s.beans && t.checksums == s.checksums
  {
    var v := s.beans[id].value;
    var w := WrapperFor(id, v);
    var passivated := Step(s, id, now, expiry, cfg);
    var path := SessionFile(cfg, id);
    assert passivated.files[path] == Contents(cfg.codec.marshall(w));
    assert cfg.codec.unmarshall(cfg.codec.marshall(w)) == Some(w);
    SnapshotRoundTrip(id, v, cfg.classes);
    assert AsText(w.id) == id;
    assert id !in passivated.beans;
    var (t, r) := UnpersistView(passivated, id, cfg);
    assert t.beans == (s.beans - {id})[id := Some(v)];
    assert t.beans == s.beans;
    assert Lookup(s.checksums, id) == Some(ChecksumOf(w, cfg.digest));
    assert t.checksums == (s.checksums - {id})[id := ChecksumOf(w, cfg.digest)];
    assert t.checksums == s.checksums;
  }
}
