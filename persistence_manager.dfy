/**
 * The filesystem persistence manager (`FilesystemPersistenceManager`): the
 * daemon that writes changed stateful session beans to their session files,
 * passivates idle ones, and reloads persisted sessions at startup and on
 * demand. The registry, the checksum index and the session directory are maps
 * it updates in place; the clock, each session's registered expiry and the
 * candidate files found at startup are parameters.
 */
module FilesystemPersistence {
  import opened Nullable
  import opened SessionBeanWrapper
  import opened StatefulSessionBeanSettings
  import opened PersistencePolicy

  class Manager {
    /** The session registry: session id -> bean, or null. */
    var beans: map<string, Option<Bean>>
    /** The checksum index: session id -> checksum of the last write. */
    var checksums: map<string, string>
    /** The session directory: path -> file. */
    var files: map<string, FileEntry>

    const settings: Settings
    const codec: Codec
    const digest: Digest
    const classes: ClassTable

    /** The manager with its collaborators injected. */
    constructor (settings: Settings, codec: Codec, digest: Digest, classes: ClassTable,
                 beans: map<string, Option<Bean>>, checksums: map<string, string>, files: map<string, FileEntry>)
      ensures this.settings == settings && this.codec == codec && this.digest == digest && this.classes == classes
      ensures this.beans == beans && this.checksums == checksums && this.files == files
    {
      this.settings, this.codec, this.digest, this.classes := settings, codec, digest, classes;
      this.beans, this.checksums, this.files := beans, checksums, files;
    }

    predicate Valid()
      reads this, settings
    {
      settings.Configured()
    }

    function CurrentConfig(): Config
      reads this, settings
      requires Valid()
    {
      Config(settings.GetSessionSavePath().s, settings.GetSessionFilePrefix().s,
             settings.GetInactivityTimeout().i, settings.GetLifetime().i,
             codec, digest, classes)
    }

    /** The state as a value, each bean replaced by its current class and properties. */
    function View(): StoreView
      reads this, BeanObjects(beans)
    {
      StoreView(Views(beans), checksums, files)
    }

    /** `getSessionSavePath($toAppend)`. */
    function GetSessionSavePath(toAppend: Option<string>): string
      reads this, settings
      requires Valid()
    {
      SavePath(settings.GetSessionSavePath().s, toAppend)
    }

    /** `new StatefulSessionBeanWrapper($id)` followed by `fromStatefulSessionBean($bean)`. */
    static method WrapBean(id: string, bean: Bean) returns (wrapper: Wrapper)
      ensures fresh(wrapper)
      ensures wrapper.State() == WrapperFor(id, ViewOf(bean))
    {
      wrapper := new Wrapper(Some(id));
      wrapper.FromStatefulSessionBean(bean);
    }

    /**
     * One iteration of `persist`'s scan: the session `id` is skipped,
     * passivated or written through as `Step` says, and no bean reference in
     * the registry is replaced.
     */
    method PersistSession(id: string, now: int, expiry: string -> int, inactivityTimeout: int, lifetime: int)
      requires Valid()
      requires inactivityTimeout == CurrentConfig().timeout && lifetime == CurrentConfig().lifetime
      modifies this
      ensures Valid() && CurrentConfig() == old(CurrentConfig())
      ensures forall other :: other in beans ==> other in old(beans) && beans[other] == old(beans)[other]
      ensures View() == Step(old(View()), id, now, expiry, CurrentConfig())
    {
      if id !in beans || beans[id].None? {
        return;
      }
      ghost var cfg := CurrentConfig();
      ghost var s0 := View();
      var bean := beans[id].value;
      var checksum: Option<string> := None;
      if id in checksums {
        checksum := Some(checksums[id]);
      }
      var wrapper := WrapBean(id, bean);
      ghost var w := WrapperFor(id, ViewOf(bean));
      assert s0.beans[id] == Some(ViewOf(bean));
      assert checksum == Lookup(s0.checksums, id);
      var lastActivitySecondsAgo := (expiry(id) - lifetime) - now;
      assert lastActivitySecondsAgo == IdleValue(expiry(id), cfg.lifetime, now);
      if checksum == Some(wrapper.Checksum(digest)) && lastActivitySecondsAgo < inactivityTimeout {
        UnchangedAndActiveKept(s0, id, now, expiry, cfg);
        return;
      }
      if checksum == Some(wrapper.Checksum(digest)) && lastActivitySecondsAgo > inactivityTimeout {
        UnchangedAndIdlePassivated(s0, id, now, expiry, cfg);
        var sessionFilename := GetSessionSavePath(Some(settings.GetSessionFilePrefix().s + id));
        assert sessionFilename == SessionFile(cfg, id);
        files := files[sessionFilename := Contents(codec.marshall(wrapper.State()))];
        checksums := checksums - {id};
        ghost var resident := beans;
        beans := beans - {id};
        ViewsRemove(resident, id);
        return;
      }
      if checksum != Some(wrapper.Checksum(digest)) {
        ChangedWrittenThrough(s0, id, now, expiry, cfg);
        var sessionFilename := GetSessionSavePath(Some(settings.GetSessionFilePrefix().s + id));
        assert sessionFilename == SessionFile(cfg, id);
        files := files[sessionFilename := Contents(codec.marshall(wrapper.State()))];
        checksums := checksums[id := wrapper.Checksum(digest)];
        return;
      }
      // an idle value equal to the timeout falls through every branch
      UnchangedAndActiveKept(s0, id, now, expiry, cfg);
    }

    /**
     * One pass of the persistence daemon over the sessions resident at its
     * start: each is skipped, passivated or written through as `Step` says,
     * independently of the order of the scan.
     */
    method Persist(now: int, expiry: string -> int)
      requires Valid()
      modifies this
      ensures Valid() && CurrentConfig() == old(CurrentConfig())
      ensures forall id :: id in beans ==> id in old(beans) && beans[id] == old(beans)[id]
      ensures forall id :: At(View(), id, CurrentConfig())
                == if id in old(beans) then At(Step(old(View()), id, now, expiry, CurrentConfig()), id, CurrentConfig())
                   else At(old(View()), id, CurrentConfig())
      ensures forall p :: p !in SessionFiles(CurrentConfig(), old(beans).Keys) ==> Lookup(files, p) == Lookup(old(files), p)
      ensures forall id :: id in old(beans) && id in beans && beans[id].Some? ==>
                id in checksums && checksums[id] == ChecksumOf(WrapperFor(id, ViewOf(beans[id].value)), digest)
    {
      var inactivityTimeout := settings.GetInactivityTimeout().i;
      var lifetime := settings.GetLifetime().i;
      ghost var cfg := CurrentConfig();
      ghost var start := View();
      ghost var scanned: seq<string> := [];
      var pending := beans.Keys;
      while pending != {}
        invariant Valid() && CurrentConfig() == cfg
        invariant forall i, j :: 0 <= i < j < |scanned| ==> scanned[i] != scanned[j]
        invariant forall id :: id in scanned <==> id in old(beans) && id !in pending
        invariant pending <= old(beans).Keys
        invariant forall id :: id in beans ==> id in old(beans) && beans[id] == old(beans)[id]
        invariant View() == Scan(start, scanned, now, expiry, cfg)
        decreases pending
      {
        var id :| id in pending;
        pending := pending - {id};
        assert (scanned + [id])[..|scanned|] == scanned;
        scanned := scanned + [id];
        PersistSession(id, now, expiry, inactivityTimeout, lifetime);
      }
      forall id
        ensures At(View(), id, cfg)
                == if id in old(beans) then At(Step(start, id, now, expiry, cfg), id, cfg) else At(start, id, cfg)
      {
        ScanAt(start, scanned, id, now, expiry, cfg);
      }
      forall p | p !in SessionFiles(cfg, old(beans).Keys)
        ensures Lookup(files, p) == Lookup(old(files), p)
      {
        ScanOtherFiles(start, scanned, p, now, expiry, cfg);
      }
      forall id | id in old(beans) && id in beans && beans[id].Some?
        ensures id in checksums && checksums[id] == ChecksumOf(WrapperFor(id, ViewOf(beans[id].value)), digest)
      {
        ScanKeepsChecksumsCurrent(start, scanned, id, now, expiry, cfg);
      }
    }

    /** `removeSessionFile($path)`: deletes the file and answers whether there was one. */
    method RemoveSessionFile(path: string) returns (removed: bool)
      modifies this
      ensures removed <==> path in old(files)
      ensures files == old(files) - {path}
      ensures beans == old(beans) && checksums == old(checksums)
    {
      if path in files {
        files := files - {path};
        return true;
      }
      return false;
    }

    /** `loadSessionFromFile($path)`, as `LoadView` describes it. */
    method LoadSessionFromFile(path: string) returns (result: LoadResult)
      requires Valid()
      modifies this
      ensures Valid() && CurrentConfig() == old(CurrentConfig())
      ensures (View(), result) == LoadView(old(View()), path, CurrentConfig())
      ensures forall id :: id in beans && (id !in old(beans) || beans[id] != old(beans)[id]) ==>
                beans[id].Some? && fresh(beans[id].value)
    {
      if path !in files {
        return Returned;
      }
      if files[path].Unreadable? {
        return NotReadable;
      }
      var marshalled := files[path].text;
      var unmarshalled := codec.unmarshall(marshalled);
      if unmarshalled.None? {
        return FatalError;
      }
      var wrapper := new Wrapper.Unserialized(unmarshalled.value);
      var id := AsText(wrapper.GetId());
      var checksum := wrapper.Checksum(digest);
      checksums := checksums[id := checksum];
      var instance := wrapper.ToStatefulSessionBean(classes);
      if instance.None? {
        assert Instantiate(unmarshalled.value, classes).None?;
        assert Views(beans) == old(Views(beans));
        return FatalError;
      }
      ghost var previous := beans;
      ghost var w := unmarshalled.value;
      assert wrapper.State() == w;
      assert id == AsText(w.id) && checksum == ChecksumOf(w, digest);
      assert Instantiate(w, classes) == Some(ViewOf(instance.value));
      beans := beans[id := instance];
      ViewsAdd(previous, id, instance.value);
      assert Views(previous) == old(Views(beans));
      assert View() == StoreView(old(View()).beans[id := Some(ViewOf(instance.value))], old(checksums)[id := checksum], old(files));
      return Returned;
    }

    /** `unpersist($id)`: reload a session that is not resident; delete its file when it cannot be read. */
    method Unpersist(id: string) returns (result: LoadResult)
      requires Valid()
      modifies this
      ensures Valid() && CurrentConfig() == old(CurrentConfig())
      ensures (View(), result) == UnpersistView(old(View()), id, CurrentConfig())
    {
      if id in beans {
        return Returned;
      }
      var filename := settings.GetSessionFilePrefix().s + id;
      var pathname := GetSessionSavePath(Some(filename));
      assert pathname == SessionFile(CurrentConfig(), id);
      result := LoadSessionFromFile(pathname);
      if result == NotReadable {
        ghost var loaded := View();
        var _ := RemoveSessionFile(pathname);
        assert View() == RemoveFile(loaded, pathname);
        result := Returned;
      }
    }

    /** `initialize()` over the candidate files the session filter yields, in order. */
    method Initialize(candidates: seq<string>) returns (result: LoadResult)
      requires Valid()
      modifies this
      ensures Valid() && CurrentConfig() == old(CurrentConfig())
      ensures (View(), result) == InitializeView(old(View()), candidates, CurrentConfig())
    {
      ghost var cfg := CurrentConfig();
      ghost var start := View();
      for k := 0 to |candidates|
        invariant Valid() && CurrentConfig() == cfg
        invariant (View(), Returned) == InitializeView(start, candidates[..k], cfg)
      {
        assert candidates[..k + 1][..k] == candidates[..k];
        var path := candidates[k];
        var loaded := LoadSessionFromFile(path);
        if loaded == NotReadable {
          ghost var afterLoad := View();
          var _ := RemoveSessionFile(path);
          assert View() == RemoveFile(afterLoad, path);
        } else if loaded == FatalError {
          InitializeStopsAtFatal(start, candidates, k + 1, cfg);
          return FatalError;
        }
      }
      assert candidates[..|candidates|] == candidates;
      return Returned;
    }
  }
}
