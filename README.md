# Stateful session bean persistence (appserver.io PersistenceContainer)

This project models, in Dafny, how the appserver.io persistence container
keeps stateful session beans (SFSBs) across idle periods and restarts:

- **`StatefulSessionBeanWrapper`** (`wrapper.dfy`, module `SessionBeanWrapper`):
  the snapshot of one bean. It holds the session id, the bean's class name
  and the persistable properties. A `Thread` or `Stackable` value is never
  copied. The wrapper's checksum is a digest of the id and the data, and it
  can rebuild a fresh bean of the stored class. `isset` decides which
  declared properties take a stored value.
- **`DefaultStatefulSessionBeanSettings`** (`settings.dfy`, module
  `StatefulSessionBeanSettings`): a property bag. The constructor writes
  four defaults: maximum age 1440, inactivity timeout 1440, prefix `sfsb_`
  and garbage-collection probability 0.1. There is no save path until a
  setter writes one. `mergeWithParams` overwrites only properties that
  already exist.
- **`FilesystemPersistenceManager`** (`persistence_manager.dfy`, module
  `FilesystemPersistence`, class `Manager`): the daemon's work on its
  registry of beans, its checksum index and the session directory.
  - `persist` writes a changed session through.
  - It passivates a session that is unchanged and idle: it writes the file
    and drops the session from memory.
  - It leaves every other session alone.
  - `initialize` and `unpersist` load session files back. A file that
    exists but cannot be read is deleted.

The manager's class state is tied to a value view (`StoreView`) by
`Manager.View()`. Every method is proved against a function on that view,
in `persistence_policy.dfy` (module `PersistencePolicy`). The properties the
manager promises are lemmas about those functions:

- one step of the scan only touches its own session;
- the scan's result does not depend on order;
- the checksums of resident sessions are current after a scan;
- a second scan with no changes writes nothing;
- a passivated session is recovered intact;
- `initialize` only deletes files and stops at a fatal error.

PHP's loose `== null` (true for `null` and `""`), `null` in a
concatenation, and `isset` are modelled explicitly in `nullable.dfy` and
`wrapper.dfy`.

Where the code and its documentation disagree, the model follows the code:

- The documentation of `initialize` says a file with corrupt data is
  deleted. The code deletes a file only when `file_get_contents` fails.
- Contents that `unserialize` rejects, or a stored class that cannot be
  instantiated, end in a fatal error (`LoadResult.FatalError`). That error
  escapes the `catch` and ends `initialize`.
- The idle value is computed exactly as
  `FilesystemPersistenceManager.php:341` writes it:
  `(registered expiry - lifetime) - now`.
  - While the registered expiry is at most one lifetime after now, this
    value is never positive (`NoPassivationBeforeExpiry`).
  - So with a non-negative timeout such a session is never passivated.
  - The registry that supplies the expiry is not part of this model, so no
    corrected formula is substituted.
- An idle value equal to the timeout passes neither strict comparison. The
  session then falls through every branch and is kept (`Decide`).

## Model

| member | source | states |
|---|---|---|
| Nullable.Lookup | src/AppserverIo/Appserver/PersistenceContainer/FilesystemPersistenceManager.php:330-334 | the stored checksum is null exactly when the index has no entry for the id, and is that entry otherwise |
| SessionBeanWrapper.Wrapper.constructor | src/AppserverIo/Appserver/PersistenceContainer/StatefulSessionBeanWrapper.php:61-66 | the id is set only when the argument is not loosely null (null and "" leave it null); type null, data empty |
| SessionBeanWrapper.Wrapper.SetId | src/AppserverIo/Appserver/PersistenceContainer/StatefulSessionBeanWrapper.php:73-86 | getId returns what was set; type and data unchanged |
| SessionBeanWrapper.Wrapper.SetData | src/AppserverIo/Appserver/PersistenceContainer/StatefulSessionBeanWrapper.php:93-106 | getData returns what was set; id and type unchanged |
| SessionBeanWrapper.Wrapper.SetType | src/AppserverIo/Appserver/PersistenceContainer/StatefulSessionBeanWrapper.php:113-126 | getType returns what was set; id and data unchanged |
| SessionBeanWrapper.Wrapper.FromStatefulSessionBean | src/AppserverIo/Appserver/PersistenceContainer/StatefulSessionBeanWrapper.php:174-203 | type becomes the bean's class; data becomes the old data overwritten by exactly the bean's non-Thread, non-Stackable properties; id unchanged |
| SessionBeanWrapper.Wrapper.ToStatefulSessionBean | src/AppserverIo/Appserver/PersistenceContainer/StatefulSessionBeanWrapper.php:144-165 | fails exactly when the stored class cannot be instantiated; otherwise a fresh bean of that class whose declared properties take the stored non-null values and keep their defaults otherwise |
| SessionBeanWrapper.Wrapper.Unserialized | src/AppserverIo/Appserver/PersistenceContainer/FilesystemPersistenceManager.php:505 | the unmarshalled wrapper holds exactly the snapshot the marshaller returned |
| SessionBeanWrapper.ChecksumIgnoresType | src/AppserverIo/Appserver/PersistenceContainer/StatefulSessionBeanWrapper.php:133-136 | the checksum depends on the id and the data only, never on the type |
| SessionBeanWrapper.ChecksumNullIdAsEmpty | src/AppserverIo/Appserver/PersistenceContainer/StatefulSessionBeanWrapper.php:133-136 | a null id and an empty id give the same checksum |
| SessionBeanWrapper.WrapperForChecksum | src/AppserverIo/Appserver/PersistenceContainer/FilesystemPersistenceManager.php:337-338 | a wrapper built for a session id has the checksum digest(id, persistable properties) |
| SessionBeanWrapper.SafeFieldsExact | src/AppserverIo/Appserver/PersistenceContainer/StatefulSessionBeanWrapper.php:184-202 | a property is stored if and only if its value is neither a Thread nor a Stackable, and then unchanged |
| SessionBeanWrapper.RestoreDeclaredOnly | src/AppserverIo/Appserver/PersistenceContainer/StatefulSessionBeanWrapper.php:155-161 | a restored bean has exactly its class's declared properties; stored names that are not declared are ignored |
| SessionBeanWrapper.RestoreAssignsIsset | src/AppserverIo/Appserver/PersistenceContainer/StatefulSessionBeanWrapper.php:157-160 | a declared property takes the stored value exactly when one is present and not null, and keeps its default otherwise |
| SessionBeanWrapper.SnapshotRoundTrip | src/AppserverIo/Appserver/PersistenceContainer/StatefulSessionBeanWrapper.php:144-203 | toStatefulSessionBean after fromStatefulSessionBean gives back the same class and properties, when the class declares exactly those properties and none holds a Thread, Stackable or null |
| StatefulSessionBeanSettings.Settings.constructor | src/AppserverIo/Appserver/PersistenceContainer/DefaultStatefulSessionBeanSettings.php:68-75 | exactly four properties: maximum age 1440, inactivity timeout 1440, prefix "sfsb_", probability 0.1; no save path; so the lifetime reads 1440 |
| StatefulSessionBeanSettings.Settings.SetInactivityTimeout | src/AppserverIo/Appserver/PersistenceContainer/DefaultStatefulSessionBeanSettings.php:84-97 | the getter returns the value set; only that property changes |
| StatefulSessionBeanSettings.Settings.SetGarbageCollectionProbability | src/AppserverIo/Appserver/PersistenceContainer/DefaultStatefulSessionBeanSettings.php:106-119 | the getter returns the value set; only that property changes |
| StatefulSessionBeanSettings.Settings.SetSessionMaximumAge | src/AppserverIo/Appserver/PersistenceContainer/DefaultStatefulSessionBeanSettings.php:128-153 | the getter and the deprecated lifetime getter both return the value set; only that property changes |
| StatefulSessionBeanSettings.Settings.SetSessionFilePrefix | src/AppserverIo/Appserver/PersistenceContainer/DefaultStatefulSessionBeanSettings.php:162-175 | the getter returns the value set; only that property changes |
| StatefulSessionBeanSettings.Settings.SetSessionSavePath | src/AppserverIo/Appserver/PersistenceContainer/DefaultStatefulSessionBeanSettings.php:184-197 | the getter returns the value set; only that property changes |
| StatefulSessionBeanSettings.Settings.MergeWithParams | src/AppserverIo/Appserver/PersistenceContainer/DefaultStatefulSessionBeanSettings.php:206-214 | the properties become the merge of the old properties with the params |
| StatefulSessionBeanSettings.MergeOverwritesExistingOnly | src/AppserverIo/Appserver/PersistenceContainer/DefaultStatefulSessionBeanSettings.php:209-213 | merging creates no property, and overwrites an existing one exactly when the params name it |
| StatefulSessionBeanSettings.MergeIdempotent | src/AppserverIo/Appserver/PersistenceContainer/DefaultStatefulSessionBeanSettings.php:206-214 | merging the same params twice is the same as merging them once |
| StatefulSessionBeanSettings.MergeEmpty | src/AppserverIo/Appserver/PersistenceContainer/DefaultStatefulSessionBeanSettings.php:206-214 | merging no params changes nothing |
| StatefulSessionBeanSettings.SavePathNeedsSetter | src/AppserverIo/Appserver/PersistenceContainer/DefaultStatefulSessionBeanSettings.php:68-75 | after the constructor alone, a merged save path is dropped; once a setter has created it, the merge overwrites it |
| PersistencePolicy.SavePath | src/AppserverIo/Appserver/PersistenceContainer/FilesystemPersistenceManager.php:382-394 | the save path alone when the argument is loosely null; otherwise the save path, one separator, then the argument |
| PersistencePolicy.SessionFileInjective | src/AppserverIo/Appserver/PersistenceContainer/FilesystemPersistenceManager.php:443-444 | different session ids never map to the same session file |
| PersistencePolicy.Decide | src/AppserverIo/Appserver/PersistenceContainer/FilesystemPersistenceManager.php:343-371 | write through if and only if the stored checksum differs from (or is missing for) the current one; passivate if and only if equal and idle > timeout; keep if and only if equal and idle <= timeout |
| PersistencePolicy.NoPassivationBeforeExpiry | src/AppserverIo/Appserver/PersistenceContainer/FilesystemPersistenceManager.php:341-349 | with the idle value as written, a session whose expiry is at most one lifetime ahead is never passivated under a non-negative timeout |
| PersistencePolicy.NullBeanSkipped | src/AppserverIo/Appserver/PersistenceContainer/FilesystemPersistenceManager.php:323-328 | a null registry entry is skipped: nothing changes |
| PersistencePolicy.UnchangedAndActiveKept | src/AppserverIo/Appserver/PersistenceContainer/FilesystemPersistenceManager.php:344-346 | unchanged checksum and idle value not above the timeout: nothing changes |
| PersistencePolicy.UnchangedAndIdlePassivated | src/AppserverIo/Appserver/PersistenceContainer/FilesystemPersistenceManager.php:349-360 | unchanged and idle: the session file gets the marshalled wrapper, and the session leaves the registry and the index |
| PersistencePolicy.ChangedWrittenThrough | src/AppserverIo/Appserver/PersistenceContainer/FilesystemPersistenceManager.php:363-370 | changed or never written: the session file gets the marshalled wrapper, and the index gets its checksum; the registry is unchanged |
| PersistencePolicy.StepFrame | src/AppserverIo/Appserver/PersistenceContainer/FilesystemPersistenceManager.php:321-371 | handling one session leaves every other session's entry, checksum and file untouched |
| PersistencePolicy.StepOtherFiles | src/AppserverIo/Appserver/PersistenceContainer/FilesystemPersistenceManager.php:351-368 | handling one session writes no file other than its own session file |
| PersistencePolicy.StepKeepsChecksumCurrent | src/AppserverIo/Appserver/PersistenceContainer/FilesystemPersistenceManager.php:362-370 | a session left resident has, in the index, the checksum of its current wrapper |
| PersistencePolicy.ScanAt | src/AppserverIo/Appserver/PersistenceContainer/FilesystemPersistenceManager.php:321-372 | after a scan, each scanned session is as its own step left it, whatever the order, and unscanned sessions are untouched |
| PersistencePolicy.ScanOtherFiles | src/AppserverIo/Appserver/PersistenceContainer/FilesystemPersistenceManager.php:321-372 | a scan writes no file other than the scanned sessions' files |
| PersistencePolicy.ScanKeepsChecksumsCurrent | src/AppserverIo/Appserver/PersistenceContainer/FilesystemPersistenceManager.php:362-370 | after a scan, every scanned session still resident has its current checksum in the index |
| PersistencePolicy.ScanStable | src/AppserverIo/Appserver/PersistenceContainer/FilesystemPersistenceManager.php:343-346 | a scan over sessions with current checksums and idle values not above the timeout changes nothing |
| PersistencePolicy.SecondScanWritesNothing | src/AppserverIo/Appserver/PersistenceContainer/FilesystemPersistenceManager.php:311-373 | write-through minimality: a second scan with no bean changed and no session idle writes no file and changes nothing |
| PersistencePolicy.LoadMissingFile | src/AppserverIo/Appserver/PersistenceContainer/FilesystemPersistenceManager.php:494-497 | loading a path that is not a file returns normally and changes nothing |
| PersistencePolicy.LoadUnreadableThrows | src/AppserverIo/Appserver/PersistenceContainer/FilesystemPersistenceManager.php:499-502 | loading an unreadable file throws SessionDataNotReadableException and changes nothing |
| PersistencePolicy.LoadRegistersUnderWrapperId | src/AppserverIo/Appserver/PersistenceContainer/FilesystemPersistenceManager.php:504-515 | a loaded wrapper registers its rebuilt bean and its checksum under the id stored in the wrapper; files unchanged |
| PersistencePolicy.UnpersistResident | src/AppserverIo/Appserver/PersistenceContainer/FilesystemPersistenceManager.php:441 | unpersist of a session already in the registry does nothing |
| PersistencePolicy.RecoverDeletesUnreadable | src/AppserverIo/Appserver/PersistenceContainer/FilesystemPersistenceManager.php:450-453 | an unreadable session file is deleted and nothing else changes |
| PersistencePolicy.InitializeOnlyDeletesFiles | src/AppserverIo/Appserver/PersistenceContainer/FilesystemPersistenceManager.php:406-426 | initialize never creates or rewrites a file; it may only delete one |
| PersistencePolicy.InitializeRemovesUnreadable | src/AppserverIo/Appserver/PersistenceContainer/FilesystemPersistenceManager.php:416-425 | when initialize completes, no unreadable candidate file remains |
| PersistencePolicy.InitializeStopsAtFatal | src/AppserverIo/Appserver/PersistenceContainer/FilesystemPersistenceManager.php:416-425 | a fatal error ends initialize; later candidates are never looked at |
| PersistencePolicy.PassivatedSessionIsRecoverable | src/AppserverIo/Appserver/PersistenceContainer/FilesystemPersistenceManager.php:436-454 | with a round-tripping marshaller and a plain bean, unpersist after passivation restores the registry and the checksum index exactly |
| FilesystemPersistence.Manager.WrapBean | src/AppserverIo/Appserver/PersistenceContainer/FilesystemPersistenceManager.php:336-338 | a fresh wrapper holding the session id, the bean's class and its persistable properties |
| FilesystemPersistence.Manager.PersistSession | src/AppserverIo/Appserver/PersistenceContainer/FilesystemPersistenceManager.php:321-371 | one iteration of persist changes the state as Step says; no bean reference is replaced |
| FilesystemPersistence.Manager.Persist | src/AppserverIo/Appserver/PersistenceContainer/FilesystemPersistenceManager.php:311-373 | each session resident at the start is handled as its own step says and every other session is untouched; no file outside those sessions' files changes; resident sessions end with current checksums |
| FilesystemPersistence.Manager.RemoveSessionFile | src/AppserverIo/Appserver/PersistenceContainer/FilesystemPersistenceManager.php:475-481 | returns true exactly when the file existed; afterwards it does not exist; nothing else changes |
| FilesystemPersistence.Manager.LoadSessionFromFile | src/AppserverIo/Appserver/PersistenceContainer/FilesystemPersistenceManager.php:491-516 | the new state and outcome are LoadView's; any bean it registers, under a new or an existing id, is fresh |
| FilesystemPersistence.Manager.Unpersist | src/AppserverIo/Appserver/PersistenceContainer/FilesystemPersistenceManager.php:436-454 | the new state and outcome are UnpersistView's: nothing for a resident session, otherwise load its file, deleting it when unreadable |
| FilesystemPersistence.Manager.Initialize | src/AppserverIo/Appserver/PersistenceContainer/FilesystemPersistenceManager.php:406-426 | the new state and outcome are InitializeView's over the candidate files in order |

## Left out

- `StandardGarbageCollector` is not part of this model. Its expiry logic relies on collaborators that are not modelled.
- `SessionFilter` and `GlobIterator`: `initialize` takes the candidate file paths, already filtered, as a parameter.
- The marshaller (`StandardSessionMarshaller`) is a pair of function values (`Codec`). A round trip is only a hypothesis (`RoundTrips`) where a lemma needs it.
- `md5(id . serialize(data))` is an arbitrary function of the id text and the data (`Digest`).
  - Key order of the data is not modelled.
  - A wrapper whose data was never written (`null`) is treated like one with empty data.
- Reflection and `new $className()`: a table of declared properties and defaults per class (`ClassTable`) stands in for them. Private, static and inherited property visibility is not modelled.
- The clock (`time()`), the registry's per-session expiry (`getLifetime($id)`) and the registry's iteration order are parameters. `Persist` picks its sessions in an arbitrary order, and its contract holds for every order.
- Daemon plumbing (`run`, `bootstrap`, the sleep loop, logging, user/group/umask changes) and concurrent access to the registry are not modelled. The scan is sequential.
- Failures of `file_put_contents` and `unlink` are not modelled: writes and deletions succeed.
- `FilesystemPersistence.Manager`: requires the settings to have integer timeouts and maximum age, and string prefix and save path (`Settings.Configured`). PHP type juggling of other values and 64-bit integer overflow in the idle value are not modelled.
- The registry's `add`, `set` and `remove` are taken as map update and removal. A second `add` under an existing id overwrites it.
- `DIRECTORY_SEPARATOR` is fixed to `/`.
- The garbage-collection probability is kept as a number that nothing reads.
- References to beans other than the registry's own are not modelled.
