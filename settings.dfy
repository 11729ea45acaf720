/**
 * CodePushSettingsManager.swift: the records the client keeps in `UserDefaults`, under keys
 * prefixed with the application's name: the list of failed updates, oldest first, and the
 * update waiting to be run.
 */
module Settings {
  import opened Optionals
  import opened Errors
  import opened Results
  import opened DataContracts

  /**
   * A string stored in `UserDefaults`, seen through the JSON decoder: empty, the encoding of
   * a failed-updates list or of a pending-update record, or something neither decodes.
   */
  datatype Setting = Blank | FailedList(failed: seq<Package>) | PendingRecord(pending: PendingUpdate) | Garbled

  type Defaults = map<string, Setting>

  const FailedUpdatesKey: string := "CodePushFailedUpdates"
  const PendingUpdateKey: string := "CodePushPendingUpdate"

  /** getAppSpecificPrefix: `<appName>-`, or nothing without an application name. */
  function AppSpecificPrefix(appName: Option<string>): string
  {
    if appName.Some? then appName.value + "-" else ""
  }

  /** The `UserDefaults` key of one of the two records for an application. */
  function StorageKey(appName: Option<string>, key: string): string
  {
    AppSpecificPrefix(appName) + key
  }

  /** The two record keys. */
  predicate IsRecordKey(key: string)
  {
    key == FailedUpdatesKey || key == PendingUpdateKey
  }

  /** Two applications, or the two records of one application, never share a storage key. */
  lemma StorageKeyInjective(app1: Option<string>, app2: Option<string>, key1: string, key2: string)
    requires IsRecordKey(key1) && IsRecordKey(key2)
    ensures StorageKey(app1, key1) == StorageKey(app2, key2) <==> app1 == app2 && key1 == key2
  {
    var p1, p2 := AppSpecificPrefix(app1), AppSpecificPrefix(app2);
    if StorageKey(app1, key1) == StorageKey(app2, key2) {
      var s := StorageKey(app1, key1);
      assert |p1| == |p2|;
      assert p1 == s[..|p1|] == p2;
      assert key1 == s[|p1|..] == key2;
      if app1.Some? && app2.Some? {
        assert app1.value == p1[..|p1| - 1] == app2.value;
      }
    }
  }

  /**
   * The failed-updates list a stored value holds: none when the key is absent or empty; the
   * decoded list; none, after the value has been reset, when it does not decode as a list.
   */
  function FailedUpdatesIn(defaults: Defaults, key: string): seq<Package>
  {
    if key in defaults && defaults[key].FailedList? then defaults[key].failed else []
  }

  /** A stored value that getFailedUpdates resets to the encoding of the empty list. */
  predicate NeedsReset(defaults: Defaults, key: string)
  {
    key in defaults && (defaults[key].PendingRecord? || defaults[key].Garbled?)
  }

  /** The pending-update record a stored value holds; a value that does not decode is an error. */
  function PendingIn(defaults: Defaults, key: string): (r: Result<Option<PendingUpdate>>)
    ensures r == Success(None) <==> key !in defaults || defaults[key].Blank?
    ensures r.Success? && r.value.Some? <==> key in defaults && defaults[key].PendingRecord?
    ensures r.Success? && r.value.Some? ==> r.value.value == defaults[key].pending
    ensures r.Failure? ==> r.error == Decode
  {
    if key !in defaults || defaults[key].Blank? then Success(None)
    else if defaults[key].PendingRecord? then Success(Some(defaults[key].pending))
    else Failure(Decode)
  }

  /** Some entry of the list is the failed update with hash `packageHash`. */
  predicate ListsFailed(failed: seq<Package>, packageHash: string)
  {
    exists i :: 0 <= i < |failed| && failed[i].packageHash == Some(packageHash)
  }

  /** The answer of existsFailedUpdate: never for the empty hash, else whether the list names it. */
  predicate FailedIn(failed: seq<Package>, packageHash: string)
  {
    packageHash != "" && ListsFailed(failed, packageHash)
  }

  /** The answer of isPendingUpdate for a decoded pending record. */
  predicate PendingMatches(pending: Option<PendingUpdate>, packageHash: Option<string>)
  {
    pending.Some? && !pending.value.pendingUpdateIsLoading &&
    packageHash.Some? && pending.value.pendingUpdateHash == packageHash.value
  }

  /** As written, isPendingUpdate(nil) never reports a pending update, whatever is stored. */
  lemma NilIsNeverPending(pending: Option<PendingUpdate>)
    ensures !PendingMatches(pending, None)
  {
  }

  /** A hash names a pending update exactly when the record is for it and it is not being loaded. */
  lemma PendingMatchesExactly(pending: Option<PendingUpdate>, packageHash: string)
    ensures PendingMatches(pending, Some(packageHash)) <==>
              pending == Some(PendingUpdate(packageHash, false))
  {
  }

  /** A saved failed update with a non-empty hash is reported by existsFailedUpdate, and earlier ones still are. */
  lemma SaveFailedThenExists(failed: seq<Package>, failedPackage: Package, packageHash: string)
    ensures failedPackage.packageHash == Some(packageHash) && packageHash != "" ==> FailedIn(failed + [failedPackage], packageHash)
    ensures FailedIn(failed, packageHash) ==> FailedIn(failed + [failedPackage], packageHash)
  {
    var saved := failed + [failedPackage];
    if failedPackage.packageHash == Some(packageHash) {
      assert saved[|failed|] == failedPackage;
    }
    if ListsFailed(failed, packageHash) {
      var i :| 0 <= i < |failed| && failed[i].packageHash == Some(packageHash);
      assert saved[i] == failed[i];
    }
  }

  /** Saving a pending record and reading it back gives the record; the failed list is untouched. */
  lemma SavePendingThenGet(defaults: Defaults, appName: Option<string>, update: PendingUpdate)
    ensures var saved := defaults[StorageKey(appName, PendingUpdateKey) := PendingRecord(update)];
            PendingIn(saved, StorageKey(appName, PendingUpdateKey)) == Success(Some(update)) &&
            FailedUpdatesIn(saved, StorageKey(appName, FailedUpdatesKey)) == FailedUpdatesIn(defaults, StorageKey(appName, FailedUpdatesKey))
  {
    StorageKeyInjective(appName, appName, PendingUpdateKey, FailedUpdatesKey);
  }

  /** After removing the pending record there is none; the failed list is untouched. */
  lemma RemovePendingThenGet(defaults: Defaults, appName: Option<string>)
    ensures var removed := defaults - {StorageKey(appName, PendingUpdateKey)};
            PendingIn(removed, StorageKey(appName, PendingUpdateKey)) == Success(None) &&
            FailedUpdatesIn(removed, StorageKey(appName, FailedUpdatesKey)) == FailedUpdatesIn(defaults, StorageKey(appName, FailedUpdatesKey))
  {
    StorageKeyInjective(appName, appName, PendingUpdateKey, FailedUpdatesKey);
  }

  /** One application's records are not changed by another application's writes. */
  lemma AppsIsolated(defaults: Defaults, app1: Option<string>, app2: Option<string>, key1: string, key2: string, value: Setting)
    requires app1 != app2 && IsRecordKey(key1) && IsRecordKey(key2)
    ensures var written := defaults[StorageKey(app2, key2) := value];
            FailedUpdatesIn(written, StorageKey(app1, key1)) == FailedUpdatesIn(defaults, StorageKey(app1, key1)) &&
            PendingIn(written, StorageKey(app1, key1)) == PendingIn(defaults, StorageKey(app1, key1))
  {
    StorageKeyInjective(app1, app2, key1, key2);
  }

  class SettingsManager {
    /** The configured application name, if any; it prefixes every key. */
    const appName: Option<string>
    /** `UserDefaults.standard`. */
    var defaults: Defaults

    constructor(appName: Option<string>, defaults: Defaults)
      ensures this.appName == appName && this.defaults == defaults
    {
      this.appName := appName;
      this.defaults := defaults;
    }

    function FailedKey(): string
    {
      StorageKey(appName, FailedUpdatesKey)
    }

    function PendingKey(): string
    {
      StorageKey(appName, PendingUpdateKey)
    }

    /** The failed updates as stored now. */
    function FailedUpdates(): seq<Package>
      reads this
    {
      FailedUpdatesIn(defaults, FailedKey())
    }

    /** getFailedUpdates: the stored list; a value that does not decode is reset to the empty list. */
    method GetFailedUpdates() returns (failed: seq<Package>)
      modifies this
      ensures failed == FailedUpdatesIn(old(defaults), FailedKey())
      ensures defaults == if NeedsReset(old(defaults), FailedKey()) then old(defaults)[FailedKey() := FailedList([])] else old(defaults)
      ensures FailedUpdates() == failed
      ensures GetPendingUpdate() == old(GetPendingUpdate())
    {
      StorageKeyInjective(appName, appName, PendingUpdateKey, FailedUpdatesKey);
      var key := FailedKey();
      if key !in defaults || defaults[key].Blank? {
        return [];
      }
      if defaults[key].FailedList? {
        return defaults[key].failed;
      }
      defaults := defaults[key := FailedList([])];
      failed := [];
    }

    /** getPendingUpdate. */
    function GetPendingUpdate(): Result<Option<PendingUpdate>>
      reads this
    {
      PendingIn(defaults, PendingKey())
    }

    /**
     * existsFailedUpdate: whether a failed update with this hash is on the list, looking
     * only for a non-empty hash and a non-empty list.
     */
    method ExistsFailedUpdate(packageHash: string) returns (found: bool)
      modifies this
      ensures found <==> FailedIn(FailedUpdatesIn(old(defaults), FailedKey()), packageHash)
      ensures defaults == if NeedsReset(old(defaults), FailedKey()) then old(defaults)[FailedKey() := FailedList([])] else old(defaults)
      ensures FailedUpdates() == old(FailedUpdates()) && GetPendingUpdate() == old(GetPendingUpdate())
    {
      var failedUpdates := GetFailedUpdates();
      if packageHash != "" && |failedUpdates| > 0 {
        var i := 0;
        while i < |failedUpdates|
          invariant 0 <= i <= |failedUpdates|
          invariant forall j :: 0 <= j < i ==> failedUpdates[j].packageHash != Some(packageHash)
        {
          if failedUpdates[i].packageHash == Some(packageHash) {
            return true;
          }
          i := i + 1;
        }
      }
      return false;
    }

    /** isPendingUpdate: a pending record exists, is not loading, and is for this (non-nil) hash. */
    function IsPendingUpdate(packageHash: Option<string>): (r: Result<bool>)
      reads this
      ensures r.Failure? <==> GetPendingUpdate().Failure?
      ensures r.Success? ==> (r.value <==> packageHash.Some? && GetPendingUpdate() == Success(Some(PendingUpdate(packageHash.value, false))))
    {
      match GetPendingUpdate()
      case Failure(e) => Failure(e)
      case Success(pending) =>
        PendingMatchesExactly(pending, if packageHash.Some? then packageHash.value else "");
        Success(PendingMatches(pending, packageHash))
    }

    /** removeFailedUpdates. */
    method RemoveFailedUpdates()
      modifies this
      ensures defaults == old(defaults) - {FailedKey()}
    {
      defaults := defaults - {FailedKey()};
    }

    /** removePendingUpdate. */
    method RemovePendingUpdate()
      modifies this
      ensures defaults == old(defaults) - {PendingKey()}
      ensures GetPendingUpdate() == Success(None)
      ensures FailedUpdates() == old(FailedUpdates())
    {
      defaults := defaults - {PendingKey()};
      RemovePendingThenGet(old(defaults), appName);
    }

    /** saveFailedUpdate: append the package to the list of failed updates. */
    method SaveFailedUpdate(failedPackage: Package)
      modifies this
      ensures defaults == old(defaults)[FailedKey() := FailedList(FailedUpdatesIn(old(defaults), FailedKey()) + [failedPackage])]
      ensures FailedUpdates() == FailedUpdatesIn(old(defaults), FailedKey()) + [failedPackage]
      ensures GetPendingUpdate() == old(GetPendingUpdate())
    {
      var failedUpdates := GetFailedUpdates();
      failedUpdates := failedUpdates + [failedPackage];
      defaults := defaults[FailedKey() := FailedList(failedUpdates)];
      StorageKeyInjective(appName, appName, PendingUpdateKey, FailedUpdatesKey);
    }

    /** savePendingUpdate. */
    method SavePendingUpdate(pendingUpdate: PendingUpdate)
      modifies this
      ensures defaults == old(defaults)[PendingKey() := PendingRecord(pendingUpdate)]
      ensures GetPendingUpdate() == Success(Some(pendingUpdate))
      ensures FailedUpdates() == old(FailedUpdates())
    {
      defaults := defaults[PendingKey() := PendingRecord(pendingUpdate)];
      SavePendingThenGet(old(defaults), appName, pendingUpdate);
    }
  }
}
