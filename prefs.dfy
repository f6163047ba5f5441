/** A scene's preferences: a store of named integers under the scene's own
    name, usable only once it has been opened. */
module Prefs {

  /** What reading `name` gives: the stored value when the store is open
      and holds it, otherwise the value the caller already had. */
  function Read(isOpen: bool, store: map<string, int>, name: string, current: int): int
  {
    if isOpen && name in store then store[name] else current
  }

  /** The store after writing `value` under `name`: unchanged while the
      store is closed. */
  function Written(isOpen: bool, store: map<string, int>, name: string, value: int): map<string, int>
  {
    if isOpen then store[name := value] else store
  }

  /** Reading back what was written to an open store gives it back. */
  lemma ReadAfterWrite(store: map<string, int>, name: string, value: int, current: int)
    ensures Read(true, Written(true, store, name, value), name, current) == value
  {
  }

  /** A write touches no other name. */
  lemma WriteIsolated(isOpen: bool, store: map<string, int>, name: string, other: string, value: int, current: int)
    requires other != name
    ensures Read(isOpen, Written(isOpen, store, name, value), other, current) == Read(isOpen, store, other, current)
  {
  }

  /** Nothing written to a closed store is ever read back. */
  lemma ClosedStoreReadsCurrent(store: map<string, int>, name: string, value: int, current: int)
    ensures Read(false, Written(false, store, name, value), name, current) == current
  {
  }

  /** The preference handle of one scene and what it holds. */
  class Preferences {
    var isOpen: bool
    var store: map<string, int>

    constructor (store: map<string, int>)
      ensures !isOpen && this.store == store
    {
      isOpen := false;
      this.store := store;
    }

    /** `initPrefs`: true only when this call opens the handle; whether the
      store can be opened is an input. */
    method InitPrefs(storeOpens: bool) returns (newlyOpen: bool)
      modifies this`isOpen
      ensures old(isOpen) ==> !newlyOpen && isOpen
      ensures !old(isOpen) ==> newlyOpen == storeOpens && isOpen == storeOpens
    {
      if isOpen {
        return false;
      }
      isOpen := storeOpens;
      newlyOpen := isOpen;
    }

    /** `getPref`: a missing name or a closed store leaves the value as it
      was. */
    method GetPref(name: string, current: int) returns (value: int)
      ensures value == Read(isOpen, store, name, current)
      ensures !isOpen ==> value == current
    {
      value := current;
      if !isOpen {
        return;
      }
      if name in store {
        value := store[name];
      }
    }

    /** `setPref`: ignored while the store is closed. */
    method SetPref(name: string, value: int)
      modifies this`store
      ensures store == Written(isOpen, old(store), name, value)
    {
      if !isOpen {
        return;
      }
      store := store[name := value];
    }
  }
}
