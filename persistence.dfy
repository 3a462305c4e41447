/**
 * The browser's local storage, as the application uses it: a map from key to
 * the snapshot last written under it. Serialisation is taken as the identity,
 * so a snapshot is the sequence of records itself.
 */
module Persistence {
  import opened Wrappers
  import opened Records

  /** The key of the user directory's snapshot. */
  const UsersKey: string := "users"
  /** The key of the liked-users registry's snapshot. */
  const LikedUsersKey: string := "likedUsers"

  /** What `getItem(key)` yields: the snapshot, or nothing when the key was never written. */
  function Lookup(entries: map<string, seq<User>>, key: string): (v: Option<seq<User>>)
  {
    if key in entries then Some(entries[key]) else None
  }

  /** A read returns the last snapshot written under its key; a write leaves the reads of
      every other key as they were. */
  lemma ReadAfterWrite(entries: map<string, seq<User>>, key: string, value: seq<User>, other: string)
    ensures Lookup(entries[key := value], other) == if other == key then Some(value) else Lookup(entries, other)
  {
  }

  class LocalStorage {
    var entries: map<string, seq<User>>

    constructor (initial: map<string, seq<User>>)
      ensures entries == initial
    {
      entries := initial;
    }

    method GetItem(key: string) returns (v: Option<seq<User>>)
      ensures v == Lookup(entries, key)
    {
      v := if key in entries then Some(entries[key]) else None;
    }

    /** Overwrites the whole snapshot under `key`; every other key keeps its snapshot. */
    method SetItem(key: string, value: seq<User>)
      modifies this
      ensures entries == old(entries)[key := value]
    {
      entries := entries[key := value];
    }
  }
}
