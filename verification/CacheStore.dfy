/** One shard of the content-addressed cache: atomic directory operations, the two-rename
    publication, and recovery after a crash at any of its steps. */
module CacheStore {
  import opened Checked
  import opened Buffers

  type Key = nat
  type Token = nat

  /** Directory names of a shard.  `Final` is the published entry of a key. */
  datatype Name =
    | Final(key: Key)
    | Temp(key: Key, token: Token)
    | Previous(key: Key, token: Token)
    | Evicted(key: Key, token: Token)
    | Reap(key: Key, token: Token)
    | Lease(key: Key)

  datatype Envelope = Envelope(
    version: nat,
    namespace: nat,
    key: Key,
    compatibility: string,
    payloadLen: nat,
    payloadDigest: nat)

  /** An entry directory: its two files, either of which may be absent. */
  datatype Entry = Entry(envelope: Option<Envelope>, payload: Option<seq<byte>>)

  type Directory = map<Name, Entry>

  class Shard {
    var entries: Directory

    constructor (entries: Directory)
      ensures this.entries == entries
    {
      this.entries := entries;
    }

    /** An atomic directory rename: it needs the source and a free target. */
    method Rename(from: Name, to: Name) returns (done: bool)
      modifies this
      ensures done <==> from in old(entries) && to !in old(entries)
      ensures entries == RenameIn(old(entries), from, to)
    {
      done := from in entries && to !in entries;
      if done {
        entries := entries[to := entries[from]] - {from};
      }
    }

    method RemoveAll(name: Name)
      modifies this
      ensures entries == old(entries) - {name}
    {
      entries := entries - {name};
    }

    /** Publishes a staged directory: the old entry moves aside, the staged one takes its name,
        and the old one is removed.  On failure the old entry is moved back. */
    method Publish(staged: Name, key: Key, token: Token) returns (r: Result<()>)
      requires staged.Temp? && Previous(key, token) !in entries
      modifies this
      ensures r.Ok? <==> staged in old(entries)
      ensures r.Ok? ==> entries == (old(entries) - {staged, Final(key)})[Final(key) := old(entries)[staged]]
      ensures r.Err? ==> entries == old(entries)
    {
      var previous := Previous(key, token);
      ghost var start := entries;
      var movedPrevious := Rename(Final(key), previous);
      var installed := Rename(staged, Final(key));
      if !installed {
        if movedPrevious {
          var _ := Rename(previous, Final(key));
        }
        assert entries == start;
        return Err(Integrity);
      }
      if movedPrevious {
        RemoveAll(previous);
      }
      assert entries == (start - {staged, Final(key)})[Final(key) := start[staged]];
      return Ok(());
    }

    /** One pass over the listed names of the shard.  A name other than a published one is removed
        exactly when it is listed, stale, and not a staging or replacement directory whose key
        has a live lease.  A published entry stays, and a missing one comes back exactly as the
        first removable replaced generation of its key in the listing. */
    method Recover(order: seq<Name>, stale: Name -> bool)
      modifies this
      ensures entries == RecoverAll(old(entries), order, stale)
      ensures forall name: Name :: !name.Final? ==>
                (name in entries <==>
                   name in old(entries)
                   && (name !in order || !stale(name)
                       || ((name.Temp? || name.Previous?) && Lease(name.key) in old(entries) && !stale(Lease(name.key)))))
                && (name in entries ==> entries[name] == old(entries)[name])
      ensures forall key: Key :: Final(key) in old(entries) ==>
                Final(key) in entries && entries[Final(key)] == old(entries)[Final(key)]
      ensures forall key: Key :: Lease(key) in old(entries) && !stale(Lease(key)) ==>
                (Final(key) in entries <==> Final(key) in old(entries))
      ensures forall key: Key :: Final(key) !in old(entries) && !(Lease(key) in old(entries) && !stale(Lease(key))) ==>
                RestoresFirst(old(entries), order, stale, key, entries)
    {
      var k := 0;
      while k < |order|
        invariant 0 <= k <= |order|
        invariant RecoverAll(old(entries), order, stale) == RecoverAll(entries, order[k..], stale)
      {
        assert order[k..][1..] == order[k + 1..];
        var name := order[k];
        if Recoverable(name) && name in entries && stale(name) && !Leased(entries, name, stale) {
          if name.Previous? {
            if Final(name.key) in entries {
              RemoveAll(name);
            } else {
              var _ := Rename(name, Final(name.key));
            }
          } else {
            RemoveAll(name);
          }
        }
        k := k + 1;
      }
      RecoverIsExact(old(entries), order, stale);
    }
  }

  // ---------- Recovery ----------

  predicate Recoverable(name: Name) {
    !name.Final?
  }

  /** A live writer lease protects staging and replacement directories of its key. */
  predicate Leased(d: Directory, name: Name, stale: Name -> bool) {
    (name.Temp? || name.Previous?) && Lease(name.key) in d && !stale(Lease(name.key))
  }

  function RecoverOne(d: Directory, name: Name, stale: Name -> bool): Directory {
    if !Recoverable(name) || name !in d || !stale(name) || Leased(d, name, stale) then d
    else if name.Previous? && Final(name.key) !in d then d[Final(name.key) := d[name]] - {name}
    else d - {name}
  }

  function RecoverAll(d: Directory, order: seq<Name>, stale: Name -> bool): Directory
    decreases |order|
  {
    if order == [] then d else RecoverAll(RecoverOne(d, order[0], stale), order[1..], stale)
  }

  /** A listed, stale replaced generation of the key. */
  predicate Replaced(d: Directory, order: seq<Name>, stale: Name -> bool, key: Key, i: nat) {
    i < |order| && order[i].Previous? && order[i].key == key && order[i] in d && stale(order[i])
  }

  /** The published entry in `r` is the first replaced generation in the listing, if there is one. */
  ghost predicate RestoresFirst(d: Directory, order: seq<Name>, stale: Name -> bool, key: Key, r: Directory) {
    (Final(key) in r <==> exists i: nat :: Replaced(d, order, stale, key, i))
    && forall i: nat :: Replaced(d, order, stale, key, i) && (forall j: nat :: j < i ==> !Replaced(d, order, stale, key, j)) ==>
         Final(key) in r && r[Final(key)] == d[order[i]]
  }

  /** Exactly which names stay: whatever the order and the staleness, what is not listed, not
      stale, or under a live lease. */
  lemma {:induction false} RecoverRemovesExactly(d: Directory, order: seq<Name>, stale: Name -> bool, name: Name)
    requires !name.Final?
    ensures name in RecoverAll(d, order, stale) <==>
              name in d
              && (name !in order || !stale(name)
                  || ((name.Temp? || name.Previous?) && Lease(name.key) in d && !stale(Lease(name.key))))
    ensures name in RecoverAll(d, order, stale) ==> RecoverAll(d, order, stale)[name] == d[name]
    decreases |order|
  {
    if order != [] {
      RecoverRemovesExactly(RecoverOne(d, order[0], stale), order[1..], stale, name);
    }
  }

  /** A missing published entry is restored from the first removable generation, and under a live
      lease not at all. */
  lemma {:induction false} RecoverRestoresFirst(d: Directory, order: seq<Name>, stale: Name -> bool, key: Key)
    requires Final(key) !in d
    ensures if Lease(key) in d && !stale(Lease(key)) then Final(key) !in RecoverAll(d, order, stale)
            else RestoresFirst(d, order, stale, key, RecoverAll(d, order, stale))
    decreases |order|
  {
    if order != [] {
      var next, rest := RecoverOne(d, order[0], stale), order[1..];
      var r := RecoverAll(next, rest, stale);
      if Final(key) in next {
        RecoverKeepsPublished(next, rest, stale, key);
        assert Replaced(d, order, stale, key, 0);
      } else {
        RecoverRestoresFirst(next, rest, stale, key);
        if !(Lease(key) in d && !stale(Lease(key))) {
          ShiftReplaced(d, next, order, stale, key, r);
        }
      }
    }
  }

  lemma ShiftReplaced(d: Directory, next: Directory, order: seq<Name>, stale: Name -> bool, key: Key, r: Directory)
    requires order != [] && next == RecoverOne(d, order[0], stale) && Final(key) !in d && Final(key) !in next
    requires !(Lease(key) in d && !stale(Lease(key)))
    requires RestoresFirst(next, order[1..], stale, key, r)
    ensures RestoresFirst(d, order, stale, key, r)
  {
    var rest := order[1..];
    assert !Replaced(d, order, stale, key, 0);
    forall i: nat
      ensures Replaced(d, order, stale, key, i + 1) <==> Replaced(next, rest, stale, key, i)
      ensures Replaced(d, order, stale, key, i + 1) ==> next[rest[i]] == d[order[i + 1]]
    {
      if i < |rest| {
        assert order[i + 1] == rest[i];
      }
    }
    if i: nat :| Replaced(d, order, stale, key, i) {
      assert Replaced(next, rest, stale, key, i - 1);
    }
    if i: nat :| Replaced(next, rest, stale, key, i) {
      assert Replaced(d, order, stale, key, i + 1);
    }
    forall i: nat | Replaced(d, order, stale, key, i) && (forall j: nat :: j < i ==> !Replaced(d, order, stale, key, j))
      ensures Final(key) in r && r[Final(key)] == d[order[i]]
    {
      assert Replaced(next, rest, stale, key, i - 1);
      forall j: nat | j < i - 1 ensures !Replaced(next, rest, stale, key, j) {
        assert !Replaced(d, order, stale, key, j + 1);
      }
    }
  }

  lemma RecoverIsExact(d: Directory, order: seq<Name>, stale: Name -> bool)
    ensures forall name: Name :: !name.Final? ==>
              (name in RecoverAll(d, order, stale) <==>
                 name in d
                 && (name !in order || !stale(name)
                     || ((name.Temp? || name.Previous?) && Lease(name.key) in d && !stale(Lease(name.key)))))
              && (name in RecoverAll(d, order, stale) ==> RecoverAll(d, order, stale)[name] == d[name])
    ensures forall key: Key :: Final(key) in d ==>
              Final(key) in RecoverAll(d, order, stale) && RecoverAll(d, order, stale)[Final(key)] == d[Final(key)]
    ensures forall key: Key :: Final(key) !in d ==>
              if Lease(key) in d && !stale(Lease(key)) then Final(key) !in RecoverAll(d, order, stale)
              else RestoresFirst(d, order, stale, key, RecoverAll(d, order, stale))
  {
    hide RecoverAll, RestoresFirst;
    forall name: Name | !name.Final?
      ensures (name in RecoverAll(d, order, stale) <==>
                 name in d
                 && (name !in order || !stale(name)
                     || ((name.Temp? || name.Previous?) && Lease(name.key) in d && !stale(Lease(name.key)))))
              && (name in RecoverAll(d, order, stale) ==> RecoverAll(d, order, stale)[name] == d[name])
    {
      RecoverRemovesExactly(d, order, stale, name);
    }
    forall key: Key | Final(key) in d
      ensures Final(key) in RecoverAll(d, order, stale) && RecoverAll(d, order, stale)[Final(key)] == d[Final(key)]
    {
      RecoverKeepsPublished(d, order, stale, key);
    }
    forall key: Key | Final(key) !in d
      ensures if Lease(key) in d && !stale(Lease(key)) then Final(key) !in RecoverAll(d, order, stale)
              else RestoresFirst(d, order, stale, key, RecoverAll(d, order, stale))
    {
      RecoverRestoresFirst(d, order, stale, key);
    }
  }

  /** Recovery never removes or changes a published entry, whatever is stale. */
  lemma {:induction false} RecoverKeepsPublished(d: Directory, order: seq<Name>, stale: Name -> bool, key: Key)
    requires Final(key) in d
    ensures Final(key) in RecoverAll(d, order, stale) && RecoverAll(d, order, stale)[Final(key)] == d[Final(key)]
    decreases |order|
  {
    if order != [] {
      RecoverKeepsPublished(RecoverOne(d, order[0], stale), order[1..], stale, key);
    }
  }

  /** Recovery invents nothing: a published entry was published before, or it is a replaced
      generation of its key. */
  lemma {:induction false} RecoverInventsNothing(d: Directory, order: seq<Name>, stale: Name -> bool, key: Key)
    requires Final(key) in RecoverAll(d, order, stale) && Final(key) !in d
    ensures exists token :: Previous(key, token) in order && Previous(key, token) in d
                            && RecoverAll(d, order, stale)[Final(key)] == d[Previous(key, token)]
    decreases |order|
  {
    if order != [] {
      var next := RecoverOne(d, order[0], stale);
      if Final(key) in next {
        RecoverKeepsPublished(next, order[1..], stale, key);
        assert order[0] == Previous(key, order[0].token);
      } else {
        RecoverInventsNothing(next, order[1..], stale, key);
        var token :| Previous(key, token) in order[1..] && Previous(key, token) in next
                     && RecoverAll(next, order[1..], stale)[Final(key)] == next[Previous(key, token)];
        assert Previous(key, token) in order;
      }
    }
  }

  predicate AllStale(d: Directory, stale: Name -> bool) {
    forall name :: name in d && Recoverable(name) ==> stale(name)
  }

  /** When everything is stale, one pass over the whole listing leaves only published entries,
      and a key has one exactly when it had one or a replaced generation of it existed. */
  lemma {:induction false} RecoverCleans(d: Directory, order: seq<Name>, stale: Name -> bool)
    requires AllStale(d, stale) && forall name :: name in d && Recoverable(name) ==> name in order
    ensures forall name :: name in RecoverAll(d, order, stale) ==> name.Final?
    ensures forall key, token :: Previous(key, token) in d ==> Final(key) in RecoverAll(d, order, stale)
    decreases |order|
  {
    if order != [] {
      var next := RecoverOne(d, order[0], stale);
      forall name | name in next && Recoverable(name) ensures name in order[1..] && stale(name) {
        assert name in d;
        assert name != order[0];
      }
      RecoverCleans(next, order[1..], stale);
      forall key, token | Previous(key, token) in d ensures Final(key) in RecoverAll(d, order, stale) {
        if Final(key) in next {
          RecoverKeepsPublished(next, order[1..], stale, key);
        }
      }
    }
  }

  // ---------- A crash during publication ----------

  /** How far a publication got. */
  datatype Progress =
    | Staging(partial: Entry)
    | MovedAside
    | Installed
    | Cleaning(partial: Entry)
    | Published

  /** The directory a crash leaves behind, with the writer's lease if it was still held. */
  function CrashState(d: Directory, key: Key, token: Token, staged: Entry, progress: Progress, lease: Option<Entry>): Directory {
    var existed := Final(key) in d;
    var body :=
      match progress
      case Staging(partial) => d[Temp(key, token) := partial]
      case MovedAside =>
        (if existed then d[Previous(key, token) := d[Final(key)]] - {Final(key)} else d)[Temp(key, token) := staged]
      case Installed =>
        (if existed then d[Previous(key, token) := d[Final(key)]] else d)[Final(key) := staged]
      case Cleaning(partial) =>
        (if existed then d[Previous(key, token) := partial] else d)[Final(key) := staged]
      case Published => d[Final(key) := staged];
    if lease.Some? then body[Lease(key) := lease.value] else body
  }

  /** Before the staged directory is installed the old state survives a crash; from then on the
      new one does. */
  predicate IsInstalled(progress: Progress) {
    progress.Installed? || progress.Cleaning? || progress.Published?
  }

  /** After a crash at any step, one recovery pass over stale remnants restores the directory
      exactly: the old one before installation, and the one with the new entry after it. */
  lemma RecoveryAfterCrash(d: Directory, key: Key, token: Token, staged: Entry, progress: Progress, lease: Option<Entry>,
                           order: seq<Name>, stale: Name -> bool)
    requires forall name :: name in d ==> name.Final?
    requires var c := CrashState(d, key, token, staged, progress, lease);
             AllStale(c, stale) && forall name :: name in c && Recoverable(name) ==> name in order
    ensures RecoverAll(CrashState(d, key, token, staged, progress, lease), order, stale)
            == if IsInstalled(progress) then d[Final(key) := staged] else d
  {
    var c := CrashState(d, key, token, staged, progress, lease);
    var r, want := RecoverAll(c, order, stale), if IsInstalled(progress) then d[Final(key) := staged] else d;
    RecoverCleans(c, order, stale);
    forall k: Key ensures (Final(k) in r <==> Final(k) in want) && (Final(k) in r ==> r[Final(k)] == want[Final(k)]) {
      if Final(k) in c {
        RecoverKeepsPublished(c, order, stale, k);
      } else if Final(k) in r {
        RecoverInventsNothing(c, order, stale, k);
      } else {
        assert Previous(k, token) !in c;
      }
    }
    assert r.Keys == want.Keys;
  }

  function RenameIn(d: Directory, from: Name, to: Name): Directory {
    if from in d && to !in d then d[to := d[from]] - {from} else d
  }

  /** The crash states are the states between the atomic steps of a publication: the staged
      directory is complete, the old entry is renamed aside, the staged one is renamed to the
      final name, and the old one is removed. */
  lemma CrashStatesAreTheSteps(d: Directory, key: Key, token: Token, staged: Entry, partial: Entry)
    requires forall name :: name in d ==> name.Final?
    ensures var s0 := CrashState(d, key, token, staged, Staging(staged), None);
            var s1 := CrashState(d, key, token, staged, MovedAside, None);
            var s2 := CrashState(d, key, token, staged, Installed, None);
            var s3 := CrashState(d, key, token, staged, Cleaning(partial), None);
            s1 == RenameIn(s0, Final(key), Previous(key, token))
            && s2 == RenameIn(s1, Temp(key, token), Final(key))
            && s3 - {Previous(key, token)} == s2 - {Previous(key, token)}
            && CrashState(d, key, token, staged, Published, None) == s3 - {Previous(key, token)}
            && CrashState(d, key, token, staged, Published, None) == d[Final(key) := staged]
  {
    var s0 := CrashState(d, key, token, staged, Staging(staged), None);
    var s1 := CrashState(d, key, token, staged, MovedAside, None);
    assert s1 == RenameIn(s0, Final(key), Previous(key, token));
    var s2 := CrashState(d, key, token, staged, Installed, None);
    assert s2 == RenameIn(s1, Temp(key, token), Final(key));
  }
}
