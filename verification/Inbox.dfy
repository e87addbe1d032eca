/**
 * `inbox.rs`: the only code that writes a received file. A file is staged under a random name, checked,
 * and only then given a real name, by a link, or by a link or a rename of a whole copy. Every method
 * below accounts for each of its system calls, so that a kill between any two of them is covered.
 */
module Inbox {
  import opened Limits
  import opened Options
  import opened Strings
  import opened FileSystem
  import opened Octets
  import opened Numbering
  import Hex

  const MAX_NAME_ATTEMPTS: nat := 1000

  type Digest = seq<Byte>

  datatype InboxError =
    | TooLarge
    | Overflow
    | Truncated(got: nat, declared: nat)
    | DigestMismatch
    | NoFreeName
    | Io
    | Cancelled // not an error of the source's: the future was dropped at an await

  datatype Saved = Saved(name: Str, size: nat)

  datatype Committed = Ok(saved: Saved) | Err(error: InboxError)

  /** How one attempt at a name went. `Taken` is any error of the kind "already exists". */
  datatype Attempt = Placed | Taken | NotPlaced | Interrupted

  const PART_SUFFIX: string := ".part"

  /** A new staging file's name: sixteen random bytes in hex, and the suffix a sweep looks for. */
  function PartName(random: seq<Byte>): Str {
    Cat(Hex.Encoded(random), Of(PART_SUFFIX))
  }

  /** What a script draws for the staging file, or for a copy of it. */
  function Drawn(plan: Plan, copy: bool): seq<Byte>
    requires plan.Script?
  {
    if copy then plan.again else plan.random
  }

  method NewPartName(plan: Plan, copy: bool) returns (name: Str)
    ensures exists random: seq<Byte> :: |random| == 16 && name == PartName(random)
    ensures plan.Script? && |Drawn(plan, copy)| == 16 ==> name == PartName(Drawn(plan, copy))
  {
    ghost var zeros: seq<Byte> := [0, 0, 0, 0, 0, 0, 0, 0, 0, 0, 0, 0, 0, 0, 0, 0];
    assert |zeros| == 16;
    var random: seq<Byte> :| |random| == 16;
    if plan.Script? && |Drawn(plan, copy)| == 16 {
      random := Drawn(plan, copy);
    }
    name := PartName(random);
  }

  /** What an entry of ours in a directory of staging files looks like. */
  ghost predicate IsPart(k: Key) {
    k.dir != Target && exists random: seq<Byte> :: |random| == 16 && k.name == PartName(random)
  }

  /** Every entry the receiver ever made is a staging file by its name, in `dir` or in the target's `.partial`. */
  ghost predicate OnlyParts(ours: Ours, dir: Dir) {
    forall k :: k in ours.keys ==> IsPart(k) && (k.dir == dir || k.dir == Partial)
  }

  /** There is a staging file in the target's `.partial`. */
  ghost predicate SomePart(f: FS) {
    exists k :: k in f.entries && k.dir == Partial && IsPart(k)
  }

  /** Every entry the receiver ever made is a staging file by its name, or a real name. */
  ghost predicate PartsAndNames(ours: Ours, dir: Dir) {
    forall k :: k in ours.keys ==> k.dir == Target || (IsPart(k) && (k.dir == dir || k.dir == Partial))
  }

  datatype Copied = Copied(key: Key, ino: nat)

  /** Creates a staging file under a new random name. `home` is where the receiver stages its files. */
  method CreatePart(disk: Disk, dir: Dir, ghost home: Dir, copy: bool) returns (e: Outcome, k: Key, ino: nat)
    requires disk.Valid() && dir != Target && (dir == home || dir == Partial) && OnlyParts(disk.ours, home)
    modifies disk`fs, disk`ours, disk`moves
    ensures disk.Valid() && OnlyParts(disk.ours, home) && k.dir == dir && IsPart(k) && e != CannotLink
    ensures e == Done ==> ino !in old(disk.ours).data && disk.ours == OursCreated(old(disk.ours), k, ino)
    ensures e == Done && disk.world != Hostile ==> k !in old(disk.ours).held
    ensures e != Done ==> disk.ours == old(disk.ours)
    ensures old(disk.moves) <= disk.moves && Idle(disk.world, disk.moves, |old(disk.moves)|)
    ensures disk.world == Quiet && e == Exists ==> k in old(disk.ours).held || k in disk.start.entries
    ensures disk.Scripted() ==> k.name == PartName(Drawn(disk.plan, copy)) && e == if k in old(disk.ours).held || k in disk.start.entries then Exists else Done
  {
    var name := NewPartName(disk.plan, copy);
    k := Key(dir, name);
    assert IsPart(k);
    e, ino := disk.Create(k);
  }

  /** What of ours is on the disk: the entries in use, and those that could not be cleaned up. */
  ghost predicate Accounts(o: Ours, used: set<Key>, left: map<Key, Mishap>) {
    o.held.Keys == used + left.Keys && used !! left.Keys
  }

  /** An entry to be removed was, or could not be. */
  ghost predicate Removed(o: Ours, o': Ours, k: Key, left: map<Key, Mishap>, left': map<Key, Mishap>) {
    || (o' == OursUnlinked(o, k) && left' == left)
    || (o' == o && left'.Keys == left.Keys + {k})
  }

  /** Nothing was done but removing entries. */
  ghost predicate Shrunk(o: Ours, o': Ours) {
    o'.keys == o.keys && o'.data == o.data && forall k :: k in o'.held ==> k in o.held && o'.held[k] == o.held[k]
  }

  lemma {:induction false} AccountsCreated(o: Ours, k: Key, ino: nat, used: set<Key>, left: map<Key, Mishap>)
    requires Accounts(o, used, left) && k !in o.held
    ensures Accounts(OursCreated(o, k, ino), used + {k}, left)
  {
  }

  lemma {:induction false} AccountsLeft(o: Ours, used: set<Key>, k: Key, left: map<Key, Mishap>, why: Mishap)
    requires Accounts(o, used + {k}, left) && k !in used
    ensures Accounts(o, used, left[k := why])
  {
  }

  lemma {:induction false} AccountsLinked(o: Ours, src: Key, dst: Key, used: set<Key>, left: map<Key, Mishap>)
    requires Accounts(o, used, left) && src in o.held && dst !in o.held
    ensures Accounts(OursLinked(o, src, dst), used + {dst}, left)
    ensures src in used ==> Accounts(OursRenamed(o, src, dst), used - {src} + {dst}, left)
  {
  }

  lemma {:induction false} AccountsRemoved(o: Ours, o': Ours, k: Key, used: set<Key>, left: map<Key, Mishap>, left': map<Key, Mishap>)
    requires Accounts(o, used, left) && k in used && Removed(o, o', k, left, left')
    ensures Accounts(o', used - {k}, left')
  {
  }

  /** One file being received. */
  class Incoming {
    const disk: Disk
    const staging: Key
    const id: nat
    const name: Str
    const declared: nat
    const expected: Option<Digest>
    /** SHA-256, as a function of what has been hashed. */
    const sha: seq<Byte> -> Digest
    var written: nat
    var hashed: seq<Byte>
    var copied: Option<Copied>
    var failed: bool
    var done: bool

    ghost predicate Valid()
      reads this, disk
    {
      && disk.Valid()
      && written == |hashed| <= declared <= MAX_FILE_BYTES
      && staging in disk.ours.keys && staging.dir != Target && id in disk.ours.data
      && (copied.Some? ==> copied.value.key in disk.ours.keys && copied.value.key.dir != Target
                           && copied.value.ino in disk.ours.data && copied.value.ino != id)
    }

    ghost function CopyKey(): set<Key>
      reads this
    {
      if copied.Some? then {copied.value.key} else {}
    }

    /** While the world leaves our entries alone: what of ours is on the disk, and what is in it. */
    ghost predicate Staged()
      reads this, disk
      requires Valid()
    {
      var o := disk.ours;
      disk.world != Hostile ==>
        && staging in o.held && o.held[staging] == id
        && (!failed ==> o.data[id] == hashed)
        && (copied.Some? ==> copied.value.key in o.held && o.held[copied.value.key] == copied.value.ino && o.data[copied.value.ino] == hashed)
        && Accounts(o, {staging} + CopyKey(), disk.left)
    }

    /** As much of that as the destructor counts on: the copy may have been moved away. */
    ghost predicate Kept()
      reads this, disk
      requires Valid()
    {
      var o := disk.ours;
      disk.world != Hostile ==>
        && (Accounts(o, {staging} + CopyKey(), disk.left) || Accounts(o, {staging}, disk.left))
        && (copied.Some? ==> copied.value.key != staging && copied.value.key !in disk.left)
        && (copied.Some? && copied.value.key in o.held ==> o.held[copied.value.key] == copied.value.ino)
    }

    constructor (disk: Disk, staging: Key, id: nat, name: Str, declared: nat, expected: Option<Digest>, sha: seq<Byte> -> Digest)
      ensures this.disk == disk && this.staging == staging && this.id == id && this.name == name
      ensures this.declared == declared && this.expected == expected && this.sha == sha
      ensures written == 0 && hashed == [] && copied == None && !failed && !done
    {
      this.disk := disk;
      this.staging := staging;
      this.id := id;
      this.name := name;
      this.declared := declared;
      this.expected := expected;
      this.sha := sha;
      written := 0;
      hashed := [];
      copied := None;
      failed := false;
      done := false;
    }

    /** `write_all` to one of our inodes: all of `chunk`, or some `part` of it and an error or a cancellation. */
    method WriteAll(ino: nat, chunk: seq<Byte>) returns (e: Option<InboxError>, ghost part: seq<Byte>)
      requires disk.Valid() && ino in disk.ours.data && Unplaced(disk.ours)
      modifies disk`fs, disk`ours, disk`moves
      ensures disk.Valid() && disk.ours == OursAppended(old(disk.ours), ino, part)
      ensures part <= chunk && (e == None ==> part == chunk)
      ensures old(disk.moves) <= disk.moves && Idle(disk.world, disk.moves, |old(disk.moves)|)
      ensures disk.Scripted() ==> e == None
    {
      ghost var o := disk.ours;
      var i := 0;
      part := [];
      AppendNothing(o, ino);
      while i < |chunk|
        invariant 0 <= i <= |chunk| && part == chunk[..i]
        invariant disk.Valid() && disk.ours == OursAppended(o, ino, part)
        invariant old(disk.moves) <= disk.moves && Idle(disk.world, disk.moves, |old(disk.moves)|)
      {
        var goingOn := disk.Lucky(AnyOther);
        if !goingOn {
          return Some(Cancelled), part;
        }
        ghost var mid := disk.moves;
        var ok, n := disk.Append(ino, chunk[i..]);
        Onward(disk.world, |old(disk.moves)|, mid, disk.moves, []);
        if !ok {
          return Some(Io), part;
        }
        AppendTwice(o, ino, part, chunk[i..][..n]);
        assert chunk[..i] + chunk[i..][..n] == chunk[..i + n];
        i := i + n;
        part := chunk[..i];
      }
      e := None;
    }

    /** Appends `chunk`. Whatever goes wrong, the file is spoiled: it is never placed. */
    method Write(chunk: seq<Byte>) returns (e: Option<InboxError>)
      requires Valid() && Staged() && OnlyParts(disk.ours, staging.dir) && copied == None
      modifies this`written, this`hashed, this`failed, disk`fs, disk`ours, disk`moves
      ensures Valid() && Staged() && OnlyParts(disk.ours, staging.dir)
      ensures old(failed) ==> e == Some(Io) && failed && disk.moves == old(disk.moves)
      ensures !old(failed) && |old(hashed)| + |chunk| > declared ==> e == Some(Overflow) && disk.moves == old(disk.moves)
      ensures e == None ==> !old(failed) && !failed && hashed == old(hashed) + chunk
      ensures e != None ==> failed && hashed == old(hashed)
      ensures disk.Scripted() && !old(failed) && |old(hashed)| + |chunk| <= declared ==> e == None
      ensures old(disk.moves) <= disk.moves && Idle(disk.world, disk.moves, |old(disk.moves)|)
    {
      if failed {
        return Some(Io);
      }
      var after := written + |chunk|;
      if after > declared {
        failed := true;
        return Some(Overflow);
      }
      // Spoiled until the write completes.
      failed := true;
      ghost var part;
      e, part := WriteAll(id, chunk);
      if e != None {
        return;
      }
      failed := false;
      hashed := hashed + chunk;
      written := after;
    }

    /** The guard of a copy: removes it, if it still leads to `ino`. */
    method RemoveOwn(k: Key, ino: nat)
      requires disk.Valid() && k in disk.ours.keys && k.dir != Target
      modifies disk`fs, disk`ours, disk`moves, disk`looks, disk`left
      ensures disk.Valid() && old(disk.looks) <= disk.looks
      ensures disk.moves != old(disk.moves) ==> Entry(k, Some(ino)) in disk.looks
      ensures disk.ours == OursUnlinked(old(disk.ours), k) || disk.ours == old(disk.ours)
      ensures disk.world != Hostile && k in old(disk.ours).held && old(disk.ours).held[k] == ino ==>
                Removed(old(disk.ours), disk.ours, k, old(disk.left), disk.left)
      ensures disk.world != Hostile && k !in old(disk.ours).held ==> disk.ours == old(disk.ours) && disk.left == old(disk.left)
      ensures disk.Scripted() && StatOfCopy in disk.plan.bad && k in old(disk.ours).held ==>
                k in disk.left && disk.left[k] == StatFailed
      ensures disk.Scripted() && StatOfCopy !in disk.plan.bad && AnyUnlink !in disk.plan.bad ==> disk.left == old(disk.left)
      ensures old(disk.moves) <= disk.moves && Idle(disk.world, disk.moves, |old(disk.moves)|)
    {
      var got;
      ghost var broken;
      got, broken := disk.EntryId(k, StatOfCopy);
      if got == Some(ino) {
        disk.Unlink(k);
      } else if broken {
        disk.Leave(k, StatFailed);
      }
    }

    /**
     * The loop of `tokio::io::copy` from our own descriptor, capped at the declared size: reads on from
     * where it is, and writes what it read.
     */
    method CopyBytes(ino: nat) returns (e: Option<InboxError>, ghost part: seq<Byte>)
      requires Valid() && ino in disk.ours.data && ino != id && Unplaced(disk.ours)
      requires disk.world != Hostile ==> disk.ours.data[id] == hashed && written == declared
      modifies disk`fs, disk`ours, disk`moves
      ensures disk.Valid() && disk.ours == OursAppended(old(disk.ours), ino, part)
      ensures disk.world != Hostile && e == None ==> part == hashed
      ensures disk.Scripted() ==> e == None
      ensures old(disk.moves) <= disk.moves && Idle(disk.world, disk.moves, |old(disk.moves)|)
    {
      ghost var o := disk.ours;
      var at := 0;
      part := [];
      AppendNothing(o, ino);
      while at < declared
        invariant 0 <= at <= declared
        invariant disk.Valid() && disk.ours == OursAppended(o, ino, part)
        invariant disk.world != Hostile ==> part == hashed[..at]
        invariant old(disk.moves) <= disk.moves && Idle(disk.world, disk.moves, |old(disk.moves)|)
      {
        var ok, piece := disk.Read(id, at, declared - at);
        if !ok || piece == [] {
          // An error, or the end before the declared size: something else touched the staging file.
          return Some(Io), part;
        }
        ghost var mid, more := disk.moves, [];
        e, more := WriteAll(ino, piece);
        Onward(disk.world, |old(disk.moves)|, mid, disk.moves, []);
        AppendTwice(o, ino, part, more);
        assert disk.world != Hostile ==> hashed[..at] + piece == hashed[..at + |piece|];
        part := part + more;
        if e != None {
          return;
        }
        at := at + |piece|;
      }
      e := None;
    }

    /** The file is all there and is what the sender said it would be. */
    ghost predicate Whole()
      reads this
    {
      |hashed| == declared && (expected.Some? ==> sha(hashed) == expected.value)
    }

    /** The copy as a script names it, in the target's `.partial`. */
    ghost function ScriptedCopy(): Key
      requires disk.plan.Script?
    {
      Key(Partial, PartName(disk.plan.again))
    }

    /** A copy's random name can be one that is taken, and by a script is if it says so. */
    ghost predicate CanCollide() {
      (staging.dir == Partial || SomePart(disk.start)) && (disk.Scripted() ==> !disk.plan.links && Doomed())
    }

    /** By its script, every copy's random name is one that is taken. */
    ghost predicate Doomed()
      requires disk.plan.Script?
    {
      staging == ScriptedCopy() || ScriptedCopy() in disk.start.entries
    }

    /** By its script, nothing fails, and no copy's name is taken. */
    ghost predicate Smooth() {
      disk.Scripted() && disk.plan.bad == {} && (disk.plan.links || !Doomed())
    }

    /** Nothing in the target directory had the name `dest`. */
    ghost predicate Free(dest: Str) {
      Key(Target, dest) !in disk.start.entries
    }

    /** Beside the staged file there is the new, empty staging file `k`. */
    ghost predicate CopyCreated(k: Key, ino: nat)
      reads this, disk
    {
      var o := disk.ours;
      && k in o.keys && k.dir != Target && ino in o.data && ino != id
      && (disk.world != Hostile ==>
            && id in o.data && staging in o.held && o.held[staging] == id && o.data[id] == hashed
            && k in o.held && o.held[k] == ino && k != staging && o.data[ino] == []
            && Accounts(o, {staging} + {k}, disk.left))
    }

    /** Fills the new staging file `k`, under a guard that removes it again if that fails, and keeps it as `copied`. */
    method FillCopy(k: Key, ino: nat) returns (e: Attempt)
      requires Valid() && !failed && written == declared && copied == None && OnlyParts(disk.ours, staging.dir)
      requires CopyCreated(k, ino)
      modifies this`copied, disk`fs, disk`ours, disk`moves, disk`looks, disk`left
      ensures Valid() && Staged() && OnlyParts(disk.ours, staging.dir) && old(disk.looks) <= disk.looks
      ensures e != Taken && (e == Placed <==> copied.Some?)
      ensures old(disk.moves) <= disk.moves && Idle(disk.world, disk.moves, |old(disk.moves)|)
      ensures disk.Scripted() && {SyncOfCopy, StatOfCopy} <= disk.plan.bad ==> e != Placed && k in disk.left
      ensures disk.Scripted() && SyncOfCopy !in disk.plan.bad ==> e == Placed && disk.left == old(disk.left)
    {
      var err;
      ghost var copy;
      err, copy := CopyBytes(ino);
      assert [] + copy == copy;
      var synced := disk.Lucky(SyncOfCopy);
      var goingOn := disk.Lucky(AnyOther);
      if err != None || !synced || !goingOn {
        ghost var mid, o, left := disk.moves, disk.ours, disk.left;
        RemoveOwn(k, ino);
        Onward(disk.world, |old(disk.moves)|, mid, disk.moves, []);
        if disk.world != Hostile {
          AccountsRemoved(o, disk.ours, k, {staging} + {k}, left, disk.left);
          assert {staging} + {k} - {k} == {staging} + {};
        }
        return if err == Some(Cancelled) || !goingOn then Interrupted else NotPlaced;
      }
      copied := Some(Copied(k, ino));
      return Placed;
    }

    /** Creates an empty staging file on the target's file system, under a new random name. */
    method NewCopy() returns (e: Outcome, k: Key, ino: nat)
      requires Valid() && Staged() && OnlyParts(disk.ours, staging.dir) && !failed && copied == None && disk.left == map[]
      requires disk.Scripted() ==> !disk.plan.links
      modifies disk`fs, disk`ours, disk`moves
      ensures Valid() && OnlyParts(disk.ours, staging.dir)
      ensures if e == Done then CopyCreated(k, ino) else Staged()
      ensures e == Exists && disk.world == Quiet ==> CanCollide()
      ensures old(disk.moves) <= disk.moves && Idle(disk.world, disk.moves, |old(disk.moves)|)
      ensures disk.Scripted() ==> k == ScriptedCopy() && e == if Doomed() then Exists else Done
    {
      ghost var o := disk.ours;
      e, k, ino := CreatePart(disk, Partial, staging.dir, true);
      assert disk.world != Hostile ==> o.held.Keys == {staging};
      if e == Done && disk.world != Hostile {
        AccountsCreated(o, k, ino, {staging} + {}, disk.left);
        assert {staging} + {} + {k} == {staging} + {k};
      }
    }

    /** The same, and takes down which inode it is. */
    method CreateCopy() returns (e: Attempt, k: Key, ino: nat)
      requires Valid() && Staged() && OnlyParts(disk.ours, staging.dir) && !failed && copied == None && disk.left == map[]
      requires disk.Scripted() ==> !disk.plan.links
      modifies disk`fs, disk`ours, disk`moves, disk`looks, disk`left
      ensures Valid() && OnlyParts(disk.ours, staging.dir) && old(disk.looks) <= disk.looks
      ensures if e == Placed then CopyCreated(k, ino) else Staged()
      ensures e == Taken ==> disk.left == map[] && (disk.world == Quiet ==> CanCollide())
      ensures old(disk.moves) <= disk.moves && Idle(disk.world, disk.moves, |old(disk.moves)|)
      ensures disk.Scripted() ==>
                && k == ScriptedCopy()
                && (if Doomed() then e == Taken else e == Placed || (e == NotPlaced && k in disk.left))
                && (!Doomed() && FstatOfNew !in disk.plan.bad ==> e == Placed && disk.left == map[])
    {
      k, ino := staging, id;
      var dirOk := disk.Lucky(AnyOther);
      if !dirOk {
        return NotPlaced, k, ino;
      }
      var created;
      created, k, ino := NewCopy();
      if created == Exists {
        return Taken, k, ino;
      } else if created != Done {
        return NotPlaced, k, ino;
      }
      var size := disk.Size(ino, FstatOfNew);
      if size == None {
        // The guard is not up yet: what was created stays.
        if disk.world != Hostile {
          AccountsLeft(disk.ours, {staging}, k, disk.left, FstatFailed);
          assert {staging} + {} == {staging};
        }
        disk.Leave(k, FstatFailed);
        return NotPlaced, k, ino;
      }
      return Placed, k, ino;
    }

    /** Copies the staged file into a new staging file on the target's file system, and keeps it as `copied`. */
    method Copy() returns (e: Attempt)
      requires Valid() && Staged() && OnlyParts(disk.ours, staging.dir) && !failed && written == declared
      requires copied == None && disk.left == map[] && (disk.Scripted() ==> !disk.plan.links)
      modifies this`copied, disk`fs, disk`ours, disk`moves, disk`looks, disk`left
      ensures Valid() && Staged() && OnlyParts(disk.ours, staging.dir) && old(disk.looks) <= disk.looks
      ensures e == Placed <==> copied.Some?
      ensures e == Taken ==> disk.left == map[] && (disk.world == Quiet ==> CanCollide())
      ensures old(disk.moves) <= disk.moves && Idle(disk.world, disk.moves, |old(disk.moves)|)
      ensures disk.Scripted() && Doomed() ==> e == Taken
      ensures disk.Scripted() && !Doomed() && {SyncOfCopy, StatOfCopy} <= disk.plan.bad ==>
                (e == NotPlaced || e == Interrupted) && ScriptedCopy() in disk.left
      ensures Smooth() ==> e == Placed && disk.left == map[]
    {
      var k, ino;
      e, k, ino := CreateCopy();
      if e == Placed {
        ghost var mid := disk.moves;
        e := FillCopy(k, ino);
        Onward(disk.world, |old(disk.moves)|, mid, disk.moves, []);
      }
    }

    /** The file has its real name, beside `rest`, and what could not be cleaned up. */
    ghost predicate PlacedAs(dest: Str, rest: set<Key>)
      reads this, disk
    {
      var o, t := disk.ours, Key(Target, dest);
      disk.world != Hostile ==>
        && t in o.held && o.held[t] in o.data && o.data[o.held[t]] == hashed && t !in rest
        && (copied.Some? ==> copied.value.key in o.held && o.held[copied.value.key] == copied.value.ino && copied.value.key != staging)
        && Accounts(o, rest + {t}, disk.left)
    }

    /** In any world: the real name was looked at after it was made, and led to an inode of ours. */
    ghost predicate Seen(dest: Str)
      reads disk
    {
      exists i :: i in disk.ours.data && Entry(Key(Target, dest), Some(i)) in disk.looks
    }

    /** What one attempt at `dest` leaves behind, given the steps before it. */
    ghost predicate Tried(e: Attempt, collided: bool, dest: Str, was: seq<Move>)
      reads this, disk
      requires Valid()
    {
      && was <= disk.moves && PartsAndNames(disk.ours, staging.dir)
      && Safe(disk.world, disk.moves, |was|, hashed)
      && (Idle(disk.world, disk.moves, |was|) <==> disk.world == Hostile || !(e == Placed || disk.unseen))
      && (if e == Placed then PlacedAs(dest, {staging} + CopyKey()) && Seen(dest) else Kept())
      && (e == Taken ==> Staged() && OnlyParts(disk.ours, staging.dir) && !disk.unseen)
      && (disk.world == Quiet && e == Placed ==> Key(Target, dest) !in disk.start.entries)
      && (disk.world == Quiet && e == Taken ==> collided || Key(Target, dest) in disk.start.entries)
      && (collided ==> e == Taken && (disk.world == Quiet ==> CanCollide()))
    }

    /** What a script makes of a link to a free name. */
    ghost predicate LinkFated(e: Attempt, was: map<Key, Mishap>)
      reads disk
      requires disk.plan.Script?
    {
      if StatOfPlaced in disk.plan.bad then
        e == NotPlaced && disk.unseen && if AnyUnlink in disk.plan.bad then disk.LeftInTarget() else disk.left == was
      else
        e == Placed && disk.left == was
    }

    /** What a script by which nothing fails makes of an attempt at `dest`: it has the name now, unless it was taken. */
    ghost predicate Fair(e: Attempt, dest: Str)
      reads disk
    {
      Smooth() ==> e == (if Free(dest) then Placed else Taken) && disk.left == map[]
    }

    /** What a script makes of the first attempt at a name, `dest`. */
    ghost predicate Fated(e: Attempt, collided: bool, dest: Str)
      reads this, disk
      requires Valid()
    {
      disk.Scripted() ==>
        if disk.plan.links then
          (if Free(dest) then LinkFated(e, map[]) else e == Taken) && copied == None
        else if Doomed() then
          e == Taken && collided && copied == None
        else
          {SyncOfCopy, StatOfCopy} <= disk.plan.bad ==> (e == NotPlaced || e == Interrupted) && ScriptedCopy() in disk.left
    }

    lemma TriedSince(e: Attempt, collided: bool, dest: Str, was: seq<Move>, mid: seq<Move>)
      requires Valid() && Tried(e, collided, dest, mid)
      requires was <= mid && Idle(disk.world, mid, |was|)
      ensures Tried(e, collided, dest, was)
    {
      Onward(disk.world, |was|, mid, disk.moves, hashed);
      Onward(disk.world, |was|, mid, mid, hashed);
    }

    /** The copy has just been given the name `dest`, by a link or by a rename. */
    ghost predicate CopyPlaced(dest: Str, linked: bool)
      reads this, disk
    {
      var o, t := disk.ours, Key(Target, dest);
      copied.Some? && var k, ino := copied.value.key, copied.value.ino;
        && t in o.keys
        && (disk.world != Hostile ==>
              && k != staging && t in o.held && o.held[t] == ino && ino in o.data && o.data[ino] == hashed
              && (if linked then k in o.held && o.held[k] == ino && Accounts(o, {staging} + {k} + {t}, disk.left)
                  else k !in disk.left && Accounts(o, {staging} + {t}, disk.left)))
    }

    /** How naming a file `dest` went: it has the name now, or nothing has changed. */
    ghost predicate Named(o: Outcome, dest: Str, was: seq<Move>)
      reads this, disk
    {
      && was <= disk.moves && PartsAndNames(disk.ours, staging.dir) && Safe(disk.world, disk.moves, |was|, hashed)
      && (o == Done && disk.world != Hostile ==> !Idle(disk.world, disk.moves, |was|))
      && (o != Done ==> disk.moves == was)
      && (o == Done && disk.world == Quiet ==> Key(Target, dest) !in disk.start.entries)
      && (o == Exists && disk.world == Quiet ==> Key(Target, dest) in disk.start.entries)
    }

    /** Links the copy to `dest`, or renames it there without replacing where there are no links. */
    method LinkOrRename(dest: Str) returns (o: Outcome, linked: bool)
      requires Valid() && Staged() && copied.Some? && OnlyParts(disk.ours, staging.dir)
      modifies disk`fs, disk`ours, disk`moves
      ensures Valid() && o != CannotLink && Named(o, dest, old(disk.moves))
      ensures if o == Done then CopyPlaced(dest, linked) else disk.ours == old(disk.ours)
      ensures disk.Scripted() && !disk.plan.links ==> !linked && o == if Free(dest) then Done else Exists
    {
      var k, t := copied.value.key, Key(Target, dest);
      o := disk.Link(k, t);
      linked := o == Done;
      if o == CannotLink {
        o := disk.RenameNoReplace(k, t);
      }
      if o == Done && disk.world != Hostile {
        AccountsLinked(old(disk.ours), k, t, {staging} + {k}, disk.left);
        assert {staging} + {k} - {k} == {staging};
      }
    }

    /** The same, if the copy is still the file it was. */
    method NameCopy(dest: Str) returns (o: Outcome, linked: bool)
      requires Valid() && Staged() && copied.Some? && OnlyParts(disk.ours, staging.dir)
      modifies disk`fs, disk`ours, disk`moves, disk`looks
      ensures Valid() && o != CannotLink && Named(o, dest, old(disk.moves)) && old(disk.looks) <= disk.looks
      ensures if o == Done then CopyPlaced(dest, linked) else disk.ours == old(disk.ours)
      ensures disk.Scripted() && !disk.plan.links ==> !linked && o == if Free(dest) then Done else Exists
    {
      var got;
      ghost var broken;
      got, broken := disk.EntryId(copied.value.key, AnyOther);
      if got != Some(copied.value.ino) {
        Onward(disk.world, |old(disk.moves)|, disk.moves, disk.moves, hashed);
        return Failed, false;
      }
      o, linked := LinkOrRename(dest);
    }

    /** Links the staged file to `dest`. */
    method LinkStaged(dest: Str) returns (o: Outcome)
      requires Valid() && Staged() && OnlyParts(disk.ours, staging.dir) && !failed
      modifies disk`fs, disk`ours, disk`moves
      ensures Valid() && Named(o, dest, old(disk.moves))
      ensures if o == Done then StagedPlaced(dest) else disk.ours == old(disk.ours)
      ensures disk.Scripted() ==> o == if !disk.plan.links then CannotLink else if Free(dest) then Done else Exists
    {
      o := disk.Link(staging, Key(Target, dest));
      if o == Done && disk.world != Hostile {
        AccountsLinked(old(disk.ours), staging, Key(Target, dest), {staging} + CopyKey(), disk.left);
      }
    }

    /** The staged file has just been given the name `dest`. */
    ghost predicate StagedPlaced(dest: Str)
      reads this, disk
    {
      var t := Key(Target, dest);
      t in disk.ours.keys && PlacedAs(dest, {staging} + CopyKey()) && (disk.world != Hostile ==> disk.ours.held[t] == id)
    }

    /** Checks that what was placed at `t` is the inode it should be; anything else, or nothing seen, is taken away again. */
    method Verify(t: Key, ino: nat) returns (ok: bool)
      requires disk.Valid() && t in disk.ours.keys && (disk.world != Hostile ==> t in disk.ours.held)
      modifies disk`fs, disk`ours, disk`moves, disk`looks, disk`left, disk`unseen
      ensures disk.Valid() && old(disk.looks) <= disk.looks
      ensures ok ==> disk.ours == old(disk.ours) && disk.moves == old(disk.moves) && Entry(t, Some(ino)) in disk.looks
      ensures ok ==> disk.left == old(disk.left) && disk.unseen == old(disk.unseen)
      ensures !ok ==> Removed(old(disk.ours), disk.ours, t, old(disk.left), disk.left) && (t !in disk.fs.entries || t in disk.left)
      ensures disk.world != Hostile && t in old(disk.ours).held && old(disk.ours).held[t] == ino ==> ok || disk.unseen
      ensures disk.Scripted() && t in old(disk.ours).held && old(disk.ours).held[t] == ino ==>
                && (ok <==> StatOfPlaced !in disk.plan.bad)
                && (!ok ==> if AnyUnlink in disk.plan.bad then t in disk.left else disk.left == old(disk.left))
      ensures old(disk.moves) <= disk.moves && Idle(disk.world, disk.moves, |old(disk.moves)|)
    {
      var got;
      ghost var broken;
      got, broken := disk.EntryId(t, StatOfPlaced);
      ok := got == Some(ino);
      if !ok {
        if broken {
          disk.Overlook();
        }
        disk.Unlink(t);
      }
    }

    /** Checks what the copy's new name leads to, and drops its old name. */
    method FinishCopy(dest: Str, linked: bool) returns (e: Attempt)
      requires Valid() && !disk.unseen && PartsAndNames(disk.ours, staging.dir) && CopyPlaced(dest, linked)
      modifies this`copied, disk
      ensures Valid() && old(disk.looks) <= disk.looks && PartsAndNames(disk.ours, staging.dir)
      ensures e == Placed || e == NotPlaced
      ensures e == Placed ==> PlacedAs(dest, {staging} + CopyKey()) && Seen(dest) && !disk.unseen
      ensures e == NotPlaced ==> Kept() && (disk.world != Hostile ==> disk.unseen)
      ensures disk.Scripted() && StatOfPlaced !in disk.plan.bad && !linked ==> e == Placed && disk.left == old(disk.left)
      ensures old(disk.moves) <= disk.moves && Idle(disk.world, disk.moves, |old(disk.moves)|)
    {
      var k, ino, t := copied.value.key, copied.value.ino, Key(Target, dest);
      ghost var o, left := disk.ours, disk.left;
      var ok := Verify(t, ino);
      if !ok {
        if disk.world != Hostile {
          ghost var used := if linked then {staging} + {k} else {staging};
          AccountsRemoved(o, disk.ours, t, used + {t}, left, disk.left);
          assert used + {t} - {t} == used;
        }
        return NotPlaced;
      }
      if linked {
        ghost var mid := disk.moves;
        disk.Unlink(k);
        Onward(disk.world, |old(disk.moves)|, mid, disk.moves, hashed);
        if disk.world != Hostile {
          AccountsRemoved(o, disk.ours, k, {staging} + {k} + {t}, left, disk.left);
          assert {staging} + {k} + {t} - {k} == {staging} + {} + {t};
        }
      }
      copied := None;
      return Placed;
    }

    /** Links the whole copy to `dest`, or renames it there where there are no links. */
    method PlaceWholeCopy(dest: Str) returns (e: Attempt)
      requires Valid() && Staged() && OnlyParts(disk.ours, staging.dir) && !failed && written == declared && copied.Some?
      requires !disk.unseen
      modifies this`copied, disk
      ensures Valid() && Tried(e, false, dest, old(disk.moves)) && old(disk.looks) <= disk.looks
      ensures e == Taken ==> copied == old(copied)
      ensures disk.plan.Script? && !disk.plan.links && old(disk.left) == map[] ==> Fair(e, dest)
    {
      var o, linked := NameCopy(dest);
      if o == Exists {
        return Taken;
      } else if o != Done {
        return NotPlaced;
      }
      ghost var mid := disk.moves;
      e := FinishCopy(dest, linked);
      Onward(disk.world, |old(disk.moves)|, mid, disk.moves, hashed);
      Onward(disk.world, |mid|, mid, disk.moves, hashed);
    }

    /** The fallback where the staging file cannot be linked: copies it once, and places only the whole copy. */
    method PlaceCopy(dest: Str) returns (e: Attempt, ghost collided: bool)
      requires Valid() && Staged() && OnlyParts(disk.ours, staging.dir) && !failed && written == declared && !disk.unseen
      requires (copied == None ==> disk.left == map[]) && (disk.Scripted() ==> !disk.plan.links)
      modifies this`copied, disk
      ensures Valid() && Tried(e, collided, dest, old(disk.moves)) && old(disk.looks) <= disk.looks
      ensures e == Taken && copied == None ==> disk.left == map[]
      ensures old(copied) == None ==> Fated(e, collided, dest)
      ensures old(disk.left) == map[] ==> Fair(e, dest)
    {
      collided := false;
      if copied == None {
        e := Copy();
        Onward(disk.world, |old(disk.moves)|, disk.moves, disk.moves, hashed);
        if e != Placed {
          collided := e == Taken;
          return;
        }
      }
      ghost var mid := disk.moves;
      e := PlaceWholeCopy(dest);
      TriedSince(e, false, dest, old(disk.moves), mid);
    }

    /** Checks what the name just given to the staged file leads to. */
    method FinishLink(dest: Str) returns (e: Attempt)
      requires Valid() && !disk.unseen && PartsAndNames(disk.ours, staging.dir) && StagedPlaced(dest)
      modifies disk
      ensures Valid() && old(disk.looks) <= disk.looks && PartsAndNames(disk.ours, staging.dir)
      ensures e == Placed || e == NotPlaced
      ensures e == Placed ==> PlacedAs(dest, {staging} + CopyKey()) && Seen(dest) && !disk.unseen
      ensures e == NotPlaced ==> Kept() && (disk.world != Hostile ==> disk.unseen)
      ensures disk.Scripted() ==> LinkFated(e, old(disk.left))
      ensures old(disk.moves) <= disk.moves && Idle(disk.world, disk.moves, |old(disk.moves)|)
    {
      ghost var o, left, used, t := disk.ours, disk.left, {staging} + CopyKey(), Key(Target, dest);
      var ok := Verify(Key(Target, dest), id);
      if !ok && disk.world != Hostile {
        AccountsRemoved(o, disk.ours, t, used + {t}, left, disk.left);
        assert used + {t} - {t} == used;
      }
      return if ok then Placed else NotPlaced;
    }

    /** Links the staged file to `dest`, if it still is the file that was staged and can be linked. */
    method PlaceLink(dest: Str) returns (e: Attempt, cannotLink: bool)
      requires Valid() && Staged() && OnlyParts(disk.ours, staging.dir) && !failed && written == declared && !disk.unseen
      modifies disk
      ensures Valid() && old(disk.looks) <= disk.looks
      ensures cannotLink ==> disk.ours == old(disk.ours) && disk.moves == old(disk.moves) && !disk.unseen
      ensures !cannotLink ==> Tried(e, false, dest, old(disk.moves))
      ensures cannotLink || e == Taken ==> disk.left == old(disk.left)
      ensures disk.Scripted() ==>
                cannotLink == !disk.plan.links && (disk.plan.links ==> if Free(dest) then LinkFated(e, old(disk.left)) else e == Taken)
      ensures disk.plan.Script? && disk.plan.links && old(disk.left) == map[] ==> Fair(e, dest)
    {
      cannotLink := false;
      var got;
      ghost var broken;
      got, broken := disk.EntryId(staging, AnyOther);
      if got != Some(id) {
        return NotPlaced, false;
      }
      var o := LinkStaged(dest);
      match o {
        case Done =>
          ghost var mid := disk.moves;
          e := FinishLink(dest);
          Onward(disk.world, |old(disk.moves)|, mid, disk.moves, hashed);
          Onward(disk.world, |mid|, mid, disk.moves, hashed);
        case CannotLink =>
          return NotPlaced, true;
        case Exists =>
          return Taken, false;
        case Failed =>
          return NotPlaced, false;
      }
    }

    /** Puts the staged file at `dest` in the target directory, which must not exist. */
    method Place(dest: Str) returns (e: Attempt, ghost collided: bool)
      requires Valid() && Staged() && OnlyParts(disk.ours, staging.dir) && !failed && written == declared && !disk.unseen
      requires copied == None ==> disk.left == map[]
      modifies this`copied, disk
      ensures Valid() && Tried(e, collided, dest, old(disk.moves)) && old(disk.looks) <= disk.looks
      ensures e == Taken && copied == None ==> disk.left == map[]
      ensures old(copied) == None ==> Fated(e, collided, dest)
      ensures old(disk.left) == map[] ==> Fair(e, dest)
    {
      var cannotLink;
      e, cannotLink := PlaceLink(dest);
      collided := false;
      if cannotLink {
        e, collided := PlaceCopy(dest);
      }
    }

    /** The destructor's first half: a copy not placed goes, if it is still ours. */
    method DropCopy(ghost rest: set<Key>)
      requires Valid() && (disk.world != Hostile ==>
                 && (Accounts(disk.ours, rest + CopyKey(), disk.left) || Accounts(disk.ours, rest, disk.left))
                 && (copied.Some? ==> copied.value.key !in rest && copied.value.key !in disk.left)
                 && (copied.Some? && copied.value.key in disk.ours.held ==> disk.ours.held[copied.value.key] == copied.value.ino))
      modifies this`copied, disk`fs, disk`ours, disk`moves, disk`looks, disk`left
      ensures Valid() && copied == None && old(disk.looks) <= disk.looks && Shrunk(old(disk.ours), disk.ours)
      ensures disk.world != Hostile ==> Accounts(disk.ours, rest, disk.left) && old(disk.left).Keys <= disk.left.Keys
      ensures old(copied) == None ==> disk.left == old(disk.left)
      ensures disk.Scripted() && StatOfCopy !in disk.plan.bad && AnyUnlink !in disk.plan.bad ==> disk.left == old(disk.left)
      ensures old(disk.moves) <= disk.moves && Idle(disk.world, disk.moves, |old(disk.moves)|)
    {
      if copied.Some? {
        ghost var o, left, k := disk.ours, disk.left, copied.value.key;
        RemoveOwn(copied.value.key, copied.value.ino);
        if disk.world != Hostile && k in o.held {
          AccountsRemoved(o, disk.ours, k, rest + {k}, left, disk.left);
          assert rest + {k} - {k} == rest;
        }
        copied := None;
      } else {
        assert rest + {} == rest;
      }
    }

    /** The destructor: what is not placed goes, and of all that was in use, `rest` stays. */
    method Drop(ghost rest: set<Key>)
      requires Valid() && (!done ==> staging !in rest)
      requires disk.world != Hostile ==>
                 var used := if done then rest else rest + {staging};
                 && (Accounts(disk.ours, used + CopyKey(), disk.left) || Accounts(disk.ours, used, disk.left))
                 && (copied.Some? ==> copied.value.key !in used && copied.value.key !in disk.left)
                 && (copied.Some? && copied.value.key in disk.ours.held ==> disk.ours.held[copied.value.key] == copied.value.ino)
      modifies this`copied, disk`fs, disk`ours, disk`moves, disk`looks, disk`left
      ensures Valid() && copied == None && old(disk.looks) <= disk.looks && Shrunk(old(disk.ours), disk.ours)
      ensures disk.world != Hostile ==> Accounts(disk.ours, rest, disk.left) && old(disk.left).Keys <= disk.left.Keys
      ensures disk.Scripted() && AnyUnlink in disk.plan.bad && !done ==> staging in disk.left
      ensures disk.Scripted() && AnyUnlink !in disk.plan.bad && (old(copied) == None || StatOfCopy !in disk.plan.bad) ==>
                disk.left == old(disk.left)
      ensures old(disk.moves) <= disk.moves && Idle(disk.world, disk.moves, |old(disk.moves)|)
    {
      DropCopy(if done then rest else rest + {staging});
      if !done {
        ghost var mid, o, left := disk.moves, disk.ours, disk.left;
        disk.Unlink(staging);
        Onward(disk.world, |old(disk.moves)|, mid, disk.moves, []);
        if disk.world != Hostile {
          AccountsRemoved(o, disk.ours, staging, rest + {staging}, left, disk.left);
          assert rest + {staging} - {staging} == rest;
        }
      }
    }

    /** Each of the names tried so far was taken, or the copy's random name was, when nobody else was about. */
    ghost predicate TakenBefore(n: nat, skipped: set<nat>)
      reads this, disk
    {
      && (forall j :: j in skipped ==> 0 <= j < n)
      && (disk.world == Quiet && skipped != {} ==> CanCollide())
      && (disk.world == Quiet ==>
            forall j :: 0 <= j < n && j !in skipped ==> Key(Target, Numbered(name, j)) in disk.start.entries)
    }

    /** The checks before a file is placed. */
    method Check() returns (e: Option<InboxError>)
      requires Valid() && Staged()
      modifies disk`fs, disk`looks
      ensures Valid() && Staged() && old(disk.looks) <= disk.looks
      ensures e == None ==> Length(id, Some(declared)) in disk.looks
      ensures failed ==> e == Some(Io)
      ensures !failed && written < declared ==> e == Some(Truncated(written, declared))
      ensures e == None ==> !failed && Whole()
      ensures e == Some(DigestMismatch) ==> !failed && |hashed| == declared && !Whole()
      ensures e != Some(NoFreeName)
      ensures disk.Scripted() && !failed && written == declared ==> e == if Whole() then None else Some(DigestMismatch)
    {
      if failed {
        return Some(Io);
      }
      if written != declared {
        return Some(Truncated(written, declared));
      }
      var flushed := disk.Lucky(AnyOther);
      var goingOn := disk.Lucky(AnyOther);
      if !goingOn {
        return Some(Cancelled);
      } else if !flushed {
        return Some(Io);
      }
      var size := disk.Size(id, AnyOther);
      if size != Some(declared) {
        return Some(Io);
      }
      if expected.Some? && sha(hashed) != expected.value {
        return Some(DigestMismatch);
      }
      return None;
    }

    /** Nothing has been placed since `was`, and the first `n` names were taken, or skipped. */
    ghost predicate Trying(n: nat, skipped: set<nat>, was: seq<Move>)
      reads this, disk
      requires Valid()
    {
      && Staged() && OnlyParts(disk.ours, staging.dir) && TakenBefore(n, skipped) && !disk.unseen
      && was <= disk.moves && Idle(disk.world, disk.moves, |was|)
    }

    ghost predicate AllSkipped(n: nat, skipped: set<nat>) {
      forall j :: 0 <= j < n ==> j in skipped
    }

    /** By its script, every attempt at a name ends like that. */
    ghost predicate Hopeless() {
      disk.Scripted() && !disk.plan.links && Doomed()
    }

    /** What a script makes of one attempt after another, up to the one at name number `n`. */
    ghost predicate NamesFated(e: Attempt, n: nat)
      reads this, disk
    {
      disk.Scripted() ==>
        if disk.plan.links then
          n < MAX_NAME_ATTEMPTS ==> Free(Numbered(name, n)) && LinkFated(e, map[]) && copied == None
        else
          !Doomed() && {SyncOfCopy, StatOfCopy} <= disk.plan.bad ==>
            n < MAX_NAME_ATTEMPTS && (e == NotPlaced || e == Interrupted) && ScriptedCopy() in disk.left
    }

    /** How a script stands before the attempt at name number `n`. */
    ghost predicate OnScript(n: nat, skipped: set<nat>)
      reads this, disk
    {
      && (copied == None ==> disk.left == map[])
      && (n == 0 || Hopeless() || (disk.Scripted() && disk.plan.links) ==> copied == None)
      && (disk.Scripted() && !disk.plan.links && !Doomed() && n > 0 ==> !({SyncOfCopy, StatOfCopy} <= disk.plan.bad))
      && (Smooth() ==> disk.left == map[])
      && (Hopeless() ==> AllSkipped(n, skipped))
    }

    lemma OneMoreTaken(collided: bool, dest: Str, n: nat, skipped: set<nat>)
      requires TakenBefore(n, skipped) && dest == Numbered(name, n)
      requires disk.world == Quiet ==> (if collided then CanCollide() else Key(Target, dest) in disk.start.entries)
      ensures TakenBefore(n + 1, if collided then skipped + {n} else skipped)
    {
    }

    /** One attempt, at name number `n`. */
    method TryName(n: nat, ghost skipped: set<nat>, ghost was: seq<Move>) returns (e: Attempt, ghost skipped': set<nat>)
      requires Valid() && Trying(n, skipped, was) && OnScript(n, skipped) && !failed && written == declared && n < MAX_NAME_ATTEMPTS
      modifies this`copied, disk
      ensures Valid() && old(disk.looks) <= disk.looks
      ensures e == Taken ==> Trying(n + 1, skipped', was) && OnScript(n + 1, skipped')
      ensures e != Taken ==>
                && skipped' == skipped && Tried(e, false, Numbered(name, n), was) && TakenBefore(n, skipped)
                && !Hopeless() && NamesFated(e, n) && (Smooth() ==> disk.left == map[] && e == Placed)
    {
      ghost var mid, collided := disk.moves, false;
      e, collided := Place(Numbered(name, n));
      TriedSince(e, collided, Numbered(name, n), was, mid);
      assert TakenBefore(n, skipped);
      skipped' := if collided then skipped + {n} else skipped;
      if e == Taken {
        OneMoreTaken(collided, Numbered(name, n), n, skipped);
      }
    }

    /** Tries one name after another. */
    method TryNames() returns (e: Attempt, n: nat, ghost skipped: set<nat>)
      requires Valid() && Staged() && OnlyParts(disk.ours, staging.dir) && !failed && written == declared
      requires copied == None && disk.left == map[] && !disk.unseen
      modifies this`copied, disk
      ensures Valid() && n <= MAX_NAME_ATTEMPTS && TakenBefore(n, skipped) && old(disk.looks) <= disk.looks
      ensures if n < MAX_NAME_ATTEMPTS then e != Taken && Tried(e, false, Numbered(name, n), old(disk.moves))
              else e == Taken && Trying(n, skipped, old(disk.moves))
      ensures if Hopeless() then n == MAX_NAME_ATTEMPTS && AllSkipped(n, skipped) else NamesFated(e, n)
      ensures Smooth() ==> disk.left == map[] && (n < MAX_NAME_ATTEMPTS ==> e == Placed)
    {
      n, skipped := 0, {};
      while n < MAX_NAME_ATTEMPTS
        invariant n <= MAX_NAME_ATTEMPTS && Valid() && Trying(n, skipped, old(disk.moves)) && OnScript(n, skipped)
        invariant old(disk.looks) <= disk.looks
      {
        e, skipped := TryName(n, skipped, old(disk.moves));
        if e != Taken {
          return;
        }
        n := n + 1;
      }
      e := Taken;
    }

    /** The placed file is no longer ours to delete; its staging entry goes. */
    method Settle(dest: Str)
      requires Valid() && PlacedAs(dest, {staging} + CopyKey())
      modifies this`done, disk`fs, disk`ours, disk`moves, disk`left
      ensures disk.ours.keys == old(disk.ours).keys && disk.ours.data == old(disk.ours).data
      ensures Valid() && PlacedAs(dest, CopyKey()) && done
      ensures disk.Scripted() ==> if AnyUnlink in disk.plan.bad then staging in disk.left else disk.left == old(disk.left)
      ensures old(disk.moves) <= disk.moves && Idle(disk.world, disk.moves, |old(disk.moves)|)
    {
      done := true;
      ghost var o, left, t := disk.ours, disk.left, Key(Target, dest);
      disk.Unlink(staging);
      if disk.world != Hostile {
        AccountsRemoved(o, disk.ours, staging, {staging} + CopyKey() + {t}, left, disk.left);
        assert {staging} + CopyKey() + {t} - {staging} == CopyKey() + {t};
      }
    }

    /** In any world: the file was seen to be as long as declared, and its real name to lead to an inode of ours. */
    ghost predicate Confirmed(dest: Str)
      reads this, disk
    {
      Length(id, Some(declared)) in disk.looks && Seen(dest)
    }

    /** How a commit that tried `n` names stands before the file is dropped. */
    ghost predicate Judged(r: Committed, n: nat, skipped: set<nat>, was: seq<Move>)
      reads this, disk
      requires Valid()
    {
      && was <= disk.moves && Safe(disk.world, disk.moves, |was|, hashed) && PartsAndNames(disk.ours, staging.dir)
      && n <= MAX_NAME_ATTEMPTS && TakenBefore(n, skipped)
      && (Idle(disk.world, disk.moves, |was|) <==> disk.world == Hostile || !(r.Ok? || disk.unseen))
      && (r.Err? ==> !done && Kept())
      && (disk.unseen ==> !failed && Whole())
      && (r.Ok? ==>
            && done && !failed && Whole() && n < MAX_NAME_ATTEMPTS && r.saved == Saved(Numbered(name, n), declared)
            && PlacedAs(r.saved.name, CopyKey()) && Confirmed(r.saved.name)
            && (disk.world == Quiet ==> Key(Target, r.saved.name) !in disk.start.entries))
      && (failed ==> r == Err(Io))
      && (!failed && written < declared ==> r == Err(Truncated(written, declared)))
      && (r == Err(DigestMismatch) ==> !failed && |hashed| == declared && !Whole())
      && (r == Err(NoFreeName) ==> n == MAX_NAME_ATTEMPTS)
    }

    /** What a script makes of the commit of a file that is whole, and of one that is not. */
    ghost predicate Foretold(r: Committed, n: nat, skipped: set<nat>)
      reads this, disk
    {
      disk.Scripted() ==>
        if failed || !Whole() then
          r == Err(if failed then Io else if written < declared then Truncated(written, declared) else DigestMismatch)
        else if disk.plan.links then
          if n == MAX_NAME_ATTEMPTS then r == Err(NoFreeName)
          else if !Free(Numbered(name, n)) then false
          else if StatOfPlaced in disk.plan.bad then
            && r == Err(Io) && disk.unseen && copied == None
            && if AnyUnlink in disk.plan.bad then disk.LeftInTarget() else disk.left == map[]
          else r.Ok? && (AnyUnlink in disk.plan.bad ==> staging in disk.left)
        else if Doomed() then
          r == Err(NoFreeName) && AllSkipped(MAX_NAME_ATTEMPTS, skipped)
        else
          {SyncOfCopy, StatOfCopy} <= disk.plan.bad ==> r.Err? && ScriptedCopy() in disk.left
    }

    /** What becomes of a commit by a script by which nothing fails: a whole file is placed, unless all names are taken. */
    ghost predicate EndsWell(r: Committed, n: nat)
      reads this, disk
    {
      Smooth() ==>
        && disk.left == map[]
        && (!failed && Whole() ==> if n == MAX_NAME_ATTEMPTS then r == Err(NoFreeName) else r.Ok?)
    }

    /** Places a file that has been checked. */
    method PlaceChecked() returns (r: Committed, ghost n: nat, ghost skipped: set<nat>)
      requires Valid() && Staged() && OnlyParts(disk.ours, staging.dir) && copied == None && !done
      requires disk.left == map[] && !disk.unseen && !failed && Whole() && Length(id, Some(declared)) in disk.looks
      modifies this`copied, this`done, disk
      ensures Valid() && Judged(r, n, skipped, old(disk.moves)) && Foretold(r, n, skipped) && EndsWell(r, n)
    {
      var a, tried;
      a, tried, skipped := TryNames();
      n := tried;
      match a {
        case Placed =>
          ghost var mid := disk.moves;
          Settle(Numbered(name, tried));
          Onward(disk.world, |mid|, mid, disk.moves, hashed);
          Onward(disk.world, |old(disk.moves)|, mid, disk.moves, hashed);
          return Ok(Saved(Numbered(name, tried), declared)), n, skipped;
        case Taken =>
          Onward(disk.world, |old(disk.moves)|, disk.moves, disk.moves, hashed);
          return Err(NoFreeName), n, skipped;
        case NotPlaced => return Err(Io), n, skipped;
        case Interrupted => return Err(Cancelled), n, skipped;
      }
    }

    /** The body of `commit`, before the file is dropped. */
    method PlaceFile() returns (r: Committed, ghost n: nat, ghost skipped: set<nat>)
      requires Valid() && Staged() && OnlyParts(disk.ours, staging.dir) && copied == None && !done
      requires disk.left == map[] && !disk.unseen
      modifies this`copied, this`done, disk
      ensures Valid() && Judged(r, n, skipped, old(disk.moves)) && Foretold(r, n, skipped) && EndsWell(r, n)
    {
      var e := Check();
      if e.Some? {
        Onward(disk.world, |old(disk.moves)|, disk.moves, disk.moves, hashed);
        return Err(e.value), 0, {};
      }
      r, n, skipped := PlaceChecked();
    }

    /** All that is left of ours on the disk is what could not be cleaned up. */
    ghost predicate OnlyLeftovers()
      reads disk
    {
      disk.world != Hostile ==> disk.ours.held.Keys == disk.left.Keys
    }

    /** The file is under its real name, whole; and all else that is left of ours is what could not be cleaned up. */
    ghost predicate OnlyPlacedAs(dest: Str)
      reads this, disk
    {
      var o, t := disk.ours, Key(Target, dest);
      disk.world != Hostile ==>
        && t in o.held && o.held[t] in o.data && o.data[o.held[t]] == hashed
        && o.held.Keys == {t} + disk.left.Keys && t !in disk.left
    }

    /**
     * Checks the size and the digest, and places the file under the first of its names that is free.
     * Whatever a kill leaves is covered: every step keeps all that is in the target directory, and
     * adds nothing to it but a whole file.
     */
    method Commit() returns (r: Committed, ghost n: nat, ghost skipped: set<nat>)
      requires Valid() && Staged() && OnlyParts(disk.ours, staging.dir) && copied == None && !done
      requires disk.left == map[] && !disk.unseen
      modifies this, disk
      ensures Valid() && hashed == old(hashed) && failed == old(failed) && PartsAndNames(disk.ours, staging.dir)
      ensures old(disk.moves) <= disk.moves && Safe(disk.world, disk.moves, |old(disk.moves)|, hashed)
      ensures Idle(disk.world, disk.moves, |old(disk.moves)|) <==> disk.world == Hostile || !(r.Ok? || disk.unseen)
      ensures disk.unseen ==> !failed && Whole()
      ensures failed ==> r == Err(Io)
      ensures !failed && |hashed| < declared ==> r == Err(Truncated(|hashed|, declared))
      ensures r == Err(DigestMismatch) ==> !failed && |hashed| == declared && !Whole()
      ensures r.Ok? ==> !failed && Whole() && OnlyPlacedAs(r.saved.name) && Confirmed(r.saved.name)
      ensures r.Err? ==> OnlyLeftovers()
      ensures n <= MAX_NAME_ATTEMPTS && TakenBefore(n, skipped)
      ensures r.Ok? ==> n < MAX_NAME_ATTEMPTS && r.saved == Saved(Numbered(name, n), declared)
      ensures r.Ok? && disk.world == Quiet ==> Key(Target, r.saved.name) !in disk.start.entries
      ensures r == Err(NoFreeName) ==> n == MAX_NAME_ATTEMPTS
      ensures Foretold(r, n, skipped) && EndsWell(r, n)
      ensures disk.Scripted() && r.Err? && AnyUnlink in disk.plan.bad ==> staging in disk.left
    {
      r, n, skipped := PlaceFile();
      ghost var mid := disk.moves;
      if r.Ok? {
        DropPlaced(r.saved.name);
      } else {
        DropUnplaced();
      }
      Onward(disk.world, |mid|, mid, disk.moves, hashed);
      Onward(disk.world, |old(disk.moves)|, mid, disk.moves, hashed);
    }

    /** A file not placed is dropped: nothing of it stays that can be removed. */
    method DropUnplaced()
      requires Valid() && !done && Kept()
      modifies this`copied, disk`fs, disk`ours, disk`moves, disk`looks, disk`left
      ensures Valid() && OnlyLeftovers() && disk.ours.keys == old(disk.ours).keys
      ensures disk.world != Hostile ==> old(disk.left).Keys <= disk.left.Keys
      ensures disk.Scripted() && AnyUnlink in disk.plan.bad ==> staging in disk.left
      ensures disk.Scripted() && AnyUnlink !in disk.plan.bad && (old(copied) == None || StatOfCopy !in disk.plan.bad) ==>
                disk.left == old(disk.left)
      ensures copied == None
      ensures disk.ours.data == old(disk.ours).data && old(disk.looks) <= disk.looks
      ensures old(disk.moves) <= disk.moves && Idle(disk.world, disk.moves, |old(disk.moves)|)
    {
      assert {} + {staging} == {staging};
      Drop({});
      assert {} + disk.left.Keys == disk.left.Keys;
    }

    /** A placed file is dropped: only a copy that was not used after all goes. */
    method DropPlaced(dest: Str)
      requires Valid() && done && PlacedAs(dest, CopyKey())
      modifies this`copied, disk`fs, disk`ours, disk`moves, disk`looks, disk`left
      ensures Valid() && OnlyPlacedAs(dest) && disk.ours.keys == old(disk.ours).keys
      ensures disk.world != Hostile ==> old(disk.left).Keys <= disk.left.Keys
      ensures disk.Scripted() && AnyUnlink !in disk.plan.bad && (old(copied) == None || StatOfCopy !in disk.plan.bad) ==>
                disk.left == old(disk.left)
      ensures disk.ours.data == old(disk.ours).data && old(disk.looks) <= disk.looks
      ensures old(disk.moves) <= disk.moves && Idle(disk.world, disk.moves, |old(disk.moves)|)
    {
      ghost var t := Key(Target, dest);
      assert CopyKey() + {t} == {t} + CopyKey();
      Drop({t});
    }
  }
}
