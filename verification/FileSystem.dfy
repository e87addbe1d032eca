/**
 * Just enough of a file system for the inbox and the store: directories as maps from names to inodes,
 * and each system call as one atomic step, before which the rest of the world may act. A kill may fall
 * between any two steps; the steps taken so far are kept as a history, so that what a kill would leave
 * can be spoken about.
 */
module FileSystem {
  import opened Octets
  import opened Options
  import opened Strings

  datatype Kind = Regular | Directory | Symlink | Special

  datatype Node = Node(kind: Kind, data: seq<Byte>)

  /** The target directory, the `.partial` inside it, and a directory of its own somewhere else. */
  datatype Dir = Target | Partial | Elsewhere

  datatype Key = Key(dir: Dir, name: Str)

  datatype FS = FS(nodes: map<nat, Node>, entries: map<Key, nat>, next: nat)

  predicate WellFormed(f: FS) {
    && (forall i :: i in f.nodes ==> i < f.next)
    && (forall k :: k in f.entries ==> f.entries[k] in f.nodes)
  }

  // ---------------------------------------------------------------- what the system calls do

  function Created(f: FS, k: Key): FS {
    FS(f.nodes[f.next := Node(Regular, [])], f.entries[k := f.next], f.next + 1)
  }

  function Linked(f: FS, k: Key, ino: nat): FS {
    f.(entries := f.entries[k := ino])
  }

  function Unlinked(f: FS, k: Key): FS {
    f.(entries := f.entries - {k})
  }

  function Renamed(f: FS, src: Key, dst: Key): FS
    requires src in f.entries
  {
    f.(entries := (f.entries - {src})[dst := f.entries[src]])
  }

  function Appended(f: FS, ino: nat, chunk: seq<Byte>): FS
    requires ino in f.nodes
  {
    f.(nodes := f.nodes[ino := f.nodes[ino].(data := f.nodes[ino].data + chunk)])
  }

  // ---------------------------------------------------------------- us and the rest of the world

  /**
   * What one writer has made: every entry it ever made, those of them that are still there and where
   * they lead, and what it has written to its inodes.
   */
  datatype Ours = Ours(keys: set<Key>, held: map<Key, nat>, data: map<nat, seq<Byte>>)

  /**
   * How the rest of the world behaves between our steps: not at all; as other writers and the user do,
   * who leave our random names and our inodes alone; or as something that goes for our entries on purpose.
   */
  datatype World = Quiet | Shared | Hostile

  /** A name that is ours alone: a random one for good, a real one for as long as it leads to a file of ours. */
  predicate Guarded(ours: Ours, k: Key) {
    k in ours.keys && (k.dir != Target || k in ours.held)
  }

  /** What others leave alone: the names that are ours, our inodes' contents, and that no other name leads to them. */
  predicate Respects(ours: Ours, f: FS, f': FS) {
    && (forall k :: k in ours.keys && Guarded(ours, k) ==> (k in f'.entries <==> k in f.entries))
    && (forall k :: k in ours.keys && Guarded(ours, k) && k in f.entries && k in f'.entries ==> f'.entries[k] == f.entries[k])
    && (forall i :: i in ours.data && i in f.nodes ==> i in f'.nodes && f'.nodes[i] == f.nodes[i])
    && (forall k :: k in f'.entries && f'.entries[k] in ours.data ==> k in f.entries && f.entries[k] == f'.entries[k])
  }

  /** What the world may do between two of our steps. An open descriptor keeps its inode alive. */
  predicate Rely(w: World, ours: Ours, f: FS, f': FS) {
    && WellFormed(f') && f.next <= f'.next
    && (forall i :: i in ours.data && i in f.nodes ==> i in f'.nodes)
    && (w == Quiet ==> f' == f)
    && (w != Hostile ==> Respects(ours, f, f'))
  }

  lemma {:induction false} StandingStill(w: World, ours: Ours, f: FS)
    requires WellFormed(f)
    ensures Rely(w, ours, f, f)
  {
  }

  /** Our books agree with the disk. */
  ghost predicate Faithful(ours: Ours, f: FS) {
    && ours.held.Keys <= ours.keys
    && (forall k :: Guarded(ours, k) ==> (k in f.entries <==> k in ours.held))
    && (forall k :: k in ours.held && k in f.entries ==> f.entries[k] == ours.held[k] && ours.held[k] in ours.data)
    && (forall i :: i in ours.data && i in f.nodes ==> f.nodes[i] == Node(Regular, ours.data[i]))
    && (forall k :: k in f.entries && f.entries[k] in ours.data ==> k in ours.held)
  }

  /** Everything that is not ours is as it was at `start`. */
  ghost predicate OthersAsAt(start: FS, f: FS, ours: Ours) {
    && WellFormed(start) && start.next <= f.next
    && (forall k :: k in ours.keys ==> k !in start.entries && (k in f.entries ==> k in ours.held))
    && (forall k :: k !in ours.keys ==> (k in f.entries <==> k in start.entries))
    && (forall k :: k !in ours.keys && k in f.entries && k in start.entries ==> f.entries[k] == start.entries[k])
    && (forall i :: i in start.nodes ==> i !in ours.data && i in f.nodes && f.nodes[i] == start.nodes[i])
  }

  // ---------------------------------------------------------------- what a step of ours may do

  /** One of our steps: the file system before and after it, and what we had made by then. */
  datatype Move = Move(before: FS, after: FS, ours: Ours)

  /** In any world: no entry is ever replaced by another, and only entries we made ourselves are removed. */
  ghost predicate Mannerly(m: Move) {
    && (forall k :: k in m.before.entries && k in m.after.entries ==> m.after.entries[k] == m.before.entries[k])
    && (forall k :: k in m.before.entries && k !in m.after.entries ==> k in m.ours.keys)
  }

  /** A step changes nothing but what is ours: what it adds or removes is our own entry, for an inode of ours. */
  ghost predicate OwnOnly(m: Move) {
    && m.before.next <= m.after.next
    && (forall k :: k in m.after.entries && k !in m.before.entries ==> k in m.ours.held)
    && (forall k :: k in m.before.entries && k !in m.after.entries ==> k in m.ours.keys && m.before.entries[k] in m.ours.data)
    && (forall k :: k in m.after.entries && k in m.before.entries ==> m.after.entries[k] == m.before.entries[k])
    && (forall k :: k in m.after.entries && k !in m.before.entries ==> m.after.entries[k] in m.ours.data)
    && (forall i :: i in m.before.nodes && i !in m.ours.data ==> i in m.after.nodes && m.after.nodes[i] == m.before.nodes[i])
  }

  /** Every entry under a real name survives a step, with its inode and its content, unless we made it and take it back. */
  ghost predicate TargetKept(m: Move) {
    forall k :: k in m.before.entries && k.dir == Target && (k in m.after.entries || k !in m.ours.keys) ==>
      && k in m.after.entries && m.after.entries[k] == m.before.entries[k]
      && m.after.entries[k] in m.after.nodes && m.after.entries[k] in m.before.nodes
      && m.after.nodes[m.after.entries[k]] == m.before.nodes[m.after.entries[k]]
  }

  /** Whatever a step adds under a real name is a regular file that holds exactly `data`. */
  ghost predicate PlacesOnly(m: Move, data: seq<Byte>) {
    forall k :: k in m.after.entries && k !in m.before.entries && k.dir == Target ==>
      m.after.entries[k] in m.after.nodes && m.after.nodes[m.after.entries[k]] == Node(Regular, data)
  }

  ghost predicate PlacesNothing(m: Move) {
    forall k :: k in m.after.entries && k.dir == Target ==> k in m.before.entries
  }

  ghost predicate SafeMove(m: Move, data: seq<Byte>) {
    TargetKept(m) && PlacesOnly(m, data) && OwnOnly(m)
  }

  ghost predicate IdleMove(m: Move) {
    TargetKept(m) && PlacesNothing(m) && OwnOnly(m)
  }

  /** Nothing but our own steps leads from `start` to `f`. */
  ghost predicate Chained(start: FS, moves: seq<Move>, f: FS) {
    if moves == [] then f == start
    else
      && moves[0].before == start && moves[|moves| - 1].after == f
      && forall i :: 0 < i < |moves| ==> moves[i].before == moves[i - 1].after
  }

  /** The steps from number `from` on are mannerly. */
  ghost predicate Polite(moves: seq<Move>, from: nat) {
    forall i :: from <= i < |moves| ==> Mannerly(moves[i])
  }

  /** The steps from number `from` on are mannerly, and place nothing; in a world that goes for our entries, who knows. */
  ghost predicate Idle(w: World, moves: seq<Move>, from: nat) {
    forall i :: from <= i < |moves| ==> Mannerly(moves[i]) && (w != Hostile ==> IdleMove(moves[i]))
  }

  /** The steps from number `from` on are mannerly, and whatever they place is a whole `data`. */
  ghost predicate Safe(w: World, moves: seq<Move>, from: nat, data: seq<Byte>) {
    forall i :: from <= i < |moves| ==> Mannerly(moves[i]) && (w != Hostile ==> SafeMove(moves[i], data))
  }

  /** What we had made before step `i`. */
  ghost function KeysBefore(moves: seq<Move>, i: nat): set<Key>
    requires i <= |moves|
  {
    if i == 0 then {} else moves[i - 1].ours.keys
  }

  /** An entry becomes ours only where there was none. */
  ghost predicate Claims(was: set<Key>, m: Move) {
    forall k :: k in m.ours.keys ==> k in was || k !in m.before.entries
  }

  ghost predicate ClaimsFairly(moves: seq<Move>) {
    forall i :: 0 <= i < |moves| ==> Claims(KeysBefore(moves, i), moves[i])
  }

  /** The books were in order after every step, and nothing that was ours then is not ours now. */
  ghost predicate Recorded(w: World, moves: seq<Move>, ours: Ours) {
    && ours.keys == KeysBefore(moves, |moves|) && ClaimsFairly(moves)
    && (forall i :: 0 <= i < |moves| ==> moves[i].ours.keys <= ours.keys)
    && (w != Hostile ==> forall i :: 0 <= i < |moves| ==> InOrder(moves[i]))
  }

  ghost predicate InOrder(m: Move) {
    Faithful(m.ours, m.after) && WellFormed(m.after) && m.ours.data.Keys <= m.after.nodes.Keys
  }

  lemma {:induction false} OneMoreClaimed(moves: seq<Move>, m: Move)
    requires ClaimsFairly(moves) && Claims(KeysBefore(moves, |moves|), m)
    ensures ClaimsFairly(moves + [m]) && KeysBefore(moves + [m], |moves| + 1) == m.ours.keys
  {
    var more := moves + [m];
    forall i | 0 <= i < |more| ensures Claims(KeysBefore(more, i), more[i]) {
      assert KeysBefore(more, i) == KeysBefore(moves, i);
      assert i < |moves| ==> more[i] == moves[i];
    }
  }

  lemma {:induction false} RecordMove(w: World, moves: seq<Move>, ours: Ours, m: Move)
    requires Recorded(w, moves, ours) && ours.keys <= m.ours.keys && Claims(ours.keys, m)
    requires w != Hostile ==> InOrder(m)
    ensures Recorded(w, moves + [m], m.ours)
  {
    OneMoreClaimed(moves, m);
    var more := moves + [m];
    forall i | 0 <= i < |more| ensures more[i].ours.keys <= m.ours.keys && (w != Hostile ==> InOrder(more[i])) {
      assert i < |moves| ==> more[i] == moves[i];
    }
  }

  lemma {:induction false} OneMove(w: World, start: FS, moves: seq<Move>, m: Move, data: seq<Byte>)
    ensures Chained(start, moves, m.before) ==> Chained(start, moves + [m], m.after)
    ensures Mannerly(m) ==> Polite(moves + [m], |moves|)
    ensures Mannerly(m) && (w != Hostile ==> IdleMove(m)) ==> Idle(w, moves + [m], |moves|)
    ensures w != Hostile && !PlacesNothing(m) ==> !Idle(w, moves + [m], |moves|)
    ensures Mannerly(m) && (w != Hostile ==> SafeMove(m, data)) ==> Safe(w, moves + [m], |moves|, data)
  {
    assert (moves + [m])[|moves|] == m;
  }

  /** What was so of some steps, and is so of those after them, is so of all of them. */
  lemma {:induction false} Onward(w: World, a: nat, mid: seq<Move>, moves: seq<Move>, data: seq<Byte>)
    requires mid <= moves && a <= |mid|
    ensures Polite(mid, a) && Polite(moves, |mid|) ==> Polite(moves, a)
    ensures Idle(w, mid, a) && Idle(w, moves, |mid|) ==> Idle(w, moves, a)
    ensures Idle(w, moves, a) ==> Idle(w, mid, a) && Idle(w, moves, |mid|)
    ensures Safe(w, mid, a, data) && Safe(w, moves, |mid|, data) ==> Safe(w, moves, a, data)
    ensures Idle(w, moves, a) ==> Safe(w, moves, a, data) && Polite(moves, a)
    ensures Safe(w, moves, a, data) ==> Polite(moves, a)
  {
  }

  // ---------------------------------------------------------------- each call keeps the books

  lemma {:induction false} StillFaithful(w: World, start: FS, ours: Ours, f: FS, f': FS)
    requires Rely(w, ours, f, f') && WellFormed(f) && ours.data.Keys <= f.nodes.Keys
    ensures w != Hostile && Faithful(ours, f) ==> Faithful(ours, f')
    ensures w == Quiet && OthersAsAt(start, f, ours) ==> OthersAsAt(start, f', ours)
    ensures ours.data.Keys <= f'.nodes.Keys
  {
  }

  /** None of our inodes is under a real name yet. */
  ghost predicate Unplaced(ours: Ours) {
    forall k :: k in ours.held ==> k.dir != Target
  }

  function OursCreated(o: Ours, k: Key, ino: nat): Ours {
    Ours(o.keys + {k}, o.held[k := ino], o.data[ino := []])
  }

  lemma {:induction false} CreateKeeps(start: FS, o: Ours, b: FS, k: Key)
    requires WellFormed(b) && o.data.Keys <= b.nodes.Keys && k !in b.entries
    ensures var f, o' := Created(b, k), OursCreated(o, k, b.next);
      && WellFormed(f) && o'.data.Keys <= f.nodes.Keys
      && (Faithful(o, b) ==> Faithful(o', f))
      && (OthersAsAt(start, b, o) ==> OthersAsAt(start, f, o'))
  {
  }

  lemma {:induction false} CreateMoves(o: Ours, b: FS, k: Key)
    requires WellFormed(b) && k !in b.entries
    ensures var m := Move(b, Created(b, k), OursCreated(o, k, b.next));
      Mannerly(m) && Claims(o.keys, m) && (k.dir != Target ==> IdleMove(m))
  {
  }

  function OursAppended(o: Ours, ino: nat, chunk: seq<Byte>): Ours
    requires ino in o.data
  {
    o.(data := o.data[ino := o.data[ino] + chunk])
  }

  lemma {:induction false} AppendNothing(o: Ours, ino: nat)
    requires ino in o.data
    ensures OursAppended(o, ino, []) == o
  {
    assert o.data[ino] + [] == o.data[ino];
    assert o.data[ino := o.data[ino]] == o.data;
  }

  lemma {:induction false} AppendTwice(o: Ours, ino: nat, a: seq<Byte>, b: seq<Byte>)
    requires ino in o.data
    ensures OursAppended(OursAppended(o, ino, a), ino, b) == OursAppended(o, ino, a + b)
  {
    assert o.data[ino] + (a + b) == o.data[ino] + a + b;
  }

  lemma {:induction false} AppendKeeps(start: FS, o: Ours, b: FS, ino: nat, chunk: seq<Byte>)
    requires WellFormed(b) && o.data.Keys <= b.nodes.Keys && ino in o.data
    ensures var f, o' := Appended(b, ino, chunk), OursAppended(o, ino, chunk);
      && WellFormed(f) && o'.data.Keys <= f.nodes.Keys
      && (Faithful(o, b) ==> Faithful(o', f))
      && (OthersAsAt(start, b, o) ==> OthersAsAt(start, f, o'))
      && Mannerly(Move(b, f, o')) && Claims(o.keys, Move(b, f, o'))
      && (Faithful(o, b) && Unplaced(o) ==> IdleMove(Move(b, f, o')))
  {
  }

  /** A second name for what `src` leads to. */
  function OursLinked(o: Ours, src: Key, dst: Key): Ours {
    Ours(o.keys + {dst}, if src in o.held then o.held[dst := o.held[src]] else o.held, o.data)
  }

  lemma {:induction false} LinkKeeps(start: FS, o: Ours, b: FS, src: Key, dst: Key)
    requires WellFormed(b) && o.data.Keys <= b.nodes.Keys && src in b.entries && dst !in b.entries
    ensures var f, o' := Linked(b, dst, b.entries[src]), OursLinked(o, src, dst);
      && WellFormed(f) && o'.data.Keys <= f.nodes.Keys
      && (Faithful(o, b) && src in o.keys && src.dir != Target ==> Faithful(o', f))
      && (OthersAsAt(start, b, o) && Faithful(o, b) && src in o.keys && src.dir != Target ==> OthersAsAt(start, f, o'))
      && Mannerly(Move(b, f, o')) && Claims(o.keys, Move(b, f, o'))
      && (Faithful(o, b) && src in o.keys && src.dir != Target ==> SafeMove(Move(b, f, o'), o.data[o.held[src]]))
      && (dst.dir == Target ==> !PlacesNothing(Move(b, f, o')))
  {
  }

  function OursUnlinked(o: Ours, k: Key): Ours {
    o.(held := o.held - {k})
  }

  lemma {:induction false} UnlinkKeeps(start: FS, o: Ours, b: FS, k: Key)
    requires WellFormed(b) && o.data.Keys <= b.nodes.Keys && k in o.keys
    ensures var f, o' := Unlinked(b, k), OursUnlinked(o, k);
      && WellFormed(f) && o'.data.Keys <= f.nodes.Keys
      && (Faithful(o, b) ==> Faithful(o', f))
      && (OthersAsAt(start, b, o) ==> OthersAsAt(start, f, o'))
      && Mannerly(Move(b, f, o')) && Claims(o.keys, Move(b, f, o'))
      && (Faithful(o, b) && Guarded(o, k) ==> IdleMove(Move(b, f, o')))
  {
  }

  function OursRenamed(o: Ours, src: Key, dst: Key): Ours {
    OursUnlinked(OursLinked(o, src, dst), src)
  }

  lemma {:induction false} RenameKeeps(start: FS, o: Ours, b: FS, src: Key, dst: Key)
    requires WellFormed(b) && o.data.Keys <= b.nodes.Keys && src in b.entries && dst !in b.entries && src in o.keys && src.dir != Target
    ensures var f, o' := Renamed(b, src, dst), OursRenamed(o, src, dst);
      && WellFormed(f) && o'.data.Keys <= f.nodes.Keys
      && (Faithful(o, b) ==> Faithful(o', f))
      && (OthersAsAt(start, b, o) && Faithful(o, b) ==> OthersAsAt(start, f, o'))
  {
  }

  lemma {:induction false} RenameMoves(o: Ours, b: FS, src: Key, dst: Key)
    requires WellFormed(b) && o.data.Keys <= b.nodes.Keys && src in b.entries && dst !in b.entries && src in o.keys && src.dir != Target
    ensures var m := Move(b, Renamed(b, src, dst), OursRenamed(o, src, dst));
      && Mannerly(m) && Claims(o.keys, m)
      && (Faithful(o, b) ==> SafeMove(m, o.data[o.held[src]]))
      && (dst.dir == Target ==> !PlacesNothing(m))
  {
  }

  // ---------------------------------------------------------------- the disk

  /** What a system call can come back with. `CannotLink`: across mounts, or no hard links here at all. */
  datatype Outcome = Done | Exists | CannotLink | Failed

  /** Why an entry of ours was left behind: which call of its clean-up failed. */
  datatype Mishap = UnlinkFailed | FstatFailed | StatFailed

  /** The calls that a script can have fail. */
  datatype Site = FstatOfNew | StatOfPlaced | StatOfCopy | SyncOfCopy | AnyUnlink | AnyOther

  /**
   * How the calls turn out: anyhow, or by a script, by which every call that can succeed does, but for those
   * at the sites it names, and links if there are none; and what is random comes out as it says, for the staging
   * file as `random` and for a copy as `again`.
   */
  datatype Plan = Anyhow | Script(bad: set<Site>, links: bool, random: seq<Byte>, again: seq<Byte>)

  /** Something we looked at: where an entry led, or how long an inode was. */
  datatype Look = Entry(k: Key, leadsTo: Option<nat>) | Length(ino: nat, size: Option<nat>)

  /** Broken by whoever needs to see what is inside. */
  datatype Seal = Wax {
    predicate Broken() { true }
  }

  /**
   * The disk as one writer sees it. `start` is how it found it; `moves` and `looks` are its own steps so far;
   * `left` are the entries it failed to clean up, and `unseen` says that it could not look at a file it had placed.
   */
  class Disk {
    const world: World
    const plan: Plan
    ghost const start: FS
    var fs: FS
    var ours: Ours
    ghost var moves: seq<Move>
    ghost var looks: set<Look>
    ghost var left: map<Key, Mishap>
    ghost var unseen: bool

    constructor (world: World, plan: Plan, fs: FS)
      requires WellFormed(fs)
      ensures Valid() && this.world == world && this.plan == plan && this.fs == fs && start == fs && Unused()
    {
      this.world := world;
      this.plan := plan;
      this.fs := fs;
      start := fs;
      ours := Ours({}, map[], map[]);
      moves := [];
      looks := {};
      left := map[];
      unseen := false;
    }

    /** Nothing has been done yet. */
    ghost predicate Unused()
      reads this
    {
      ours == Ours({}, map[], map[]) && moves == [] && left == map[] && !unseen
    }

    /** Everything goes by a script, with nobody else about. */
    ghost predicate Scripted() {
      world == Quiet && plan.Script? && AnyOther !in plan.bad && |plan.random| == 16 && |plan.again| == 16
    }

    /** Something was left under a real name. */
    ghost predicate LeftInTarget()
      reads this
    {
      exists k :: k in left && k.dir == Target
    }

    /** Whether the call at `site` goes well. */
    method Lucky(site: Site) returns (luck: bool)
      ensures plan.Script? ==> luck == (site !in plan.bad)
    {
      luck := *;
      if plan.Script? {
        luck := site !in plan.bad;
      }
    }

    /** The books are in order. They are kept under seal: a caller needs the promise, not the entries. */
    ghost predicate Valid()
      reads this
    {
      ours.held.Keys <= ours.keys && forall seal: Seal {:trigger seal.Broken()} :: seal.Broken() ==> Books()
    }

    /** What a kill right after step `i` leaves: the books of that moment agree with the disk of that moment. */
    lemma BooksAtKill(i: nat)
      requires Valid() && i < |moves|
      ensures moves[i].ours.keys <= ours.keys
      ensures world != Hostile ==> InOrder(moves[i])
      ensures world == Quiet ==> Chained(start, moves, fs)
    {
      OpenBooks();
    }

    lemma OpenBooks()
      requires Valid()
      ensures Books()
    {
      assert Wax.Broken();
    }

    /** The books agree with the disk, and with how it was found. */
    ghost predicate Books()
      reads this
    {
      && WellFormed(fs) && ours.data.Keys <= fs.nodes.Keys && ours.held.Keys <= ours.keys
      && (world != Hostile ==> Faithful(ours, fs))
      && (world == Quiet ==> OthersAsAt(start, fs, ours) && Chained(start, moves, fs))
      && Recorded(world, moves, ours)
    }

    /** The world acts, before each of our steps. */
    method Interfere()
      requires Valid()
      modifies this`fs
      ensures Valid() && Books() && Rely(world, ours, old(fs), fs)
    {
      OpenBooks();
      StandingStill(world, ours, fs);
      var f: FS :| Rely(world, ours, fs, f);
      assert Rely(world, ours, fs, f);
      StillFaithful(world, start, ours, fs, f);
      fs := f;
    }

    /** `openat` with `O_CREAT|O_EXCL`: makes a new, empty file, or fails on any existing entry. */
    method Create(k: Key) returns (e: Outcome, ino: nat)
      requires Valid() && k.dir != Target
      modifies this`fs, this`ours, this`moves
      ensures Valid() && e != CannotLink
      ensures e == Done ==> ino !in old(ours).data && ours == OursCreated(old(ours), k, ino)
      ensures e == Done && world != Hostile ==> k !in old(ours).held
      ensures e != Done ==> ours == old(ours)
      ensures old(moves) <= moves && Idle(world, moves, |old(moves)|)
      ensures world == Quiet && e == Exists ==> k in old(ours).held || k in start.entries
      ensures Scripted() ==> e == if k in old(ours).held || k in start.entries then Exists else Done
    {
      Interfere();
      var luck := Lucky(AnyOther);
      ino := fs.next;
      if k in fs.entries {
        return Exists, ino;
      } else if !luck {
        return Failed, ino;
      }
      ghost var b := fs;
      CreateKeeps(start, ours, fs, k);
      CreateMoves(ours, fs, k);
      OneMove(world, start, moves, Move(b, Created(b, k), OursCreated(ours, k, ino)), []);
      RecordMove(world, moves, ours, Move(b, Created(b, k), OursCreated(ours, k, ino)));
      fs := Created(fs, k);
      ours := OursCreated(ours, k, ino);
      moves := moves + [Move(b, fs, ours)];
      return Done, ino;
    }

    /** One write to an open descriptor: some of `chunk`, or an error. */
    method Append(ino: nat, chunk: seq<Byte>) returns (ok: bool, written: nat)
      requires Valid() && ino in ours.data && chunk != []
      modifies this`fs, this`ours, this`moves
      ensures Valid() && 0 < written <= |chunk|
      ensures ours == if ok then OursAppended(old(ours), ino, chunk[..written]) else old(ours)
      ensures old(moves) <= moves
      ensures Unplaced(old(ours)) ==> Idle(world, moves, |old(moves)|)
      ensures Scripted() ==> ok
    {
      Interfere();
      written :| 0 < written <= |chunk|;
      ok := Lucky(AnyOther);
      if ok {
        ghost var b := fs;
        AppendKeeps(start, ours, fs, ino, chunk[..written]);
        OneMove(world, start, moves, Move(b, Appended(b, ino, chunk[..written]), OursAppended(ours, ino, chunk[..written])), []);
        RecordMove(world, moves, ours, Move(b, Appended(b, ino, chunk[..written]), OursAppended(ours, ino, chunk[..written])));
        fs := Appended(fs, ino, chunk[..written]);
        ours := OursAppended(ours, ino, chunk[..written]);
        moves := moves + [Move(b, fs, ours)];
      }
    }

    /** One read from an open descriptor: some of what follows offset `at`, nothing at the end, or an error. */
    method Read(ino: nat, at: nat, most: nat) returns (ok: bool, piece: seq<Byte>)
      requires Valid() && ino in ours.data && most > 0
      modifies this`fs
      ensures Valid() && |piece| <= most && (Scripted() ==> ok)
      ensures ok && world != Hostile ==>
                if at < |ours.data[ino]| then 0 < |piece| <= |ours.data[ino]| - at && piece == ours.data[ino][at..at + |piece|]
                else piece == []
    {
      Interfere();
      ok := Lucky(AnyOther);
      var data := fs.nodes[ino].data;
      piece := [];
      if at < |data| {
        var room := if most < |data| - at then most else |data| - at;
        var n: nat := *;
        n := if 0 < n <= room then n else room;
        piece := data[at..at + n];
      }
    }

    /** `linkat` without following links: a second name for the same inode, or an error on any existing entry. */
    method Link(src: Key, dst: Key) returns (e: Outcome)
      requires Valid() && src in ours.keys && src.dir != Target && dst !in ours.keys && dst.dir == Target
      modifies this`fs, this`ours, this`moves
      ensures Valid()
      ensures ours == if e == Done then OursLinked(old(ours), src, dst) else old(ours)
      ensures e != Done ==> moves == old(moves)
      ensures e == Done && world != Hostile ==> src in old(ours).held && old(ours).held[src] in old(ours).data
      ensures e == Done && world == Quiet ==> dst !in start.entries
      ensures e == Exists && world == Quiet ==> dst in start.entries
      ensures old(moves) <= moves
      ensures e == Done && world != Hostile ==>
                && Safe(world, moves, |old(moves)|, old(ours).data[old(ours).held[src]])
                && !Idle(world, moves, |old(moves)|)
      ensures Polite(moves, |old(moves)|)
      ensures Scripted() && src in old(ours).held ==>
                e == if !plan.links then CannotLink else if dst in start.entries then Exists else Done
    {
      Interfere();
      e :| e == Exists ==> dst in fs.entries;
      if plan.Script? {
        e := if !plan.links then CannotLink else if dst in fs.entries then Exists else Done;
      }
      if e == Done && (src !in fs.entries || dst in fs.entries) {
        e := Failed;
      }
      if e == Done {
        ghost var b := fs;
        LinkKeeps(start, ours, fs, src, dst);
        ghost var data := if world != Hostile then ours.data[ours.held[src]] else [];
        OneMove(world, start, moves, Move(b, Linked(b, dst, b.entries[src]), OursLinked(ours, src, dst)), data);
        RecordMove(world, moves, ours, Move(b, Linked(b, dst, b.entries[src]), OursLinked(ours, src, dst)));
        fs := Linked(fs, dst, fs.entries[src]);
        ours := OursLinked(ours, src, dst);
        moves := moves + [Move(b, fs, ours)];
      }
    }

    /** `renameat2` with `RENAME_NOREPLACE`. */
    method RenameNoReplace(src: Key, dst: Key) returns (e: Outcome)
      requires Valid() && src in ours.keys && src.dir != Target && dst !in ours.keys && dst.dir == Target
      modifies this`fs, this`ours, this`moves
      ensures Valid() && e != CannotLink
      ensures ours == if e == Done then OursRenamed(old(ours), src, dst) else old(ours)
      ensures e != Done ==> moves == old(moves)
      ensures e == Done && world != Hostile ==> src in old(ours).held && old(ours).held[src] in old(ours).data
      ensures e == Done && world == Quiet ==> dst !in start.entries
      ensures e == Exists && world == Quiet ==> dst in start.entries
      ensures old(moves) <= moves
      ensures e == Done && world != Hostile ==>
                && Safe(world, moves, |old(moves)|, old(ours).data[old(ours).held[src]])
                && !Idle(world, moves, |old(moves)|)
      ensures Polite(moves, |old(moves)|)
      ensures Scripted() && src in old(ours).held ==> e == if dst in start.entries then Exists else Done
    {
      Interfere();
      e :| e != CannotLink && (e == Exists ==> dst in fs.entries);
      if plan.Script? {
        e := if dst in fs.entries then Exists else Done;
      }
      if e == Done && (src !in fs.entries || dst in fs.entries) {
        e := Failed;
      }
      if e == Done {
        ghost var b := fs;
        RenameKeeps(start, ours, fs, src, dst);
        RenameMoves(ours, fs, src, dst);
        ghost var data := if world != Hostile then ours.data[ours.held[src]] else [];
        OneMove(world, start, moves, Move(b, Renamed(b, src, dst), OursRenamed(ours, src, dst)), data);
        RecordMove(world, moves, ours, Move(b, Renamed(b, src, dst), OursRenamed(ours, src, dst)));
        fs := Renamed(fs, src, dst);
        ours := OursRenamed(ours, src, dst);
        moves := moves + [Move(b, fs, ours)];
      }
    }

    /** `unlinkat` of an entry we made, its result ignored. An entry that is not there is no loss. */
    method Unlink(k: Key)
      requires Valid() && k in ours.keys && (world != Hostile ==> Guarded(ours, k))
      modifies this`fs, this`ours, this`moves, this`left
      ensures Valid()
      ensures || (ours == OursUnlinked(old(ours), k) && left == old(left) && k !in fs.entries)
              || (ours == old(ours) && left == old(left)[k := UnlinkFailed] && (world != Hostile ==> k in ours.held))
      ensures old(moves) <= moves && Idle(world, moves, |old(moves)|)
      ensures Scripted() && k in old(ours).held ==> (ours == old(ours) <==> AnyUnlink in plan.bad)
    {
      Interfere();
      var luck := Lucky(AnyUnlink);
      if !luck && k in fs.entries {
        left := left[k := UnlinkFailed];
        return;
      }
      ghost var b := fs;
      UnlinkKeeps(start, ours, fs, k);
      OneMove(world, start, moves, Move(b, Unlinked(b, k), OursUnlinked(ours, k)), []);
      RecordMove(world, moves, ours, Move(b, Unlinked(b, k), OursUnlinked(ours, k)));
      fs := Unlinked(fs, k);
      ours := OursUnlinked(ours, k);
      moves := moves + [Move(b, fs, ours)];
    }

    /** `statat` of an entry we made, without following links: which inode it leads to now, unless that fails. */
    method EntryId(k: Key, site: Site) returns (ino: Option<nat>, ghost broken: bool)
      requires Valid() && k in ours.keys && (world != Hostile ==> Guarded(ours, k))
      modifies this`fs, this`looks
      ensures Valid() && looks == old(looks) + {Entry(k, ino)}
      ensures broken ==> ino == None && (world != Hostile ==> k in ours.held)
      ensures !broken ==> ino == if k in fs.entries then Some(fs.entries[k]) else None
      ensures !broken && world != Hostile ==> ino == if k in ours.held then Some(ours.held[k]) else None
      ensures Scripted() && k in ours.held ==> (broken <==> site in plan.bad)
    {
      Interfere();
      var luck := Lucky(site);
      ino := if luck && k in fs.entries then Some(fs.entries[k]) else None;
      broken := !luck && k in fs.entries;
      looks := looks + {Entry(k, ino)};
    }

    /** `fstat` of an open descriptor: the size, unless it fails. */
    method Size(ino: nat, site: Site) returns (size: Option<nat>)
      requires Valid() && ino in ours.data
      modifies this`fs, this`looks
      ensures Valid() && looks == old(looks) + {Length(ino, size)}
      ensures size.Some? ==> ino in fs.nodes && size.value == |fs.nodes[ino].data|
      ensures world != Hostile && size.Some? ==> size.value == |ours.data[ino]|
      ensures Scripted() ==> (size == None <==> site in plan.bad)
    {
      Interfere();
      var luck := Lucky(site);
      size := if luck then Some(|fs.nodes[ino].data|) else None;
      looks := looks + {Length(ino, size)};
    }

    /** An entry of ours stays where it is, because of a call that failed. */
    ghost method Leave(k: Key, why: Mishap)
      modifies this`left
      ensures left == old(left)[k := why]
    {
      left := left[k := why];
    }

    /** A file just placed could not be looked at. */
    ghost method Overlook()
      modifies this`unseen
      ensures unseen
    {
      unseen := true;
    }
  }

  // ---------------------------------------------------------------- what a run of steps comes to

  /** Every real name of `start` still leads to the same inode and content, and every new one to a whole `data`. */
  ghost predicate UntouchedOrWhole(start: FS, f: FS, data: seq<Byte>) {
    && (forall k :: k in start.entries && k.dir == Target ==>
          && k in f.entries && f.entries[k] == start.entries[k]
          && f.entries[k] in f.nodes && f.entries[k] in start.nodes && f.nodes[f.entries[k]] == start.nodes[f.entries[k]])
    && (forall k :: k in f.entries && k.dir == Target && k !in start.entries ==>
          f.entries[k] in f.nodes && f.nodes[f.entries[k]] == Node(Regular, data))
  }

  /** Crash safety: with nobody else about, it is so after every single step. */
  lemma {:induction false} KillPoint(w: World, start: FS, moves: seq<Move>, f: FS, data: seq<Byte>, i: nat)
    requires w != Hostile && WellFormed(start) && Chained(start, moves, f) && Safe(w, moves, 0, data) && i < |moves|
    requires forall j :: 0 <= j < |moves| ==> moves[j].ours.keys !! start.entries.Keys
    ensures UntouchedOrWhole(start, moves[i].after, data)
  {
    assert SafeMove(moves[i], data);
    if i > 0 {
      KillPoint(w, start, moves, f, data, i - 1);
    }
  }

  /** The directories are as they were found, but for what is left of ours. */
  lemma {:induction false} OursBesideOthers(start: FS, f: FS, ours: Ours)
    requires OthersAsAt(start, f, ours) && Faithful(ours, f)
    ensures f.entries.Keys == start.entries.Keys + ours.held.Keys && start.entries.Keys !! ours.held.Keys
    ensures forall k :: k in start.entries ==> f.entries[k] == start.entries[k]
    ensures forall i :: i in start.nodes ==> i in f.nodes && f.nodes[i] == start.nodes[i]
  {
    assert forall k :: k in f.entries <==> k in start.entries || k in ours.held;
  }
}
