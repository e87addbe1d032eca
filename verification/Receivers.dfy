/**
 * Two receivers at work in the same directories. Each is proved on its own, in a world that leaves its entries
 * and inodes alone; here each is shown to be such a world to the other, and what a kill of both leaves.
 */
module Receivers {
  import opened Octets
  import opened FileSystem

  /** A step of the first receiver, or of the second. */
  datatype Turn = First(move: Move) | Second(move: Move)

  /** The turns taken are some steps of the first receiver and some of the second, each in their order. */
  ghost predicate Merges(turns: seq<Turn>, a: seq<Move>, b: seq<Move>) {
    if turns == [] then a == [] && b == []
    else
      var n := |turns| - 1;
      if turns[n].First? then a != [] && a[|a| - 1] == turns[n].move && Merges(turns[..n], a[..|a| - 1], b)
      else b != [] && b[|b| - 1] == turns[n].move && Merges(turns[..n], a, b[..|b| - 1])
  }

  /** Where the turns lead, from `start`. */
  ghost function End(start: FS, turns: seq<Turn>): FS {
    if turns == [] then start else turns[|turns| - 1].move.after
  }

  /** Nobody else acts between the turns. */
  ghost predicate Alone(start: FS, turns: seq<Turn>) {
    turns != [] ==>
      var n := |turns| - 1;
      turns[n].move.before == End(start, turns[..n]) && Alone(start, turns[..n])
  }

  // ---------------------------------------------------------------- to each other, they are a well-behaved world

  lemma {:induction false} RelyTwice(o: Ours, f: FS, g: FS, h: FS)
    requires Rely(Shared, o, f, g) && Rely(Shared, o, g, h)
    ensures Rely(Shared, o, f, h)
  {
  }

  /** Two receivers share no random name and no inode. A real name that one has taken back the other may take. */
  ghost predicate Apart(a: Ours, b: Ours) {
    a.data.Keys !! b.data.Keys && forall k :: k in a.keys && k in b.keys ==> k.dir == Target
  }

  /** A step by one receiver, when the other has made `o`. */
  lemma {:induction false} StepIsRespectful(m: Move, o: Ours)
    requires OwnOnly(m) && InOrder(m) && Apart(m.ours, o) && Faithful(o, m.before)
    ensures Rely(Shared, o, m.before, m.after)
  {
  }

  lemma {:induction false} FaithfulAfter(m: Move, o: Ours)
    requires Rely(Shared, o, m.before, m.after) && Faithful(o, m.before) && o.data.Keys <= m.before.nodes.Keys
    ensures Faithful(o, m.after) && o.data.Keys <= m.after.nodes.Keys
  {
  }

  /** All that one receiver does between two steps of the other is what the other relies on the world for. */
  lemma {:induction false} OthersAreAWorld(start: FS, turns: seq<Turn>, o: Ours)
    requires WellFormed(start) && Alone(start, turns) && Faithful(o, start) && o.data.Keys <= start.nodes.Keys
    requires forall i :: 0 <= i < |turns| ==> var m := turns[i].move; OwnOnly(m) && InOrder(m) && Apart(m.ours, o)
    ensures Rely(Shared, o, start, End(start, turns))
    ensures Faithful(o, End(start, turns)) && o.data.Keys <= End(start, turns).nodes.Keys
  {
    if turns == [] {
      StandingStill(Shared, o, start);
    } else {
      var n := |turns| - 1;
      OthersAreAWorld(start, turns[..n], o);
      StepIsRespectful(turns[n].move, o);
      FaithfulAfter(turns[n].move, o);
      RelyTwice(o, start, End(start, turns[..n]), turns[n].move.after);
    }
  }

  /** A real name that was shown and taken back is free for anybody: another's file there is no breach. */
  lemma {:induction false} TakenBackIsFree(o: Ours, f: FS, t: Key, ino: nat)
    requires WellFormed(f) && t.dir == Target && t in o.keys && t !in o.held && t !in f.entries
    requires ino in f.nodes && ino !in o.data
    ensures Rely(Shared, o, f, Linked(f, t, ino))
  {
  }

  // ---------------------------------------------------------------- a kill of both

  /** Every real name of `start` is as it was, and every new one leads to one whole file or to the other. */
  ghost predicate UntouchedOrEither(start: FS, f: FS, one: seq<Byte>, other: seq<Byte>) {
    && (forall k :: k in start.entries && k.dir == Target ==>
          && k in f.entries && f.entries[k] == start.entries[k]
          && f.entries[k] in f.nodes && f.entries[k] in start.nodes && f.nodes[f.entries[k]] == start.nodes[f.entries[k]])
    && (forall k :: k in f.entries && k.dir == Target && k !in start.entries ==>
          f.entries[k] in f.nodes && (f.nodes[f.entries[k]] == Node(Regular, one) || f.nodes[f.entries[k]] == Node(Regular, other)))
  }

  /** No step has claimed an entry of `start`. */
  ghost predicate ClaimsNoneOf(start: FS, moves: seq<Move>) {
    forall i :: 0 <= i < |moves| ==> moves[i].ours.keys !! start.entries.Keys
  }

  ghost predicate Untouching(moves: seq<Move>, data: seq<Byte>) {
    ClaimsFairly(moves) && forall i :: 0 <= i < |moves| ==> Mannerly(moves[i]) && SafeMove(moves[i], data)
  }

  lemma {:induction false} UntouchingPrefix(moves: seq<Move>, n: nat, data: seq<Byte>)
    requires Untouching(moves, data) && n <= |moves|
    ensures Untouching(moves[..n], data)
  {
    var some := moves[..n];
    forall i | 0 <= i < n ensures Claims(KeysBefore(some, i), some[i]) && Mannerly(some[i]) && SafeMove(some[i], data) {
      assert some[i] == moves[i] && KeysBefore(some, i) == KeysBefore(moves, i);
    }
  }

  /** A step that claims nothing of `start` leaves all of it alone. */
  lemma {:induction false} OneMoreStep(start: FS, m: Move, data: seq<Byte>, one: seq<Byte>, other: seq<Byte>)
    requires Mannerly(m) && SafeMove(m, data) && (data == one || data == other) && m.ours.keys !! start.entries.Keys
    requires start.entries.Keys <= m.before.entries.Keys && UntouchedOrEither(start, m.before, one, other)
    ensures start.entries.Keys <= m.after.entries.Keys && UntouchedOrEither(start, m.after, one, other)
  {
  }

  /** The last step claims nothing of `start` either, as it finds it all still there. */
  lemma {:induction false} OneMoreClaim(start: FS, moves: seq<Move>)
    requires moves != [] && ClaimsFairly(moves) && ClaimsNoneOf(start, moves[..|moves| - 1])
    requires start.entries.Keys <= moves[|moves| - 1].before.entries.Keys
    ensures ClaimsNoneOf(start, moves)
  {
    var n := |moves| - 1;
    assert Claims(KeysBefore(moves, n), moves[n]);
    forall i | 0 <= i < |moves| ensures moves[i].ours.keys !! start.entries.Keys {
      if i < n {
        assert moves[..n][i] == moves[i];
      } else if n > 0 {
        assert moves[..n][n - 1] == moves[n - 1];
      }
    }
  }

  lemma {:induction false} BothUntouching(start: FS, turns: seq<Turn>, a: seq<Move>, b: seq<Move>, one: seq<Byte>, other: seq<Byte>)
    requires WellFormed(start) && Merges(turns, a, b) && Alone(start, turns) && Untouching(a, one) && Untouching(b, other)
    ensures ClaimsNoneOf(start, a) && ClaimsNoneOf(start, b)
    ensures start.entries.Keys <= End(start, turns).entries.Keys && UntouchedOrEither(start, End(start, turns), one, other)
  {
    if turns != [] {
      var n := |turns| - 1;
      if turns[n].First? {
        UntouchingPrefix(a, |a| - 1, one);
        BothUntouching(start, turns[..n], a[..|a| - 1], b, one, other);
        OneMoreClaim(start, a);
        OneMoreStep(start, turns[n].move, one, one, other);
      } else {
        UntouchingPrefix(b, |b| - 1, other);
        BothUntouching(start, turns[..n], a, b[..|b| - 1], one, other);
        OneMoreClaim(start, b);
        OneMoreStep(start, turns[n].move, other, one, other);
      }
    }
  }

  /**
   * Two receives at once, cut short at any point of either, in any order of their steps: nothing under a real
   * name has been touched, and whatever is new there is the one whole file or the other.
   */
  lemma {:induction false} KilledTogether(start: FS, one: Disk, other: Disk, turns: seq<Turn>, a: seq<Move>, b: seq<Move>,
                                          payload: seq<Byte>, otherPayload: seq<Byte>)
    requires one.Valid() && one.world == Shared && Safe(one.world, one.moves, 0, payload) && a <= one.moves
    requires other.Valid() && other.world == Shared && Safe(other.world, other.moves, 0, otherPayload) && b <= other.moves
    requires WellFormed(start) && Merges(turns, a, b) && Alone(start, turns)
    ensures UntouchedOrEither(start, End(start, turns), payload, otherPayload)
  {
    one.OpenBooks();
    other.OpenBooks();
    assert Untouching(one.moves, payload) && Untouching(other.moves, otherPayload);
    UntouchingPrefix(one.moves, |a|, payload);
    UntouchingPrefix(other.moves, |b|, otherPayload);
    assert a == one.moves[..|a|] && b == other.moves[..|b|];
    BothUntouching(start, turns, a, b, payload, otherPayload);
  }
}
