/**
 The advisory locks of external identities. An identity's lock is named by two
 hashes, of its issuer and of its subject; a rebind locks the identity it takes
 away and the one it puts in place, in the byte order of their names.
 */
module Rebind {
  import opened ByteOrder
  import opened Locks

  datatype Identity = Identity(issuer: string, subject: string)

  type Key = (int, int)

  /** The database's text hash, any function. */
  type Hash = string -> int

  function KeyOf(hash: Hash, identity: Identity): Key {
    (hash(identity.issuer), hash(identity.subject))
  }

  predicate Precedes(a: Identity, b: Identity) {
    Less(a.issuer, b.issuer) || (a.issuer == b.issuer && Less(a.subject, b.subject))
  }

  lemma {:induction false} PrecedesIsStrict(a: Identity, b: Identity)
    ensures Precedes(a, b) ==> !Precedes(b, a) && a != b
    ensures !Precedes(a, b) && !Precedes(b, a) ==> a == b
  {
    LessIsStrict(a.issuer, b.issuer);
    LessIsStrict(a.subject, b.subject);
  }

  lemma {:induction false} PrecedesIsTransitive(a: Identity, b: Identity, c: Identity)
    requires Precedes(a, b) && Precedes(b, c)
    ensures Precedes(a, c)
  {
    if Less(a.issuer, b.issuer) && Less(b.issuer, c.issuer) {
      LessIsTransitive(a.issuer, b.issuer, c.issuer);
    }
    if Less(a.subject, b.subject) && Less(b.subject, c.subject) {
      LessIsTransitive(a.subject, b.subject, c.subject);
    }
  }

  /** A rebind of one identity to a different one, or a login, which locks its own identity. */
  datatype Operation = Rebind(from: Identity, to: Identity) | Login(identity: Identity)

  function Named(op: Operation): set<Identity> {
    if op.Rebind? then {op.from, op.to} else {op.identity}
  }

  predicate Valid(op: Operation) {
    op.Rebind? ==> op.from != op.to
  }

  /** A transaction that asks again for a key it holds does not wait. */
  function Pair(first: Key, second: Key): seq<Key> {
    if first == second then [first] else [first, second]
  }

  function Program(hash: Hash, op: Operation): seq<Key> {
    match op
    case Rebind(from, to) =>
      if Precedes(to, from) then Pair(KeyOf(hash, to), KeyOf(hash, from)) else Pair(KeyOf(hash, from), KeyOf(hash, to))
    case Login(identity) => [KeyOf(hash, identity)]
  }

  /** The swap into byte order and the loop of requests; a key already held adds none. */
  method LockIdentities(hash: Hash, from: Identity, to: Identity) returns (requests: seq<Key>)
    requires from != to
    ensures requests == Program(hash, Rebind(from, to)) == Program(hash, Rebind(to, from))
    ensures forall key :: key in requests <==> key == KeyOf(hash, from) || key == KeyOf(hash, to)
  {
    var first, second := from, to;
    if Less(second.issuer, first.issuer) || (second.issuer == first.issuer && Less(second.subject, first.subject)) {
      first, second := second, first;
    }
    PrecedesIsStrict(from, to);
    requests := [];
    var identities := [first, second];
    for i := 0 to 2
      invariant i >= 1 ==> requests == if i == 1 then [KeyOf(hash, first)]
                else Pair(KeyOf(hash, first), KeyOf(hash, second))
      invariant i == 0 ==> requests == []
    {
      var key := KeyOf(hash, identities[i]);
      if key !in requests {
        requests := requests + [key];
      }
    }
  }

  function Programs(hash: Hash, ops: seq<Operation>): (r: seq<seq<Key>>)
    ensures |r| == |ops| && forall i | 0 <= i < |ops| :: r[i] == Program(hash, ops[i])
  {
    seq(|ops|, i requires 0 <= i < |ops| => Program(hash, ops[i]))
  }

  // ---- Without collisions ----

  predicate CollisionFree(hash: Hash, identities: set<Identity>) {
    forall a, b | a in identities && b in identities && KeyOf(hash, a) == KeyOf(hash, b) :: a == b
  }

  /** Keys in the byte order of the identities they stand for. */
  ghost function KeyOrder(hash: Hash, identities: set<Identity>): (Key, Key) -> bool {
    (k: Key, l: Key) =>
      exists a, b :: a in identities && b in identities && KeyOf(hash, a) == k && KeyOf(hash, b) == l && Precedes(a, b)
  }

  lemma {:induction false} KeyOrderIsStrict(hash: Hash, identities: set<Identity>)
    requires CollisionFree(hash, identities)
    ensures Strict(KeyOrder(hash, identities))
  {
    var before := KeyOrder(hash, identities);
    forall k
      ensures !before(k, k)
    {
      if before(k, k) {
        var a, b :| a in identities && b in identities && KeyOf(hash, a) == k && KeyOf(hash, b) == k && Precedes(a, b);
        PrecedesIsStrict(a, b);
      }
    }
    forall k, l, m | before(k, l) && before(l, m)
      ensures before(k, m)
    {
      var a, b :| a in identities && b in identities && KeyOf(hash, a) == k && KeyOf(hash, b) == l && Precedes(a, b);
      var c, d :| c in identities && d in identities && KeyOf(hash, c) == l && KeyOf(hash, d) == m && Precedes(c, d);
      PrecedesIsTransitive(a, b, d);
    }
  }

  lemma {:induction false} ProgramAscends(hash: Hash, op: Operation, identities: set<Identity>)
    requires Valid(op) && Named(op) <= identities && CollisionFree(hash, identities)
    ensures Ascending(Program(hash, op), KeyOrder(hash, identities))
  {
    if op.Rebind? {
      PrecedesIsStrict(op.from, op.to);
      assert op.from in Named(op) && op.to in Named(op);
    }
  }

  /**
   Any number of rebinds and logins over identities whose keys do not collide: no
   circle of waits in any state of any run, and while one is open some open one can
   go on.
   */
  lemma {:induction false} RebindsAreDeadlockFree(hash: Hash, ops: seq<Operation>, identities: set<Identity>,
        states: seq<System<Key>>, path: seq<nat>)
    requires forall i | 0 <= i < |ops| :: Valid(ops[i]) && Named(ops[i]) <= identities
    requires CollisionFree(hash, identities)
    requires RunWithin(states, Programs(hash, ops), Always())
    ensures EndsSafely(states, path)
  {
    KeyOrderIsStrict(hash, identities);
    forall i | 0 <= i < |ops|
      ensures Ascending(states[0][i].program, KeyOrder(hash, identities))
    {
      ProgramAscends(hash, ops[i], identities);
    }
    OrderedRunGoesOn(states, path, KeyOrder(hash, identities));
  }

  // ---- With collisions ----

  /** Two keys each, from the second key of every operation to the first of the next, round in a circle. */
  predicate KeysCircle(hash: Hash, ops: seq<Operation>, path: seq<nat>) {
    && |path| >= 2 && path[0] == path[|path| - 1]
    && (forall k | 0 <= k < |path| :: path[k] < |ops| && |Program(hash, ops[path[k]])| == 2)
    && forall k | 0 < k < |path| :: Program(hash, ops[path[k - 1]])[1] == Program(hash, ops[path[k]])[0]
  }

  /**
   For any hash, any number of operations: locks are exclusive, no waits form a circle and
   someone can go on, in every state of every run, exactly when no such circle of keys exists.
   */
  lemma {:induction false} DeadlockFreeExactly(hash: Hash, ops: seq<Operation>)
    ensures AlwaysSafe(Programs(hash, ops), Always()) <==> !exists path :: KeysCircle(hash, ops, path)
  {
    hide KeysCircle, WaitsRound, AlwaysSafe;
    SafeExactly(Programs(hash, ops), Always());
    if heights, path :| WaitsRound(Programs(hash, ops), heights, Always(), path) {
      WaitsCircle(hash, ops, heights, path);
    }
    if path :| KeysCircle(hash, ops, path) {
      CircleWaits(hash, ops, path);
    }
  }

  /** Who waits and is waited for holds its first key and wants its second. */
  lemma {:induction false} WaitsCircle(hash: Hash, ops: seq<Operation>, heights: seq<nat>, path: seq<nat>)
    requires WaitsRound(Programs(hash, ops), heights, Always(), path)
    ensures KeysCircle(hash, ops, path)
  {
    var r, n := Standings(At(Programs(hash, ops), heights)), |path| - 1;
    forall k | 0 <= k <= n
      ensures path[k] < |ops| && heights[path[k]] == 1 && |Program(hash, ops[path[k]])| == 2
    {
      var i, j := if k == 0 then n else k, if k == n then 1 else k + 1;
      assert WaitsFor(r, path[i - 1], path[i]) && WaitsFor(r, path[j - 1], path[j]);
    }
    forall k | 0 < k <= n
      ensures Program(hash, ops[path[k - 1]])[1] == Program(hash, ops[path[k]])[0]
    {
      assert WaitsFor(r, path[k - 1], path[k]);
    }
  }

  /** The first keys of a circle, once round, are different. */
  predicate Once(hash: Hash, ops: seq<Operation>, path: seq<nat>)
    requires KeysCircle(hash, ops, path)
  {
    forall m, n | 0 <= m < n < |path| - 1 ::
      Program(hash, ops[path[m]])[0] != Program(hash, ops[path[n]])[0]
  }

  lemma {:induction false} CircleWaits(hash: Hash, ops: seq<Operation>, path: seq<nat>)
    requires KeysCircle(hash, ops, path)
    ensures CanCircle(Programs(hash, ops), Always())
    decreases |path|
  {
    if m, n :| 0 <= m < n < |path| - 1 && Program(hash, ops[path[m]])[0] == Program(hash, ops[path[n]])[0] {
      var shorter := path[m..n] + [path[m]];
      assert forall k | 0 <= k < n - m :: shorter[k] == path[m + k];
      CircleWaits(hash, ops, shorter);
    } else {
      OnceWaits(hash, ops, path);
    }
  }

  /** Those on the path hold their first keys. */
  function FirstKeys(ops: seq<Operation>, path: seq<nat>): (h: seq<nat>)
    ensures |h| == |ops| && forall i | 0 <= i < |ops| :: h[i] == if i in path then 1 else 0
  {
    seq(|ops|, i => if i in path then 1 else 0)
  }

  lemma {:induction false} FirstKeysFit(hash: Hash, ops: seq<Operation>, path: seq<nat>)
    requires KeysCircle(hash, ops, path) && Once(hash, ops, path)
    ensures Fits(Programs(hash, ops), FirstKeys(ops, path))
  {
    hide Program;
    forall i | 0 <= i < |ops| && i in path
      ensures exists m :: 0 <= m < |path| - 1 && path[m] == i
    {
      var m :| 0 <= m < |path| && path[m] == i;
      assert path[if m == |path| - 1 then 0 else m] == i;
    }
  }

  lemma {:induction false} OnceWaits(hash: Hash, ops: seq<Operation>, path: seq<nat>)
    requires KeysCircle(hash, ops, path) && Once(hash, ops, path)
    ensures CanCircle(Programs(hash, ops), Always())
  {
    var programs, heights := Programs(hash, ops), FirstKeys(ops, path);
    FirstKeysFit(hash, ops, path);
    forall k | 0 < k < |path|
      ensures WaitsFor(Standings(At(programs, heights)), path[k - 1], path[k])
    {
      FirstWaits(hash, ops, heights, path[k - 1], path[k]);
    }
    hide Fits, Standings, KeysCircle, Once, WaitsFor;
    assert WaitsRound(programs, heights, Always(), path);
  }

  lemma {:induction false} FirstWaits(hash: Hash, ops: seq<Operation>, heights: seq<nat>, i: nat, j: nat)
    requires |heights| == |ops| && i < |ops| && j < |ops| && heights[i] == 1 && heights[j] == 1
    requires |Program(hash, ops[i])| == 2 && |Program(hash, ops[j])| == 2
    requires Program(hash, ops[i])[1] == Program(hash, ops[j])[0]
    ensures WaitsFor(Standings(At(Programs(hash, ops), heights)), i, j)
  {
    var p, q := Program(hash, ops[i]), Program(hash, ops[j]);
    assert q[0] in q[..1] && p[0] != p[1];
  }

  /** Two keys each, the same two, in opposite orders. */
  predicate Opposite(p: seq<Key>, q: seq<Key>) {
    |p| == 2 && |q| == 2 && p[0] == q[1] && p[1] == q[0]
  }

  /**
   For any hash: two operations can come to wait for each other exactly when their
   keys are in opposite orders. Byte order alone does not rule that out.
   */
  lemma {:induction false} TwoDeadlockExactly(hash: Hash, a: Operation, b: Operation)
    requires Valid(a) && Valid(b)
    ensures Opposite(Program(hash, a), Program(hash, b))
            <==> exists states :: DeadlockRun(states, Program(hash, a), Program(hash, b))
  {
    var p, q := Program(hash, a), Program(hash, b);
    Locks.TwoDeadlockExactly(p, q);
    if Opposite(p, q) {
      assert p[..1] == [p[0]] && q[..1] == [q[0]] && p[0] != p[1];
      assert Crossed(p, q, 1, 1);
    }
    if i: nat, j: nat :| Crossed(p, q, i, j) {
      assert i == 1 && j == 1 && p[..1] == [p[0]] && q[..1] == [q[0]];
    }
  }

  lemma {:induction false} InByteOrder(op: Operation) returns (first: Identity, second: Identity)
    requires op.Rebind? && op.from != op.to
    ensures Precedes(first, second) && !Precedes(second, first)
    ensures (first == op.from && second == op.to) || (first == op.to && second == op.from)
  {
    PrecedesIsStrict(op.from, op.to);
    if Precedes(op.to, op.from) {
      return op.to, op.from;
    }
    return op.from, op.to;
  }

  /** Operations with opposite keys name two different identities, one each, that share a key. */
  lemma {:induction false} CrossingCollides(hash: Hash, a: Operation, b: Operation)
    requires Valid(a) && Valid(b) && Opposite(Program(hash, a), Program(hash, b))
    ensures exists x, y :: x in Named(a) && y in Named(b) && x != y && KeyOf(hash, x) == KeyOf(hash, y)
  {
    var a1, a2 := InByteOrder(a);
    var b1, b2 := InByteOrder(b);
    assert a1 in Named(a) && a2 in Named(a) && b1 in Named(b) && b2 in Named(b);
    assert KeyOf(hash, a1) == KeyOf(hash, b2) && KeyOf(hash, a2) == KeyOf(hash, b1);
    assert a1 != b2 || a2 != b1;
  }

  /** A hash with two collisions crosses two rebinds that share no identity. */
  lemma {:induction false} CollisionsCanCross() returns (hash: Hash, a: Operation, b: Operation)
    ensures Valid(a) && Valid(b) && Named(a) !! Named(b)
    ensures Opposite(Program(hash, a), Program(hash, b))
  {
    hash := text => if text == "a" || text == "d" then 0 else 1;
    a := Rebind(Identity("", "a"), Identity("", "b"));
    b := Rebind(Identity("", "c"), Identity("", "d"));
    assert Less("a", "b") && Less("c", "d") && !Less("", "");
    PrecedesIsStrict(a.from, a.to);
    PrecedesIsStrict(b.from, b.to);
  }
}
