/**
 * The socket.io adapter's room membership: for each room name, the sockets
 * that joined it, in joining order (a JavaScript Set iterates in insertion
 * order). The adapter drops a room as soon as its last socket leaves, so a
 * well-formed membership never holds an empty room.
 */
module Transport {
  import opened Protocol

  type Membership = map<RoomId, seq<SocketId>>

  predicate NoDups(q: seq<SocketId>) {
    forall i, j :: 0 <= i < j < |q| ==> q[i] != q[j]
  }

  predicate InRoom(m: Membership, r: RoomId, x: SocketId) {
    r in m && x in m[r]
  }

  ghost predicate WellFormed(m: Membership) {
    forall r :: r in m ==> m[r] != [] && NoDups(m[r])
  }

  /** Recipients of `io.to(r).emit(...)`: every socket in room r. */
  function Everyone(m: Membership, r: RoomId): (to: set<SocketId>)
    ensures forall x :: x in to <==> InRoom(m, r, x)
  {
    if r in m then set x | x in m[r] else {}
  }

  /** Recipients of `socket.to(r).emit(...)`: every socket in room r except the sender. */
  function Others(m: Membership, r: RoomId, sender: SocketId): (to: set<SocketId>)
    ensures forall x :: x in to <==> InRoom(m, r, x) && x != sender
    ensures sender !in to
  {
    Everyone(m, r) - {sender}
  }

  /** Deleting one socket from a room's member list; the rest keep their order (`RemoveMiddle`). */
  function Remove(q: seq<SocketId>, x: SocketId): (q': seq<SocketId>)
    ensures forall y :: y in q' <==> y in q && y != x
    ensures |q'| <= |q|
    ensures x !in q ==> q' == q
    ensures NoDups(q) ==> NoDups(q')
  {
    if q == [] then []
    else if q[0] == x then Remove(q[1..], x)
    else
      var rest := Remove(q[1..], x);
      assert NoDups(q) ==> NoDups([q[0]] + rest) by {
        if NoDups(q) {
          assert NoDups(q[1..]) by {
            forall i, j | 0 <= i < j < |q[1..]| ensures q[1..][i] != q[1..][j] {
              assert q[1..][i] == q[i + 1] && q[1..][j] == q[j + 1];
            }
          }
          assert q[0] !in q[1..] by {
            forall k | 0 <= k < |q[1..]| ensures q[1..][k] != q[0] {
              assert q[1..][k] == q[k + 1];
            }
          }
          var r := [q[0]] + rest;
          forall i, j | 0 <= i < j < |r| ensures r[i] != r[j] {
            assert r[j] == rest[j - 1];
            if i > 0 { assert r[i] == rest[i - 1]; }
          }
        }
      }
      [q[0]] + rest
  }

  /** Removing a socket that occurs once leaves the sockets before and after it in their order. */
  lemma {:induction false} RemoveMiddle(a: seq<SocketId>, x: SocketId, b: seq<SocketId>)
    requires x !in a && x !in b
    ensures Remove(a + [x] + b, x) == a + b
  {
    var q := a + [x] + b;
    if a == [] {
      assert q[0] == x && q[1..] == b;
    } else {
      assert q[0] == a[0] && q[1..] == a[1..] + [x] + b;
      RemoveMiddle(a[1..], x, b);
      assert [a[0]] + (a[1..] + b) == a + b;
    }
  }

  lemma RemoveNonEmpty(q: seq<SocketId>, x: SocketId)
    ensures Remove(q, x) != [] <==> exists y :: y in q && y != x
  {
    var q' := Remove(q, x);
    if q' != [] { assert q'[0] in q'; }
  }

  /** `socket.join(r)`: a socket already in the room stays where it is; a new one is appended. */
  function Join(m: Membership, r: RoomId, x: SocketId): (m': Membership)
    ensures m'.Keys == m.Keys + {r}
    ensures forall r', y :: InRoom(m', r', y) <==> InRoom(m, r', y) || (r' == r && y == x)
    ensures forall r' :: r' in m && r' != r ==> m'[r'] == m[r']
    ensures InRoom(m, r, x) ==> m' == m
    ensures !InRoom(m, r, x) ==> m'[r] == (if r in m then m[r] else []) + [x]
    ensures WellFormed(m) ==> WellFormed(m')
  {
    if r in m then
      if x in m[r] then m else m[r := m[r] + [x]]
    else
      m[r := [x]]
  }

  /**
   * What the adapter does when a socket closes: the socket leaves every room
   * it joined, and a room left with no socket is dropped.
   */
  function LeaveAll(m: Membership, x: SocketId): (m': Membership)
    ensures forall r :: r in m' <==> r in m && exists y :: y in m[r] && y != x
    ensures forall r :: r in m' ==> r in m && m'[r] == Remove(m[r], x)
    ensures forall r, y :: InRoom(m', r, y) <==> InRoom(m, r, y) && y != x
    ensures forall r :: r in m' ==> m'[r] != []
    ensures WellFormed(m) ==> WellFormed(m')
    ensures WellFormed(m) && (forall r :: !InRoom(m, r, x)) ==> m' == m
  {
    var m' := map r | r in m && Remove(m[r], x) != [] :: Remove(m[r], x);
    LeftRooms(m, x, m');
    LeftMembers(m, x, m');
    assert WellFormed(m) && (forall r :: !InRoom(m, r, x)) ==> m' == m by {
      if WellFormed(m) && (forall r :: !InRoom(m, r, x)) { LeftUntouched(m, x, m'); }
    }
    m'
  }

  lemma LeftRooms(m: Membership, x: SocketId, m': Membership)
    requires m' == map r | r in m && Remove(m[r], x) != [] :: Remove(m[r], x)
    ensures forall r :: r in m' <==> r in m && exists y :: y in m[r] && y != x
  {
    forall r | r in m { RemoveNonEmpty(m[r], x); }
  }

  lemma LeftMembers(m: Membership, x: SocketId, m': Membership)
    requires m' == map r | r in m && Remove(m[r], x) != [] :: Remove(m[r], x)
    ensures forall r, y :: InRoom(m', r, y) <==> InRoom(m, r, y) && y != x
  {
    forall r, y | InRoom(m, r, y) && y != x ensures InRoom(m', r, y) {
      assert y in Remove(m[r], x);
    }
  }

  lemma LeftUntouched(m: Membership, x: SocketId, m': Membership)
    requires m' == map r | r in m && Remove(m[r], x) != [] :: Remove(m[r], x)
    requires WellFormed(m) && forall r :: !InRoom(m, r, x)
    ensures m' == m
  {
    forall r | r in m ensures r in m' && m'[r] == m[r] {
      assert !InRoom(m, r, x);
      assert m[r][0] in m[r];
    }
  }

  /** A socket that was in no room joins one and then closes: the membership is as before. */
  lemma LeaveAllUndoesJoin(m: Membership, r: RoomId, x: SocketId)
    requires WellFormed(m) && forall r' :: !InRoom(m, r', x)
    ensures LeaveAll(Join(m, r, x), x) == m
  {
    var m' := LeaveAll(Join(m, r, x), x);
    forall r' | r' in m ensures r' in m' && m'[r'] == m[r'] {
      RoomRestored(m, r, x, r');
    }
    assert m'.Keys == m.Keys;
  }

  lemma RoomRestored(m: Membership, r: RoomId, x: SocketId, r': RoomId)
    requires WellFormed(m) && forall r'' :: !InRoom(m, r'', x)
    requires r' in m
    ensures r' in LeaveAll(Join(m, r, x), x) && LeaveAll(Join(m, r, x), x)[r'] == m[r']
  {
    var j := Join(m, r, x);
    assert !InRoom(m, r', x) && m[r'][0] in m[r'];
    if r' == r {
      assert j[r] == m[r] + [x] + [];
      RemoveMiddle(m[r], x, []);
    } else {
      assert j[r'] == m[r'];
    }
  }
}
