/** A room's intrusive doubly-linked list of connections (userWSHead, prevClientInRoom,
    nextClientInRoom in src/server.ts), over an arena of connection records. */
module Membership {
  import opened Types

  /** The connection a list starts with, as userWSHead names it. */
  function First(m: seq<ConnId>): Option<ConnId> {
    if m == [] then None else Some(m[0])
  }

  /** The list m of connection ids, read from head through the next links. */
  ghost predicate Linked(head: Option<ConnId>, m: seq<ConnId>, conns: map<ConnId, Conn>) {
    && head == (if m == [] then None else Some(m[0]))
    && Distinct(m)
    && (forall i :: 0 <= i < |m| ==> m[i] in conns)
    && (forall i :: 0 <= i < |m| ==> LinksAt(m, conns, i))
  }

  /** The node at index i of m is present, and its prev and next are its neighbours in m.
      Kept as a predicate of its own so that the facts about one node do not mention the
      next node's index on their own. */
  ghost predicate LinksAt(m: seq<ConnId>, conns: map<ConnId, Conn>, i: int)
    requires 0 <= i < |m|
  {
    && m[i] in conns
    && conns[m[i]].prev == (if i == 0 then None else Some(m[i - 1]))
    && conns[m[i]].next == (if i == |m| - 1 then None else Some(m[i + 1]))
  }

  /** The links of the node at index i. */
  lemma LinkedAt(head: Option<ConnId>, m: seq<ConnId>, conns: map<ConnId, Conn>, i: nat)
    requires Linked(head, m, conns) && i < |m|
    ensures m[i] in conns
    ensures conns[m[i]].prev == (if i == 0 then None else Some(m[i - 1]))
    ensures conns[m[i]].next == (if i == |m| - 1 then None else Some(m[i + 1]))
  {
    assert LinksAt(m, conns, i);
  }

  /** The elements of m that are not in d, in their original order. */
  function Without(m: seq<ConnId>, d: set<ConnId>): (r: seq<ConnId>)
    ensures |r| <= |m|
    ensures forall x :: x in r <==> x in m && x !in d
  {
    if m == [] then []
    else if m[0] in d then Without(m[1..], d)
    else [m[0]] + Without(m[1..], d)
  }

  /** Removing two sets one after the other removes their union. */
  lemma {:induction false} WithoutWithout(m: seq<ConnId>, a: set<ConnId>, b: set<ConnId>)
    ensures Without(Without(m, a), b) == Without(m, a + b)
  {
    if m != [] {
      WithoutWithout(m[1..], a, b);
      if m[0] !in a {
        assert Without(m, a) == [m[0]] + Without(m[1..], a);
        assert Without(m, a)[1..] == Without(m[1..], a);
      }
    }
  }

  /** Removing nothing that occurs in m leaves m as it is. */
  lemma {:induction false} WithoutAbsent(m: seq<ConnId>, d: set<ConnId>)
    requires forall x :: x in d ==> x !in m
    ensures Without(m, d) == m
  {
    if m != [] {
      WithoutAbsent(m[1..], d);
    }
  }

  /** In a list without repetitions, removing the element at index i splices it out. */
  lemma {:induction false} WithoutAt(m: seq<ConnId>, i: nat)
    requires i < |m|
    requires forall a, b :: 0 <= a < b < |m| ==> m[a] != m[b]
    ensures Without(m, {m[i]}) == m[..i] + m[i + 1..]
  {
    if i == 0 {
      WithoutAbsent(m[1..], {m[0]});
    } else {
      WithoutAt(m[1..], i - 1);
      assert m[1..][..i - 1] + m[1..][i..] == m[1..i] + m[i + 1..];
      assert [m[0]] + m[1..i] == m[..i];
    }
  }

  /** A list without repetitions. */
  ghost predicate Distinct(m: seq<ConnId>) {
    forall a, b :: 0 <= a < b < |m| ==> m[a] != m[b]
  }

  /** Dropping the last element keeps a list free of repetitions, and the last element does not
      occur in the rest. */
  lemma DistinctInit(m: seq<ConnId>)
    requires Distinct(m) && m != []
    ensures Distinct(m[..|m| - 1]) && m[|m| - 1] !in m[..|m| - 1]
  {
    var init := m[..|m| - 1];
    forall a, b | 0 <= a < b < |init| ensures init[a] != init[b] {
      assert init[a] == m[a] && init[b] == m[b];
    }
    forall j | 0 <= j < |init| ensures init[j] != m[|m| - 1] {
      assert init[j] == m[j];
    }
  }

  /** Removing elements keeps a list free of repetitions. */
  lemma {:induction false} WithoutDistinct(m: seq<ConnId>, d: set<ConnId>)
    requires Distinct(m)
    ensures Distinct(Without(m, d))
  {
    if m != [] {
      assert Distinct(m[1..]) by {
        forall a, b | 0 <= a < b < |m[1..]| ensures m[1..][a] != m[1..][b] {
          assert m[1..][a] == m[a + 1] && m[1..][b] == m[b + 1];
        }
      }
      WithoutDistinct(m[1..], d);
      if m[0] !in d {
        var t := Without(m[1..], d);
        var r := Without(m, d);
        assert r == [m[0]] + t;
        forall j | 0 <= j < |m[1..]| ensures m[1..][j] != m[0] {
          assert m[1..][j] == m[j + 1];
        }
        assert m[0] !in t;
        forall a, b | 0 <= a < b < |r| ensures r[a] != r[b] {
          assert r[b] == t[b - 1];
          if a > 0 {
            assert r[a] == t[a - 1];
          } else {
            assert t[b - 1] in t;
          }
        }
      }
    }
  }

  /** Removing one element that occurs in a list without repetitions shortens it by one. */
  lemma WithoutOne(m: seq<ConnId>, c: ConnId)
    requires c in m && Distinct(m)
    ensures |Without(m, {c})| == |m| - 1
  {
    var i :| 0 <= i < |m| && m[i] == c;
    WithoutAt(m, i);
  }

  /** Linking (connection handler): the new connection becomes the head, the old head its
      next, and the new connection the old head's prev. */
  function LinkAtHead(head: Option<ConnId>, conns: map<ConnId, Conn>, w: ConnId, owner: string, ghost m: seq<ConnId>)
    : (r: (Option<ConnId>, map<ConnId, Conn>))
    requires Linked(head, m, conns) && w !in conns
    ensures r.0 == Some(w)
    ensures r.1.Keys == conns.Keys + {w}
    ensures r.1[w] == Conn(true, None, head, owner)
    ensures forall x :: x in conns && x !in m ==> r.1[x] == conns[x]
    ensures forall x :: x in conns ==> r.1[x].isAlive == conns[x].isAlive && r.1[x].userId == conns[x].userId
  {
    var linked := if head.Some? then conns[head.value := conns[head.value].(prev := Some(w))] else conns;
    (Some(w), linked[w := Conn(true, None, head, owner)])
  }

  lemma LinkAtHeadLinked(head: Option<ConnId>, conns: map<ConnId, Conn>, w: ConnId, owner: string, m: seq<ConnId>)
    requires Linked(head, m, conns) && w !in conns
    ensures var r := LinkAtHead(head, conns, w, owner, m); Linked(r.0, [w] + m, r.1)
  {
    var r := LinkAtHead(head, conns, w, owner, m);
    var m' := [w] + m;
    forall i | 0 <= i < |m'| ensures LinksAt(m', r.1, i) {
      if i > 0 {
        var x := m[i - 1];
        LinkedAt(head, m, conns, i - 1);
        assert m'[i] == x && x in conns && x != w;
        if i == 1 {
          assert head == Some(x);
          assert r.1[x] == conns[x].(prev := Some(w));
        } else {
          assert m[0] != x;
          assert r.1[x] == conns[x];
          assert m'[i - 1] == m[i - 2];
        }
        if i < |m'| - 1 {
          assert m'[i + 1] == m[i];
        }
      } else if m != [] {
        assert m'[1] == m[0];
      }
    }
    forall i, j | 0 <= i < j < |m'| ensures m'[i] != m'[j] {
      if i > 0 {
        assert m'[i] == m[i - 1] && m'[j] == m[j - 1];
      } else {
        assert m'[j] == m[j - 1] && m[j - 1] in conns;
      }
    }
    assert Linked(r.0, m', r.1);
  }

  /** Unlinking (close handler): the head moves to the next node, or the predecessor is linked
      to the successor; the closed connection leaves the arena. */
  function Unlink(head: Option<ConnId>, conns: map<ConnId, Conn>, c: ConnId, ghost m: seq<ConnId>)
    : (r: (Option<ConnId>, map<ConnId, Conn>))
    requires Linked(head, m, conns) && c in m
    ensures r.1.Keys == conns.Keys - {c}
    ensures forall x :: x in r.1 && x !in m ==> r.1[x] == conns[x]
    ensures forall x :: x in r.1 ==> r.1[x].isAlive == conns[x].isAlive && r.1[x].userId == conns[x].userId
  {
    NeighbourFacts(head, conns, c, m);
    if head == Some(c) then
      var next := conns[c].next;
      var relinked := if next.Some? then conns[next.value := conns[next.value].(prev := None)] else conns;
      (next, relinked - {c})
    else
      var prev := conns[c].prev.value;
      var next := conns[c].next;
      var relinked := conns[prev := conns[prev].(next := next)];
      var relinked' := if next.Some? then relinked[next.value := relinked[next.value].(prev := conns[c].prev)] else relinked;
      (head, relinked' - {c})
  }

  /** A node's neighbours are in the list, and only the head lacks a predecessor. */
  lemma NeighboursPresent(head: Option<ConnId>, conns: map<ConnId, Conn>, c: ConnId, m: seq<ConnId>)
    returns (i: nat)
    requires Linked(head, m, conns) && c in m
    ensures i < |m| && m[i] == c && c in conns
    ensures conns[c].prev.Some? <==> head != Some(c)
    ensures conns[c].prev.Some? ==> 0 < i && conns[c].prev.value == m[i - 1]
    ensures conns[c].next.Some? <==> i < |m| - 1
    ensures conns[c].next.Some? ==> conns[c].next.value == m[i + 1]
    ensures head == Some(c) <==> i == 0
  {
    i :| 0 <= i < |m| && m[i] == c;
    LinkedAt(head, m, conns, i);
    if i != 0 {
      assert m[0] != m[i];
    }
  }

  lemma NeighbourFacts(head: Option<ConnId>, conns: map<ConnId, Conn>, c: ConnId, m: seq<ConnId>)
    requires Linked(head, m, conns) && c in m
    ensures c in conns
    ensures conns[c].prev.Some? <==> head != Some(c)
    ensures conns[c].prev.Some? ==> conns[c].prev.value in m && conns[c].prev.value in conns
    ensures conns[c].next.Some? ==> conns[c].next.value in m && conns[c].next.value in conns
  {
    var i := NeighboursPresent(head, conns, c, m);
  }

  /** Unlinking the head: the successor becomes the head and loses its predecessor. */
  lemma UnlinkHeadLinked(head: Option<ConnId>, conns: map<ConnId, Conn>, c: ConnId, m: seq<ConnId>)
    requires Linked(head, m, conns) && head == Some(c)
    ensures var r := Unlink(head, conns, c, m); Linked(r.0, m[1..], r.1)
  {
    var r := Unlink(head, conns, c, m);
    var m' := m[1..];
    assert m[0] == c;
    LinkedAt(head, m, conns, 0);
    forall a | 0 <= a < |m'| ensures LinksAt(m', r.1, a) {
      assert m'[a] == m[a + 1] && m[a + 1] != m[0];
      LinkedAt(head, m, conns, a + 1);
      if a < |m'| - 1 {
        assert m'[a + 1] == m[a + 2];
      }
      if a > 0 {
        assert m[a + 1] != m[1];
      }
    }
    assert Linked(r.0, m', r.1);
  }

  /** Unlinking an inner node: its predecessor and successor are joined. */
  lemma UnlinkInnerLinked(head: Option<ConnId>, conns: map<ConnId, Conn>, c: ConnId, m: seq<ConnId>, i: nat)
    requires Linked(head, m, conns) && 0 < i < |m| && m[i] == c
    ensures var r := Unlink(head, conns, c, m); Linked(r.0, m[..i] + m[i + 1..], r.1)
  {
    var r := Unlink(head, conns, c, m);
    var m' := m[..i] + m[i + 1..];
    assert m[0] != m[i];
    forall a | 0 <= a < |m'| ensures LinksAt(m', r.1, a) {
      UnlinkInnerAt(head, conns, c, m, i, a);
    }
    forall a, b | 0 <= a < b < |m'| ensures m'[a] != m'[b] {
      assert m'[a] == if a < i then m[a] else m[a + 1];
      assert m'[b] == if b < i then m[b] else m[b + 1];
    }
    assert Linked(r.0, m', r.1);
  }

  /** The links of one node of the list left after unlinking the inner node at index i. */
  lemma UnlinkInnerAt(head: Option<ConnId>, conns: map<ConnId, Conn>, c: ConnId, m: seq<ConnId>, i: nat, a: nat)
    requires Linked(head, m, conns) && 0 < i < |m| && m[i] == c && a < |m| - 1
    ensures var r := Unlink(head, conns, c, m); var m' := m[..i] + m[i + 1..];
      && m'[a] in r.1
      && r.1[m'[a]].prev == (if a == 0 then None else Some(m'[a - 1]))
      && r.1[m'[a]].next == (if a == |m'| - 1 then None else Some(m'[a + 1]))
  {
    var r := Unlink(head, conns, c, m);
    var m' := m[..i] + m[i + 1..];
    assert m[0] != m[i];
    var p := m[i - 1];
    LinkedAt(head, m, conns, i);
    var rl := conns[p := conns[p].(next := conns[c].next)];
    var rl' := if i < |m| - 1 then rl[m[i + 1] := rl[m[i + 1]].(prev := Some(p))] else rl;
    assert r == (head, rl' - {c});
    var x := if a < i then m[a] else m[a + 1];
    assert m'[a] == x;
    if a < i {
      LinkedAt(head, m, conns, a);
    } else {
      LinkedAt(head, m, conns, a + 1);
    }
    if a < |m'| - 1 {
      assert m'[a + 1] == if a + 1 < i then m[a + 1] else m[a + 2];
    }
    if a > 0 {
      assert m'[a - 1] == if a - 1 < i then m[a - 1] else m[a];
    }
    if a < i - 1 {
      assert m[a] != p && m[a] != c;
      assert i < |m| - 1 ==> m[a] != m[i + 1];
      assert r.1[m[a]] == conns[m[a]];
    } else if a == i - 1 {
      assert i < |m| - 1 ==> p != m[i + 1];
      assert r.1[p] == conns[p].(next := conns[c].next);
    } else if a == i {
      assert m[i + 1] != p;
      assert r.1[m[i + 1]] == conns[m[i + 1]].(prev := Some(p));
    } else {
      assert m[a + 1] != p && m[a + 1] != c && m[a + 1] != m[i + 1];
      assert r.1[m[a + 1]] == conns[m[a + 1]];
    }
  }

  lemma UnlinkLinked(head: Option<ConnId>, conns: map<ConnId, Conn>, c: ConnId, m: seq<ConnId>)
    requires Linked(head, m, conns) && c in m
    ensures var r := Unlink(head, conns, c, m); Linked(r.0, Without(m, {c}), r.1)
  {
    var i := NeighboursPresent(head, conns, c, m);
    WithoutAt(m, i);
    if i == 0 {
      UnlinkHeadLinked(head, conns, c, m);
      assert m[..0] + m[1..] == m[1..];
    } else {
      UnlinkInnerLinked(head, conns, c, m, i);
    }
  }

  /** A list none of whose nodes changed stays linked. */
  lemma LinkedFrame(head: Option<ConnId>, m: seq<ConnId>, conns: map<ConnId, Conn>, conns': map<ConnId, Conn>)
    requires Linked(head, m, conns)
    requires forall x :: x in m ==> x in conns' && conns'[x].prev == conns[x].prev && conns'[x].next == conns[x].next
    ensures Linked(head, m, conns')
  {
    forall i | 0 <= i < |m| ensures m[i] in conns' && LinksAt(m, conns', i) {
      assert m[i] in m;
      LinkedAt(head, m, conns, i);
    }
  }
}
