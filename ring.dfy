/** The per-room backlog: a fixed-length array and a write cursor that wraps to slot 0
    (CircularArray and pushMessage in src/utils.ts). */
module Backlog {
  import opened Types

  /** The value of a CircularArray: its slots (absent until first written) and its cursor. */
  datatype RingState = RingState(slots: seq<Option<Frame>>, head: nat)

  /** The effect of one pushMessage. */
  function Push(r: RingState, msg: Frame): (r': RingState)
    requires |r.slots| > 0
    ensures |r'.slots| == |r.slots|
    ensures 1 <= r'.head <= |r.slots|
    ensures r'.slots[r'.head - 1] == Some(msg)
    ensures forall j :: 0 <= j < |r.slots| && j != r'.head - 1 ==> r'.slots[j] == r.slots[j]
    ensures r.head < |r.slots| ==> r'.head == r.head + 1
    ensures r.head >= |r.slots| ==> r'.head == 1
  {
    if r.head < |r.slots| then RingState(r.slots[r.head := Some(msg)], r.head + 1)
    else RingState(r.slots[0 := Some(msg)], 1)
  }

  /** The effect of pushing every message of msgs, first to last. */
  function PushAll(r: RingState, msgs: seq<Frame>): (r': RingState)
    requires |r.slots| > 0
    ensures |r'.slots| == |r.slots|
    decreases |msgs|
  {
    if msgs == [] then r else Push(PushAll(r, msgs[..|msgs| - 1]), msgs[|msgs| - 1])
  }

  lemma MulAtLeast(k: int, c: int)
    requires k >= 1 && c > 0
    ensures k * c >= c
  {
    assert k * c == (k - 1) * c + c;
    assert (k - 1) * c >= 0;
  }

  /** The quotient and remainder of a division are the only such decomposition. */
  lemma ModUnique(a: int, q: int, c: int, r: int)
    requires c > 0 && 0 <= r < c && a == q * c + r
    ensures a % c == r && a / c == q
  {
    var q0, r0 := a / c, a % c;
    assert a == q0 * c + r0;
    if q0 < q {
      MulAtLeast(q - q0, c);
      assert false;
    } else if q < q0 {
      MulAtLeast(q0 - q, c);
      assert false;
    }
  }

  /** One step of counting modulo c. */
  lemma ModStep(a: nat, c: nat)
    requires c > 0
    ensures (a + 1) % c == if a % c + 1 < c then a % c + 1 else 0
  {
    var q := a / c;
    assert a == q * c + a % c;
    if a % c + 1 < c {
      ModUnique(a + 1, q, c, a % c + 1);
    } else {
      assert a + 1 == (q + 1) * c;
      ModUnique(a + 1, q + 1, c, 0);
    }
  }

  /** Two positions less than c apart never share a slot. */
  lemma ModDistinct(i: nat, d: nat, c: nat)
    requires 0 < d < c
    ensures (i + d) % c != i % c
  {
    var q, r := i / c, i % c;
    assert i == q * c + r;
    if r + d < c {
      ModUnique(i + d, q, c, r + d);
    } else {
      assert i + d == (q + 1) * c + (r + d - c);
      ModUnique(i + d, q + 1, c, r + d - c);
    }
  }

  /** A position below the capacity is its own slot. */
  lemma ModSmall(i: nat, c: nat)
    requires i < c
    ensures i % c == i
  {
    ModUnique(i, 0, c, i);
  }

  /** Starting from an empty cursor, n > 0 pushes leave the cursor at ((n - 1) % C) + 1. */
  lemma {:induction false} PushAllHead(r: RingState, msgs: seq<Frame>)
    requires |r.slots| > 0 && r.head == 0 && msgs != []
    ensures PushAll(r, msgs).head == (|msgs| - 1) % |r.slots| + 1
  {
    var c, n := |r.slots|, |msgs|;
    var p := PushAll(r, msgs[..n - 1]);
    assert PushAll(r, msgs) == Push(p, msgs[n - 1]);
    if n == 1 {
      assert p == r;
      ModSmall(0, c);
    } else {
      PushAllHead(r, msgs[..n - 1]);
      assert p.head == (n - 2) % c + 1;
      ModStep(n - 2, c);
    }
  }

  /** Starting from an empty cursor on a ring of capacity C, n pushes leave the i-th message
      (0-based) in slot i % C for each of the last min(n, C) messages, and the slots never
      reached untouched. */
  lemma {:induction false} PushAllWindow(r: RingState, msgs: seq<Frame>)
    requires |r.slots| > 0 && r.head == 0
    ensures msgs != [] ==> PushAll(r, msgs).head == (|msgs| - 1) % |r.slots| + 1
    ensures forall i :: 0 <= i < |msgs| && |msgs| - |r.slots| <= i ==>
              PushAll(r, msgs).slots[i % |r.slots|] == Some(msgs[i])
    ensures forall j :: |msgs| <= j < |r.slots| ==> PushAll(r, msgs).slots[j] == r.slots[j]
  {
    var c, n := |r.slots|, |msgs|;
    if n > 0 {
      var init := msgs[..n - 1];
      PushAllWindow(r, init);
      PushAllHead(r, msgs);
      var p := PushAll(r, init);
      var r' := PushAll(r, msgs);
      assert r' == Push(p, msgs[n - 1]);
      var w := (n - 1) % c;
      assert r'.head - 1 == w;
      assert r'.slots[w] == Some(msgs[n - 1]);
      forall i | 0 <= i < n && n - c <= i
        ensures r'.slots[i % c] == Some(msgs[i])
      {
        if i < n - 1 {
          ModDistinct(i, n - 1 - i, c);
          assert i + (n - 1 - i) == n - 1;
          assert i % c != w;
          assert init[i] == msgs[i];
          assert p.slots[i % c] == Some(init[i]);
        }
      }
      forall j | n <= j < c
        ensures r'.slots[j] == r.slots[j]
      {
        ModSmall(n - 1, c);
        assert j != w;
        assert p.slots[j] == r.slots[j];
      }
    }
  }

  /** A ring of capacity C filled from an empty cursor with at most C messages holds them in
      slots 0 .. k-1 in push order, with the cursor at k. */
  lemma FillFromEmpty(r: RingState, msgs: seq<Frame>)
    requires |r.slots| > 0 && r.head == 0 && |msgs| <= |r.slots|
    ensures PushAll(r, msgs).head == |msgs|
    ensures forall i :: 0 <= i < |msgs| ==> PushAll(r, msgs).slots[i] == Some(msgs[i])
    ensures forall j :: |msgs| <= j < |r.slots| ==> PushAll(r, msgs).slots[j] == r.slots[j]
  {
    PushAllWindow(r, msgs);
    var r' := PushAll(r, msgs);
    forall i | 0 <= i < |msgs| ensures r'.slots[i] == Some(msgs[i]) {
      ModSmall(i, |r.slots|);
    }
    if msgs != [] {
      ModSmall(|msgs| - 1, |r.slots|);
    }
  }

  /** CircularArray: the buffer array is never replaced, only written slot by slot. */
  class CircularArray {
    const buffer: array<Option<Frame>>
    var head: nat

    function View(): RingState
      reads this, buffer
    {
      RingState(buffer[..], head)
    }

    /** A fresh backlog: `new Array(n)` of absent slots and a cursor at 0. */
    constructor (n: nat)
      ensures fresh(buffer) && buffer.Length == n
      ensures View() == RingState(seq(n, _ => None), 0)
    {
      buffer := new Option<Frame>[n](_ => None);
      head := 0;
    }

    /** pushMessage: write at the cursor and advance it, or wrap to slot 0 when it is at the end. */
    method PushMessage(msg: Frame)
      requires buffer.Length > 0
      modifies this, buffer
      ensures View() == Push(old(View()), msg)
    {
      if head < buffer.Length {
        buffer[head] := Some(msg);
        head := head + 1;
      } else {
        buffer[0] := Some(msg);
        head := 1;
      }
    }
  }
}
