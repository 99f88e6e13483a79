/** The doubly linked list of kernel/bio.c, as two arrays of links through NBUF buffers and a head. */
module BufList {

  const NBUF: int := 30
  const HEAD: int := NBUF

  /** The links next and prev go round through ring, which starts at the head; pos says where each node is. */
  ghost predicate Linked(next: seq<int>, prev: seq<int>, ring: seq<int>, pos: seq<int>) {
    && |next| == |prev| == |pos| == NBUF + 1
    && 0 < |ring| && ring[0] == HEAD
    && (forall i :: 0 <= i < |ring| ==> 0 <= ring[i] <= NBUF && pos[ring[i]] == i)
    && (forall i :: 0 <= i < |ring| ==> next[ring[i]] == After(ring, i))
    && (forall i :: 0 <= i < |ring| ==> prev[ring[i]] == Before(ring, i))
  }

  ghost function After(ring: seq<int>, i: int): int
    requires 0 <= i < |ring|
  {
    if i + 1 < |ring| then ring[i + 1] else ring[0]
  }

  ghost function Before(ring: seq<int>, i: int): int
    requires 0 <= i < |ring|
  {
    if 0 < i then ring[i - 1] else ring[|ring| - 1]
  }

  /** Every buffer is on the list. */
  ghost predicate Full(ring: seq<int>, pos: seq<int>)
    requires |pos| == NBUF + 1
  {
    forall x :: 0 <= x <= NBUF ==> 0 <= pos[x] < |ring| && ring[pos[x]] == x
  }

  lemma PositionOf(next: seq<int>, prev: seq<int>, ring: seq<int>, pos: seq<int>, b: int)
    requires Linked(next, prev, ring, pos) && Full(ring, pos) && 0 <= b < NBUF
    ensures 1 <= pos[b] < |ring| && ring[pos[b]] == b && ring[0] == HEAD && pos[HEAD] == 0
    ensures forall i :: 0 <= i < |ring| && i != pos[b] ==> ring[i] != b
  {
  }

  // ---------------------------------------------------------------- taking a node out

  ghost function Without(ring: seq<int>, p: int): seq<int>
    requires 0 <= p < |ring|
  {
    ring[..p] + ring[p + 1..]
  }

  ghost function ShiftDown(pos: seq<int>, p: int): (r: seq<int>)
    ensures |r| == |pos| && forall x :: 0 <= x < |pos| ==> r[x] == if p < pos[x] then pos[x] - 1 else pos[x]
  {
    seq(|pos|, x requires 0 <= x < |pos| => if p < pos[x] then pos[x] - 1 else pos[x])
  }

  lemma NodeAt(next: seq<int>, prev: seq<int>, ring: seq<int>, pos: seq<int>, i: int)
    requires Linked(next, prev, ring, pos) && 0 <= i < |ring|
    ensures 0 <= ring[i] <= NBUF && pos[ring[i]] == i && next[ring[i]] == After(ring, i) &&
            prev[ring[i]] == Before(ring, i)
    ensures 0 <= After(ring, i) <= NBUF && 0 <= Before(ring, i) <= NBUF
    ensures pos[After(ring, i)] == (if i + 1 < |ring| then i + 1 else 0)
    ensures pos[Before(ring, i)] == (if 0 < i then i - 1 else |ring| - 1)
  {
  }

  /** One node of the list that is left when another has gone. */
  lemma UnlinkNext(next: seq<int>, prev: seq<int>, ring: seq<int>, pos: seq<int>, p: int, i: int)
    requires Linked(next, prev, ring, pos) && 0 < p < |ring| && 0 <= i < |ring| - 1
    ensures var b, ring' := ring[p], Without(ring, p);
            && 0 <= b <= NBUF && 0 <= next[b] <= NBUF && 0 <= prev[b] <= NBUF
            && 0 <= ring'[i] <= NBUF && ShiftDown(pos, p)[ring'[i]] == i && ring'[i] != b
            && next[prev[b] := next[b]][ring'[i]] == After(ring', i)
  {
    hide Linked;
    Lengths(next, prev, ring, pos);
    NodeAt(next, prev, ring, pos, p);
    NodeAt(next, prev, ring, pos, if i < p then i else i + 1);
  }

  lemma UnlinkPrev(next: seq<int>, prev: seq<int>, ring: seq<int>, pos: seq<int>, p: int, i: int)
    requires Linked(next, prev, ring, pos) && 0 < p < |ring| && 0 <= i < |ring| - 1
    ensures var b, ring' := ring[p], Without(ring, p);
            && 0 <= b <= NBUF && 0 <= next[b] <= NBUF && 0 <= prev[b] <= NBUF && 0 <= ring'[i] <= NBUF &&
               ring'[0] == HEAD
            && prev[next[b] := prev[b]][ring'[i]] == Before(ring', i)
  {
    hide Linked;
    Lengths(next, prev, ring, pos);
    NodeAt(next, prev, ring, pos, p);
    NodeAt(next, prev, ring, pos, if i < p then i else i + 1);
  }

  lemma Lengths(next: seq<int>, prev: seq<int>, ring: seq<int>, pos: seq<int>)
    requires Linked(next, prev, ring, pos)
    ensures |next| == |prev| == |pos| == NBUF + 1 && 0 < |ring| && ring[0] == HEAD
  {
  }

  /** b->next->prev = b->prev; b->prev->next = b->next */
  lemma Unlink(next: seq<int>, prev: seq<int>, ring: seq<int>, pos: seq<int>, b: int)
    requires Linked(next, prev, ring, pos) && 0 <= b < NBUF && 0 <= pos[b] < |ring| && ring[pos[b]] == b
    ensures 0 <= next[b] <= NBUF && 0 <= prev[b] <= NBUF
    ensures Linked(next[prev[b] := next[b]], prev[next[b] := prev[b]], Without(ring, pos[b]), ShiftDown(pos, pos[b]))
    ensures forall i :: 0 <= i < |Without(ring, pos[b])| ==> Without(ring, pos[b])[i] != b
  {
    var p := pos[b];
    var ring', pos' := Without(ring, p), ShiftDown(pos, p);
    assert 0 < p;
    UnlinkPrev(next, prev, ring, pos, p, 0);
    var next', prev' := next[prev[b] := next[b]], prev[next[b] := prev[b]];
    forall i | 0 <= i < |ring'|
      ensures 0 <= ring'[i] <= NBUF && pos'[ring'[i]] == i && ring'[i] != b
      ensures next'[ring'[i]] == After(ring', i) && prev'[ring'[i]] == Before(ring', i)
    {
      UnlinkNext(next, prev, ring, pos, p, i);
      UnlinkPrev(next, prev, ring, pos, p, i);
    }
  }

  // ---------------------------------------------------------------- putting a node first

  ghost function AtFront(ring: seq<int>, b: int): seq<int>
    requires 0 < |ring|
  {
    [HEAD, b] + ring[1..]
  }

  ghost function ShiftUp(pos: seq<int>, b: int): (r: seq<int>)
    requires |pos| == NBUF + 1
    ensures |r| == |pos|
    ensures forall x :: 0 <= x < |pos| ==> r[x] == if x == HEAD then 0 else if x == b then 1 else pos[x] + 1
  {
    seq(|pos|, x requires 0 <= x < |pos| => if x == HEAD then 0 else if x == b then 1 else pos[x] + 1)
  }

  /** b->next = head.next; b->prev = &head; head.next->prev = b; head.next = b */
  lemma InsertFront(next: seq<int>, prev: seq<int>, ring: seq<int>, pos: seq<int>, b: int)
    requires Linked(next, prev, ring, pos) && 0 <= b < NBUF
    requires forall i :: 0 <= i < |ring| ==> ring[i] != b
    ensures 0 <= next[HEAD] <= NBUF
    ensures Linked(next[b := next[HEAD]][HEAD := b], prev[b := HEAD][next[HEAD] := b],
                   AtFront(ring, b), ShiftUp(pos, b))
  {
    var ring', pos' := AtFront(ring, b), ShiftUp(pos, b);
    var next', prev' := next[b := next[HEAD]][HEAD := b], prev[b := HEAD][next[HEAD] := b];
    assert next[HEAD] == After(ring, 0) && ring[0] == HEAD;
    forall i | 0 <= i < |ring'| ensures 0 <= ring'[i] <= NBUF && pos'[ring'[i]] == i {
      assert 2 <= i ==> ring'[i] == ring[i - 1];
    }
    forall i | 0 <= i < |ring'| ensures next'[ring'[i]] == After(ring', i) && prev'[ring'[i]] == Before(ring', i) {
      assert 2 <= i ==> ring'[i] == ring[i - 1];
    }
  }

  /** Both together: a node of a full list goes to its front. */
  lemma MoveFront(next: seq<int>, prev: seq<int>, ring: seq<int>, pos: seq<int>, b: int)
    requires Linked(next, prev, ring, pos) && Full(ring, pos) && 0 <= b < NBUF
    ensures 0 <= next[b] <= NBUF && 0 <= prev[b] <= NBUF
    ensures var next1, prev1 := next[prev[b] := next[b]], prev[next[b] := prev[b]];
            var ring', pos' := AtFront(Without(ring, pos[b]), b), ShiftUp(ShiftDown(pos, pos[b]), b);
            && 0 <= next1[HEAD] <= NBUF
            && Linked(next1[b := next1[HEAD]][HEAD := b], prev1[b := HEAD][next1[HEAD] := b], ring', pos')
            && Full(ring', pos')
  {
    hide Linked;
    PositionOf(next, prev, ring, pos, b);
    Lengths(next, prev, ring, pos);
    Unlink(next, prev, ring, pos, b);
    InsertFront(next[prev[b] := next[b]], prev[next[b] := prev[b]], Without(ring, pos[b]), ShiftDown(pos, pos[b]), b);
    FullFront(ring, pos, b);
  }

  lemma FullFront(ring: seq<int>, pos: seq<int>, b: int)
    requires |pos| == NBUF + 1 && Full(ring, pos) && 0 <= b < NBUF && 0 < pos[b] && pos[HEAD] == 0
    ensures Full(AtFront(Without(ring, pos[b]), b), ShiftUp(ShiftDown(pos, pos[b]), b))
  {
    var p := pos[b];
    var ring', pos' := AtFront(Without(ring, p), b), ShiftUp(ShiftDown(pos, p), b);
    forall x | 0 <= x <= NBUF ensures 0 <= pos'[x] < |ring'| && ring'[pos'[x]] == x {
      assert 0 <= pos[x] < |ring| && ring[pos[x]] == x;
      if x != HEAD && x != b {
        assert pos[x] != 0 && pos[x] != p;
        assert ring'[pos'[x]] == Without(ring, p)[pos'[x] - 1];
      }
    }
  }
}
