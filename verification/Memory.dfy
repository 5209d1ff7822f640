/** Packet memory: reference counts, contents and the pool of internal/stream/types.go. */
module Memory {
  import opened Packets
  import opened Pipeline

  type Ptr = nat

  datatype Cell = Cell(refs: int, content: Content)

  /** `heap` holds every packet the process can still reach or reuse; `pool` the reusable ones. */
  datatype Mem = Mem(heap: map<Ptr, Cell>, pool: set<Ptr>)

  const BLANK := Content(0, 0, false, [])

  function Refs(m: Mem, q: Ptr): int { if q in m.heap then m.heap[q].refs else 0 }

  function Read(m: Mem, q: Ptr): Content { if q in m.heap then m.heap[q].content else BLANK }

  /** A packet is in the pool exactly when nothing refers to it. */
  ghost predicate MemOk(m: Mem) {
    forall q :: q in m.heap || q in m.pool ==> q in m.heap && Refs(m, q) >= 0 && (q in m.pool <==> Refs(m, q) == 0)
  }

  function RetainOne(m: Mem, p: Ptr): Mem {
    if p in m.heap then m.(heap := m.heap[p := m.heap[p].(refs := m.heap[p].refs + 1)]) else m
  }

  /** Release: the count drops and at zero the packet returns to the pool. */
  function ReleaseOne(m: Mem, p: Ptr): Mem {
    if p in m.heap then
      var n := m.heap[p].refs - 1;
      Mem(m.heap[p := m.heap[p].(refs := n)], if n == 0 then m.pool + {p} else m.pool)
    else m
  }

  function RetainAll(m: Mem, ps: seq<Ptr>): Mem {
    if ps == [] then m else RetainOne(RetainAll(m, ps[..|ps| - 1]), ps[|ps| - 1])
  }

  function ReleaseAll(m: Mem, ps: seq<Ptr>): Mem {
    if ps == [] then m else ReleaseOne(ReleaseAll(m, ps[..|ps| - 1]), ps[|ps| - 1])
  }

  /** Every Retain and every Release of the list acts on a packet that still has a reference. */
  ghost predicate RetainsSafely(m: Mem, ps: seq<Ptr>) {
    ps == [] || (RetainsSafely(m, ps[..|ps| - 1]) && Refs(RetainAll(m, ps[..|ps| - 1]), ps[|ps| - 1]) >= 1)
  }

  ghost predicate ReleasesSafely(m: Mem, ps: seq<Ptr>) {
    ps == [] || (ReleasesSafely(m, ps[..|ps| - 1]) && Refs(ReleaseAll(m, ps[..|ps| - 1]), ps[|ps| - 1]) >= 1)
  }

  /** Same packets with the same contents. */
  ghost predicate SameContents(m: Mem, m': Mem) {
    m.heap.Keys == m'.heap.Keys && forall q :: Read(m', q) == Read(m, q)
  }

  lemma {:induction false} ReleaseAllCounts(m: Mem, ps: seq<Ptr>)
    requires MemOk(m)
    requires forall q :: Count(ps, q) <= Refs(m, q)
    ensures ReleasesSafely(m, ps)
    ensures var m' := ReleaseAll(m, ps);
            MemOk(m') && SameContents(m, m') && forall q :: Refs(m', q) == Refs(m, q) - Count(ps, q)
  {
    if ps != [] {
      var init, p := ps[..|ps| - 1], ps[|ps| - 1];
      assert forall q :: Count(init, q) <= Count(ps, q);
      ReleaseAllCounts(m, init);
      assert Count(ps, p) == Count(init, p) + 1;
    }
  }

  lemma {:induction false} RetainAllCounts(m: Mem, ps: seq<Ptr>)
    requires MemOk(m)
    requires forall q :: Count(ps, q) > 0 ==> Refs(m, q) >= 1
    ensures RetainsSafely(m, ps)
    ensures var m' := RetainAll(m, ps);
            MemOk(m') && SameContents(m, m') && forall q :: Refs(m', q) == Refs(m, q) + Count(ps, q)
  {
    if ps != [] {
      var init, p := ps[..|ps| - 1], ps[|ps| - 1];
      assert forall q :: Count(init, q) <= Count(ps, q);
      RetainAllCounts(m, init);
      assert Count(ps, p) == Count(init, p) + 1;
    }
  }

  function Apply(m: Mem, e: Effect<Ptr>): Mem {
    ReleaseAll(RetainAll(ReleaseAll(m, e.before), e.retained), e.after)
  }

  ghost predicate AppliesSafely(m: Mem, e: Effect<Ptr>) {
    var m1 := ReleaseAll(m, e.before);
    var m2 := RetainAll(m1, e.retained);
    ReleasesSafely(m, e.before) && RetainsSafely(m1, e.retained) && ReleasesSafely(m2, e.after)
  }

  lemma ApplyCounts(m: Mem, e: Effect<Ptr>)
    requires MemOk(m)
    requires forall q :: Count(e.before, q) <= Refs(m, q)
    requires forall q :: Count(e.retained, q) > 0 ==> Count(e.before, q) < Refs(m, q)
    requires forall q :: Released(e, q) <= Refs(m, q) + Count(e.retained, q)
    ensures AppliesSafely(m, e)
    ensures var m' := Apply(m, e);
            MemOk(m') && SameContents(m, m')
            && forall q :: Refs(m', q) == Refs(m, q) + Count(e.retained, q) - Released(e, q)
  {
    var m1 := ReleaseAll(m, e.before);
    var m2 := RetainAll(m1, e.retained);
    ReleaseAllCounts(m, e.before);
    RetainAllCounts(m1, e.retained);
    ReleaseAllCounts(m2, e.after);
  }
}
