/** The allocator object performs exactly the steps whose histories HeapRuns is about. */
module AllocatorRuns {
  import opened Words
  import opened Blocks
  import opened HeapSpec
  import opened HeapMemory
  import opened HeapFacts
  import opened HeapRuns
  import opened Allocator

  method Perform(h: Heap, op: Op)
    requires h.Valid() && Allowed(h.st, op)
    modifies h
    ensures h.Valid() && Step(View(old(h.mem), old(h.st)), op, View(h.mem, h.st))
  {
    hide InvWith, ListRep, SameBytes, Malloc, Free, Coalesce;
    match op
    case DoMalloc(n) =>
      var _ := h.Malloc(n);
    case DoCalloc(num, sz) =>
      var _ := h.Calloc(num, sz);
    case DoFree(p) =>
      h.Free(p);
    case DoRealloc(p, n) =>
      var _ := h.Realloc(p, n);
    case DoDefrag =>
      h.Defrag();
    case DoHeapInfo =>
      var _, _ := h.HeapInfo(Info(0, 0, 0, 0, 0));
    case Write(p, i, v) =>
      WriteInRange(h.st, p);
      h.StoreByte(p, i, v);
  }

  /** A program whose every call is allowed in the state it meets. */
  ghost predicate AllAllowed(s: State, ops: seq<Op>)
    decreases |ops|
  {
    ops == [] || (Allowed(s, ops[0]) && AllAllowed(Apply(s, ops[0]), ops[1..]))
  }

  /** From a process that has not allocated yet, the calls of such a program are a history. */
  method PerformAll(h: Heap, ops: seq<Op>) returns (ghost vs: seq<View>)
    requires h.Valid() && h.st.alloc == [] && h.st.free == [] && h.st.base == h.st.brk && AllAllowed(h.st, ops)
    modifies h
    ensures h.Valid() && IsRun(vs, ops)
    ensures vs[0] == View(old(h.mem), old(h.st)) && vs[|ops|] == View(h.mem, h.st)
  {
    hide InvWith, ListRep, Allowed, Apply, Step;
    vs := [View(h.mem, h.st)];
    var i := 0;
    assert ops[0..] == ops;
    while i < |ops|
      invariant 0 <= i <= |ops| && |vs| == i + 1 && h.Valid() && AllAllowed(h.st, ops[i..])
      invariant vs[0] == View(old(h.mem), old(h.st)) && vs[i] == View(h.mem, h.st)
      invariant forall k :: 0 <= k < i ==> Step(vs[k], ops[k], vs[k + 1])
    {
      ghost var v := vs[i];
      assert ops[i..][0] == ops[i] && ops[i..][1..] == ops[i + 1..];
      Perform(h, ops[i]);
      StepApplies(v, ops[i], View(h.mem, h.st));
      vs := vs + [View(h.mem, h.st)];
      i := i + 1;
    }
  }

  /** A write lands in the block its pointer names, and in no other. */
  lemma WriteInRange(s: State, p: int)
    requires Inv(s) && p != 0 && LivePtr(s, p)
    ensures BlockAt(s, p).Payload() == p && 0 < p
    ensures forall z :: z in s.alloc && z.Payload() == p ==> z == BlockAt(s, p)
  {
    Findable(s, BlockAt(s, p));
    forall z | z in s.alloc && z.Payload() == p
      ensures z == BlockAt(s, p)
    {
      Findable(s, z);
    }
  }
}
