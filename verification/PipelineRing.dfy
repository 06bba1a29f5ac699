/** The queue of Pipeline is the ring of SpscRing: what its steps do to the one is what the threads' accesses do to
    the other. */
module PipelineRing {
  import opened Bytes
  import opened Pipeline
  import opened PipelineSteps
  import SpscRing

  /** The ring holds what the queue holds. */
  ghost predicate Holds(cfg: Config, m: Memory, r: SpscRing.State) {
    SpscRing.Inv(r, cfg.slotCount, cfg.slotSize) && SpscRing.Queue(r) == m.ring
  }

  lemma TestsAgree(cfg: Config, m: Memory, r: SpscRing.State, v: nat)
    requires Holds(cfg, m, r)
    ensures SpscRing.Enabled(r, cfg.slotSize, SpscRing.LoadHead(v)) ==>
              var t := SpscRing.Next(r, cfg.slotCount, cfg.slotSize, SpscRing.LoadHead(v));
              && (t.producer != SpscRing.Outside ==> !Full(cfg, m))
              && (v == r.head ==> (t.producer == SpscRing.Outside <==> Full(cfg, m)))
    ensures SpscRing.Enabled(r, cfg.slotSize, SpscRing.LoadTail(v)) ==>
              var t := SpscRing.Next(r, cfg.slotCount, cfg.slotSize, SpscRing.LoadTail(v));
              && (t.consumer != SpscRing.Away ==> m.ring != [])
              && (v == r.tail ==> (t.consumer == SpscRing.Away <==> m.ring == []))
  {}

  /** Each access to the ring is the queue's: publishing a slot is Commit, freeing one is the parser's release, and
      the two tests, made on an up-to-date index, are the queue's; on an old one they only err by "full" and by
      "empty". Nothing else changes the queue. */
  lemma {:induction false} AccessIsQueue(cfg: Config, s: Server, r: SpscRing.State, step: SpscRing.Step)
    requires Holds(cfg, s.mem, r) && SpscRing.Enabled(r, cfg.slotSize, step)
    ensures var t := SpscRing.Next(r, cfg.slotCount, cfg.slotSize, step);
            match step
            case StoreTail =>
              var slot := r.tail % cfg.slotCount;
              !Full(cfg, s.mem) && Holds(cfg, Commit(s, r.slots[slot][..r.sizes[slot]]).mem, t)
            case StoreHead =>
              && s.mem.ring != [] && t.taken == r.taken + [s.mem.ring[0]]
              && Holds(cfg, s.mem.(ring := RingAfter(Release, s.mem.ring)), t)
            case LoadHead(v) =>
              && Holds(cfg, s.mem, t) && (t.producer != SpscRing.Outside ==> !Full(cfg, s.mem))
              && (v == r.head ==> (t.producer == SpscRing.Outside <==> Full(cfg, s.mem)))
            case LoadTail(v) =>
              && Holds(cfg, s.mem, t) && (t.consumer != SpscRing.Away ==> s.mem.ring != [])
              && (v == r.tail ==> (t.consumer == SpscRing.Away <==> s.mem.ring == []))
            case _ => Holds(cfg, s.mem, t)
  {
    hide SpscRing.Inv, SpscRing.Next, SpscRing.Enabled;
    SpscRing.StepKeepsInv(r, cfg.slotCount, cfg.slotSize, step);
    SpscRing.StepRefinesQueue(r, cfg.slotCount, cfg.slotSize, step);
    if step.LoadHead? || step.LoadTail? {
      TestsAgree(cfg, s.mem, r, step.value);
    }
  }
}
