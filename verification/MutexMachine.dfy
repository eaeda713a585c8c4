/**
 Threads that share one structure behind a mutex, interleaved at the granularity of one loop iteration.
 */
module MutexMachine {
  import opened Bytes
  import opened Pool

  datatype Thread =
    | Idle
    | Waiting(n: nat)                  // called, and blocked on the mutex
    | Inside(n: nat, start: nat, got: seq<Byte>) // past the lock since position start, with got of n bytes delivered

  datatype Holder = Nobody | Holder(tid: nat)

  /** A finished call: who made it, where in the stream it started, and what it was given. */
  datatype Entry = Entry(tid: nat, start: nat, n: nat, bytes: seq<Byte>)

  /** acquired lists the threads in the order in which they took the lock. */
  datatype World<V> = World(holder: Holder, s: Session<V>, threads: map<nat, Thread>,
                            acquired: seq<nat>, log: seq<Entry>)

  datatype Event = Call(tid: nat, n: nat) | Lock(tid: nat) | Loop(tid: nat) | Unlock(tid: nat)

  function Boot<V(!new)>(cfg: Config<V>): World<V> {
    World(Nobody, Start(cfg), map[], [], [])
  }

  /** What an event does; one that cannot happen changes nothing. */
  function Apply<V(!new)>(cfg: Config<V>, entropy: Entropy<V>, w: World<V>, ev: Event): World<V>
    requires WellFormed(cfg, w.s)
  {
    match ev
    case Call(tid, n) =>
      if tid !in w.threads || w.threads[tid].Idle?
      then w.(threads := w.threads[tid := Waiting(n)])
      else w
    case Lock(tid) =>
      if w.holder.Nobody? && tid in w.threads && w.threads[tid].Waiting?
      then w.(holder := Holder(tid), threads := w.threads[tid := Inside(w.threads[tid].n, w.s.served, [])],
              acquired := w.acquired + [tid])
      else w
    case Loop(tid) =>
      if tid in w.threads && w.threads[tid].Inside? && |w.threads[tid].got| < w.threads[tid].n
      then
        var t := w.threads[tid];
        var (s, chunk) := Iterate(cfg, entropy, w.s, t.n - |t.got|);
        w.(s := s, threads := w.threads[tid := Inside(t.n, t.start, t.got + chunk)])
      else w
    case Unlock(tid) =>
      if tid in w.threads && w.threads[tid].Inside? && |w.threads[tid].got| >= w.threads[tid].n
      then
        var t := w.threads[tid];
        w.(holder := Nobody, threads := w.threads[tid := Idle],
           log := w.log + [Entry(tid, t.start, t.n, t.got)])
      else w
  }

  // The invariant

  /** The finished calls follow one another in the stream, from its start to position end. */
  ghost predicate Chained<V(!new)>(cfg: Config<V>, entropy: Entropy<V>, log: seq<Entry>, end: nat)
    requires cfg.Valid()
  {
    if |log| == 0 then end == 0
    else
      var e := log[|log| - 1];
      && e.start + e.n == end
      && e.bytes == Stream(cfg, entropy, e.start, e.n)
      && Chained(cfg, entropy, log[..|log| - 1], e.start)
  }

  /** At most the holder is past the lock. */
  ghost predicate Exclusive<V>(w: World<V>) {
    forall tid | tid in w.threads :: w.threads[tid].Inside? <==> w.holder == Holder(tid)
  }

  /** The calls finished, and then the one under way, are in the order of acquisition. */
  ghost predicate InOrder<V>(w: World<V>) {
    && |w.acquired| == |w.log| + (if w.holder.Nobody? then 0 else 1)
    && (forall i | 0 <= i < |w.log| :: w.log[i].tid == w.acquired[i])
    && (w.holder.Holder? ==> w.acquired[|w.log|] == w.holder.tid)
  }

  /** What the holder has been given so far. */
  function InHand<V>(w: World<V>): seq<Byte> {
    if w.holder.Holder? && w.holder.tid in w.threads && w.threads[w.holder.tid].Inside?
    then w.threads[w.holder.tid].got
    else []
  }

  /** The finished calls, and then the call of the holder, have used the stream up to the next byte to serve. */
  ghost predicate Served<V(!new)>(cfg: Config<V>, entropy: Entropy<V>, w: World<V>)
    requires cfg.Valid()
  {
    match w.holder
    case Nobody => Chained(cfg, entropy, w.log, w.s.served)
    case Holder(tid) =>
      && tid in w.threads && w.threads[tid].Inside?
      && var t := w.threads[tid];
         && |t.got| <= t.n
         && t.start + |t.got| == w.s.served
         && t.got == Stream(cfg, entropy, t.start, |t.got|)
         && Chained(cfg, entropy, w.log, t.start)
  }

  ghost predicate Inv<V(!new)>(cfg: Config<V>, entropy: Entropy<V>, w: World<V>)
    ensures Inv(cfg, entropy, w) ==> cfg.Valid() && WellFormed(cfg, w.s)
  {
    AtRest(cfg, entropy, w.s) && Exclusive(w) && InOrder(w) && Served(cfg, entropy, w)
  }

  lemma BootInv<V(!new)>(cfg: Config<V>, entropy: Entropy<V>)
    requires cfg.Valid()
    ensures Inv(cfg, entropy, Boot(cfg))
  {
    hide AtRest;
    StartInv(cfg, entropy);
  }

  lemma LoopInv<V(!new)>(cfg: Config<V>, entropy: Entropy<V>, w: World<V>, tid: nat)
    requires Inv(cfg, entropy, w)
    ensures Inv(cfg, entropy, Apply(cfg, entropy, w, Loop(tid)))
  {
    hide AtRest, Iterate, Stream, Chained;
    if tid in w.threads && w.threads[tid].Inside? && |w.threads[tid].got| < w.threads[tid].n {
      var t := w.threads[tid];
      var chunk := Iterate(cfg, entropy, w.s, t.n - |t.got|).1;
      IterateInv(cfg, entropy, w.s, t.n - |t.got|);
      StreamConcat(cfg, entropy, t.start, |t.got|, |chunk|);
    }
  }

  lemma UnlockInv<V(!new)>(cfg: Config<V>, entropy: Entropy<V>, w: World<V>, tid: nat)
    requires Inv(cfg, entropy, w)
    ensures Inv(cfg, entropy, Apply(cfg, entropy, w, Unlock(tid)))
  {
    hide AtRest, Stream;
    if tid in w.threads && w.threads[tid].Inside? && |w.threads[tid].got| >= w.threads[tid].n {
      var w' := Apply(cfg, entropy, w, Unlock(tid));
      assert w'.log[..|w'.log| - 1] == w.log;
    }
  }

  lemma NothingBytes<V(!new)>(cfg: Config<V>, entropy: Entropy<V>, t: nat)
    requires cfg.Valid()
    ensures Stream(cfg, entropy, t, 0) == []
  {
  }

  lemma LockInv<V(!new)>(cfg: Config<V>, entropy: Entropy<V>, w: World<V>, tid: nat)
    requires Inv(cfg, entropy, w)
    ensures Inv(cfg, entropy, Apply(cfg, entropy, w, Lock(tid)))
  {
    hide AtRest, Stream, Chained;
    NothingBytes(cfg, entropy, w.s.served);
  }

  lemma CallInv<V(!new)>(cfg: Config<V>, entropy: Entropy<V>, w: World<V>, tid: nat, n: nat)
    requires Inv(cfg, entropy, w)
    ensures Inv(cfg, entropy, Apply(cfg, entropy, w, Call(tid, n)))
  {
    hide AtRest, Stream, Chained;
  }

  lemma ApplyInv<V(!new)>(cfg: Config<V>, entropy: Entropy<V>, w: World<V>, ev: Event)
    requires Inv(cfg, entropy, w)
    ensures Inv(cfg, entropy, Apply(cfg, entropy, w, ev))
  {
    hide Inv, Apply;
    match ev
    case Call(tid, n) => CallInv(cfg, entropy, w, tid, n);
    case Lock(tid) => LockInv(cfg, entropy, w, tid);
    case Loop(tid) => LoopInv(cfg, entropy, w, tid);
    case Unlock(tid) => UnlockInv(cfg, entropy, w, tid);
  }

  /** The world after a history of events. */
  ghost function After<V(!new)>(cfg: Config<V>, entropy: Entropy<V>, events: seq<Event>): (w: World<V>)
    requires cfg.Valid()
    ensures Inv(cfg, entropy, w)
  {
    if |events| == 0 then
      BootInv(cfg, entropy);
      Boot(cfg)
    else
      var w := After(cfg, entropy, events[..|events| - 1]);
      ApplyInv(cfg, entropy, w, events[|events| - 1]);
      Apply(cfg, entropy, w, events[|events| - 1])
  }

  // What the calls received

  function Delivered(log: seq<Entry>): seq<Byte> {
    if |log| == 0 then [] else Delivered(log[..|log| - 1]) + log[|log| - 1].bytes
  }

  lemma {:induction false} ChainedDelivers<V(!new)>(cfg: Config<V>, entropy: Entropy<V>, log: seq<Entry>, end: nat)
    requires cfg.Valid() && Chained(cfg, entropy, log, end)
    ensures Delivered(log) == Stream(cfg, entropy, 0, end)
    decreases |log|
  {
    hide Stream;
    if |log| == 0 {
      NothingBytes(cfg, entropy, 0);
    } else {
      var e := log[|log| - 1];
      ChainedDelivers(cfg, entropy, log[..|log| - 1], e.start);
      StreamConcat(cfg, entropy, 0, e.start, e.n);
      assert 0 + e.start == e.start && e.start + e.n == end;
      assert Delivered(log) == Stream(cfg, entropy, 0, e.start) + Stream(cfg, entropy, e.start, e.n);
    }
  }

  lemma {:induction false} ChainedApart<V(!new)>(cfg: Config<V>, entropy: Entropy<V>, log: seq<Entry>, end: nat,
                                                   i: nat, j: nat)
    requires cfg.Valid() && Chained(cfg, entropy, log, end) && i <= j < |log|
    ensures i < j ==> log[i].start + log[i].n <= log[j].start
    ensures log[j].start + log[j].n <= end && log[i].start <= log[j].start
    ensures log[i].bytes == Stream(cfg, entropy, log[i].start, log[i].n)
    decreases |log|
  {
    hide Stream;
    var most, e := log[..|log| - 1], log[|log| - 1];
    if j < |log| - 1 {
      ChainedApart(cfg, entropy, most, e.start, i, j);
    } else if i < j {
      ChainedApart(cfg, entropy, most, e.start, i, i);
    }
  }

  /** Where in the stream the call under way began, or the next one will. */
  function Frontier<V>(w: World<V>): nat {
    if w.holder.Holder? && w.holder.tid in w.threads && w.threads[w.holder.tid].Inside?
    then w.threads[w.holder.tid].start
    else w.s.served
  }

  lemma AtFrontier<V(!new)>(cfg: Config<V>, entropy: Entropy<V>, w: World<V>)
    requires Inv(cfg, entropy, w)
    ensures Chained(cfg, entropy, w.log, Frontier(w))
    ensures Frontier(w) + |InHand(w)| == w.s.served
    ensures InHand(w) == Stream(cfg, entropy, Frontier(w), |InHand(w)|)
    ensures w.holder.Nobody? ==> InHand(w) == []
    ensures AtRest(cfg, entropy, w.s) && InOrder(w)
  {
    hide AtRest, Stream, Chained;
    NothingBytes(cfg, entropy, w.s.served);
  }

  /**
   In every history, the finished calls and then the one under way, in the order in which they took the lock,
   were given the bytes of the stream from its start; and the structure is in order whenever the lock is free.
   */
  lemma MutexSafety<V(!new)>(cfg: Config<V>, entropy: Entropy<V>, events: seq<Event>)
    requires cfg.Valid()
    ensures var w := After(cfg, entropy, events);
            && Delivered(w.log) + InHand(w) == Stream(cfg, entropy, 0, w.s.served)
            && |w.log| <= |w.acquired|
            && (forall i | 0 <= i < |w.log| :: w.log[i].tid == w.acquired[i])
            && (w.holder.Nobody? ==> |w.log| == |w.acquired| && InHand(w) == [])
            && AtRest(cfg, entropy, w.s)
  {
    hide AtRest, Stream, Chained, Inv, After, InHand, Frontier, Delivered;
    var w := After(cfg, entropy, events);
    AtFrontier(cfg, entropy, w);
    ChainedDelivers(cfg, entropy, w.log, Frontier(w));
    StreamConcat(cfg, entropy, 0, Frontier(w), |InHand(w)|);
  }

  /**
   No two calls share a position of the stream: finished calls are apart from each other and from the call that
   holds the lock, and each was given its own positions' bytes, a finished call as many as it asked for.
   */
  lemma MutexSplitsStream<V(!new)>(cfg: Config<V>, entropy: Entropy<V>, events: seq<Event>, i: nat, j: nat, t: nat)
    requires cfg.Valid() && i < |After(cfg, entropy, events).log| && j < |After(cfg, entropy, events).log|
    ensures var w := After(cfg, entropy, events);
            && w.log[i].bytes == Stream(cfg, entropy, w.log[i].start, w.log[i].n)
            && InHand(w) == Stream(cfg, entropy, Frontier(w), |InHand(w)|)
            && (w.log[i].start <= t < w.log[i].start + w.log[i].n && w.log[j].start <= t < w.log[j].start + w.log[j].n
                ==> i == j)
            && w.log[i].start + w.log[i].n <= Frontier(w)
  {
    hide AtRest, Stream, Chained, Inv, After, InHand, Frontier;
    var w := After(cfg, entropy, events);
    AtFrontier(cfg, entropy, w);
    ChainedApart(cfg, entropy, w.log, Frontier(w), i, i);
    if i <= j {
      ChainedApart(cfg, entropy, w.log, Frontier(w), i, j);
    } else {
      ChainedApart(cfg, entropy, w.log, Frontier(w), j, i);
    }
  }

  // What the calls asked for

  /** The sizes of the calls that a thread has made, in order; a Call while another is under way is not one. */
  ghost function Asked<V(!new)>(cfg: Config<V>, entropy: Entropy<V>, events: seq<Event>, tid: nat): seq<nat>
    requires cfg.Valid()
  {
    if |events| == 0 then []
    else
      var most, last := events[..|events| - 1], events[|events| - 1];
      var w := After(cfg, entropy, most);
      if last.Call? && last.tid == tid && (tid !in w.threads || w.threads[tid].Idle?) then
        Asked(cfg, entropy, most, tid) + [last.n]
      else Asked(cfg, entropy, most, tid)
  }

  /** The sizes of a thread's finished calls. */
  function Finished(log: seq<Entry>, tid: nat): seq<nat> {
    if |log| == 0 then []
    else
      var last := log[|log| - 1];
      Finished(log[..|log| - 1], tid) + (if last.tid == tid then [last.n] else [])
  }

  /** The size of a thread's call under way. */
  function UnderWay<V>(w: World<V>, tid: nat): seq<nat> {
    if tid !in w.threads || w.threads[tid].Idle? then [] else [w.threads[tid].n]
  }

  lemma FinishedMore(log: seq<Entry>, e: Entry, tid: nat)
    ensures Finished(log + [e], tid) == Finished(log, tid) + (if e.tid == tid then [e.n] else [])
  {
    assert (log + [e])[..|log|] == log;
  }

  /** In every history, what a thread asked for is what its finished calls were for, and then its call under way. */
  lemma {:induction false} AskedIsServed<V(!new)>(cfg: Config<V>, entropy: Entropy<V>, events: seq<Event>, tid: nat)
    requires cfg.Valid()
    ensures var w := After(cfg, entropy, events);
            Asked(cfg, entropy, events, tid) == Finished(w.log, tid) + UnderWay(w, tid)
    decreases |events|
  {
    hide Inv, Iterate, Finished;
    if |events| == 0 {
      NothingFinished(tid);
    } else {
      var most, last := events[..|events| - 1], events[|events| - 1];
      var w := After(cfg, entropy, most);
      AskedIsServed(cfg, entropy, most, tid);
      if last.Unlock? && last.tid in w.threads && w.threads[last.tid].Inside? {
        var t := w.threads[last.tid];
        FinishedMore(w.log, Entry(last.tid, t.start, t.n, t.got), tid);
      }
    }
  }

  lemma NothingFinished(tid: nat)
    ensures Finished([], tid) == []
  {
  }

  // Progress

  lemma AfterOne<V(!new)>(cfg: Config<V>, entropy: Entropy<V>, events: seq<Event>, ev: Event)
    requires cfg.Valid()
    ensures After(cfg, entropy, events + [ev]) == Apply(cfg, entropy, After(cfg, entropy, events), ev)
  {
    hide Inv, Apply;
    assert (events + [ev])[..|events|] == events;
  }

  /** Every thread but one is where it was. */
  ghost predicate OthersSame<V>(w: World<V>, w': World<V>, tid: nat) {
    forall u | u != tid ::
      (u in w'.threads <==> u in w.threads) && (u in w.threads ==> w'.threads[u] == w.threads[u])
  }

  /** One iteration of the holder delivers at least one byte and at most what its call still wants. */
  lemma LoopMoves<V(!new)>(cfg: Config<V>, entropy: Entropy<V>, w: World<V>, tid: nat)
    requires Inv(cfg, entropy, w) && tid in w.threads && w.threads[tid].Inside?
    requires |w.threads[tid].got| < w.threads[tid].n
    ensures var w', t := Apply(cfg, entropy, w, Loop(tid)), w.threads[tid];
            && tid in w'.threads && w'.threads[tid].Inside?
            && w'.threads[tid].n == t.n && w'.threads[tid].start == t.start
            && |t.got| < |w'.threads[tid].got| <= t.n
            && w'.log == w.log && w'.acquired == w.acquired && w'.holder == w.holder
            && OthersSame(w, w', tid)
  {
    hide AtRest, Iterate, Stream, Chained, Served, Exclusive, InOrder;
  }

  /** A call as it should end: its thread idle, the lock free, and an entry with all the bytes it asked for. */
  ghost predicate Ended<V(!new)>(cfg: Config<V>, entropy: Entropy<V>, w: World<V>, w': World<V>, tid: nat,
                                   start: nat, n: nat)
    requires cfg.Valid()
  {
    && w'.holder.Nobody?
    && w'.acquired == w.acquired
    && w'.log == w.log + [Entry(tid, start, n, Stream(cfg, entropy, start, n))]
    && tid in w'.threads && w'.threads[tid].Idle?
    && OthersSame(w, w', tid)
  }

  lemma UnlockEnds<V(!new)>(cfg: Config<V>, entropy: Entropy<V>, w: World<V>, tid: nat)
    requires Inv(cfg, entropy, w) && w.holder == Holder(tid)
    requires tid in w.threads && w.threads[tid].Inside? && |w.threads[tid].got| >= w.threads[tid].n
    ensures Ended(cfg, entropy, w, Apply(cfg, entropy, w, Unlock(tid)), tid, w.threads[tid].start, w.threads[tid].n)
  {
    hide AtRest, Iterate, Stream, Chained, Exclusive, InOrder;
  }

  /** The holder's own iterations, no more of them than it still wants bytes, and then its unlocking end its call. */
  lemma {:induction false} HolderFinishes<V(!new)>(cfg: Config<V>, entropy: Entropy<V>, events: seq<Event>, tid: nat)
    returns (k: nat)
    requires cfg.Valid() && After(cfg, entropy, events).holder == Holder(tid)
    ensures var w := After(cfg, entropy, events);
            && tid in w.threads && w.threads[tid].Inside? && k <= w.threads[tid].n - |w.threads[tid].got|
            && Ended(cfg, entropy, w, After(cfg, entropy, events + seq(k, _ => Loop(tid)) + [Unlock(tid)]), tid,
                     w.threads[tid].start, w.threads[tid].n)
    decreases var w := After(cfg, entropy, events);
              if tid in w.threads && w.threads[tid].Inside? then w.threads[tid].n - |w.threads[tid].got| else 0
  {
    hide After, Inv, Apply, Ended;
    var w := After(cfg, entropy, events);
    HolderIsInside(cfg, entropy, w, tid);
    var t := w.threads[tid];
    if |t.got| >= t.n {
      k := 0;
      UnlockEnds(cfg, entropy, w, tid);
      AfterOne(cfg, entropy, events, Unlock(tid));
      assert events + seq(0, _ => Loop(tid)) + [Unlock(tid)] == events + [Unlock(tid)];
    } else {
      var more := events + [Loop(tid)];
      LoopMoves(cfg, entropy, w, tid);
      AfterOne(cfg, entropy, events, Loop(tid));
      var k' := HolderFinishes(cfg, entropy, more, tid);
      k := k' + 1;
      assert more + seq(k', _ => Loop(tid)) + [Unlock(tid)] == events + seq(k, _ => Loop(tid)) + [Unlock(tid)];
      EndedSooner(cfg, entropy, w, After(cfg, entropy, more),
                  After(cfg, entropy, events + seq(k, _ => Loop(tid)) + [Unlock(tid)]), tid, t.start, t.n);
    }
  }

  lemma HolderIsInside<V(!new)>(cfg: Config<V>, entropy: Entropy<V>, w: World<V>, tid: nat)
    requires Inv(cfg, entropy, w) && w.holder == Holder(tid)
    ensures tid in w.threads && w.threads[tid].Inside? && |w.threads[tid].got| <= w.threads[tid].n
  {
    hide AtRest, Stream, Chained, Exclusive, InOrder;
  }

  lemma EndedSooner<V(!new)>(cfg: Config<V>, entropy: Entropy<V>, w: World<V>, w1: World<V>, w': World<V>, tid: nat,
                             start: nat, n: nat)
    requires cfg.Valid() && Ended(cfg, entropy, w1, w', tid, start, n)
    requires w1.log == w.log && w1.acquired == w.acquired
    requires OthersSame(w, w1, tid)
    ensures Ended(cfg, entropy, w, w', tid, start, n)
  {
    hide Stream;
  }

  /** A free lock admits whichever waiting thread asks for it. */
  lemma LockAdmits<V(!new)>(cfg: Config<V>, entropy: Entropy<V>, events: seq<Event>, tid: nat)
    requires cfg.Valid()
    requires var w := After(cfg, entropy, events); w.holder.Nobody? && tid in w.threads && w.threads[tid].Waiting?
    ensures var w, w' := After(cfg, entropy, events), After(cfg, entropy, events + [Lock(tid)]);
            && w'.holder == Holder(tid) && w'.acquired == w.acquired + [tid]
            && w'.log == w.log && w'.s == w.s
            && w'.threads == w.threads[tid := Inside(w.threads[tid].n, w.s.served, [])]
  {
    hide After, Inv;
    AfterOne(cfg, entropy, events, Lock(tid));
  }

  /**
   No call is ever stuck: from every reachable world in which a thread waits, some continuation ends its call, whoever
   holds the lock, and gives it as many stream bytes as it asked for.
   */
  lemma WaitingCanFinish<V(!new)>(cfg: Config<V>, entropy: Entropy<V>, events: seq<Event>, tid: nat)
    returns (more: seq<Event>)
    requires cfg.Valid()
    requires var w := After(cfg, entropy, events); tid in w.threads && w.threads[tid].Waiting?
    ensures var w, w' := After(cfg, entropy, events), After(cfg, entropy, events + more);
            && w'.holder.Nobody? && tid in w'.threads && w'.threads[tid].Idle?
            && |w'.log| > |w.log| && w'.log[..|w.log|] == w.log
            && var e := w'.log[|w'.log| - 1];
            && e.tid == tid && e.n == w.threads[tid].n && e.bytes == Stream(cfg, entropy, e.start, e.n)
  {
    hide After, Inv, Stream;
    var w := After(cfg, entropy, events);
    var first: seq<Event> := [];
    if w.holder.Holder? {
      var k := HolderFinishes(cfg, entropy, events, w.holder.tid);
      first := seq(k, _ => Loop(w.holder.tid)) + [Unlock(w.holder.tid)];
      assert events + first == events + seq(k, _ => Loop(w.holder.tid)) + [Unlock(w.holder.tid)];
    } else {
      assert events + first == events;
    }
    LockAdmits(cfg, entropy, events + first, tid);
    var k := HolderFinishes(cfg, entropy, events + first + [Lock(tid)], tid);
    more := first + [Lock(tid)] + seq(k, _ => Loop(tid)) + [Unlock(tid)];
    assert events + more == events + first + [Lock(tid)] + seq(k, _ => Loop(tid)) + [Unlock(tid)];
  }
}
