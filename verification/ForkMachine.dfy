/**
 Processes that fork.  Each has its own copy of the structure; the kernel wipes the child's copy to zeros, and
 hands out entropy to all processes from one sequence.  Calls of different processes interleave by loop iteration.
 */
module ForkMachine {
  import opened Arithmetic
  import opened Bytes
  import opened Pool

  /**
   A process: its structure, the kernel draws it has taken, the number of draws the kernel had made when the
   process came to be, the bytes it has been given since, and the bytes its current call has still to deliver.
   */
  datatype Process<V> = Process(s: Session<V>, mine: seq<nat>, born: nat, out: seq<Byte>, pending: nat)

  datatype World<V> = World(processes: map<nat, Process<V>>, draws: nat)

  datatype Event = Call(pid: nat, n: nat) | Deliver(pid: nat) | Fork(parent: nat, child: nat)

  /** The entropy a process has drawn; where it has drawn none yet, what the kernel will draw next. */
  function Tape<V(!new)>(kernel: Entropy<V>, mine: seq<nat>, next: nat): Entropy<V> {
    (k: nat) => kernel(if k < |mine| then mine[k] else next)
  }

  /** A process with a wiped structure. */
  function Newborn<V(!new)>(cfg: Config<V>, draws: nat): Process<V> {
    Process(Start(cfg), [], draws, [], 0)
  }

  function Boot<V(!new)>(cfg: Config<V>): World<V> {
    World(map[0 := Newborn(cfg, 0)], 0)
  }

  // The invariant

  ghost predicate ProcessInv<V(!new)>(cfg: Config<V>, kernel: Entropy<V>, draws: nat, p: Process<V>) {
    && p.born <= draws
    && p.s.drawn == |p.mine|
    && AtRest(cfg, Tape(kernel, p.mine, draws), p.s)
    && p.out == Stream(cfg, Tape(kernel, p.mine, draws), 0, p.s.served)
    && (forall i | 0 <= i < |p.mine| :: p.born <= p.mine[i] < draws)
    && (forall i, j | 0 <= i < j < |p.mine| :: p.mine[i] < p.mine[j])
  }

  ghost predicate Apart<V>(p: Process<V>, q: Process<V>) {
    forall i, j | 0 <= i < |p.mine| && 0 <= j < |q.mine| :: p.mine[i] != q.mine[j]
  }

  ghost predicate Inv<V(!new)>(cfg: Config<V>, kernel: Entropy<V>, w: World<V>) {
    && cfg.Valid()
    && (forall pid | pid in w.processes :: ProcessInv(cfg, kernel, w.draws, w.processes[pid]))
    && (forall a, b | a in w.processes && b in w.processes && a != b :: Apart(w.processes[a], w.processes[b]))
  }

  /** What an event does; one that cannot happen changes nothing. */
  ghost function Apply<V(!new)>(cfg: Config<V>, kernel: Entropy<V>, w: World<V>, ev: Event): World<V>
    requires Inv(cfg, kernel, w)
  {
    match ev
    case Call(pid, n) =>
      if pid in w.processes && w.processes[pid].pending == 0
      then w.(processes := w.processes[pid := w.processes[pid].(pending := n)])
      else w
    case Deliver(pid) =>
      if pid in w.processes && w.processes[pid].pending > 0
      then
        var (p, draws) := Delivered(cfg, kernel, w.processes[pid], w.draws);
        World(w.processes[pid := p], draws)
      else w
    case Fork(parent, child) =>
      if parent in w.processes && child !in w.processes && w.processes[parent].pending == 0
      then w.(processes := w.processes[child := Newborn(cfg, w.draws)])
      else w
  }

  /** One iteration of a process's call, with the kernel draw it may make. */
  ghost function Delivered<V(!new)>(cfg: Config<V>, kernel: Entropy<V>, p: Process<V>, draws: nat): (Process<V>, nat)
    requires ProcessInv(cfg, kernel, draws, p) && p.pending > 0
  {
    var (s, chunk) := Iterate(cfg, Tape(kernel, p.mine, draws), p.s, p.pending);
    var drew := s.drawn > p.s.drawn;
    (Process(s, if drew then p.mine + [draws] else p.mine, p.born, p.out + chunk, p.pending - |chunk|),
     if drew then draws + 1 else draws)
  }

  // Only the draws taken matter

  ghost predicate Agree<V(!new)>(e: Entropy<V>, e': Entropy<V>, n: nat) {
    forall k: nat | k < n :: e(k) == e'(k)
  }

  lemma StreamByteAgree<V(!new)>(cfg: Config<V>, e: Entropy<V>, e': Entropy<V>, drawn: nat, t: nat)
    requires cfg.Valid() && Agree(e, e', drawn) && t < drawn * cfg.Span()
    ensures StreamByte(cfg, e, t) == StreamByte(cfg, e', t)
  {
    hide SeedByte;
    SpanPositive(cfg);
    Below(t, cfg.Span(), drawn);
  }

  lemma StreamAgree<V(!new)>(cfg: Config<V>, e: Entropy<V>, e': Entropy<V>, drawn: nat, t: nat, n: nat)
    requires cfg.Valid() && Agree(e, e', drawn) && t + n <= drawn * cfg.Span()
    ensures Stream(cfg, e, t, n) == Stream(cfg, e', t, n)
  {
    hide *;
    forall i | 0 <= i < n
      ensures Stream(cfg, e, t, n)[i] == Stream(cfg, e', t, n)[i]
    {
      StreamByteAgree(cfg, e, e', drawn, t + i);
    }
  }

  lemma Below(t: nat, span: nat, d: nat)
    requires span > 0 && t < d * span
    ensures t / span < d
  {
    DivModParts(t, span);
    if d <= t / span {
      MulLe(d, t / span, span);
    }
  }

  lemma Supply<V(!new)>(cfg: Config<V>, s: Session<V>)
    requires WellFormed(cfg, s) && Accounted(cfg, s)
    ensures s.served + s.pool.remaining <= s.drawn * cfg.Span()
  {
    var size := cfg.poolSize;
    MulAssoc(s.drawn, cfg.interval, size);
    MulLe(s.refills, s.drawn * cfg.interval, size);
    assert cfg.Span() == cfg.interval * size;
  }

  lemma AtRestAgree<V(!new)>(cfg: Config<V>, e: Entropy<V>, e': Entropy<V>, s: Session<V>)
    requires AtRest(cfg, e, s) && Agree(e, e', s.drawn)
    ensures AtRest(cfg, e', s)
    ensures Stream(cfg, e, 0, s.served) == Stream(cfg, e', 0, s.served)
  {
    hide Stream;
    Supply(cfg, s);
    StreamAgree(cfg, e, e', s.drawn, s.served, s.pool.remaining);
    StreamAgree(cfg, e, e', s.drawn, 0, s.served);
  }

  /** A process's record stays good whatever the kernel does for others. */
  lemma ProcessAgree<V(!new)>(cfg: Config<V>, kernel: Entropy<V>, draws: nat, draws': nat, p: Process<V>)
    requires ProcessInv(cfg, kernel, draws, p) && draws <= draws'
    ensures ProcessInv(cfg, kernel, draws', p)
  {
    hide AtRest, Stream;
    AtRestAgree(cfg, Tape(kernel, p.mine, draws), Tape(kernel, p.mine, draws'), p.s);
  }

  lemma IterateDraws<V(!new)>(cfg: Config<V>, entropy: Entropy<V>, s: Session<V>, n: nat)
    requires WellFormed(cfg, s)
    ensures s.drawn <= Iterate(cfg, entropy, s, n).0.drawn <= s.drawn + 1
  {
  }

  /** A delivery adds to a process's draws the next one of the kernel, or none. */
  lemma DeliveredDraws<V(!new)>(cfg: Config<V>, kernel: Entropy<V>, p: Process<V>, draws: nat)
    requires ProcessInv(cfg, kernel, draws, p) && p.pending > 0
    ensures var (p', draws') := Delivered(cfg, kernel, p, draws);
            && p'.born == p.born
            && p'.s.drawn == |p'.mine|
            && ((p'.mine == p.mine && draws' == draws) || (p'.mine == p.mine + [draws] && draws' == draws + 1))
            && Agree(Tape(kernel, p.mine, draws), Tape(kernel, p'.mine, draws'), |p'.mine|)
  {
    hide AtRest, Stream, Iterate;
    IterateDraws(cfg, Tape(kernel, p.mine, draws), p.s, p.pending);
  }

  lemma DeliveredBytes<V(!new)>(cfg: Config<V>, kernel: Entropy<V>, p: Process<V>, draws: nat)
    requires ProcessInv(cfg, kernel, draws, p) && p.pending > 0
    ensures var tape, p' := Tape(kernel, p.mine, draws), Delivered(cfg, kernel, p, draws).0;
            && AtRest(cfg, tape, p'.s)
            && p'.out == Stream(cfg, tape, 0, p'.s.served)
  {
    hide AtRest, Stream, Iterate;
    var tape := Tape(kernel, p.mine, draws);
    IterateInv(cfg, tape, p.s, p.pending);
    StreamConcat(cfg, tape, 0, p.s.served, |Iterate(cfg, tape, p.s, p.pending).1|);
  }

  lemma DeliveredInv<V(!new)>(cfg: Config<V>, kernel: Entropy<V>, p: Process<V>, draws: nat)
    requires ProcessInv(cfg, kernel, draws, p) && p.pending > 0
    ensures var (p', draws') := Delivered(cfg, kernel, p, draws);
            draws <= draws' && ProcessInv(cfg, kernel, draws', p')
  {
    hide AtRest, Stream, Iterate, Delivered, Agree, Tape;
    var (p', draws') := Delivered(cfg, kernel, p, draws);
    DeliveredDraws(cfg, kernel, p, draws);
    DeliveredBytes(cfg, kernel, p, draws);
    AtRestAgree(cfg, Tape(kernel, p.mine, draws), Tape(kernel, p'.mine, draws'), p'.s);
    forall i, j | 0 <= i < j < |p'.mine|
      ensures p'.mine[i] < p'.mine[j]
    {
      assert p'.mine[i] == p.mine[i];
      assert j < |p.mine| ==> p'.mine[j] == p.mine[j];
    }
    forall i | 0 <= i < |p'.mine|
      ensures p'.born <= p'.mine[i] < draws'
    {
      assert i < |p.mine| ==> p'.mine[i] == p.mine[i];
    }
  }

  lemma StaysApart<V(!new)>(cfg: Config<V>, kernel: Entropy<V>, w: World<V>, p: Process<V>, q: Process<V>)
    requires ProcessInv(cfg, kernel, w.draws, p) && p.pending > 0
    requires ProcessInv(cfg, kernel, w.draws, q) && Apart(p, q)
    ensures Apart(Delivered(cfg, kernel, p, w.draws).0, q) && Apart(q, Delivered(cfg, kernel, p, w.draws).0)
  {
    hide AtRest, Stream, Delivered, Agree, Tape;
    DeliveredDraws(cfg, kernel, p, w.draws);
  }

  lemma DeliverInv<V(!new)>(cfg: Config<V>, kernel: Entropy<V>, w: World<V>, pid: nat)
    requires Inv(cfg, kernel, w) && pid in w.processes && w.processes[pid].pending > 0
    ensures Inv(cfg, kernel, Apply(cfg, kernel, w, Deliver(pid)))
  {
    hide ProcessInv, Delivered, Apart;
    var p := w.processes[pid];
    var w' := Apply(cfg, kernel, w, Deliver(pid));
    DeliveredInv(cfg, kernel, p, w.draws);
    forall a | a in w'.processes
      ensures ProcessInv(cfg, kernel, w'.draws, w'.processes[a])
    {
      if a != pid {
        ProcessAgree(cfg, kernel, w.draws, w'.draws, w.processes[a]);
      }
    }
    forall a, b | a in w'.processes && b in w'.processes && a != b
      ensures Apart(w'.processes[a], w'.processes[b])
    {
      if a == pid {
        StaysApart(cfg, kernel, w, p, w.processes[b]);
      } else if b == pid {
        ApartSymmetric(p, w.processes[a]);
        StaysApart(cfg, kernel, w, p, w.processes[a]);
      }
    }
  }

  lemma ApartSymmetric<V>(p: Process<V>, q: Process<V>)
    ensures Apart(p, q) <==> Apart(q, p)
  {
  }

  lemma NewbornInv<V(!new)>(cfg: Config<V>, kernel: Entropy<V>, draws: nat)
    requires cfg.Valid()
    ensures ProcessInv(cfg, kernel, draws, Newborn(cfg, draws))
    ensures forall q :: Apart(q, Newborn(cfg, draws)) && Apart(Newborn(cfg, draws), q)
  {
    hide AtRest;
    StartInv(cfg, Tape(kernel, [], draws));
  }

  lemma ApplyInv<V(!new)>(cfg: Config<V>, kernel: Entropy<V>, w: World<V>, ev: Event)
    requires Inv(cfg, kernel, w)
    ensures Inv(cfg, kernel, Apply(cfg, kernel, w, ev))
  {
    hide Delivered, AtRest, Stream, Newborn;
    if ev.Deliver? && ev.pid in w.processes && w.processes[ev.pid].pending > 0 {
      DeliverInv(cfg, kernel, w, ev.pid);
    } else {
      NewbornInv(cfg, kernel, w.draws);
    }
  }

  /** The world after a history of events. */
  ghost function After<V(!new)>(cfg: Config<V>, kernel: Entropy<V>, events: seq<Event>): (w: World<V>)
    requires cfg.Valid()
    ensures Inv(cfg, kernel, w)
  {
    if |events| == 0 then
      StartInv(cfg, Tape(kernel, [], 0));
      Boot(cfg)
    else
      var w := After(cfg, kernel, events[..|events| - 1]);
      ApplyInv(cfg, kernel, w, events[|events| - 1]);
      Apply(cfg, kernel, w, events[|events| - 1])
  }

  /** The sizes of the calls that a process has made since its creation, a call under way included. */
  ghost function Calls<V(!new)>(cfg: Config<V>, kernel: Entropy<V>, events: seq<Event>, pid: nat): seq<nat>
    requires cfg.Valid()
  {
    if |events| == 0 then []
    else
      var most, last := events[..|events| - 1], events[|events| - 1];
      var w := After(cfg, kernel, most);
      if pid !in w.processes then []
      else if last.Call? && last.pid == pid && w.processes[pid].pending == 0 then
        Calls(cfg, kernel, most, pid) + [last.n]
      else Calls(cfg, kernel, most, pid)
  }

  lemma DeliveredLength<V(!new)>(cfg: Config<V>, kernel: Entropy<V>, p: Process<V>, draws: nat)
    requires ProcessInv(cfg, kernel, draws, p) && p.pending > 0
    ensures var p' := Delivered(cfg, kernel, p, draws).0;
            |p'.out| + p'.pending == |p.out| + p.pending
  {
    hide AtRest, Stream, Iterate;
  }

  /** Bytes given and bytes still to come make up what the calls asked for. */
  lemma {:induction false} CallsAddUp<V(!new)>(cfg: Config<V>, kernel: Entropy<V>, events: seq<Event>, pid: nat)
    requires cfg.Valid() && pid in After(cfg, kernel, events).processes
    ensures var p := After(cfg, kernel, events).processes[pid];
            |p.out| + p.pending == Total(Calls(cfg, kernel, events, pid))
    decreases |events|
  {
    hide ProcessInv, Delivered, Apart;
    if |events| > 0 {
      var most, last := events[..|events| - 1], events[|events| - 1];
      var w := After(cfg, kernel, most);
      if pid in w.processes {
        CallsAddUp(cfg, kernel, most, pid);
        var p := w.processes[pid];
        if last.Deliver? && last.pid == pid && p.pending > 0 {
          DeliveredLength(cfg, kernel, p, w.draws);
        }
        var calls := Calls(cfg, kernel, most, pid);
        if last.Call? && last.pid == pid && p.pending == 0 {
          assert (calls + [last.n])[..|calls|] == calls;
        }
      }
    }
  }

  /**
   Whatever calls and forks happened, what a process has been given since its creation is what its calls asked for,
   less what is still to come, and it is the start of the stream of the draws it made itself, one per seeding; all
   of them were made after its creation, and no other process made any of them.
   */
  lemma ForkSafety<V(!new)>(cfg: Config<V>, kernel: Entropy<V>, events: seq<Event>, pid: nat)
    requires cfg.Valid() && pid in After(cfg, kernel, events).processes
    ensures cfg.Span() > 0
    ensures var w := After(cfg, kernel, events);
            var p := w.processes[pid];
            && |p.out| == Total(Calls(cfg, kernel, events, pid)) - p.pending
            && p.out == Stream(cfg, Tape(kernel, p.mine, w.draws), 0, |p.out|)
            && |p.mine| == CeilDiv(|p.out|, cfg.Span())
            && (forall i | 0 <= i < |p.mine| :: p.born <= p.mine[i] < w.draws)
            && (forall q | q in w.processes && q != pid :: Apart(p, w.processes[q]))
  {
    hide Calls;
    var w := After(cfg, kernel, events);
    var p := w.processes[pid];
    assert ProcessInv(cfg, kernel, w.draws, p);
    Accounting(cfg, Tape(kernel, p.mine, w.draws), p.s);
    CallsAddUp(cfg, kernel, events, pid);
  }

  /** Processes persist: they keep their birth, and only add to what they have drawn. */
  ghost predicate Extends<V>(w: World<V>, w': World<V>) {
    && w.draws <= w'.draws
    && forall pid | pid in w.processes ::
         && pid in w'.processes
         && w'.processes[pid].born == w.processes[pid].born
         && w.processes[pid].mine <= w'.processes[pid].mine
  }

  lemma ApplyExtends<V(!new)>(cfg: Config<V>, kernel: Entropy<V>, w: World<V>, ev: Event)
    requires Inv(cfg, kernel, w)
    ensures Extends(w, Apply(cfg, kernel, w, ev))
  {
    hide ProcessInv, Delivered, AtRest, Stream, Newborn, Apart;
    if ev.Deliver? && ev.pid in w.processes && w.processes[ev.pid].pending > 0 {
      DeliveredDraws(cfg, kernel, w.processes[ev.pid], w.draws);
    }
  }

  lemma ExtendsReflexive<V>(w: World<V>)
    ensures Extends(w, w)
  {
  }

  lemma ExtendsTransitive<V>(w: World<V>, w': World<V>, w'': World<V>)
    requires Extends(w, w') && Extends(w', w'')
    ensures Extends(w, w'')
  {
  }

  lemma {:induction false} AfterExtends<V(!new)>(cfg: Config<V>, kernel: Entropy<V>, events: seq<Event>,
                                                   more: seq<Event>)
    requires cfg.Valid()
    ensures Extends(After(cfg, kernel, events), After(cfg, kernel, events + more))
    decreases |more|
  {
    hide Extends, Apply, Inv;
    if |more| == 0 {
      assert events + more == events;
      ExtendsReflexive(After(cfg, kernel, events));
    } else {
      var most, last := more[..|more| - 1], more[|more| - 1];
      AfterExtends(cfg, kernel, events, most);
      assert (events + more)[..|events + more| - 1] == events + most;
      var w := After(cfg, kernel, events + most);
      ApplyExtends(cfg, kernel, w, last);
      ExtendsTransitive(After(cfg, kernel, events), w, Apply(cfg, kernel, w, last));
    }
  }

  /**
   A child never gives out what its parent had buffered: all its bytes come from kernel draws made after the
   fork, and all that its parent had by then came from earlier ones.
   */
  lemma ChildStartsAfresh<V(!new)>(cfg: Config<V>, kernel: Entropy<V>, events: seq<Event>, parent: nat, child: nat,
                                   more: seq<Event>)
    requires cfg.Valid()
    requires var w := After(cfg, kernel, events);
             parent in w.processes && child !in w.processes && w.processes[parent].pending == 0
    ensures var w, w' := After(cfg, kernel, events), After(cfg, kernel, events + [Fork(parent, child)] + more);
            && child in w'.processes && parent in w'.processes
            && var c := w'.processes[child];
            && c.out == Stream(cfg, Tape(kernel, c.mine, w'.draws), 0, |c.out|)
            && (forall i | 0 <= i < |c.mine| :: c.mine[i] >= w.draws)
            && (forall i | 0 <= i < |w.processes[parent].mine| :: w.processes[parent].mine[i] < w.draws)
            && w.processes[parent].mine <= w'.processes[parent].mine
  {
    hide AtRest, Stream, Tape, Delivered, Apart, Calls;
    var forked := events + [Fork(parent, child)];
    var w, w1 := After(cfg, kernel, events), After(cfg, kernel, forked);
    assert forked[..|forked| - 1] == events;
    assert w1 == Apply(cfg, kernel, w, Fork(parent, child));
    AfterExtends(cfg, kernel, forked, more);
    ForkSafety(cfg, kernel, forked + more, child);
    assert ProcessInv(cfg, kernel, w.draws, w.processes[parent]);
  }

  /** A fork leaves every process there was, its parent included, exactly as it was. */
  lemma ForkDisturbsNobody<V(!new)>(cfg: Config<V>, kernel: Entropy<V>, w: World<V>, parent: nat, child: nat, pid: nat)
    requires Inv(cfg, kernel, w) && pid in w.processes
    ensures var w' := Apply(cfg, kernel, w, Fork(parent, child));
            pid in w'.processes && w'.processes[pid] == w.processes[pid] && w'.draws == w.draws
  {
    hide ProcessInv, Apart, Newborn;
  }
}
