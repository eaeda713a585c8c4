/** What other processes, and forks, mean for one process: nothing but which of the kernel's draws it gets. */
module ForkHistory {
  import opened Bytes
  import opened Generator
  import opened Pool
  import opened ForkMachine

  /** A process that has the machine to itself. */
  datatype Solo<V> = Solo(s: Session<V>, out: seq<Byte>, pending: nat)

  datatype Act = Ask(n: nat) | Loop

  function Do<V(!new)>(cfg: Config<V>, entropy: Entropy<V>, x: Solo<V>, act: Act): (x': Solo<V>)
    requires WellFormed(cfg, x.s)
    ensures WellFormed(cfg, x'.s)
  {
    match act
    case Ask(n) => if x.pending == 0 then x.(pending := n) else x
    case Loop =>
      if x.pending > 0 then
        var (s, chunk) := Iterate(cfg, entropy, x.s, x.pending);
        Solo(s, x.out + chunk, x.pending - |chunk|)
      else x
  }

  /** Calls and iterations from a zeroed structure on one sequence of draws. */
  function Alone<V(!new)>(cfg: Config<V>, entropy: Entropy<V>, acts: seq<Act>): (x: Solo<V>)
    requires cfg.Valid()
    ensures WellFormed(cfg, x.s)
  {
    if |acts| == 0 then Solo(Start(cfg), [], 0)
    else Do(cfg, entropy, Alone(cfg, entropy, acts[..|acts| - 1]), acts[|acts| - 1])
  }

  /** The part that one process has in an event: none in the calls of others and in forks. */
  function Part(ev: Event, pid: nat): seq<Act> {
    match ev
    case Call(q, n) => if q == pid then [Ask(n)] else []
    case Deliver(q) => if q == pid then [Loop] else []
    case Fork(_, _) => []
  }

  /** The Call and Deliver events of one process, from its creation on; all else in the history is left out. */
  ghost function Own<V(!new)>(cfg: Config<V>, kernel: Entropy<V>, events: seq<Event>, pid: nat): seq<Act>
    requires cfg.Valid()
  {
    if |events| == 0 then []
    else
      var most, last := events[..|events| - 1], events[|events| - 1];
      if pid !in After(cfg, kernel, most).processes then []
      else Own(cfg, kernel, most, pid) + Part(last, pid)
  }

  // Only the draws taken matter

  lemma IterateAgree<V(!new)>(cfg: Config<V>, e: Entropy<V>, e': Entropy<V>, m: nat, s: Session<V>, n: nat)
    requires WellFormed(cfg, s) && Agree(e, e', m) && Iterate(cfg, e, s, n).0.drawn <= m
    ensures Iterate(cfg, e', s, n) == Iterate(cfg, e, s, n)
  {
    hide Fill, Flatten, Seeded;
    if s.pool.remaining == 0 && ReseedDue(s) {
      assert s.drawn < m;
    }
  }

  lemma {:induction false} AloneAgree<V(!new)>(cfg: Config<V>, e: Entropy<V>, e': Entropy<V>, m: nat, acts: seq<Act>)
    requires cfg.Valid() && Agree(e, e', m) && Alone(cfg, e, acts).s.drawn <= m
    ensures Alone(cfg, e', acts) == Alone(cfg, e, acts)
    decreases |acts|
  {
    hide Agree, Iterate;
    if |acts| > 0 {
      var most := acts[..|acts| - 1];
      var x := Alone(cfg, e, most);
      IterateDraws(cfg, e, x.s, x.pending);
      AloneAgree(cfg, e, e', m, most);
      if acts[|acts| - 1].Loop? && x.pending > 0 {
        IterateAgree(cfg, e, e', m, x.s, x.pending);
      }
    }
  }

  lemma AloneMore<V(!new)>(cfg: Config<V>, entropy: Entropy<V>, acts: seq<Act>, act: Act)
    requires cfg.Valid()
    ensures Alone(cfg, entropy, acts + [act]) == Do(cfg, entropy, Alone(cfg, entropy, acts), act)
  {
    hide Do;
    assert (acts + [act])[..|acts|] == acts;
  }

  /** The draws an event leaves a process with agree with those it had, as far as it has used them. */
  lemma TapeAgree<V(!new)>(cfg: Config<V>, kernel: Entropy<V>, w: World<V>, ev: Event, pid: nat)
    requires ForkMachine.Inv(cfg, kernel, w) && pid in w.processes
    ensures var w' := Apply(cfg, kernel, w, ev);
            && pid in w'.processes
            && w'.processes[pid].s.drawn == |w'.processes[pid].mine|
            && Agree(Tape(kernel, w.processes[pid].mine, w.draws), Tape(kernel, w'.processes[pid].mine, w'.draws),
                     w'.processes[pid].s.drawn)
  {
    hide AtRest, Stream, Delivered, Newborn, Apart;
    if ev.Deliver? && ev.pid in w.processes && w.processes[ev.pid].pending > 0 {
      DeliveredDraws(cfg, kernel, w.processes[ev.pid], w.draws);
    }
  }

  function SoloOf<V>(p: Process<V>): Solo<V> {
    Solo(p.s, p.out, p.pending)
  }

  /** What an event does to one process is what the process's own part of it does, on the draws it had. */
  lemma ApplyIsDo<V(!new)>(cfg: Config<V>, kernel: Entropy<V>, w: World<V>, ev: Event, pid: nat)
    requires ForkMachine.Inv(cfg, kernel, w) && pid in w.processes
    ensures var p := w.processes[pid];
            var p' := Apply(cfg, kernel, w, ev).processes[pid];
            var tape := Tape(kernel, p.mine, w.draws);
            && pid in Apply(cfg, kernel, w, ev).processes
            && WellFormed(cfg, p.s)
            && SoloOf(p') == if Part(ev, pid) == [] then SoloOf(p) else Do(cfg, tape, SoloOf(p), Part(ev, pid)[0])
  {
    hide Stream, Iterate, Newborn, Apart, AtRest, Tape;
    if ev.Fork? {
      ForkDisturbsNobody(cfg, kernel, w, ev.parent, ev.child, pid);
    }
  }

  /**
   After any history a process's structure, the bytes it was given and the bytes it waits for are those of its own
   calls and iterations, done alone on the draws it made.
   */
  lemma {:induction false} RunsAsIfAlone<V(!new)>(cfg: Config<V>, kernel: Entropy<V>, events: seq<Event>, pid: nat)
    requires cfg.Valid() && pid in After(cfg, kernel, events).processes
    ensures var w := After(cfg, kernel, events);
            var p := w.processes[pid];
            Alone(cfg, Tape(kernel, p.mine, w.draws), Own(cfg, kernel, events, pid)) == Solo(p.s, p.out, p.pending)
    decreases |events|
  {
    hide ProcessInv, Apart, Do, Tape, Delivered, Agree;
    if |events| > 0 {
      var most, last := events[..|events| - 1], events[|events| - 1];
      var w, w' := After(cfg, kernel, most), After(cfg, kernel, events);
      if pid in w.processes {
        RunsAsIfAlone(cfg, kernel, most, pid);
        OneEventMore(cfg, kernel, w, last, pid, Own(cfg, kernel, most, pid));
      }
    }
  }

  lemma OneEventMore<V(!new)>(cfg: Config<V>, kernel: Entropy<V>, w: World<V>, ev: Event, pid: nat, own: seq<Act>)
    requires ForkMachine.Inv(cfg, kernel, w) && pid in w.processes
    requires Alone(cfg, Tape(kernel, w.processes[pid].mine, w.draws), own) == SoloOf(w.processes[pid])
    ensures pid in Apply(cfg, kernel, w, ev).processes
    ensures var w' := Apply(cfg, kernel, w, ev);
            Alone(cfg, Tape(kernel, w'.processes[pid].mine, w'.draws), own + Part(ev, pid)) == SoloOf(w'.processes[pid])
  {
    hide ProcessInv, Apart, Do, Tape, Delivered, Agree, Apply, Alone;
    var w' := Apply(cfg, kernel, w, ev);
    var tape := Tape(kernel, w.processes[pid].mine, w.draws);
    ApplyIsDo(cfg, kernel, w, ev, pid);
    TapeAgree(cfg, kernel, w, ev, pid);
    var part := Part(ev, pid);
    if part == [] {
      assert own + part == own;
    } else {
      assert part == [part[0]];
      AloneMore(cfg, tape, own, part[0]);
    }
    AloneAgree(cfg, tape, Tape(kernel, w'.processes[pid].mine, w'.draws), w'.processes[pid].s.drawn, own + part);
  }

  /** Between calls, a process has been given just what its calls, made one after another, deliver on its draws. */
  lemma GivenWhatItAsked<V(!new)>(cfg: Config<V>, kernel: Entropy<V>, events: seq<Event>, pid: nat)
    requires cfg.Valid() && pid in After(cfg, kernel, events).processes
    ensures var w := After(cfg, kernel, events);
            var p := w.processes[pid];
            var all := Run(cfg, Tape(kernel, p.mine, w.draws), Start(cfg), Calls(cfg, kernel, events, pid)).1;
            p.out <= all && |all| == |p.out| + p.pending
  {
    hide After, Calls, Run, Stream, Tape, Apart;
    var w := After(cfg, kernel, events);
    var p, calls := w.processes[pid], Calls(cfg, kernel, events, pid);
    var tape := Tape(kernel, p.mine, w.draws);
    ForkSafety(cfg, kernel, events, pid);
    RunDeliversPrefix(cfg, tape, calls);
    StreamSplit(cfg, tape, 0, Total(calls), |p.out|);
  }

  // Progress

  lemma AfterOne<V(!new)>(cfg: Config<V>, kernel: Entropy<V>, events: seq<Event>, ev: Event)
    requires cfg.Valid()
    ensures After(cfg, kernel, events + [ev]) == Apply(cfg, kernel, After(cfg, kernel, events), ev)
  {
    hide Apply;
    assert (events + [ev])[..|events|] == events;
  }

  /** One iteration delivers at least one byte of a call, and at most what it waits for. */
  lemma DeliverMoves<V(!new)>(cfg: Config<V>, kernel: Entropy<V>, w: World<V>, pid: nat)
    requires ForkMachine.Inv(cfg, kernel, w) && pid in w.processes && w.processes[pid].pending > 0
    ensures var p, w' := w.processes[pid], Apply(cfg, kernel, w, Deliver(pid));
            && pid in w'.processes
            && var p' := w'.processes[pid];
            && p'.pending < p.pending && p.out <= p'.out && |p'.out| + p'.pending == |p.out| + p.pending
  {
    hide AtRest, Stream, Iterate, Apart;
  }

  /** From every reachable world a call ends, within as many iterations as it waits for bytes, and gets them all. */
  lemma {:induction false} CallFinishes<V(!new)>(cfg: Config<V>, kernel: Entropy<V>, events: seq<Event>, pid: nat)
    returns (k: nat)
    requires cfg.Valid() && pid in After(cfg, kernel, events).processes
    ensures var w, w' := After(cfg, kernel, events), After(cfg, kernel, events + seq(k, _ => Deliver(pid)));
            && pid in w'.processes
            && var p, p' := w.processes[pid], w'.processes[pid];
            && k <= p.pending && p'.pending == 0
            && p.out <= p'.out && |p'.out| == |p.out| + p.pending
            && p'.out == Stream(cfg, Tape(kernel, p'.mine, w'.draws), 0, |p'.out|)
    decreases After(cfg, kernel, events).processes[pid].pending
  {
    hide After, Stream, Tape, Apart, Apply, Calls;
    var p := After(cfg, kernel, events).processes[pid];
    if p.pending == 0 {
      k := 0;
      assert events + seq(0, _ => Deliver(pid)) == events;
      ForkSafety(cfg, kernel, events, pid);
    } else {
      var more := events + [Deliver(pid)];
      AfterOne(cfg, kernel, events, Deliver(pid));
      DeliverMoves(cfg, kernel, After(cfg, kernel, events), pid);
      var k' := CallFinishes(cfg, kernel, more, pid);
      k := k' + 1;
      assert more + seq(k', _ => Deliver(pid)) == events + seq(k, _ => Deliver(pid));
    }
  }
}
