/**
 Whole runs of the process table of kern/syscalls/process.c: the table stays
 in order, a slot that is lost stays lost, and which slots those are.
 */
module ProcRuns {
  import opened Errno
  import opened ProcTable
  import opened ProcHistory

  // ---------- lost slots ----------

  // Nothing that is doomed changed or was freed.
  ghost predicate Spared(procs: Procs, running: set<int>, forking: map<int, Fork>,
                         procs': Procs, running': set<int>, forking': map<int, Fork>) {
    forall p :: Doomed(procs, running, forking, p) ==>
      Doomed(procs', running', forking', p) && p in procs && p in procs' && procs'[p] == procs[p]
  }

  // It is enough that processes change or go only if they run, are unborn or
  // can be reclaimed, or are collected by a parent that runs.
  lemma SparedBy(procs: Procs, running: set<int>, forking: map<int, Fork>, procs': Procs, running': set<int>,
                 forking': map<int, Fork>)
    requires forall c :: Stuck(procs, running, forking, c) ==>
               && c in procs' && procs'[c] == procs[c] && c !in running'
               && forall q :: q in forking' && !forking'[q].Asked? ==> forking'[q].child != c
    requires forall c :: c in procs && procs[c].exit && procs[c].parent != -1 &&
                         Stuck(procs, running, forking, procs[c].parent) ==>
               c in procs' && procs'[c] == procs[c]
    ensures Spared(procs, running, forking, procs', running', forking')
  {}

  // A new process, in a free or reclaimed slot
  lemma SparedAdd(procs: Procs, running: set<int>, forking: map<int, Fork>, procs': Procs, running': set<int>,
                  forking': map<int, Fork>, who: int)
    requires who !in procs && running' <= running + {who}
    requires forall c :: c in procs && !Reclaimable(procs, c) ==> c in procs' && procs'[c] == procs[c]
    requires forall q :: q in forking' && !forking'[q].Asked? && forking'[q].child != who ==>
               q in forking && forking[q] == forking'[q]
    ensures Spared(procs, running, forking, procs', running', forking')
  {
    SparedBy(procs, running, forking, procs', running', forking');
  }

  // A child under way is adopted, starts or is taken down.
  lemma SparedChild(procs: Procs, running: set<int>, forking: map<int, Fork>, procs': Procs, running': set<int>,
                    forking': map<int, Fork>, p: int)
    requires p in forking && !forking[p].Asked? && running' <= running + {forking[p].child}
    requires forking[p].child in procs && !procs[forking[p].child].exit
    requires forall c :: c in procs && c != forking[p].child ==> c in procs' && procs'[c] == procs[c]
    requires forall q :: q in forking' && !forking'[q].Asked? ==>
               q in forking && !forking[q].Asked? && forking[q].child == forking'[q].child
    ensures Spared(procs, running, forking, procs', running', forking')
  {
    SparedBy(procs, running, forking, procs', running', forking');
  }

  // A running process exits.
  lemma SparedExit(procs: Procs, running: set<int>, forking: map<int, Fork>, p: int, code: int)
    requires p in running && p in procs && !procs[p].exit
    ensures Spared(procs, running, forking, Exited(procs, p, code), running - {p}, forking)
    ensures Spared(procs, running, forking, procs, running - {p}, forking)
  {
    SparedBy(procs, running, forking, Exited(procs, p, code), running - {p}, forking);
    SparedBy(procs, running, forking, procs, running - {p}, forking);
  }

  // A running parent collects its child.
  lemma SparedCollect(procs: Procs, running: set<int>, forking: map<int, Fork>, kid: int)
    requires kid in procs && procs[kid].exit && procs[kid].parent in running
    ensures Spared(procs, running, forking, procs - {kid}, running, forking)
  {
    SparedBy(procs, running, forking, procs - {kid}, running, forking);
  }

  lemma SparedAsk(procs: Procs, running: set<int>, forking: map<int, Fork>, p: int)
    ensures Spared(procs, running, forking, procs, running, forking[p := Asked])
    ensures Spared(procs, running, forking, procs, running, forking - {p})
    ensures Spared(procs, running, forking, procs, running, forking)
  {
    SparedBy(procs, running, forking, procs, running, forking[p := Asked]);
    SparedBy(procs, running, forking, procs, running, forking - {p});
  }

  // ---------- one step ----------

  ghost predicate SparedSince(procs: Procs, running: set<int>, forking: map<int, Fork>, t: Table)
    reads t
  {
    Spared(procs, running, forking, t.procs, t.running, t.forking)
  }

  ghost function SnapOf(t: Table): Snap
    reads t
  {
    Snap(t.procs, t.running, t.waiting, t.forking)
  }

  method Fork(t: Table, e: Event) returns (r: Reply)
    requires t.Valid() && (e.DoForkAsk? || e.DoForkNoMemory? || e.DoForkAdd? || e.DoForkAdopt? || e.DoForkDone?)
    modifies t, t.proctable
    ensures t.Valid() && SparedSince(old(t.procs), old(t.running), old(t.forking), t)
    ensures Forks(old(SnapOf(t)), e, r, SnapOf(t))
  {
    hide Indexed, Parented, Said, Taken, Exited, Scheduled, Ordered, Settled, Spared, Entered, Full;
    ghost var procs, running, forking := t.procs, t.running, t.forking;
    SparedAsk(procs, running, forking, e.p);
    r := Quiet;
    match e {
      case DoForkAsk(p) =>
        if p in t.running && p !in t.waiting && p !in t.forking {
          t.ForkAsk(p);
        }
      case DoForkNoMemory(p) =>
        if p in t.forking && t.forking[p] == Asked {
          var ret := t.ForkNoMemory(p);
          r := Answer(ret);
        }
      case DoForkAdd(p, who) =>
        if p in t.forking && t.forking[p] == Asked && who !in t.procs {
          r := AddChild(t, p, who);
        }
      case DoForkAdopt(p) =>
        if p in t.forking && t.forking[p].Added? {
          UnbornKnown(t.procs, t.running, t.waiting, t.forking, p);
          t.ForkAdopt(p);
          SparedChild(procs, running, forking, t.procs, t.running, t.forking, p);
        }
      case DoForkDone(p, err) =>
        if p in t.forking && t.forking[p].Adopted? {
          var ret := t.ForkDone(p, err);
          if err != OK { ForkHidesErrors(err); }
          r := Answer(ret);
          SparedChild(procs, running, forking, t.procs, t.running, t.forking, p);
        }
    }
  }

  method AddChild(t: Table, p: int, who: nat) returns (r: Reply)
    requires t.Valid() && p in t.forking && t.forking[p] == Asked && who !in t.procs
    modifies t, t.proctable
    ensures t.Valid() && SparedSince(old(t.procs), old(t.running), old(t.forking), t)
    ensures Forks(old(SnapOf(t)), DoForkAdd(p, who), r, SnapOf(t))
  {
    hide Indexed, Parented, Said, Taken, Exited, Scheduled, Ordered, Settled, Spared, Entered, Full;
    ghost var procs, running, forking, table := t.procs, t.running, t.forking, t.proctable[..];
    var ok, ret := t.ForkAdd(p, who);
    SparedAdd(procs, running, forking, t.procs, t.running, t.forking, who);
    FullBy(table, procs);
    if ok {
      EnteredBy(table, procs, who, t.procs[who].pid);
    }
    r := if ok then Quiet else Answer(ret);
  }

  method StartOne(t: Table, who: nat) returns (r: Reply)
    requires t.Valid() && who !in t.procs
    modifies t, t.proctable
    ensures t.Valid() && SparedSince(old(t.procs), old(t.running), old(t.forking), t)
    ensures Makes(old(SnapOf(t)), DoStart(who), r, SnapOf(t))
  {
    hide Indexed, Parented, Said, Taken, Exited, Scheduled, Ordered, Settled, Spared, Entered, Full, Doomed;
    ghost var procs, running, forking, table := t.procs, t.running, t.forking, t.proctable[..];
    var pid := t.Start(who);
    SparedAdd(procs, running, forking, t.procs, t.running, t.forking, who);
    FullBy(table, procs);
    if pid != 0 {
      EnteredBy(table, procs, who, pid);
    }
    r := Answer(pid);
  }

  method WaitFor(t: Table, p: int, pid: int, options: int) returns (r: Reply)
    requires t.Valid() && t.Free(p) && pid != MAX_PROCESS
    modifies t, t.proctable
    ensures t.Valid() && SparedSince(old(t.procs), old(t.running), old(t.forking), t)
    ensures Makes(old(SnapOf(t)), DoWaitpid(p, pid, options), r, SnapOf(t))
  {
    hide Indexed, Parented, Said, Taken, Exited, Scheduled, Ordered, Settled, Spared, Doomed, Makes;
    ghost var s, table := SnapOf(t), t.proctable[..];
    SparedAsk(s.procs, s.running, s.forking, 0);
    var w := t.Waitpid(p, pid, options);
    if w.Got? {
      SparedCollect(s.procs, s.running, s.forking, table[pid]);
    }
    WaitMakes(s, table, p, pid, options, w, SnapOf(t));
    r := Wait(w);
  }

  // Any one step that the processes can take
  method Step(t: Table, e: Event) returns (r: Reply)
    requires t.Valid()
    modifies t, t.proctable
    ensures t.Valid() && SparedSince(old(t.procs), old(t.running), old(t.forking), t)
    ensures Makes(old(SnapOf(t)), e, r, SnapOf(t))
  {
    hide Indexed, Parented, Said, Taken, Exited, Scheduled, Ordered, Settled, Spared, Doomed, Forks, Leaves, Entered,
      Full, WaitsOn;
    ghost var procs, running, forking := t.procs, t.running, t.forking;
    SparedAsk(procs, running, forking, 0);
    r := Quiet;
    match e {
      case DoStart(who) =>
        if who !in t.procs {
          r := StartOne(t, who);
        }
      case DoExit(p, code) =>
        if p in t.running && p !in t.waiting && p !in t.forking {
          RunningKnown(procs, running, t.waiting, forking, p);
          SparedExit(procs, running, forking, p, code);
          LeavesBy(procs, p, code);
          t.Exit(p, code);
        }
      case DoWaitpid(p, pid, options) =>
        if p in t.running && p !in t.waiting && p !in t.forking && pid != MAX_PROCESS {
          r := WaitFor(t, p, pid, options);
        }
      case DoWaitDone(p) =>
        if p in t.waiting {
          WaiterRuns(procs, running, t.waiting, forking, p);
          if t.procs[t.waiting[p]].exit {
            ghost var kid := t.waiting[p];
            var status := t.WaitDone(p);
            r := Wait(Got(status));
            SparedCollect(procs, running, forking, kid);
          }
        }
      case _ => r := Fork(t, e);
    }
  }

  lemma WaiterRuns(procs: Procs, running: set<int>, waiting: map<int, int>, forking: map<int, Fork>, p: int)
    requires Scheduled(procs, running, waiting, forking) && p in waiting
    ensures p in running && p !in forking && waiting[p] in procs && procs[waiting[p]].parent == p
  {}

  // Whatever the processes do, step by step in any order, each step does what
  // it says, the table stays in order, and what is doomed keeps its slot for
  // ever.
  method Run(t: Table, events: seq<Event>) returns (rs: seq<Reply>, ghost trace: seq<Snap>)
    requires t.Valid()
    modifies t, t.proctable
    ensures t.Valid() && SparedSince(old(t.procs), old(t.running), old(t.forking), t)
    ensures IsHistory(trace, events, rs) && trace[0] == old(SnapOf(t)) && trace[|events|] == SnapOf(t)
  {
    hide Indexed, Parented, Said, Scheduled, Ordered, Settled, Doomed, Makes;
    SparedAsk(t.procs, t.running, t.forking, 0);
    rs, trace := [], [SnapOf(t)];
    var i := 0;
    while i < |events|
      invariant t.Valid() && SparedSince(old(t.procs), old(t.running), old(t.forking), t)
      invariant 0 <= i <= |events| && |trace| == i + 1 && trace[0] == old(SnapOf(t)) && trace[i] == SnapOf(t)
      invariant IsHistory(trace, events[..i], rs)
    {
      var r := Step(t, events[i]);
      HistoryGrows(trace, events[..i], rs, events[i], r, SnapOf(t));
      assert events[..i + 1] == events[..i] + [events[i]];
      rs, trace := rs + [r], trace + [SnapOf(t)];
      i := i + 1;
    }
    assert events[..|events|] == events;
  }

  // ---------- slots that are not lost ----------

  // The state in which the steps below leave things alone
  datatype State = State(procs: Procs, running: set<int>, waiting: map<int, int>, forking: map<int, Fork>,
    born: map<int, nat>)

  ghost function StateOf(t: Table): State
    reads t
  {
    State(t.procs, t.running, t.waiting, t.forking, t.born)
  }

  // Process x has a parent older than k, or is an exited child of k that k is
  // not waiting for.
  ghost predicate Held(s: State, x: int, k: int) {
    && x in s.procs && s.procs[x].parent != -1 && s.procs[x].parent in s.born && k in s.born
    && (s.born[s.procs[x].parent] < s.born[k] ||
        (s.procs[x].parent == k && s.procs[x].exit && !(k in s.waiting && s.waiting[k] == x)))
  }

  // A running process older than k
  ghost predicate Elder(s: State, y: int, k: int) {
    y in s.running && y in s.procs && y in s.born && k in s.born && s.born[y] < s.born[k]
  }

  // What is held by k or its elders is still there, the elders do what they
  // did, and k is at most waiting for what it was.
  ghost predicate Undisturbed(s: State, s': State, k: int) {
    && (forall x :: Held(s, x, k) ==>
          && x in s'.procs && s'.procs[x] == s.procs[x]
          && s.procs[x].parent in s'.born && s'.born[s.procs[x].parent] == s.born[s.procs[x].parent])
    && (forall y :: Elder(s, y, k) ==>
          && y in s'.running && y in s'.procs && s'.procs[y] == s.procs[y] && y in s'.born && s'.born[y] == s.born[y]
          && (y in s'.waiting <==> y in s.waiting) && (y in s.waiting ==> s'.waiting[y] == s.waiting[y])
          && (y in s'.forking <==> y in s.forking) && (y in s.forking ==> s'.forking[y] == s.forking[y]))
    && k in s.running && k in s'.running && k in s.procs && k in s'.procs && s'.procs[k] == s.procs[k]
    && k in s.born && k in s'.born && s'.born[k] == s.born[k]
    && (k in s'.waiting ==> k in s.waiting && s'.waiting[k] == s.waiting[k])
  }

  lemma UndisturbedTwice(a: State, b: State, c: State, k: int)
    requires Undisturbed(a, b, k) && Undisturbed(b, c, k)
    ensures Undisturbed(a, c, k)
  {
    forall x | Held(a, x, k)
      ensures Held(b, x, k)
    {}
    forall y | Elder(a, y, k)
      ensures Elder(b, y, k)
    {}
  }

  // What leaves a younger process's elders alone leaves k and its elders alone.
  lemma UndisturbedElder(s: State, s': State, k: int, kid: int)
    requires Undisturbed(s, s', kid) && Elder(s, k, kid)
    ensures Undisturbed(s, s', k)
  {
    forall x | Held(s, x, k)
      ensures Held(s, x, kid)
    {}
    forall y | Elder(s, y, k)
      ensures Elder(s, y, kid)
    {}
  }

  // ---------- the steps that free k ----------

  // What the table's invariant says of a state
  ghost predicate Known(s: State) {
    && -1 !in s.procs && (forall p :: p in s.running ==> p in s.procs && !s.procs[p].exit)
    && (forall p :: p in s.procs ==> p in s.born)
    && (forall p :: p in s.procs && s.procs[p].parent != -1 ==>
          s.procs[p].parent in s.procs && s.born[s.procs[p].parent] < s.born[p])
  }

  lemma ValidKnown(t: Table)
    requires t.Valid()
    ensures Known(StateOf(t)) && -1 !in t.procs
  {}

  // A child takes a slot, or the fork is over.
  lemma UndisturbedAdd(s: State, s': State, k: int, who: int)
    requires Known(s) && k in s.forking && k in s.running && who !in s.procs
    requires s'.running == s.running && s'.waiting == s.waiting
    requires forall c :: c in s.procs && !Reclaimable(s.procs, c) ==> c in s'.procs && s'.procs[c] == s.procs[c]
    requires forall y :: y != k ==>
               (y in s'.forking <==> y in s.forking) && (y in s.forking ==> s'.forking[y] == s.forking[y])
    requires forall z :: z in s.born && z != who ==> z in s'.born && s'.born[z] == s.born[z]
    ensures Undisturbed(s, s', k)
  {}

  // A child that has not exited is adopted or taken down.
  lemma UndisturbedChild(s: State, s': State, k: int, c: int)
    requires Known(s) && k in s.forking && k in s.running && c in s.procs && c !in s.running && !s.procs[c].exit
    requires s.procs[c].parent == -1 || s.procs[c].parent == k
    requires s'.running == s.running && s'.waiting == s.waiting && s'.born == s.born
    requires forall x :: x in s.procs && x != c ==> x in s'.procs && s'.procs[x] == s.procs[x]
    requires forall y :: y != k ==>
               (y in s'.forking <==> y in s.forking) && (y in s.forking ==> s'.forking[y] == s.forking[y])
    ensures Undisturbed(s, s', k)
  {}

  // The child that k waits for exits.
  lemma UndisturbedExit(s: State, s': State, k: int, kid: int, code: int)
    requires Known(s) && k in s.running && kid in s.procs && !s.procs[kid].exit && s.procs[kid].parent == k
    requires s' == s.(procs := Exited(s.procs, kid, code), running := s.running - {kid})
    ensures Undisturbed(s, s', k)
  {}

  // k collects the child that it waits for.
  lemma UndisturbedCollect(s: State, s': State, k: int)
    requires Known(s) && k in s.running && k in s.waiting && s.waiting[k] in s.procs
    requires s.procs[s.waiting[k]].exit && s.procs[s.waiting[k]].parent == k
    requires s' == s.(procs := s.procs - {s.waiting[k]}, waiting := s.waiting - {k})
    ensures Undisturbed(s, s', k)
  {}

  // A number that stands for no structure
  method FreshId(t: Table) returns (who: nat)
    requires t.Valid()
    ensures who !in t.procs
  {
    hide Parented, Scheduled, Said, Ordered, Settled;
    who := 0;
    for i := MIN_PROCESS to MAX_PROCESS
      invariant forall j :: MIN_PROCESS <= j < i ==> t.proctable[j] < who
    {
      if t.proctable[i] >= who {
        who := t.proctable[i] + 1;
      }
    }
    assert forall p :: p in t.procs ==> t.proctable[t.procs[p].pid] == p;
  }

  // The end of a fork under way: its child is taken down.
  method EndFork(t: Table, k: int)
    requires t.Valid() && k in t.forking && !t.forking[k].Asked?
    modifies t, t.proctable
    ensures t.Valid() && k !in t.forking && t.waiting == old(t.waiting) && Undisturbed(old(StateOf(t)), StateOf(t), k)
  {
    hide Indexed, Parented, Said, Scheduled, Ordered, Settled, Undisturbed, Known;
    ghost var s0 := StateOf(t);
    UnbornKnown(t.procs, t.running, t.waiting, t.forking, k);
    ValidKnown(t);
    ghost var c := t.forking[k].child;
    if t.forking[k].Added? {
      t.ForkAdopt(k);
      UndisturbedChild(s0, StateOf(t), k, c);
    } else {
      KnownSelf(s0, k);
    }
    ghost var s1 := StateOf(t);
    UnbornKnown(t.procs, t.running, t.waiting, t.forking, k);
    ValidKnown(t);
    var _ := t.ForkDone(k, ENOMEM);
    UndisturbedChild(s1, StateOf(t), k, c);
    UndisturbedTwice(s0, s1, StateOf(t), k);
  }

  lemma KnownSelf(s: State, k: int)
    requires Known(s) && k in s.running
    ensures Undisturbed(s, s, k)
  {}

  method FinishFork(t: Table, k: int)
    requires t.Valid() && k in t.forking
    modifies t, t.proctable
    ensures t.Valid() && k !in t.forking && t.waiting == old(t.waiting) && Undisturbed(old(StateOf(t)), StateOf(t), k)
  {
    hide Indexed, Parented, Said, Scheduled, Ordered, Settled, Undisturbed, Known, Taken;
    if t.forking[k] != Asked {
      EndFork(t, k);
      return;
    }
    ghost var s0 := StateOf(t);
    AskedRuns(t.procs, t.running, t.waiting, t.forking, k);
    ValidKnown(t);
    var who := FreshId(t);
    var ok, ret := t.ForkAdd(k, who);
    ghost var s1 := StateOf(t);
    UndisturbedAdd(s0, s1, k, who);
    if ok {
      EndFork(t, k);
      UndisturbedTwice(s0, s1, StateOf(t), k);
    }
  }

  // Whatever a running process is blocked in, there are steps after which it
  // is not: its fork is finished, or the child it waits for is freed in the
  // same way, exits and is collected.
  method Unblock(t: Table, k: int)
    requires t.Valid() && k in t.running
    modifies t, t.proctable
    ensures t.Valid() && t.Free(k) && Undisturbed(old(StateOf(t)), StateOf(t), k)
    decreases t.clock - (if k in t.born then t.born[k] else 0)
  {
    hide Indexed, Parented, Said, Scheduled, Ordered, Settled, Undisturbed, Known, Exited, Doomed;
    ghost var s0 := StateOf(t);
    ValidKnown(t);
    if k in t.forking {
      WaitsOrForks(t.procs, t.running, t.waiting, t.forking, k);
      FinishFork(t, k);
      StillRuns(s0, StateOf(t), k);
      return;
    }
    if k !in t.waiting {
      KnownSelf(s0, k);
      return;
    }
    var kid := t.waiting[k];
    WaiterRuns(t.procs, t.running, t.waiting, t.forking, k);
    if !t.procs[kid].exit {
      KidRuns(t, k);
      Unblock(t, kid);
      UndisturbedElder(s0, StateOf(t), k, kid);
      ghost var s1 := StateOf(t);
      ElderStays(s0, s1, k, kid);
      WaiterRuns(t.procs, t.running, t.waiting, t.forking, k);
      ValidKnown(t);
      t.Exit(kid, 0);
      UndisturbedExit(s1, StateOf(t), k, kid, 0);
      UndisturbedTwice(s0, s1, StateOf(t), k);
      ExitsFlag(s1.procs, kid, 0);
    } else {
      KnownSelf(s0, k);
    }
    ghost var s2 := StateOf(t);
    WaiterRuns(t.procs, t.running, t.waiting, t.forking, k);
    ValidKnown(t);
    var _ := t.WaitDone(k);
    UndisturbedCollect(s2, StateOf(t), k);
    UndisturbedTwice(s0, s2, StateOf(t), k);
  }

  lemma WaitsOrForks(procs: Procs, running: set<int>, waiting: map<int, int>, forking: map<int, Fork>, k: int)
    requires Scheduled(procs, running, waiting, forking) && k in forking
    ensures k !in waiting
  {}

  lemma StillRuns(s: State, s': State, k: int)
    requires Undisturbed(s, s', k)
    ensures k in s'.running
  {}

  // The child that k waits for runs if it has not exited, and is younger.
  lemma KidRuns(t: Table, k: int)
    requires t.Valid() && k in t.waiting && t.waiting[k] in t.procs && !t.procs[t.waiting[k]].exit
    ensures t.waiting[k] in t.running && Elder(StateOf(t), k, t.waiting[k])
    ensures t.born[k] < t.born[t.waiting[k]] < t.clock
  {}

  lemma ElderStays(s: State, s': State, k: int, kid: int)
    requires Undisturbed(s, s', kid) && Elder(s, k, kid) && k in s.waiting && k !in s.forking
    ensures k in s'.running && k in s'.waiting && s'.waiting[k] == s.waiting[k] && k !in s'.forking
    ensures kid in s'.procs && s'.procs[kid] == s.procs[kid]
  {}

  lemma ExitsFlag(procs: Procs, e: int, code: int)
    requires e in procs
    ensures e in Exited(procs, e, code) && Exited(procs, e, code)[e].exit &&
            Exited(procs, e, code)[e].parent == procs[e].parent
  {}

  // A process that has exited and whose parent runs can be collected: there
  // are steps after which it is gone. With Exit and Run this says which slots
  // are lost: the slot of a process that leaves can be freed again if and only
  // if it has a parent that is still running.
  method Collect(t: Table, p: int)
    requires t.Valid() && p in t.procs && t.procs[p].exit && t.procs[p].parent in t.running
    modifies t, t.proctable
    ensures t.Valid() && p !in t.procs
  {
    hide Indexed, Parented, Said, Scheduled, Ordered, Settled, Undisturbed, Known, Taken;
    var q := t.procs[p].parent;
    if q in t.waiting && t.waiting[q] == p {
      var _ := t.WaitDone(q);
      return;
    }
    ghost var s0 := StateOf(t);
    HeldByParent(t, p);
    Unblock(t, q);
    HeldStays(s0, StateOf(t), p, q);
    PidOf(t.proctable[..], t.procs, p);
    var r := t.Waitpid(q, t.procs[p].pid, 0);
  }

  lemma HeldByParent(t: Table, p: int)
    requires t.Valid() && p in t.procs && t.procs[p].exit && t.procs[p].parent in t.running
    requires !(t.procs[p].parent in t.waiting && t.waiting[t.procs[p].parent] == p)
    ensures Held(StateOf(t), p, t.procs[p].parent)
  {
    NoNull(t.proctable[..], t.procs);
  }

  lemma HeldStays(s: State, s': State, x: int, k: int)
    requires Undisturbed(s, s', k) && Held(s, x, k)
    ensures x in s'.procs && s'.procs[x] == s.procs[x]
  {}

  // ---------- two lost slots ----------

  // A process started from the menu, alone in the table
  method Alone() returns (t: Table)
    ensures fresh(t) && fresh(t.proctable) && t.Valid() && t.procs.Keys == {0} && t.procs[0].parent == -1
    ensures t.running == {0} && t.waiting == map[] && t.forking == map[]
  {
    hide Indexed, Parented, Said, Scheduled, Ordered, Settled, Taken, Reclaimable;
    t := new Table();
    NoneTaken(t.proctable[..], t.procs, 1);
    assert !Taken(t.procs, t.proctable[1]);
    var pid := t.Start(0);
    ghost var first := t.proctable[1];
    assert pid == 0 ==> first == -1;
  }

  // ... and its child
  method ParentAndChild() returns (t: Table)
    ensures fresh(t) && fresh(t.proctable) && t.Valid() && 0 in t.procs && t.procs[0].parent == -1
    ensures 1 in t.procs && t.procs[1].parent == 0
    ensures t.running == {0, 1} && t.waiting == map[] && t.forking == map[]
  {
    hide Indexed, Parented, Said, Scheduled, Ordered, Settled, Taken, Reclaimable;
    t := Alone();
    ghost var other := if t.procs[0].pid == 1 then 2 else 1;
    t.ForkAsk(0);
    NoneTaken(t.proctable[..], t.procs, other);
    assert !Taken(t.procs, t.proctable[other]);
    RunsOn(t.procs, t.running, t.waiting, t.forking, 0);
    var ok, ret := t.ForkAdd(0, 1);
    ghost var spare := t.proctable[other];
    assert !ok ==> spare == -1;
    t.ForkAdopt(0);
    ret := t.ForkDone(0, OK);
  }

  lemma RunsOn(procs: Procs, running: set<int>, waiting: map<int, int>, forking: map<int, Fork>, p: int)
    requires Scheduled(procs, running, waiting, forking) && p in running
    ensures p in procs && !Reclaimable(procs, p)
  {}

  // The first process forks, leaves without a parent, and then its child
  // exits: whatever happens next, both keep their slots.
  method LostSlots(code: int, events: seq<Event>) returns (t: Table)
    ensures fresh(t) && t.Valid() && 0 in t.procs && 1 in t.procs
    ensures t.proctable[t.procs[0].pid] == 0 && t.proctable[t.procs[1].pid] == 1
  {
    hide Indexed, Parented, Said, Scheduled, Ordered, Settled, Doomed, Exited;
    t := ParentAndChild();
    t.Exit(0, code);
    ExitsFlag(t.procs, 1, code);
    t.Exit(1, code);
    BothDoomed(t.procs, t.running, t.forking);
    var _, _ := Run(t, events);
    PidOf(t.proctable[..], t.procs, 0);
    PidOf(t.proctable[..], t.procs, 1);
  }

  // A slot that holds no process is not taken.
  lemma NoneTaken(table: seq<int>, procs: Procs, i: nat)
    requires Indexed(table, procs) && MIN_PROCESS <= i < MAX_PROCESS && forall p :: p in procs ==> procs[p].pid != i
    ensures !Taken(procs, table[i])
  {}

  lemma BothDoomed(procs: Procs, running: set<int>, forking: map<int, Fork>)
    requires 1 in procs && procs[1].exit && procs[1].parent == 0 && Doomed(procs, running, forking, 1)
    ensures Doomed(procs, running, forking, 0) && Doomed(procs, running, forking, 1)
  {}

  // ---------- a fork in a full table ----------

  // Processes 0 to n - 1 have slots 1 to n, run, and have no parent.
  ghost predicate Filled(table: seq<int>, procs: Procs, running: set<int>, n: nat) {
    && |table| == MAX_PROCESS && (forall p :: p in procs <==> 0 <= p < n) && (forall p :: p in procs ==> p in running)
    && n < MAX_PROCESS && (forall i :: 1 <= i <= n ==> table[i] == i - 1 && procs[table[i]] == Proc(i, 0, false, -1))
    && forall i :: n < i < MAX_PROCESS ==> table[i] == -1
  }

  lemma FilledMore(table: seq<int>, procs: Procs, running: set<int>, n: nat, pid: nat)
    requires Filled(table, procs, running, n) && n + 1 < MAX_PROCESS && pid < MAX_PROCESS
    requires forall i :: MIN_PROCESS <= i < (if pid == 0 then MAX_PROCESS else pid) ==> Taken(procs, table[i])
    requires pid != 0 ==> !Taken(procs, table[pid])
    ensures pid == n + 1 && table[pid] == -1
    ensures Filled(table[pid := n], (procs - {table[pid]})[n := Proc(pid, 0, false, -1)], running + {n}, n + 1)
  {
    assert !Taken(procs, table[n + 1]);
  }

  lemma FilledTaken(table: seq<int>, procs: Procs, running: set<int>)
    requires Filled(table, procs, running, MAX_PROCESS - 1)
    ensures forall i :: MIN_PROCESS <= i < MAX_PROCESS ==> Taken(procs, table[i])
    ensures 0 in running && 0 in procs && table[11] == 10 && 10 in running && 10 in procs && procs[10].parent == -1
  {
    assert table[1] == 0;
  }

  // 99 programs are started from the menu, and the first forks: fork returns
  // 11, the PID of a program that is not its child.
  method ForkInFullTable() returns (t: Table, ret: int)
    ensures fresh(t) && t.Valid() && ret == 11 && 0 in t.procs && 0 in t.running
    ensures var other := t.proctable[11];
            other in t.running && other in t.procs && other != 0 && t.procs[other].parent != 0
  {
    hide Indexed, Parented, Said, Scheduled, Ordered, Settled, Taken, Reclaimable, Filled;
    t := new Table();
    NothingFilled(t.proctable[..], t.procs, t.running);
    var n := 0;
    while n < MAX_PROCESS - 1
      invariant n <= MAX_PROCESS - 1 && fresh(t) && fresh(t.proctable) && t.Valid()
      invariant Filled(t.proctable[..], t.procs, t.running, n) && t.waiting == map[] && t.forking == map[]
    {
      ghost var table, procs, running := t.proctable[..], t.procs, t.running;
      FilledNot(table, procs, running, n);
      var pid := t.Start(n);
      FilledMore(table, procs, running, n, pid);
      n := n + 1;
    }
    FilledTaken(t.proctable[..], t.procs, t.running);
    FilledNot(t.proctable[..], t.procs, t.running, n);
    t.ForkAsk(0);
    var ok;
    ok, ret := t.ForkAdd(0, n);
  }

  lemma NothingFilled(table: seq<int>, procs: Procs, running: set<int>)
    requires Indexed(table, procs) && procs == map[]
    ensures Filled(table, procs, running, 0)
  {}

  lemma FilledNot(table: seq<int>, procs: Procs, running: set<int>, n: nat)
    requires Filled(table, procs, running, n)
    ensures n !in procs
  {}
}
