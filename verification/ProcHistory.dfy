/**
 What each step of a process does to the table, and what holds over any run
 of such steps: a status that waitpid returns is what that child said in its
 own exit, and no exit is collected twice.
 */
module ProcHistory {
  import opened Errno
  import opened ProcTable

  datatype Event =
    | DoStart(who: nat)
    | DoForkAsk(p: int)
    | DoForkNoMemory(p: int)
    | DoForkAdd(p: int, who: nat)
    | DoForkAdopt(p: int)
    | DoForkDone(p: int, e: Err)
    | DoExit(p: int, code: int)
    | DoWaitpid(p: int, pid: int, options: int)
    | DoWaitDone(p: int)

  // What a call returns: nothing yet, a number, or what waitpid comes to
  datatype Reply = Quiet | Answer(n: int) | Wait(w: Waited)

  // The processes, and what each is blocked in
  datatype Snap = Snap(procs: Procs, running: set<int>, waiting: map<int, int>, forking: map<int, Fork>)

  // ---------- slots ----------

  // A process that may still be waited for, or runs, has the PID.
  ghost predicate PidTaken(procs: Procs, i: int) {
    exists q :: q in procs && procs[q].pid == i && !(procs[q].exit && procs[q].parent == -1)
  }

  ghost predicate Full(procs: Procs) {
    forall i :: 1 <= i < 100 ==> PidTaken(procs, i)
  }

  // Process who gets the lowest PID there is, in place of whatever had it.
  ghost predicate Entered(procs: Procs, who: int, procs': Procs) {
    && who in procs' && 1 <= procs'[who].pid < 100 && !PidTaken(procs, procs'[who].pid)
    && (forall i :: 1 <= i < procs'[who].pid ==> PidTaken(procs, i))
    && procs'[who] == Proc(procs'[who].pid, 0, false, -1)
    && (forall q :: q in procs' && q != who ==> q in procs && procs'[q] == procs[q])
    && (forall q :: q in procs && q !in procs' ==> procs[q].pid == procs'[who].pid)
  }

  lemma SlotTaken(table: seq<int>, procs: Procs, i: int)
    requires Indexed(table, procs) && MIN_PROCESS <= i < MAX_PROCESS
    ensures Taken(procs, table[i]) <==> PidTaken(procs, i)
  {}

  lemma EnteredBy(table: seq<int>, procs: Procs, who: int, pid: nat)
    requires Indexed(table, procs) && who !in procs && MIN_PROCESS <= pid < MAX_PROCESS && !Taken(procs, table[pid])
    requires forall i :: MIN_PROCESS <= i < pid ==> Taken(procs, table[i])
    ensures Entered(procs, who, (procs - {table[pid]})[who := Proc(pid, 0, false, -1)])
  {
    hide PidTaken, Taken;
    SlotTaken(table, procs, pid);
    forall i | MIN_PROCESS <= i < pid
      ensures PidTaken(procs, i)
    {
      SlotTaken(table, procs, i);
    }
  }

  lemma FullBy(table: seq<int>, procs: Procs)
    requires Indexed(table, procs)
    ensures (forall i :: MIN_PROCESS <= i < MAX_PROCESS ==> Taken(procs, table[i])) <==> Full(procs)
  {
    hide PidTaken, Taken;
    forall i | MIN_PROCESS <= i < MAX_PROCESS
      ensures Taken(procs, table[i]) <==> PidTaken(procs, i)
    {
      SlotTaken(table, procs, i);
    }
  }

  // ---------- one step ----------

  predicate FreeIn(s: Snap, p: int) {
    p in s.running && p !in s.waiting && p !in s.forking
  }

  // p has exited with code, and its children have no parent any more.
  ghost predicate Leaves(procs: Procs, p: int, code: int, procs': Procs)
    requires p in procs
  {
    && procs'.Keys == procs.Keys && procs'[p] == procs[p].(code := code, exit := true)
    && forall q :: q in procs && q != p ==>
         procs'[q] == if procs[q].parent == p then procs[q].(parent := -1) else procs[q]
  }

  // waitpid of p for kid
  ghost predicate WaitsOn(s: Snap, p: int, kid: int, r: Reply, s': Snap)
    requires kid in s.procs
  {
    if s.procs[kid].parent != p then r == Wait(Failed(ENOMEM)) && s' == s
    else if s.procs[kid].exit then r == Wait(Got(s.procs[kid].code)) && s' == s.(procs := s.procs - {kid})
    else r == Wait(Blocks) && s' == s.(waiting := s.waiting[p := kid])
  }

  // The events of a fork; each but the first acts on one that is that far.
  ghost predicate Forks(s: Snap, e: Event, r: Reply, s': Snap)
    requires e.DoForkAsk? || e.DoForkNoMemory? || e.DoForkAdd? || e.DoForkAdopt? || e.DoForkDone?
  {
    match e
    case DoForkAsk(p) =>
      r == Quiet && s' == if FreeIn(s, p) then s.(forking := s.forking[p := Asked]) else s
    case DoForkNoMemory(p) =>
      if p in s.forking && s.forking[p] == Asked then r == Answer(4) && s' == s.(forking := s.forking - {p})
      else r == Quiet && s' == s
    case DoForkAdd(p, who) =>
      if !(p in s.forking && s.forking[p] == Asked) || who in s.procs then r == Quiet && s' == s
      else if Full(s.procs) then r == Answer(11) && s' == s.(forking := s.forking - {p})
      else
        && r == Quiet && Entered(s.procs, who, s'.procs)
        && s' == s.(procs := s'.procs, forking := s.forking[p := Added(who)])
    case DoForkAdopt(p) =>
      if p in s.forking && s.forking[p].Added? then
        var c := s.forking[p].child;
        && r == Quiet && c in s.procs
        && s' == s.(procs := s.procs[c := s.procs[c].(parent := p)], forking := s.forking[p := Adopted(c)])
      else r == Quiet && s' == s
    case DoForkDone(p, err) =>
      if p in s.forking && s.forking[p].Adopted? then
        var c := s.forking[p].child;
        && c in s.procs && s.procs[c].parent == p && !s.procs[c].exit
        && if err == OK
           then r == Answer(s.procs[c].pid) && s' == s.(running := s.running + {c}, forking := s.forking - {p})
           else r == Answer(Number(err)) && s' == s.(procs := s.procs - {c}, forking := s.forking - {p})
      else r == Quiet && s' == s
  }

  // What a step does and returns. A process that is not there or is blocked
  // takes none, and a structure is new.
  ghost predicate Makes(s: Snap, e: Event, r: Reply, s': Snap) {
    match e
    case DoStart(who) =>
      if who in s.procs then r == Quiet && s' == s
      else if Full(s.procs) then r == Answer(0) && s' == s
      else
        && Entered(s.procs, who, s'.procs) && r == Answer(s'.procs[who].pid)
        && s' == s.(procs := s'.procs, running := s.running + {who})
    case DoExit(p, code) =>
      && r == Quiet
      && if !FreeIn(s, p) then s' == s
         else
           && p in s.procs && s' == s.(procs := s'.procs, running := s.running - {p})
           && if s.procs[p].parent == -1 then s'.procs == s.procs else Leaves(s.procs, p, code, s'.procs)
    case DoWaitpid(p, pid, options) =>
      if !FreeIn(s, p) || pid == 100 then r == Quiet && s' == s
      else if options != 0 then r == Wait(Failed(EINVAL)) && s' == s
      else
        && ((forall q :: q in s.procs ==> s.procs[q].pid != pid) ==> r == Wait(Failed(EAGAIN)) && s' == s)
        && forall q :: q in s.procs && s.procs[q].pid == pid ==> WaitsOn(s, p, q, r, s')
    case DoWaitDone(p) =>
      if p in s.waiting && s.waiting[p] in s.procs && s.procs[s.waiting[p]].exit then
        var kid := s.waiting[p];
        && s.procs[kid].parent == p && r == Wait(Got(s.procs[kid].code))
        && s' == s.(procs := s.procs - {kid}, waiting := s.waiting - {p})
      else r == Quiet && s' == s
    case _ => Forks(s, e, r, s')
  }

  // ---------- from the table's own terms ----------

  lemma LeavesBy(procs: Procs, p: int, code: int)
    requires p in procs
    ensures Leaves(procs, p, code, Exited(procs, p, code))
  {}

  // What waitpid answers at once
  lemma WaitMakes(s: Snap, table: seq<int>, p: int, pid: int, options: int, w: Waited, s': Snap)
    requires Indexed(table, s.procs) && FreeIn(s, p) && pid != 100
    requires w.Failed? ==> s' == s && w.err == WaitError(s.procs, table, p, pid, options) != OK
    requires !w.Failed? ==> WaitError(s.procs, table, p, pid, options) == OK
    requires !w.Failed? ==> MIN_PROCESS <= pid < MAX_PROCESS && table[pid] in s.procs
    requires !w.Failed? ==> (w.Got? <==> s.procs[table[pid]].exit)
    requires w.Blocks? ==> s' == s.(waiting := s.waiting[p := table[pid]])
    requires w.Got? ==> w.status == s.procs[table[pid]].code && s' == s.(procs := s.procs - {table[pid]})
    ensures Makes(s, DoWaitpid(p, pid, options), Wait(w), s')
  {}

  // ---------- runs ----------

  // trace[k] is the state before event k, and rs[k] what the event returned.
  ghost predicate IsHistory(trace: seq<Snap>, events: seq<Event>, rs: seq<Reply>) {
    && |trace| == |events| + 1 && |rs| == |events|
    && forall k :: 0 <= k < |events| ==> MakesAt(trace, events, rs, k)
  }

  ghost predicate MakesAt(trace: seq<Snap>, events: seq<Event>, rs: seq<Reply>, k: nat)
    requires k < |events| && k < |rs| && k + 1 < |trace|
  {
    Makes(trace[k], events[k], rs[k], trace[k + 1])
  }

  lemma HistoryGrows(trace: seq<Snap>, events: seq<Event>, rs: seq<Reply>, e: Event, r: Reply, s': Snap)
    requires IsHistory(trace, events, rs) && Makes(trace[|events|], e, r, s')
    ensures IsHistory(trace + [s'], events + [e], rs + [r])
  {
    hide Makes;
    var trace', events', rs' := trace + [s'], events + [e], rs + [r];
    forall k | 0 <= k < |events'|
      ensures MakesAt(trace', events', rs', k)
    {
      if k < |events| {
        assert MakesAt(trace, events, rs, k);
      }
    }
  }

  // kid has exited with code and is still in the table.
  predicate Left(s: Snap, kid: int, code: int) {
    kid in s.procs && s.procs[kid].exit && s.procs[kid].code == code
  }

  // Event j is kid's own exit with code.
  ghost predicate ExitsAt(trace: seq<Snap>, events: seq<Event>, j: nat, kid: int, code: int)
    requires j < |trace|
  {
    j < |events| && events[j] == DoExit(kid, code) && FreeIn(trace[j], kid)
  }

  // Event k collects kid with the status.
  ghost predicate CollectsAt(trace: seq<Snap>, events: seq<Event>, rs: seq<Reply>, k: nat, kid: int, status: int)
    requires k < |events| && k < |trace| && k < |rs|
  {
    && rs[k] == Wait(Got(status)) && kid in trace[k].procs
    && match events[k]
       case DoWaitpid(_, pid, _) => trace[k].procs[kid].pid == pid
       case DoWaitDone(p) => p in trace[k].waiting && trace[k].waiting[p] == kid
       case _ => false
  }

  // A process gets its exit flag and code by its own exit only.
  lemma LeftBefore(s: Snap, e: Event, r: Reply, s': Snap, kid: int, code: int)
    requires Makes(s, e, r, s') && Left(s', kid, code)
    ensures Left(s, kid, code) || (e == DoExit(kid, code) && FreeIn(s, kid))
  {
    hide PidTaken, Full;
  }

  // So an exited process was so already at state i, or exited since.
  lemma {:induction false} LeftSince(trace: seq<Snap>, events: seq<Event>, rs: seq<Reply>, i: nat, k: nat, kid: int,
                                     code: int)
    requires IsHistory(trace, events, rs) && i <= k < |trace| && Left(trace[k], kid, code)
    ensures Left(trace[i], kid, code) || exists j :: i <= j < k && ExitsAt(trace, events, j, kid, code)
    decreases k
  {
    hide Makes;
    if i < k {
      assert MakesAt(trace, events, rs, k - 1);
      LeftBefore(trace[k - 1], events[k - 1], rs[k - 1], trace[k], kid, code);
      if Left(trace[k - 1], kid, code) {
        LeftSince(trace, events, rs, i, k - 1, kid, code);
      } else {
        assert ExitsAt(trace, events, k - 1, kid, code);
      }
    }
  }

  lemma Collecting(s: Snap, e: Event, r: Reply, s': Snap, kid: int, status: int)
    requires Makes(s, e, r, s') && r == Wait(Got(status)) && kid in s.procs
    requires (e.DoWaitpid? && s.procs[kid].pid == e.pid) || (e.DoWaitDone? && e.p in s.waiting && s.waiting[e.p] == kid)
    ensures Left(s, kid, status) && s.procs[kid].parent == e.p && kid !in s'.procs
  {
    hide PidTaken, Full;
  }

  // In any run from a table where kid is not, whatever waitpid returns for kid
  // is the code of kid's own exit, and it is returned to kid's parent.
  lemma StatusIsOwn(trace: seq<Snap>, events: seq<Event>, rs: seq<Reply>, i: nat, k: nat, kid: int, status: int)
    requires IsHistory(trace, events, rs) && i <= k < |events| && kid !in trace[i].procs
    requires CollectsAt(trace, events, rs, k, kid, status)
    ensures (events[k].DoWaitpid? || events[k].DoWaitDone?) && trace[k].procs[kid].parent == events[k].p
    ensures exists j :: i <= j < k && ExitsAt(trace, events, j, kid, status)
  {
    hide Makes;
    assert MakesAt(trace, events, rs, k);
    Collecting(trace[k], events[k], rs[k], trace[k + 1], kid, status);
    LeftSince(trace, events, rs, i, k, kid, status);
  }

  // No exit is collected twice: between two collections of kid there is
  // another exit of a process of that name, which then is a new one.
  lemma CollectedOnce(trace: seq<Snap>, events: seq<Event>, rs: seq<Reply>, k: nat, m: nat, kid: int, status: int,
                      status': int)
    requires IsHistory(trace, events, rs) && k < m < |events|
    requires CollectsAt(trace, events, rs, k, kid, status) && CollectsAt(trace, events, rs, m, kid, status')
    ensures kid !in trace[k + 1].procs
    ensures exists j :: k < j < m && ExitsAt(trace, events, j, kid, status')
  {
    hide Makes, Left, ExitsAt;
    assert MakesAt(trace, events, rs, k);
    Collecting(trace[k], events[k], rs[k], trace[k + 1], kid, status);
    StatusIsOwn(trace, events, rs, k + 1, m, kid, status');
  }

  // Someone who waits goes on waiting until the child it waits for has exited,
  // and returns only to collect it.
  lemma WaitsUntilExit(s: Snap, e: Event, r: Reply, s': Snap, p: int)
    requires Makes(s, e, r, s') && p in s.waiting
    ensures (p in s'.waiting && s'.waiting[p] == s.waiting[p]) ||
            (p !in s'.waiting && e == DoWaitDone(p) && s.waiting[p] in s.procs && s.procs[s.waiting[p]].exit &&
             r == Wait(Got(s.procs[s.waiting[p]].code)))
  {
    hide PidTaken, Full, Entered, Leaves;
  }
}
