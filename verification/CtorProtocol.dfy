/**
 The protocol by which threads run constructors (do_init_fini) and one thread runs the
 finalisers (__libc_exit_fini). Every step below is one atomic action of one thread; a step that
 needs init_fini_lock is enabled only while the lock is free or held by that thread.
 */
module CtorProtocol {
  import opened Basics

  type Tid = nat
  type Dso = nat

  /** Where a thread stands in one call. Calls nest: a constructor may load libraries or exit. */
  datatype Frame =
    | Entering(queue: seq<Dso>, i: nat)      // wants the lock: first entry, or inside pthread_cond_wait
    | Scanning(queue: seq<Dso>, i: nat)      // holds the lock, about to look at queue[i]
    | Constructing(queue: seq<Dso>, i: nat)  // runs the constructors of queue[i] without the lock
    | Publishing(queue: seq<Dso>, i: nat)    // has the lock again after those constructors
    | ExitEntering
    | ExitSleeping(j: nat)                   // inside pthread_cond_wait at the j-th finaliser
    | Finalising(j: nat)                     // holds the lock, about to look at the j-th finaliser
  {
    predicate HoldsLock() { Scanning? || Publishing? || Finalising? }

    predicate IsExit() { ExitEntering? || ExitSleeping? || Finalising? }

    /** Is this call between claiming a DSO and publishing it as constructed? */
    predicate Busy() { (Constructing? || Publishing?) && i < |queue| }

    function Target(): Dso
      requires Busy()
    {
      queue[i]
    }
  }

  datatype Event = Claim(t: Tid, p: Dso) | Built(t: Tid, p: Dso) | Shutdown | Fini(p: Dso)

  datatype State = State(
    lock: Option<Tid>,           // the owner of init_fini_lock
    shuttingDown: bool,
    visitor: map<Dso, Tid>,      // ctor_visitor where it is not null
    constructed: set<Dso>,
    finiList: seq<Dso>,          // the chain from fini_head along fini_next
    calls: map<Tid, seq<Frame>>, // innermost call last; a thread without calls is absent
    exiter: Option<Tid>,         // the thread that called __libc_exit_fini
    log: seq<Event>)             // history

  function Calls(s: State, t: Tid): seq<Frame> {
    if t in s.calls then s.calls[t] else []
  }

  /** The calls around the innermost one. */
  function Outer(c: seq<Frame>): seq<Frame> {
    if |c| > 0 then c[..|c| - 1] else []
  }

  predicate Init(s: State) {
    s == State(None, false, map[], {}, [], map[], None, [])
  }

  /** Code outside the linker is running in t: it may call into the linker. */
  predicate RunsOutside(s: State, t: Tid) {
    var c := Calls(s, t);
    |c| == 0 || c[|c| - 1].Constructing?
  }

  predicate VisitedByOther(s: State, t: Tid, p: Dso) {
    p in s.visitor && s.visitor[p] != t
  }

  datatype Action =
    | CallInit(queue: seq<Dso>) | Enter | Wait | Skip | ClaimIt | Relock | Publish | Leave
    | CallExit | ExitEnter | ExitWait | ExitWake | ExitSkip | Finalise

  /** The innermost call of t moves from f to f'; nothing happens to any other call. */
  ghost predicate Moves(s: State, s': State, t: Tid, f: Frame, f': Frame) {
    && |Calls(s, t)| > 0 && Calls(s, t)[|Calls(s, t)| - 1] == f
    && s'.calls == s.calls[t := Outer(Calls(s, t)) + [f']]
  }

  /** Thread t takes action a; withFini are the DSOs that have finalisers. */
  ghost predicate Step(withFini: set<Dso>, s: State, s': State, t: Tid, a: Action) {
    var c := Calls(s, t);
    match a
    case CallInit(queue) =>
      RunsOutside(s, t) && s' == s.(calls := s.calls[t := c + [Entering(queue, 0)]])
    case CallExit =>
      RunsOutside(s, t) && s.exiter == None && s' == s.(exiter := Some(t), calls := s.calls[t := c + [ExitEntering]])
    case Leave =>
      |c| > 0 && c[|c| - 1].Scanning? && c[|c| - 1].i >= |c[|c| - 1].queue|
      && s' == s.(lock := None, calls := s.calls[t := Outer(c)])
    case _ =>
      exists f, f' :: Moves(s, s', t, f, f') && StepAt(withFini, s, s', t, a, f, f')
  }

  ghost predicate StepAt(withFini: set<Dso>, s: State, s': State, t: Tid, a: Action, f: Frame, f': Frame) {
    match f
    case Entering(q, i) =>
      a == Enter && s.lock == None && f' == Scanning(q, i) && s' == s.(calls := s'.calls, lock := Some(t))
    case Scanning(q, i) =>
      i < |q| &&
      if VisitedByOther(s, t, q[i]) || s.shuttingDown then
        a == Wait && f' == Entering(q, i) && s' == s.(calls := s'.calls, lock := None)
      else if q[i] in s.visitor || q[i] in s.constructed then
        a == Skip && f' == Scanning(q, i + 1) && s' == s.(calls := s'.calls)
      else
        a == ClaimIt && f' == Constructing(q, i)
        && s' == s.(calls := s'.calls, lock := None, visitor := s.visitor[q[i] := t],
                    finiList := if q[i] in withFini then [q[i]] + s.finiList else s.finiList,
                    log := s.log + [Claim(t, q[i])])
    case Constructing(q, i) =>
      a == Relock && s.lock == None && f' == Publishing(q, i) && s' == s.(calls := s'.calls, lock := Some(t))
    case Publishing(q, i) =>
      i < |q| && a == Publish && f' == Scanning(q, i + 1)
      && s' == s.(calls := s'.calls, visitor := s.visitor - {q[i]}, constructed := s.constructed + {q[i]},
                  log := s.log + [Built(t, q[i])])
    case ExitEntering =>
      a == ExitEnter && s.lock == None && f' == Finalising(0)
      && s' == s.(calls := s'.calls, lock := Some(t), shuttingDown := true, log := s.log + [Shutdown])
    case ExitSleeping(j) =>
      a == ExitWake && s.lock == None && f' == Finalising(j) && s' == s.(calls := s'.calls, lock := Some(t))
    case Finalising(j) =>
      j < |s.finiList| &&
      if VisitedByOther(s, t, s.finiList[j]) then
        a == ExitWait && f' == ExitSleeping(j) && s' == s.(calls := s'.calls, lock := None)
      else if s.finiList[j] !in s.constructed then
        a == ExitSkip && f' == Finalising(j + 1) && s' == s.(calls := s'.calls)
      else
        a == Finalise && f' == Finalising(j + 1)
        && s' == s.(calls := s'.calls, log := s.log + [Fini(s.finiList[j])])
  }

  ghost predicate Next(withFini: set<Dso>, s: State, s': State) {
    exists t, a :: Step(withFini, s, s', t, a)
  }

  /** A run: any interleaving of any number of threads. */
  ghost predicate IsRun(withFini: set<Dso>, run: seq<State>) {
    && |run| > 0 && Init(run[0])
    && forall k :: 0 <= k < |run| - 1 ==> Next(withFini, run[k], run[k + 1])
  }

  // ---------------------------------------------------------------------------------------------
  // Invariants
  // ---------------------------------------------------------------------------------------------

  /** Only the innermost call of a thread can be inside the linker; it owns the lock when it says so. */
  ghost predicate LockOf(lock: Option<Tid>, t: Tid, c: seq<Frame>) {
    && (forall k :: 0 <= k < |c| - 1 ==> c[k].Constructing?)
    && (lock == Some(t) <==> |c| > 0 && c[|c| - 1].HoldsLock())
    && (forall k :: 0 <= k < |c| && (c[k].Constructing? || c[k].Publishing?) ==> c[k].i < |c[k].queue|)
  }

  /** The DSOs that t is between claiming and publishing: t is their visitor, each in one call. */
  ghost predicate VisitOf(visitor: map<Dso, Tid>, t: Tid, c: seq<Frame>) {
    && (forall k :: 0 <= k < |c| && c[k].Busy() ==> c[k].Target() in visitor && visitor[c[k].Target()] == t)
    && (forall k, m :: 0 <= k < m < |c| && c[k].Busy() && c[m].Busy() ==> c[k].Target() != c[m].Target())
  }

  /** What a call to do_init_fini has passed is constructed, or being constructed by the same thread. */
  ghost predicate ScanOf(visitor: map<Dso, Tid>, constructed: set<Dso>, t: Tid, c: seq<Frame>) {
    forall k, n :: 0 <= k < |c| && !c[k].IsExit() && 0 <= n < c[k].i && n < |c[k].queue|
      ==> Settled(visitor, constructed, t, c[k].queue[n])
  }

  ghost predicate Settled(visitor: map<Dso, Tid>, constructed: set<Dso>, t: Tid, p: Dso) {
    p in constructed || (p in visitor && visitor[p] == t)
  }

  ghost predicate ThreadInv(s: State, t: Tid) {
    && LockOf(s.lock, t, Calls(s, t))
    && VisitOf(s.visitor, t, Calls(s, t))
    && ScanOf(s.visitor, s.constructed, t, Calls(s, t))
  }

  // A thread's own calls: the innermost call is added, replaced or removed.

  lemma LockKept(lock: Option<Tid>, lock': Option<Tid>, t: Tid, base: seq<Frame>, f: Frame, f': Frame)
    requires LockOf(lock, t, base + [f])
    requires lock' == Some(t) <==> f'.HoldsLock()
    requires f'.Constructing? || f'.Publishing? ==> f'.i < |f'.queue|
    ensures LockOf(lock', t, base + [f'])
  {
    var c, c' := base + [f], base + [f'];
    assert forall k :: 0 <= k < |base| ==> c[k] == c'[k] == base[k];
  }

  lemma VisitKept(v: map<Dso, Tid>, v': map<Dso, Tid>, t: Tid, base: seq<Frame>, f: Frame, f': Frame)
    requires VisitOf(v, t, base + [f])
    requires || (v' == v && (f'.Busy() ==> f.Busy() && f.Target() == f'.Target()))
            || (f'.Busy() && f'.Target() !in v && v' == v[f'.Target() := t])
            || (!f'.Busy() && f.Busy() && v' == v - {f.Target()})
    ensures VisitOf(v', t, base + [f'])
  {
    var c, c' := base + [f], base + [f'];
    assert forall k :: 0 <= k < |base| ==> c[k] == c'[k] == base[k];
    assert c[|base|] == f;
  }

  lemma ScanKept(v: map<Dso, Tid>, v': map<Dso, Tid>, b: set<Dso>, b': set<Dso>, t: Tid, base: seq<Frame>, f: Frame, f': Frame)
    requires ScanOf(v, b, t, base + [f])
    requires forall p :: Settled(v, b, t, p) ==> Settled(v', b', t, p)
    requires f'.IsExit() || (!f.IsExit() && f'.queue == f.queue
          && (f'.i <= f.i || (f'.i == f.i + 1 && f.i < |f.queue| && Settled(v', b', t, f.queue[f.i]))))
    ensures ScanOf(v', b', t, base + [f'])
  {
    var c, c' := base + [f], base + [f'];
    assert forall k :: 0 <= k < |base| ==> c[k] == c'[k] == base[k];
    assert c[|base|] == f;
  }

  lemma OwnCallKept(s: State, s': State, t: Tid, f: Frame)
    requires ThreadInv(s, t) && RunsOutside(s, t)
    requires (f.Entering? && f.i == 0) || f == ExitEntering
    requires s' == s.(exiter := s'.exiter, calls := s.calls[t := Calls(s, t) + [f]])
    ensures ThreadInv(s', t)
  {
    assert forall k :: 0 <= k < |Calls(s, t)| ==> Calls(s', t)[k] == Calls(s, t)[k];
  }

  lemma OwnReturnKept(s: State, s': State, t: Tid)
    requires ThreadInv(s, t) && |Calls(s, t)| > 0
    requires s' == s.(lock := None, calls := s.calls[t := Outer(Calls(s, t))])
    ensures ThreadInv(s', t)
  {
    assert forall k :: 0 <= k < |Calls(s', t)| ==> Calls(s', t)[k] == Calls(s, t)[k];
  }

  lemma OwnMoveKept(withFini: set<Dso>, s: State, s': State, t: Tid, a: Action, f: Frame, f': Frame)
    requires Moves(s, s', t, f, f') && StepAt(withFini, s, s', t, a, f, f')
    requires ThreadInv(s, t)
    ensures ThreadInv(s', t)
  {
    var base := Outer(Calls(s, t));
    assert Calls(s, t) == base + [f] && Calls(s', t) == base + [f'];
    assert f.Constructing? ==> f.i < |f.queue|;
    hide LockOf, VisitOf, ScanOf;
    LockKept(s.lock, s'.lock, t, base, f, f');
    VisitKept(s.visitor, s'.visitor, t, base, f, f');
    ScanKept(s.visitor, s'.visitor, s.constructed, s'.constructed, t, base, f, f');
  }

  lemma OwnKept(withFini: set<Dso>, s: State, s': State, t: Tid, a: Action)
    requires Step(withFini, s, s', t, a) && ThreadInv(s, t)
    ensures ThreadInv(s', t)
  {
    hide StepAt, ThreadInv;
    match a
    case CallInit(queue) => OwnCallKept(s, s', t, Entering(queue, 0));
    case CallExit => OwnCallKept(s, s', t, ExitEntering);
    case Leave => OwnReturnKept(s, s', t);
    case _ =>
      var f, f' :| Moves(s, s', t, f, f') && StepAt(withFini, s, s', t, a, f, f');
      OwnMoveKept(withFini, s, s', t, a, f, f');
  }

  /** What a step of t leaves alone for every other thread. */
  ghost predicate Frames(s: State, s': State, t: Tid) {
    && (forall u :: u != t ==> Calls(s', u) == Calls(s, u) && (s'.lock == Some(u) <==> s.lock == Some(u)))
    && (forall p :: p in s.visitor && s.visitor[p] != t ==> p in s'.visitor && s'.visitor[p] == s.visitor[p])
    && s.constructed <= s'.constructed
  }

  lemma MoveFrame(withFini: set<Dso>, s: State, s': State, t: Tid, a: Action, f: Frame, f': Frame)
    requires Moves(s, s', t, f, f') && StepAt(withFini, s, s', t, a, f, f')
    requires f.HoldsLock() ==> s.lock == Some(t)
    requires f.Publishing? && f.Busy() ==> f.Target() in s.visitor && s.visitor[f.Target()] == t
    ensures Frames(s, s', t)
  {
    assert forall u :: u != t ==> Calls(s', u) == Calls(s, u);
    hide Moves;
  }

  lemma StepFrame(withFini: set<Dso>, s: State, s': State, t: Tid, a: Action)
    requires Step(withFini, s, s', t, a) && ThreadInv(s, t)
    ensures Frames(s, s', t)
  {
    hide StepAt, ScanOf;
    if !a.CallInit? && !a.CallExit? && !a.Leave? {
      var f, f' :| Moves(s, s', t, f, f') && StepAt(withFini, s, s', t, a, f, f');
      MoveFrame(withFini, s, s', t, a, f, f');
    }
  }

  lemma OthersKept(s: State, s': State, t: Tid, u: Tid)
    requires Frames(s, s', t) && u != t && ThreadInv(s, u)
    ensures ThreadInv(s', u)
  {
  }

  // ---------------------------------------------------------------------------------------------
  // The history of a run
  // ---------------------------------------------------------------------------------------------

  ghost predicate ClaimAt(log: seq<Event>, i: int, p: Dso) {
    0 <= i < |log| && log[i].Claim? && log[i].p == p
  }

  ghost predicate Claimed(log: seq<Event>, p: Dso) {
    exists i :: ClaimAt(log, i, p)
  }

  ghost predicate WasBuilt(log: seq<Event>, p: Dso) {
    exists i :: 0 <= i < |log| && log[i].Built? && log[i].p == p
  }

  /** Constructors start at most once, and never once the process is shutting down. */
  ghost predicate ClaimsOrderly(log: seq<Event>) {
    && (forall i, j :: 0 <= i < j < |log| && log[i].Claim? && log[j].Claim? ==> log[i].p != log[j].p)
    && (forall i, j :: 0 <= i < j < |log| && log[i].Shutdown? ==> !log[j].Claim?)
  }

  /** Constructors finish at most once, in the thread that started them. */
  ghost predicate BuiltsOrderly(log: seq<Event>) {
    && (forall j :: 0 <= j < |log| && log[j].Built? ==> Claim(log[j].t, log[j].p) in log[..j])
    && (forall i, j :: 0 <= i < j < |log| && log[i].Built? && log[j].Built? ==> log[i].p != log[j].p)
  }

  /** Finalisers run at most once, after shutdown, for constructed DSOs, in reverse order of the claims. */
  ghost predicate FinisOrderly(log: seq<Event>) {
    && (forall j :: 0 <= j < |log| && log[j].Fini? ==> Shutdown in log[..j] && WasBuilt(log[..j], log[j].p))
    && (forall i, j :: 0 <= i < j < |log| && log[i].Fini? && log[j].Fini? ==> log[i].p != log[j].p)
    && (forall i, j, m, n | 0 <= i < j < |log| && log[i].Fini? && log[j].Fini? &&
                            ClaimAt(log, m, log[i].p) && ClaimAt(log, n, log[j].p) :: n < m)
  }

  /** The state agrees with the history. */
  ghost predicate Recorded(s: State) {
    && (forall i :: 0 <= i < |s.log| && s.log[i].Claim? ==> s.log[i].p in s.visitor || s.log[i].p in s.constructed)
    && (forall p :: p in s.visitor ==> Claim(s.visitor[p], p) in s.log)
    && (forall i :: 0 <= i < |s.log| && s.log[i].Built? ==> s.log[i].p in s.constructed)
    && (forall p :: p in s.constructed ==> WasBuilt(s.log, p) && Claimed(s.log, p))
    && s.visitor.Keys !! s.constructed
    && (s.shuttingDown <==> Shutdown in s.log)
  }

  /** The chain of finalisers holds the claimed DSOs that have any, latest claim first. */
  ghost predicate ChainInv(withFini: set<Dso>, s: State) {
    && (forall p :: p in s.finiList <==> p in withFini && Claimed(s.log, p))
    && (forall m, n, i, j | 0 <= m < n < |s.finiList| &&
                            ClaimAt(s.log, i, s.finiList[m]) && ClaimAt(s.log, j, s.finiList[n]) :: j < i)
  }

  /** How far the exiting thread has come along the chain. */
  ghost function Progress(s: State): nat {
    if s.exiter.None? then 0
    else
      var c := Calls(s, s.exiter.value);
      if |c| > 0 && (c[|c| - 1].Finalising? || c[|c| - 1].ExitSleeping?) then c[|c| - 1].j else 0
  }

  ghost predicate ExitInv(s: State) {
    && (forall t: Tid :: |Calls(s, t)| > 0 && Calls(s, t)[|Calls(s, t)| - 1].IsExit() ==> s.exiter == Some(t))
    && (s.exiter.Some? ==>
          var c := Calls(s, s.exiter.value);
          |c| > 0 && c[|c| - 1].IsExit() && (s.shuttingDown <==> !c[|c| - 1].ExitEntering?))
    && (s.shuttingDown ==> s.exiter.Some?)
  }

  /** What the exiting thread has passed is finalised, or is under construction by that very thread. */
  ghost predicate FiniInv(s: State) {
    && Progress(s) <= |s.finiList|
    && (forall i :: 0 <= i < |s.log| && s.log[i].Fini? ==> s.shuttingDown && s.log[i].p in s.finiList[..Progress(s)])
    && (forall m :: 0 <= m < Progress(s) ==>
          if s.finiList[m] in s.constructed then Fini(s.finiList[m]) in s.log
          else s.finiList[m] in s.visitor && Some(s.visitor[s.finiList[m]]) == s.exiter)
  }

  ghost predicate HistoryInv(withFini: set<Dso>, s: State) {
    && ClaimsOrderly(s.log) && BuiltsOrderly(s.log) && FinisOrderly(s.log)
    && Recorded(s) && ChainInv(withFini, s) && ExitInv(s) && FiniInv(s)
  }

  // What one more event does to an orderly history.

  lemma ClaimAppended(log: seq<Event>, t: Tid, p: Dso)
    requires ClaimsOrderly(log) && BuiltsOrderly(log) && FinisOrderly(log)
    requires !Claimed(log, p) && Shutdown !in log
    ensures ClaimsOrderly(log + [Claim(t, p)]) && BuiltsOrderly(log + [Claim(t, p)]) && FinisOrderly(log + [Claim(t, p)])
  {
    var log' := log + [Claim(t, p)];
    assert forall j :: 0 <= j <= |log| ==> log'[..j] == log[..j];
    forall i | 0 <= i < |log| && log[i].Claim? ensures log[i].p != p { assert ClaimAt(log, i, log[i].p); }
  }

  lemma BuiltAppended(log: seq<Event>, t: Tid, p: Dso)
    requires ClaimsOrderly(log) && BuiltsOrderly(log) && FinisOrderly(log)
    requires Claim(t, p) in log && !WasBuilt(log, p)
    ensures ClaimsOrderly(log + [Built(t, p)]) && BuiltsOrderly(log + [Built(t, p)]) && FinisOrderly(log + [Built(t, p)])
  {
    var log' := log + [Built(t, p)];
    assert forall j :: 0 <= j <= |log| ==> log'[..j] == log[..j];
    QuietAppended(log, Built(t, p));
  }

  lemma ShutdownAppended(log: seq<Event>)
    requires ClaimsOrderly(log) && BuiltsOrderly(log) && FinisOrderly(log)
    ensures ClaimsOrderly(log + [Shutdown]) && BuiltsOrderly(log + [Shutdown]) && FinisOrderly(log + [Shutdown])
  {
    var log' := log + [Shutdown];
    assert forall j :: 0 <= j <= |log| ==> log'[..j] == log[..j];
    QuietAppended(log, Shutdown);
  }

  lemma FiniAppended(log: seq<Event>, p: Dso)
    requires ClaimsOrderly(log) && BuiltsOrderly(log) && FinisOrderly(log)
    requires Shutdown in log && WasBuilt(log, p)
    requires forall i :: 0 <= i < |log| && log[i].Fini? ==> log[i].p != p
    requires forall i, m, n | 0 <= i < |log| && log[i].Fini? && ClaimAt(log, m, log[i].p) && ClaimAt(log, n, p) :: n < m
    ensures ClaimsOrderly(log + [Fini(p)]) && BuiltsOrderly(log + [Fini(p)]) && FinisOrderly(log + [Fini(p)])
  {
    var log' := log + [Fini(p)];
    assert forall j :: 0 <= j <= |log| ==> log'[..j] == log[..j];
    QuietAppended(log, Fini(p));
    hide WasBuilt, ClaimAt;
    assert ClaimsOrderly(log') by { hide BuiltsOrderly, FinisOrderly; }
    assert BuiltsOrderly(log') by { hide ClaimsOrderly, FinisOrderly; }
    hide ClaimsOrderly, BuiltsOrderly;
  }

  /** Only claims claim. */
  lemma QuietAppended(log: seq<Event>, e: Event)
    requires !e.Claim?
    ensures forall i, p :: ClaimAt(log + [e], i, p) <==> ClaimAt(log, i, p)
    ensures forall p :: Claimed(log + [e], p) <==> Claimed(log, p)
  {
    forall p | Claimed(log, p) ensures Claimed(log + [e], p) {
      var i :| ClaimAt(log, i, p);
      assert ClaimAt(log + [e], i, p);
    }
    forall p | Claimed(log + [e], p) ensures Claimed(log, p) {
      var i :| ClaimAt(log + [e], i, p);
      assert ClaimAt(log, i, p);
    }
  }

  // What a step does to the history invariants, by kind of step.

  lemma ExitUnmoved(s: State, s': State, t: Tid)
    requires ExitInv(s) && Frames(s, s', t) && s'.exiter == s.exiter && s'.shuttingDown == s.shuttingDown
    requires |Calls(s, t)| == 0 || !Calls(s, t)[|Calls(s, t)| - 1].IsExit()
    requires |Calls(s', t)| == 0 || !Calls(s', t)[|Calls(s', t)| - 1].IsExit()
    ensures ExitInv(s') && Progress(s') == Progress(s) && s.exiter != Some(t)
  {
  }

  /** A longer history still tells what the shorter one told. */
  lemma Remembered(log: seq<Event>, e: Event)
    ensures forall x :: x in log ==> x in log + [e]
    ensures forall x :: x in log + [e] ==> x in log || x == e
    ensures forall p :: WasBuilt(log, p) ==> WasBuilt(log + [e], p)
    ensures forall p :: Claimed(log, p) ==> Claimed(log + [e], p)
    ensures e.Built? ==> WasBuilt(log + [e], e.p)
    ensures e.Claim? ==> Claimed(log + [e], e.p) && forall p :: Claimed(log + [e], p) ==> p == e.p || Claimed(log, p)
  {
    assert forall i :: 0 <= i < |log| ==> (log + [e])[i] == log[i];
    assert (log + [e])[|log|] == e;
    forall p | Claimed(log, p) ensures Claimed(log + [e], p) {
      var i :| ClaimAt(log, i, p);
      assert ClaimAt(log + [e], i, p);
    }
    if e.Claim? {
      assert ClaimAt(log + [e], |log|, e.p);
      forall p | Claimed(log + [e], p) && p != e.p ensures Claimed(log, p) {
        var i :| ClaimAt(log + [e], i, p);
        assert ClaimAt(log, i, p);
      }
    }
  }

  lemma ClaimRecorded(s: State, s': State, t: Tid, p: Dso)
    requires Recorded(s) && p !in s.visitor && p !in s.constructed
    requires s'.visitor == s.visitor[p := t] && s'.constructed == s.constructed && s'.shuttingDown == s.shuttingDown
    requires s'.log == s.log + [Claim(t, p)]
    ensures Recorded(s')
  {
    Remembered(s.log, Claim(t, p));
    hide WasBuilt, Claimed;
  }

  lemma ClaimChained(withFini: set<Dso>, s: State, s': State, t: Tid, p: Dso)
    requires ChainInv(withFini, s) && !Claimed(s.log, p)
    requires s'.finiList == if p in withFini then [p] + s.finiList else s.finiList
    requires s'.log == s.log + [Claim(t, p)]
    ensures ChainInv(withFini, s')
  {
    Remembered(s.log, Claim(t, p));
    assert forall i :: !ClaimAt(s.log, i, p);
    hide Claimed;
    forall i, q ensures ClaimAt(s'.log, i, q) <==> ClaimAt(s.log, i, q) || (i == |s.log| && q == p) { }
    hide ClaimAt;
    if p in withFini {
      assert forall m :: 0 < m < |s'.finiList| ==> s'.finiList[m] == s.finiList[m - 1];
      forall m, n, i, j | 0 <= m < n < |s'.finiList| && ClaimAt(s'.log, i, s'.finiList[m]) && ClaimAt(s'.log, j, s'.finiList[n])
        ensures j < i
      {
        assert s.finiList[n - 1] in s.finiList;
        if m == 0 {
          ClaimInRange(s.log, j, s.finiList[n - 1]);
        } else {
          assert s.finiList[m - 1] in s.finiList;
        }
      }
    }
  }

  lemma ClaimInRange(log: seq<Event>, i: int, p: Dso)
    ensures ClaimAt(log, i, p) ==> 0 <= i < |log|
  {
  }

  lemma UnclaimedIfIdle(s: State, p: Dso)
    requires Recorded(s) && p !in s.visitor && p !in s.constructed
    ensures !Claimed(s.log, p)
  {
  }

  lemma ClaimKeepsHistory(withFini: set<Dso>, s: State, s': State, t: Tid, p: Dso)
    requires HistoryInv(withFini, s) && ExitInv(s') && Progress(s') == Progress(s) == 0
    requires p !in s.visitor && p !in s.constructed && !s.shuttingDown
    requires s'.visitor == s.visitor[p := t] && s'.constructed == s.constructed && !s'.shuttingDown
    requires s'.finiList == if p in withFini then [p] + s.finiList else s.finiList
    requires s'.log == s.log + [Claim(t, p)]
    ensures HistoryInv(withFini, s')
  {
    hide ClaimsOrderly, BuiltsOrderly, FinisOrderly, ExitInv, ChainInv;
    UnclaimedIfIdle(s, p);
    ClaimAppended(s.log, t, p);
    Remembered(s.log, Claim(t, p));
    ClaimRecorded(s, s', t, p);
    ClaimChained(withFini, s, s', t, p);
  }

  lemma PublishRecorded(s: State, s': State, t: Tid, p: Dso)
    requires Recorded(s) && p in s.visitor && s.visitor[p] == t
    requires s'.visitor == s.visitor - {p} && s'.constructed == s.constructed + {p} && s'.shuttingDown == s.shuttingDown
    requires s'.log == s.log + [Built(t, p)]
    ensures Recorded(s') && Claim(t, p) in s.log && !WasBuilt(s.log, p)
  {
    Remembered(s.log, Built(t, p));
    var i :| 0 <= i < |s.log| && s.log[i] == Claim(t, p);
    assert ClaimAt(s.log, i, p);
    assert Claimed(s.log, p);
    hide Claimed;
  }

  lemma PublishFini(s: State, s': State, t: Tid, p: Dso)
    requires FiniInv(s) && p in s.visitor && s.visitor[p] == t && s.exiter != Some(t) && p !in s.constructed
    requires s'.visitor == s.visitor - {p} && s'.constructed == s.constructed + {p} && s'.shuttingDown == s.shuttingDown
    requires s'.finiList == s.finiList && s'.exiter == s.exiter && Progress(s') == Progress(s)
    requires s'.log == s.log + [Built(t, p)]
    ensures FiniInv(s')
  {
    Remembered(s.log, Built(t, p));
    hide Progress, WasBuilt, Claimed;
  }

  lemma QuietChained(withFini: set<Dso>, s: State, s': State, e: Event)
    requires ChainInv(withFini, s) && s'.finiList == s.finiList && !e.Claim? && s'.log == s.log + [e]
    ensures ChainInv(withFini, s')
  {
    QuietAppended(s.log, e);
    hide ClaimAt, Claimed;
  }

  lemma PublishKeepsHistory(withFini: set<Dso>, s: State, s': State, t: Tid, p: Dso)
    requires HistoryInv(withFini, s) && ExitInv(s') && Progress(s') == Progress(s) && s.exiter != Some(t)
    requires p in s.visitor && s.visitor[p] == t
    requires s'.visitor == s.visitor - {p} && s'.constructed == s.constructed + {p}
    requires s'.shuttingDown == s.shuttingDown && s'.finiList == s.finiList && s'.exiter == s.exiter
    requires s'.log == s.log + [Built(t, p)]
    ensures HistoryInv(withFini, s')
  {
    assert p !in s.constructed;
    hide ClaimsOrderly, BuiltsOrderly, FinisOrderly, ExitInv, ChainInv, FiniInv, Recorded, Progress;
    PublishRecorded(s, s', t, p);
    BuiltAppended(s.log, t, p);
    QuietChained(withFini, s, s', Built(t, p));
    PublishFini(s, s', t, p);
  }

  lemma ShutdownKeepsHistory(withFini: set<Dso>, s: State, s': State)
    requires HistoryInv(withFini, s) && ExitInv(s') && !s.shuttingDown && s'.shuttingDown && Progress(s') == 0
    requires s'.visitor == s.visitor && s'.constructed == s.constructed && s'.finiList == s.finiList
    requires s'.log == s.log + [Shutdown]
    ensures HistoryInv(withFini, s')
  {
    ShutdownAppended(s.log);
    QuietChained(withFini, s, s', Shutdown);
    Remembered(s.log, Shutdown);
    hide ClaimsOrderly, BuiltsOrderly, FinisOrderly, ExitInv, ChainInv;
    assert s'.log[|s.log|] == Shutdown;
    assert FiniInv(s') by { hide Recorded; }
  }

  lemma FiniFollows(withFini: set<Dso>, s: State, j: nat)
    requires ChainInv(withFini, s) && FiniInv(s) && Progress(s) == j < |s.finiList|
    ensures forall i :: 0 <= i < |s.log| && s.log[i].Fini? ==> s.log[i].p != s.finiList[j]
    ensures forall i, m, n | 0 <= i < |s.log| && s.log[i].Fini? &&
                             ClaimAt(s.log, m, s.log[i].p) && ClaimAt(s.log, n, s.finiList[j]) :: n < m
  {
    hide Progress;
    assert s.finiList[j] in s.finiList;
    var c :| ClaimAt(s.log, c, s.finiList[j]);
    hide ClaimAt;
    forall i | 0 <= i < |s.log| && s.log[i].Fini?
      ensures s.log[i].p != s.finiList[j]
      ensures forall m, n | ClaimAt(s.log, m, s.log[i].p) && ClaimAt(s.log, n, s.finiList[j]) :: n < m
    {
      var k :| 0 <= k < j && s.finiList[..j][k] == s.log[i].p;
      assert s.finiList[k] == s.log[i].p;
      SameClaim(s.log, c, s.finiList[j], s.finiList[k]);
    }
  }

  lemma SameClaim(log: seq<Event>, c: int, p: Dso, q: Dso)
    ensures ClaimAt(log, c, p) && p == q ==> ClaimAt(log, c, q)
  {
  }

  lemma FiniRecorded(s: State, s': State, p: Dso)
    requires Recorded(s) && s'.log == s.log + [Fini(p)]
    requires s'.visitor == s.visitor && s'.constructed == s.constructed && s'.shuttingDown == s.shuttingDown
    ensures Recorded(s')
  {
    Remembered(s.log, Fini(p));
    hide WasBuilt, Claimed;
  }

  lemma FiniAdvances(s: State, s': State, j: nat)
    requires FiniInv(s) && s.shuttingDown && s'.shuttingDown
    requires Progress(s) == j < |s.finiList| && Progress(s') == j + 1 && s.finiList[j] in s.constructed
    requires s'.visitor == s.visitor && s'.constructed == s.constructed && s'.finiList == s.finiList && s'.exiter == s.exiter
    requires s'.log == s.log + [Fini(s.finiList[j])]
    ensures FiniInv(s')
  {
    hide Progress;
    Remembered(s.log, Fini(s.finiList[j]));
    assert s.finiList[..j + 1] == s.finiList[..j] + [s.finiList[j]];
  }

  lemma FiniKeepsHistory(withFini: set<Dso>, s: State, s': State, j: nat)
    requires HistoryInv(withFini, s) && ExitInv(s') && s.shuttingDown && s'.shuttingDown
    requires Progress(s) == j < |s.finiList| && Progress(s') == j + 1 && s.finiList[j] in s.constructed
    requires s'.visitor == s.visitor && s'.constructed == s.constructed && s'.finiList == s.finiList && s'.exiter == s.exiter
    requires s'.log == s.log + [Fini(s.finiList[j])]
    ensures HistoryInv(withFini, s')
  {
    var p := s.finiList[j];
    assert Shutdown in s.log && WasBuilt(s.log, p);
    hide ClaimsOrderly, BuiltsOrderly, FinisOrderly, ExitInv, ChainInv, Recorded, Progress, FiniInv;
    FiniFollows(withFini, s, j);
    FiniAppended(s.log, p);
    FiniRecorded(s, s', p);
    QuietChained(withFini, s, s', Fini(p));
    FiniAdvances(s, s', j);
  }

  lemma QuietKeepsHistory(withFini: set<Dso>, s: State, s': State)
    requires HistoryInv(withFini, s) && ExitInv(s') && (s'.exiter == s.exiter || Progress(s') == Progress(s) == 0)
    requires s'.visitor == s.visitor && s'.constructed == s.constructed && s'.finiList == s.finiList
    requires s'.shuttingDown == s.shuttingDown && s'.log == s.log
    requires || Progress(s') == Progress(s)
             || (Progress(s') == Progress(s) + 1 <= |s.finiList| && s.finiList[Progress(s)] in s.visitor
                 && Some(s.visitor[s.finiList[Progress(s)]]) == s.exiter)
    ensures HistoryInv(withFini, s')
  {
    hide ClaimsOrderly, BuiltsOrderly, FinisOrderly;
  }

  lemma MoveKeepsHistory(withFini: set<Dso>, s: State, s': State, t: Tid, a: Action, f: Frame, f': Frame)
    requires Moves(s, s', t, f, f') && StepAt(withFini, s, s', t, a, f, f')
    requires HistoryInv(withFini, s) && Frames(s, s', t) && ThreadInv(s, t)
    ensures HistoryInv(withFini, s')
  {
    assert Calls(s', t)[|Calls(s', t)| - 1] == f';
    assert f.Publishing? && f.Busy() ==> f.Target() in s.visitor && s.visitor[f.Target()] == t by {
      var c := Calls(s, t);
      assert c[|c| - 1].Publishing? && c[|c| - 1].Busy() ==> c[|c| - 1].Target() in s.visitor;
    }
    hide ThreadInv, ClaimsOrderly, BuiltsOrderly, FinisOrderly, ChainInv, Recorded, FiniInv;
    if f.IsExit() {
      ExitMoveKeepsHistory(withFini, s, s', t, a, f, f');
    } else {
      ExitUnmoved(s, s', t);
      if a.ClaimIt? {
        ClaimKeepsHistory(withFini, s, s', t, f.queue[f.i]);
      } else if a.Publish? {
        PublishKeepsHistory(withFini, s, s', t, f.Target());
      } else {
        QuietKeepsHistory(withFini, s, s');
      }
    }
  }

  lemma ExitMoves(withFini: set<Dso>, s: State, s': State, t: Tid, a: Action, f: Frame, f': Frame)
    requires f.IsExit() && Moves(s, s', t, f, f') && StepAt(withFini, s, s', t, a, f, f')
    requires ExitInv(s) && Frames(s, s', t)
    ensures ExitInv(s') && s.exiter == s'.exiter == Some(t) && (s.shuttingDown <==> !f.ExitEntering?)
    ensures Progress(s) == (if f.ExitEntering? then 0 else f.j) && Progress(s') == f'.j
  {
    assert Calls(s', t)[|Calls(s', t)| - 1] == f';
  }

  /** A DSO in the chain that is not constructed and not visited by another thread is visited by this one. */
  lemma SkippedIsOwn(withFini: set<Dso>, s: State, t: Tid, j: nat)
    requires ChainInv(withFini, s) && Recorded(s) && j < |s.finiList|
    requires s.finiList[j] !in s.constructed && !VisitedByOther(s, t, s.finiList[j])
    ensures s.finiList[j] in s.visitor && s.visitor[s.finiList[j]] == t
  {
    assert s.finiList[j] in s.finiList;
    var i :| ClaimAt(s.log, i, s.finiList[j]);
  }

  lemma ExitMoveKeepsHistory(withFini: set<Dso>, s: State, s': State, t: Tid, a: Action, f: Frame, f': Frame)
    requires f.IsExit() && Moves(s, s', t, f, f') && StepAt(withFini, s, s', t, a, f, f')
    requires HistoryInv(withFini, s) && Frames(s, s', t)
    ensures HistoryInv(withFini, s')
  {
    ExitMoves(withFini, s, s', t, a, f, f');
    if a.ExitSkip? {
      SkippedIsOwn(withFini, s, t, f.j);
    }
    hide ClaimsOrderly, BuiltsOrderly, FinisOrderly, ExitInv, FiniInv, ChainInv, Recorded, Moves, Progress;
    if a.ExitEnter? {
      ShutdownKeepsHistory(withFini, s, s');
    } else if a.Finalise? {
      FiniKeepsHistory(withFini, s, s', f.j);
    } else {
      QuietKeepsHistory(withFini, s, s');
    }
  }

  /** Calling into the linker and returning from it leave no trace. */
  lemma CallKeepsHistory(withFini: set<Dso>, s: State, s': State, t: Tid, a: Action)
    requires a.CallInit? || a.CallExit? || a.Leave?
    requires Step(withFini, s, s', t, a) && Frames(s, s', t) && ThreadInv(s, t) && HistoryInv(withFini, s)
    ensures HistoryInv(withFini, s')
  {
    hide VisitOf, ScanOf, ClaimsOrderly, BuiltsOrderly, FinisOrderly, ChainInv, Recorded, FiniInv;
    if !a.CallExit? { ExitUnmoved(s, s', t); }
    QuietKeepsHistory(withFini, s, s');
  }

  lemma StepKeepsHistory(withFini: set<Dso>, s: State, s': State, t: Tid, a: Action)
    requires Step(withFini, s, s', t, a) && ThreadInv(s, t) && HistoryInv(withFini, s)
    ensures HistoryInv(withFini, s')
  {
    hide ThreadInv, HistoryInv, StepAt, Moves, Frames;
    StepFrame(withFini, s, s', t, a);
    if a.CallInit? || a.CallExit? || a.Leave? {
      CallKeepsHistory(withFini, s, s', t, a);
    } else {
      var f, f' :| Moves(s, s', t, f, f') && StepAt(withFini, s, s', t, a, f, f');
      MoveKeepsHistory(withFini, s, s', t, a, f, f');
    }
  }

  // ---------------------------------------------------------------------------------------------
  // What holds in every run
  // ---------------------------------------------------------------------------------------------

  ghost predicate Inv(withFini: set<Dso>, s: State) {
    (forall t :: ThreadInv(s, t)) && HistoryInv(withFini, s)
  }

  lemma InitInv(withFini: set<Dso>, s: State)
    requires Init(s)
    ensures Inv(withFini, s)
  {
  }

  lemma NextInv(withFini: set<Dso>, s: State, s': State)
    requires Inv(withFini, s) && Next(withFini, s, s')
    ensures Inv(withFini, s')
  {
    hide ThreadInv, HistoryInv, Step;
    var t, a :| Step(withFini, s, s', t, a);
    StepKeepsHistory(withFini, s, s', t, a);
    OwnKept(withFini, s, s', t, a);
    StepFrame(withFini, s, s', t, a);
    forall u ensures ThreadInv(s', u) {
      if u != t { OthersKept(s, s', t, u); }
    }
  }

  lemma {:induction false} RunInv(withFini: set<Dso>, run: seq<State>, k: nat)
    requires IsRun(withFini, run) && k < |run|
    ensures Inv(withFini, run[k])
  {
    if k == 0 {
      InitInv(withFini, run[0]);
    } else {
      RunInv(withFini, run, k - 1);
      assert Next(withFini, run[k - 1], run[k - 1 + 1]);
      NextInv(withFini, run[k - 1], run[k]);
    }
  }

  /** Every DSO is constructed at most once and by one thread; finalisers mirror the constructors. */
  lemma HistoryIsOrderly(withFini: set<Dso>, run: seq<State>, k: nat)
    requires IsRun(withFini, run) && k < |run|
    ensures ClaimsOrderly(run[k].log) && BuiltsOrderly(run[k].log) && FinisOrderly(run[k].log)
  {
    RunInv(withFini, run, k);
  }

  /** No two calls, of one thread or of two, are inside the constructors of the same DSO. */
  lemma AtMostOneVisitor(withFini: set<Dso>, run: seq<State>, k: nat, t: Tid, m: nat, u: Tid, n: nat)
    requires IsRun(withFini, run) && k < |run|
    requires m < |Calls(run[k], t)| && Calls(run[k], t)[m].Busy()
    requires n < |Calls(run[k], u)| && Calls(run[k], u)[n].Busy()
    requires Calls(run[k], t)[m].Target() == Calls(run[k], u)[n].Target()
    ensures t == u && m == n
  {
    RunInv(withFini, run, k);
    hide HistoryInv, ScanOf;
    assert ThreadInv(run[k], t) && ThreadInv(run[k], u);
  }

  lemma HolderOwns(lock: Option<Tid>, t: Tid, c: seq<Frame>, m: nat)
    requires LockOf(lock, t, c) && m < |c| && c[m].HoldsLock()
    ensures lock == Some(t) && m == |c| - 1
  {
  }

  /** No two threads hold init_fini_lock. */
  lemma MutualExclusion(withFini: set<Dso>, run: seq<State>, k: nat, t: Tid, m: nat, u: Tid, n: nat)
    requires IsRun(withFini, run) && k < |run|
    requires m < |Calls(run[k], t)| && Calls(run[k], t)[m].HoldsLock()
    requires n < |Calls(run[k], u)| && Calls(run[k], u)[n].HoldsLock()
    ensures t == u && m == n
  {
    RunInv(withFini, run, k);
    hide HistoryInv;
    assert ThreadInv(run[k], t) && ThreadInv(run[k], u);
    hide LockOf, VisitOf, ScanOf;
    HolderOwns(run[k].lock, t, Calls(run[k], t), m);
    HolderOwns(run[k].lock, u, Calls(run[k], u), n);
  }

  /** When do_init_fini returns, its whole queue is constructed or under construction by the caller. */
  lemma ReturnFindsAllSettled(withFini: set<Dso>, run: seq<State>, k: nat, t: Tid, p: Dso)
    requires IsRun(withFini, run) && k + 1 < |run| && Step(withFini, run[k], run[k + 1], t, Leave)
    requires p in Calls(run[k], t)[|Calls(run[k], t)| - 1].queue
    ensures Settled(run[k + 1].visitor, run[k + 1].constructed, t, p)
  {
    RunInv(withFini, run, k);
    assert ThreadInv(run[k], t);
  }

  /** When the exiting thread reaches the end of the chain, what it did not finalise it is itself constructing. */
  lemma ExitFinalisesAll(withFini: set<Dso>, run: seq<State>, k: nat, t: Tid, p: Dso)
    requires IsRun(withFini, run) && k < |run| && run[k].exiter == Some(t)
    requires var c := Calls(run[k], t); |c| > 0 && c[|c| - 1].Finalising? && c[|c| - 1].j == |run[k].finiList|
    requires p in withFini && Claimed(run[k].log, p)
    ensures Fini(p) in run[k].log <==> p in run[k].constructed
    ensures p !in run[k].constructed ==> p in run[k].visitor && run[k].visitor[p] == t
  {
    RunInv(withFini, run, k);
    var s := run[k];
    hide ThreadInv, ClaimsOrderly, BuiltsOrderly;
    assert p in s.finiList && Progress(s) == |s.finiList|;
    hide ChainInv, ExitInv, Progress, Claimed, FinisOrderly, Recorded;
    var m :| 0 <= m < |s.finiList| && s.finiList[m] == p;
    if Fini(p) in s.log { FinalisedIsConstructed(s, p); }
  }

  lemma FinalisedIsConstructed(s: State, p: Dso)
    requires FinisOrderly(s.log) && Recorded(s) && Fini(p) in s.log
    ensures p in s.constructed
  {
    var i :| 0 <= i < |s.log| && s.log[i] == Fini(p);
    assert WasBuilt(s.log[..i], p);
    var j :| 0 <= j < |s.log[..i]| && s.log[..i][j].Built? && s.log[..i][j].p == p;
    assert s.log[j].Built? && s.log[j].p == p;
  }
}
