/**
 That the protocol of constructors and finalisers gets on: what a thread can always do by its own steps, whatever the
 other threads have done so far and while they do nothing.
 */
module CtorProgress {
  import opened Basics
  import opened CtorProtocol

  /** Steps of one thread only. */
  ghost predicate Alone(withFini: set<Dso>, t: Tid, run: seq<State>) {
    |run| > 0 && forall k :: 0 <= k < |run| - 1 ==> OneStep(withFini, t, run[k], run[k + 1])
  }

  ghost predicate OneStep(withFini: set<Dso>, t: Tid, s: State, s': State) {
    exists a :: Step(withFini, s, s', t, a)
  }

  /** Thread t can go from s to s' by steps of its own. */
  ghost predicate Gets(withFini: set<Dso>, t: Tid, s: State, s': State) {
    exists run :: Alone(withFini, t, run) && run[0] == s && run[|run| - 1] == s'
  }

  lemma GetsNowhere(withFini: set<Dso>, t: Tid, s: State)
    ensures Gets(withFini, t, s, s)
  {
    var run := [s];
    assert Alone(withFini, t, run) && run[0] == s && run[|run| - 1] == s;
  }

  lemma GetsOn(withFini: set<Dso>, t: Tid, s: State, a: Action, s1: State, s2: State)
    requires Step(withFini, s, s1, t, a) && Gets(withFini, t, s1, s2)
    ensures Gets(withFini, t, s, s2)
  {
    hide Step;
    assert OneStep(withFini, t, s, s1);
    var run :| Alone(withFini, t, run) && run[0] == s1 && run[|run| - 1] == s2;
    var longer := [s] + run;
    forall k | 0 <= k < |longer| - 1 ensures OneStep(withFini, t, longer[k], longer[k + 1]) {
      if k > 0 {
        assert OneStep(withFini, t, run[k - 1], run[k]);
      }
    }
    assert Alone(withFini, t, longer) && longer[0] == s && longer[|longer| - 1] == s2;
  }

  /** What a thread can get to from a state of a run is a state of a run. */
  lemma GetsIsRun(withFini: set<Dso>, t: Tid, run: seq<State>, s': State)
    requires IsRun(withFini, run) && Gets(withFini, t, run[|run| - 1], s')
    ensures exists run' :: IsRun(withFini, run') && run <= run' && run'[|run'| - 1] == s'
  {
    hide Step, Init;
    var more :| Alone(withFini, t, more) && more[0] == run[|run| - 1] && more[|more| - 1] == s';
    var run' := run + more[1..];
    forall k | 0 <= k < |run'| - 1 ensures Next(withFini, run'[k], run'[k + 1]) {
      if k < |run| - 1 {
        assert Next(withFini, run[k], run[k + 1]);
      } else {
        var m := k - (|run| - 1);
        assert run'[k] == more[m] && run'[k + 1] == more[m + 1];
        assert OneStep(withFini, t, more[m], more[m + 1]);
        var a :| Step(withFini, more[m], more[m + 1], t, a);
      }
    }
    assert IsRun(withFini, run') && run <= run' && run'[|run'| - 1] == s';
  }

  /** The innermost call of t. */
  ghost predicate In(s: State, t: Tid, f: Frame) {
    |Calls(s, t)| > 0 && Calls(s, t)[|Calls(s, t)| - 1] == f
  }

  /** The innermost call of t is f' instead. */
  function Into(s: State, t: Tid, f': Frame): State {
    s.(calls := s.calls[t := Outer(Calls(s, t)) + [f']])
  }

  lemma IntoIs(s: State, t: Tid, f': Frame)
    ensures In(Into(s, t, f'), t, f') && Outer(Calls(Into(s, t, f'), t)) == Outer(Calls(s, t))
    ensures forall f'' :: Into(Into(s, t, f'), t, f'') == Into(s, t, f'')
  {
    forall f'' ensures Into(Into(s, t, f'), t, f'') == Into(s, t, f'') {
      assert Calls(Into(s, t, f'), t) == Outer(Calls(s, t)) + [f'];
      assert Into(Into(s, t, f'), t, f'').calls == Into(s, t, f'').calls;
    }
  }

  lemma TakesStep(withFini: set<Dso>, s: State, s': State, t: Tid, a: Action, f: Frame, f': Frame)
    requires In(s, t, f) && s'.calls == Into(s, t, f').calls && StepAt(withFini, s, s', t, a, f, f')
    requires !a.CallInit? && !a.CallExit? && !a.Leave?
    ensures Step(withFini, s, s', t, a)
  {
    hide StepAt;
    assert Moves(s, s', t, f, f');
  }

  // ---------------------------------------------------------------------------------------------
  // Constructors
  // ---------------------------------------------------------------------------------------------

  /** Nobody else is constructing what is left of the queue. */
  ghost predicate Undisputed(s: State, t: Tid, q: seq<Dso>, i: nat) {
    forall n :: i <= n < |q| ==> q[n] !in s.visitor || s.visitor[q[n]] == t
  }

  /**
   How a call ends that came to the i-th DSO of its queue in s: it has returned without the lock, nobody's visit has
   changed, what is left of the queue is constructed or visited by t, and what nobody had claimed was claimed by t.
   */
  ghost predicate Returned(s: State, s': State, t: Tid, q: seq<Dso>, i: nat) {
    && s'.lock == None && s'.visitor == s.visitor && s.constructed <= s'.constructed && s.log <= s'.log
    && s'.calls == s.calls[t := Outer(Calls(s, t))]
    && (forall n :: i <= n < |q| ==> q[n] in s'.constructed || (q[n] in s'.visitor && s'.visitor[q[n]] == t))
    && (forall n :: i <= n < |q| && q[n] !in s.constructed && q[n] !in s.visitor ==>
          q[n] in s'.constructed && Claim(t, q[n]) in s'.log && Built(t, q[n]) in s'.log)
    && ((forall n :: i <= n < |q| ==> q[n] in s.constructed || q[n] in s.visitor) ==>
          s'.constructed == s.constructed && s'.log == s.log && s'.finiList == s.finiList)
  }

  lemma {:induction false} ScansToEnd(withFini: set<Dso>, s: State, t: Tid, q: seq<Dso>, i: nat) returns (s': State)
    requires In(s, t, Scanning(q, i)) && s.lock == Some(t) && !s.shuttingDown && Undisputed(s, t, q, i)
    ensures Gets(withFini, t, s, s') && Returned(s, s', t, q, i)
    decreases |q| - i
  {
    if i >= |q| {
      s' := s.(lock := None, calls := s.calls[t := Outer(Calls(s, t))]);
      assert Step(withFini, s, s', t, Leave);
      GetsNowhere(withFini, t, s');
      GetsOn(withFini, t, s, Leave, s', s');
    } else if q[i] in s.visitor || q[i] in s.constructed {
      var s1 := Into(s, t, Scanning(q, i + 1));
      IntoIs(s, t, Scanning(q, i + 1));
      TakesStep(withFini, s, s1, t, Skip, Scanning(q, i), Scanning(q, i + 1));
      hide Step, Gets;
      s' := ScansToEnd(withFini, s1, t, q, i + 1);
      GetsOn(withFini, t, s, Skip, s1, s');
      SkipReturned(s, s', t, q, i);
    } else {
      var s3 := Constructs(withFini, s, t, q, i);
      hide Step, Gets;
      s' := ScansToEnd(withFini, s3, t, q, i + 1);
      GetsFurther(withFini, t, s, s3, s');
      BuiltReturned(s, s3, s', t, q, i);
    }
  }

  lemma GetsFurther(withFini: set<Dso>, t: Tid, s: State, s1: State, s2: State)
    requires Gets(withFini, t, s, s1) && Gets(withFini, t, s1, s2)
    ensures Gets(withFini, t, s, s2)
  {
    var a :| Alone(withFini, t, a) && a[0] == s && a[|a| - 1] == s1;
    var b :| Alone(withFini, t, b) && b[0] == s1 && b[|b| - 1] == s2;
    var run := a + b[1..];
    forall k | 0 <= k < |run| - 1 ensures OneStep(withFini, t, run[k], run[k + 1]) {
      if k < |a| - 1 {
        assert OneStep(withFini, t, a[k], a[k + 1]);
      } else {
        var m := k - (|a| - 1);
        assert run[k] == b[m] && run[k + 1] == b[m + 1];
        assert OneStep(withFini, t, b[m], b[m + 1]);
      }
    }
    assert Alone(withFini, t, run) && run[0] == s && run[|run| - 1] == s2;
  }

  lemma SkipReturned(s: State, s': State, t: Tid, q: seq<Dso>, i: nat)
    requires i < |q| && (q[i] in s.visitor || q[i] in s.constructed) && Undisputed(s, t, q, i)
    requires Returned(Into(s, t, Scanning(q, i + 1)), s', t, q, i + 1)
    ensures Returned(s, s', t, q, i)
  {
    SameReturn(s, Into(s, t, Scanning(q, i + 1)), t, Scanning(q, i + 1));
    assert Undisputed(s, t, q, i + 1);
    hide Calls, Outer;
  }

  /** A call that has moved on returns to the same place. */
  lemma SameReturn(s: State, s1: State, t: Tid, f: Frame)
    requires s1.calls == Into(s, t, f).calls
    ensures s1.calls[t := Outer(Calls(s1, t))] == s.calls[t := Outer(Calls(s, t))]
  {
    assert Calls(s1, t) == Outer(Calls(s, t)) + [f];
  }

  lemma Prefixed(log: seq<Event>, e: Event, e': Event, more: seq<Event>)
    requires log + [e, e'] <= more
    ensures log <= more && e in more && e' in more
  {
    assert more[|log|] == e && more[|log| + 1] == e';
  }

  /** t has claimed the i-th DSO of its queue and given the lock up. */
  ghost predicate ClaimedAt(s: State, s1: State, t: Tid, q: seq<Dso>, i: nat)
    requires i < |q|
  {
    && In(s1, t, Constructing(q, i)) && Outer(Calls(s1, t)) == Outer(Calls(s, t))
    && (forall f :: Into(s1, t, f).calls == Into(s, t, f).calls)
    && s1.lock == None && s1.visitor == s.visitor[q[i] := t] && s1.constructed == s.constructed
    && s1.log == s.log + [Claim(t, q[i])] && s1.shuttingDown == s.shuttingDown
  }

  lemma Claims(withFini: set<Dso>, s: State, t: Tid, q: seq<Dso>, i: nat) returns (s1: State)
    requires In(s, t, Scanning(q, i)) && i < |q| && s.lock == Some(t) && !s.shuttingDown
    requires q[i] !in s.visitor && q[i] !in s.constructed
    ensures Step(withFini, s, s1, t, ClaimIt) && ClaimedAt(s, s1, t, q, i)
  {
    hide Step;
    var f := Constructing(q, i);
    IntoIs(s, t, f);
    s1 := Into(s, t, f).(lock := None, visitor := s.visitor[q[i] := t],
                         finiList := if q[i] in withFini then [q[i]] + s.finiList else s.finiList,
                         log := s.log + [Claim(t, q[i])]);
    TakesStep(withFini, s, s1, t, ClaimIt, Scanning(q, i), f);
    assert Calls(s1, t) == Calls(Into(s, t, f), t);
    forall f' ensures Into(s1, t, f').calls == Into(s, t, f').calls {
      assert Into(Into(s, t, f), t, f').calls == Into(s, t, f').calls;
    }
  }

  lemma Relocks(withFini: set<Dso>, s1: State, t: Tid, q: seq<Dso>, i: nat) returns (s2: State)
    requires In(s1, t, Constructing(q, i)) && s1.lock == None
    ensures Step(withFini, s1, s2, t, Relock) && s2 == Into(s1, t, Publishing(q, i)).(lock := Some(t))
    ensures In(s2, t, Publishing(q, i)) && forall f :: Into(s2, t, f).calls == Into(s1, t, f).calls
  {
    hide Step;
    var f := Publishing(q, i);
    IntoIs(s1, t, f);
    s2 := Into(s1, t, f).(lock := Some(t));
    TakesStep(withFini, s1, s2, t, Relock, Constructing(q, i), f);
    assert Calls(s2, t) == Calls(Into(s1, t, f), t);
    forall f' ensures Into(s2, t, f').calls == Into(s1, t, f').calls {
      assert Into(Into(s1, t, f), t, f').calls == Into(s1, t, f').calls;
    }
  }

  lemma Publishes(withFini: set<Dso>, s2: State, t: Tid, q: seq<Dso>, i: nat) returns (s3: State)
    requires In(s2, t, Publishing(q, i)) && i < |q|
    ensures Step(withFini, s2, s3, t, Publish) && In(s3, t, Scanning(q, i + 1))
    ensures s3 == Into(s2, t, Scanning(q, i + 1)).(visitor := s2.visitor - {q[i]},
                    constructed := s2.constructed + {q[i]}, log := s2.log + [Built(t, q[i])])
  {
    hide Step;
    var f := Scanning(q, i + 1);
    IntoIs(s2, t, f);
    s3 := Into(s2, t, f).(visitor := s2.visitor - {q[i]}, constructed := s2.constructed + {q[i]},
                          log := s2.log + [Built(t, q[i])]);
    TakesStep(withFini, s2, s3, t, Publish, Publishing(q, i), f);
    assert Calls(s3, t) == Calls(Into(s2, t, f), t);
  }

  /** An unclaimed DSO is claimed, its constructors run, and it is published. */
  lemma Constructs(withFini: set<Dso>, s: State, t: Tid, q: seq<Dso>, i: nat) returns (s3: State)
    requires In(s, t, Scanning(q, i)) && i < |q| && s.lock == Some(t) && !s.shuttingDown
    requires q[i] !in s.visitor && q[i] !in s.constructed
    ensures Gets(withFini, t, s, s3) && s3.calls == Into(s, t, Scanning(q, i + 1)).calls && s3.lock == Some(t)
    ensures s3.visitor == s.visitor && s3.constructed == s.constructed + {q[i]} && !s3.shuttingDown
    ensures s3.log == s.log + [Claim(t, q[i]), Built(t, q[i])] && In(s3, t, Scanning(q, i + 1))
  {
    hide Step, Gets;
    var s1 := Claims(withFini, s, t, q, i);
    var s2 := Relocks(withFini, s1, t, q, i);
    s3 := Publishes(withFini, s2, t, q, i);
    GetsNowhere(withFini, t, s3);
    GetsOn(withFini, t, s2, Publish, s3, s3);
    GetsOn(withFini, t, s1, Relock, s2, s3);
    GetsOn(withFini, t, s, ClaimIt, s1, s3);
  }

  lemma BuiltReturned(s: State, s3: State, s': State, t: Tid, q: seq<Dso>, i: nat)
    requires i < |q| && q[i] !in s.visitor && q[i] !in s.constructed
    requires s3.calls == Into(s, t, Scanning(q, i + 1)).calls && s3.visitor == s.visitor
    requires s3.constructed == s.constructed + {q[i]} && s3.log == s.log + [Claim(t, q[i]), Built(t, q[i])]
    requires Returned(s3, s', t, q, i + 1)
    ensures Returned(s, s', t, q, i)
  {
    SameReturn(s, s3, t, Scanning(q, i + 1));
    Prefixed(s.log, Claim(t, q[i]), Built(t, q[i]), s'.log);
    hide Into, Calls, Outer;
  }

  /**
   A call that wants the lock, while it is free, nobody shuts down and nobody else constructs what is left of its queue,
   can return by steps of its own thread. What nobody had claimed it claims and constructs; if all was claimed already
   it changes nothing.
   */
  lemma CallReturns(withFini: set<Dso>, s: State, t: Tid, q: seq<Dso>, i: nat) returns (s': State)
    requires In(s, t, Entering(q, i)) && s.lock == None && !s.shuttingDown && Undisputed(s, t, q, i)
    ensures Gets(withFini, t, s, s') && Returned(s, s', t, q, i)
  {
    var s1 := Into(s, t, Scanning(q, i)).(lock := Some(t));
    IntoIs(s, t, Scanning(q, i));
    TakesStep(withFini, s, s1, t, Enter, Entering(q, i), Scanning(q, i));
    assert Calls(s1, t) == Outer(Calls(s, t)) + [Scanning(q, i)];
    hide Step, Gets;
    s' := ScansToEnd(withFini, s1, t, q, i);
    GetsOn(withFini, t, s, Enter, s1, s');
    assert s1.calls[t := Outer(Calls(s1, t))] == s.calls[t := Outer(Calls(s, t))];
  }

  // ---------------------------------------------------------------------------------------------
  // The lock
  // ---------------------------------------------------------------------------------------------

  /** Whoever holds the lock for constructors can let go of it by its own steps, whatever the others have done. */
  lemma {:induction false} ScanLetsGo(withFini: set<Dso>, s: State, t: Tid, q: seq<Dso>, i: nat) returns (s': State)
    requires In(s, t, Scanning(q, i))
    ensures Gets(withFini, t, s, s') && s'.lock == None
    decreases |q| - i
  {
    GetsLater(withFini, t);
    if i >= |q| {
      s' := s.(lock := None, calls := s.calls[t := Outer(Calls(s, t))]);
      assert Step(withFini, s, s', t, Leave);
    } else if VisitedByOther(s, t, q[i]) || s.shuttingDown {
      s' := Into(s, t, Entering(q, i)).(lock := None);
      TakesStep(withFini, s, s', t, Wait, Scanning(q, i), Entering(q, i));
    } else if q[i] in s.visitor || q[i] in s.constructed {
      var s1 := Into(s, t, Scanning(q, i + 1));
      IntoIs(s, t, Scanning(q, i + 1));
      TakesStep(withFini, s, s1, t, Skip, Scanning(q, i), Scanning(q, i + 1));
      hide Step, Gets;
      s' := ScanLetsGo(withFini, s1, t, q, i + 1);
      GetsOn(withFini, t, s, Skip, s1, s');
    } else {
      s' := Into(s, t, Constructing(q, i)).(lock := None, visitor := s.visitor[q[i] := t],
              finiList := if q[i] in withFini then [q[i]] + s.finiList else s.finiList,
              log := s.log + [Claim(t, q[i])]);
      TakesStep(withFini, s, s', t, ClaimIt, Scanning(q, i), Constructing(q, i));
    }
  }

  lemma GetsLater(withFini: set<Dso>, t: Tid)
    ensures forall s, s', a :: Step(withFini, s, s', t, a) ==> Gets(withFini, t, s, s')
  {
    hide Step, Gets;
    forall s, s', a | Step(withFini, s, s', t, a) ensures Gets(withFini, t, s, s') {
      GetsNowhere(withFini, t, s');
      GetsOn(withFini, t, s, a, s', s');
    }
  }

  // ---------------------------------------------------------------------------------------------
  // Finalisers
  // ---------------------------------------------------------------------------------------------

  /** The finalisers that are still to run from the j-th entry of the chain on. */
  function Due(constructed: set<Dso>, chain: seq<Dso>, j: nat): seq<Event>
    decreases |chain| - j
  {
    if j >= |chain| then []
    else (if chain[j] in constructed then [Fini(chain[j])] else []) + Due(constructed, chain, j + 1)
  }

  lemma {:induction false} DueMeans(constructed: set<Dso>, chain: seq<Dso>, j: nat)
    ensures forall e :: e in Due(constructed, chain, j) ==> e.Fini? && e.p in constructed && e.p in chain
    ensures forall m :: j <= m < |chain| && chain[m] in constructed ==> Fini(chain[m]) in Due(constructed, chain, j)
    decreases |chain| - j
  {
    if j < |chain| {
      DueMeans(constructed, chain, j + 1);
    }
  }

  /** No other thread is inside constructors whose finalisers are in the chain from the j-th entry on. */
  ghost predicate Unvisited(s: State, t: Tid, j: nat) {
    forall m :: j <= m < |s.finiList| ==> !VisitedByOther(s, t, s.finiList[m])
  }

  /** One step along the chain, at an entry that no other thread visits. */
  lemma PassesEntry(withFini: set<Dso>, s: State, t: Tid, j: nat) returns (s': State, a: Action)
    requires In(s, t, Finalising(j)) && j < |s.finiList| && !VisitedByOther(s, t, s.finiList[j])
    ensures Step(withFini, s, s', t, a) && In(s', t, Finalising(j + 1))
    ensures forall f :: Into(s', t, f).calls == Into(s, t, f).calls
    ensures s' == Into(s, t, Finalising(j + 1)).(
                    log := if s.finiList[j] in s.constructed then s.log + [Fini(s.finiList[j])] else s.log)
  {
    hide Step;
    var f' := Finalising(j + 1);
    var run := s.finiList[j] in s.constructed;
    IntoIs(s, t, f');
    a := if run then Finalise else ExitSkip;
    s' := Into(s, t, f').(log := if run then s.log + [Fini(s.finiList[j])] else s.log);
    TakesStep(withFini, s, s', t, a, Finalising(j), f');
    assert Calls(s', t) == Outer(Calls(s, t)) + [f'];
    forall f ensures Into(s', t, f).calls == Into(s, t, f).calls {
      assert Into(Into(s, t, f'), t, f).calls == Into(s, t, f).calls;
    }
  }

  lemma {:induction false} FinalisesToEnd(withFini: set<Dso>, s: State, t: Tid, j: nat) returns (s': State)
    requires In(s, t, Finalising(j)) && j <= |s.finiList| && s.lock == Some(t) && Unvisited(s, t, j)
    ensures Gets(withFini, t, s, s') && In(s', t, Finalising(|s.finiList|))
    ensures s' == Into(s, t, Finalising(|s.finiList|)).(log := s.log + Due(s.constructed, s.finiList, j))
    decreases |s.finiList| - j
  {
    hide Step, Gets;
    if j == |s.finiList| {
      s' := s;
      GetsNowhere(withFini, t, s);
      StaysPut(s, t, Finalising(j));
    } else {
      var s1, a := PassesEntry(withFini, s, t, j);
      hide Into, Calls;
      s' := FinalisesToEnd(withFini, s1, t, j + 1);
      GetsOn(withFini, t, s, a, s1, s');
      DueSplits(s.constructed, s.finiList, j, s.log);
      SameBut(s1, s, t, Finalising(j + 1), Finalising(|s.finiList|));
    }
  }

  lemma StaysPut(s: State, t: Tid, f: Frame)
    requires In(s, t, f)
    ensures Into(s, t, f).(log := s.log + []) == s
  {
    assert Calls(s, t) == Outer(Calls(s, t)) + [f] && s.log + [] == s.log;
    assert Into(s, t, f).calls == s.calls;
  }

  lemma SameBut(s1: State, s: State, t: Tid, f: Frame, last: Frame)
    requires s1 == Into(s, t, f).(log := s1.log) && Into(s1, t, last).calls == Into(s, t, last).calls
    ensures forall log :: Into(s1, t, last).(log := log) == Into(s, t, last).(log := log)
  {
  }

  lemma DueSplits(constructed: set<Dso>, chain: seq<Dso>, j: nat, log: seq<Event>)
    requires j < |chain|
    ensures log + Due(constructed, chain, j)
         == (if chain[j] in constructed then log + [Fini(chain[j])] else log) + Due(constructed, chain, j + 1)
  {
  }

  /**
   The exiting thread, while the lock is free and no other thread is inside constructors of the chain, can come to the
   end of the chain by its own steps: it shuts down if it had not yet, and runs what was due in the order of the chain.
   */
  lemma ExitEnds(withFini: set<Dso>, s: State, t: Tid, f: Frame) returns (s': State)
    requires In(s, t, f) && (f.ExitEntering? || (f.ExitSleeping? && f.j <= |s.finiList|)) && s.lock == None
    requires Unvisited(s, t, if f.ExitEntering? then 0 else f.j)
    ensures Gets(withFini, t, s, s') && In(s', t, Finalising(|s.finiList|))
    ensures s' == Into(s, t, Finalising(|s.finiList|)).(lock := Some(t), shuttingDown := f.ExitEntering? || s.shuttingDown,
                    log := if f.ExitEntering? then s.log + [Shutdown] + Due(s.constructed, s.finiList, 0)
                           else s.log + Due(s.constructed, s.finiList, f.j))
  {
    var j := if f.ExitEntering? then 0 else f.j;
    var a := if f.ExitEntering? then ExitEnter else ExitWake;
    var f', last := Finalising(j), Finalising(|s.finiList|);
    IntoIs(s, t, f');
    var s1 := Into(s, t, f').(lock := Some(t), shuttingDown := f.ExitEntering? || s.shuttingDown,
                              log := if f.ExitEntering? then s.log + [Shutdown] else s.log);
    TakesStep(withFini, s, s1, t, a, f, f');
    assert Calls(s1, t) == Outer(Calls(s, t)) + [f'];
    hide Step, Gets;
    s' := FinalisesToEnd(withFini, s1, t, j);
    GetsOn(withFini, t, s, a, s1, s');
    assert Into(s1, t, last).calls == Into(s, t, last).calls;
  }

  /** An exiting thread that holds the lock can give it up by its own steps or is at the end of the chain. */
  lemma {:induction false} ExitLetsGo(withFini: set<Dso>, s: State, t: Tid, j: nat) returns (s': State)
    requires In(s, t, Finalising(j)) && j <= |s.finiList|
    ensures Gets(withFini, t, s, s') && (s'.lock == None || In(s', t, Finalising(|s'.finiList|)))
    decreases |s.finiList| - j
  {
    hide Step, Gets;
    GetsNowhere(withFini, t, s);
    if j == |s.finiList| {
      s' := s;
    } else if VisitedByOther(s, t, s.finiList[j]) {
      s' := Into(s, t, ExitSleeping(j)).(lock := None);
      TakesStep(withFini, s, s', t, ExitWait, Finalising(j), ExitSleeping(j));
      GetsLater(withFini, t);
    } else {
      var s1, a := PassesEntry(withFini, s, t, j);
      hide Into, Calls, VisitedByOther;
      s' := ExitLetsGo(withFini, s1, t, j + 1);
      GetsOn(withFini, t, s, a, s1, s');
    }
  }

  // ---------------------------------------------------------------------------------------------
  // Over runs
  // ---------------------------------------------------------------------------------------------

  /**
   In every state of every run the thread that holds the lock can give it up by its own steps, or it is the exiting
   thread and can come to the end of the chain of finalisers.
   */
  lemma LockIsGivenUp(withFini: set<Dso>, run: seq<State>, k: nat, t: Tid) returns (s': State)
    requires IsRun(withFini, run) && k < |run| && run[k].lock == Some(t)
    ensures Gets(withFini, t, run[k], s')
    ensures s'.lock == None || (run[k].exiter == Some(t) && In(s', t, Finalising(|s'.finiList|)))
  {
    RunInv(withFini, run, k);
    var s := run[k];
    var f := HolderIs(withFini, s, t);
    hide Step, Gets, Inv;
    if f.Scanning? {
      s' := ScanLetsGo(withFini, s, t, f.queue, f.i);
    } else if f.Publishing? {
      var s1 := Publishes(withFini, s, t, f.queue, f.i);
      s' := ScanLetsGo(withFini, s1, t, f.queue, f.i + 1);
      GetsOn(withFini, t, s, Publish, s1, s');
    } else {
      s' := ExitLetsGo(withFini, s, t, f.j);
    }
  }

  lemma HolderIs(withFini: set<Dso>, s: State, t: Tid) returns (f: Frame)
    requires Inv(withFini, s) && s.lock == Some(t)
    ensures In(s, t, f) && f.HoldsLock() && (f.Publishing? ==> f.i < |f.queue|)
    ensures f.Finalising? ==> f.j <= |s.finiList| && s.exiter == Some(t)
  {
    assert ThreadInv(s, t);
    hide VisitOf, ScanOf, ClaimsOrderly, BuiltsOrderly, FinisOrderly, Recorded, ChainInv;
    f := Calls(s, t)[|Calls(s, t)| - 1];
  }

  /** Once the process is shutting down, no call gets past another DSO of its queue: it waits for the end. */
  lemma {:induction false} ShutdownHoldsCalls(withFini: set<Dso>, run: seq<State>, k: nat, m: nat, t: Tid, q: seq<Dso>, i: nat)
    requires IsRun(withFini, run) && k <= m < |run| && run[k].shuttingDown && i < |q|
    requires In(run[k], t, Entering(q, i)) || In(run[k], t, Scanning(q, i))
    ensures run[m].shuttingDown && (In(run[m], t, Entering(q, i)) || In(run[m], t, Scanning(q, i)))
    ensures |Calls(run[m], t)| == |Calls(run[k], t)|
    decreases m
  {
    hide IsRun, Step, In, Calls;
    if m > k {
      ShutdownHoldsCalls(withFini, run, k, m - 1, t, q, i);
      var u, a := StepTo(withFini, run, m);
      StaysHeld(withFini, run[m - 1], run[m], t, q, i, u, a);
    }
  }

  lemma StepTo(withFini: set<Dso>, run: seq<State>, m: nat) returns (t: Tid, a: Action)
    requires IsRun(withFini, run) && 0 < m < |run|
    ensures Step(withFini, run[m - 1], run[m], t, a)
  {
    hide Step, Init;
    assert Next(withFini, run[m - 1], run[m - 1 + 1]);
    t, a :| Step(withFini, run[m - 1], run[m], t, a);
  }

  lemma StaysHeld(withFini: set<Dso>, s: State, s': State, t: Tid, q: seq<Dso>, i: nat, u: Tid, a: Action)
    requires Step(withFini, s, s', u, a) && s.shuttingDown && i < |q|
    requires In(s, t, Entering(q, i)) || In(s, t, Scanning(q, i))
    ensures s'.shuttingDown && (In(s', t, Entering(q, i)) || In(s', t, Scanning(q, i)))
    ensures |Calls(s', t)| == |Calls(s, t)|
  {
    hide StepAt;
    if !a.CallInit? && !a.CallExit? && !a.Leave? {
      var f, f' :| Moves(s, s', u, f, f') && StepAt(withFini, s, s', u, a, f, f');
      HeldMoves(withFini, s, s', u, a, f, f');
      assert Calls(s', u) == Outer(Calls(s, u)) + [f'];
    }
  }

  lemma HeldMoves(withFini: set<Dso>, s: State, s': State, u: Tid, a: Action, f: Frame, f': Frame)
    requires StepAt(withFini, s, s', u, a, f, f') && s.shuttingDown
    ensures s'.shuttingDown
    ensures (f.Entering? ==> f' == Scanning(f.queue, f.i)) && (f.Scanning? ==> f' == Entering(f.queue, f.i))
  {
  }
}
