/** Who waits in the pool: every caller is in one list at most, and one whose wait has timed out is in none, save
    for a waiter that was put back after a failed open. */
module Waiters {
  import opened Bytes
  import opened Checkout

  /** The caller that a connection is opened for. */
  function Opener(use: Use): Option<nat>
  {
    match use
    case ForCaller(caller) => Some(caller)
    case ForWaiter(w) => Some(w)
    case ForProbe => None
  }

  /** Neither parked nor waiting out an outage nor just woken from one. */
  predicate Unparked(p: Pool, w: nat)
  {
    w !in p.waiters && w !in p.recovering && w !in p.resuming
  }

  ghost predicate Free(p: Pool, w: nat)
  {
    Unparked(p, w) && w < p.callers && forall c :: c in p.opening ==> Opener(p.opening[c]) != Some(w)
  }

  /** Every caller has a number and is in one place. */
  ghost predicate OneList(p: Pool)
  {
    && (forall w :: w in p.waiters || w in p.recovering || w in p.resuming || w in p.dead ==> w < p.callers)
    && Distinct(p.waiters)
    && (forall w :: w in p.waiters ==> w !in p.recovering && w !in p.resuming)
    && (forall w :: w in p.recovering ==> w !in p.resuming)
  }

  ghost predicate OneOpening(p: Pool)
  {
    && (forall c :: c in p.opening && Opener(p.opening[c]).Some? ==> Opener(p.opening[c]).value < p.callers && Unparked(p, Opener(p.opening[c]).value))
    && (forall c, d :: c in p.opening && d in p.opening && Opener(p.opening[c]).Some? && Opener(p.opening[c]) == Opener(p.opening[d]) ==> c == d)
  }

  /** A wait that timed out is over: the caller waits out no outage, and nothing is opened for it as a caller of
      its own; without the breaker it is not among the waiters either. */
  ghost predicate OverWhenDead(cfg: Config, p: Pool)
  {
    && (forall w :: w in p.dead ==> w !in p.recovering && w !in p.resuming)
    && (forall c :: c in p.opening && p.opening[c].ForCaller? ==> p.opening[c].caller !in p.dead)
    && (!cfg.reconnect ==> forall w :: w in p.dead ==> w !in p.waiters)
  }

  ghost predicate Placed(cfg: Config, p: Pool)
  {
    OneList(p) && OneOpening(p) && OverWhenDead(cfg, p)
  }

  // ---- the parts keep it ----

  /** What Placed reads is the same. */
  ghost predicate SameLists(p: Pool, q: Pool)
  {
    && q.waiters == p.waiters && q.recovering == p.recovering && q.resuming == p.resuming && q.dead == p.dead
    && q.opening == p.opening && q.callers == p.callers
  }

  lemma SameListsKeep(cfg: Config, p: Pool, q: Pool)
    requires SameLists(p, q) && Placed(cfg, p)
    ensures Placed(cfg, q)
  {
  }

  lemma {:induction false} TakeIdleLists(p: Pool)
    ensures SameLists(p, TakeIdle(p).0) && TakeIdle(p).0.next == p.next
    decreases |p.idle|
  {
    if p.idle != [] {
      var c := p.idle[|p.idle| - 1];
      if c in p.shut { TakeIdleLists(p.(idle := p.idle[..|p.idle| - 1], all := p.all - {c})); }
    }
  }

  lemma OpenedPlaced(cfg: Config, p: Pool, use: Use)
    requires Placed(cfg, p) && p.next !in p.opening
    requires Opener(use).Some? ==> Free(p, Opener(use).value)
    requires use.ForCaller? ==> use.caller !in p.dead
    ensures Placed(cfg, Opened(p, use))
  {
    hide Distinct;
  }

  lemma ParkedPlaced(cfg: Config, p: Pool, w: nat)
    requires Placed(cfg, p) && Free(p, w) && w !in p.dead
    ensures Placed(cfg, p.(waiters := p.waiters + [w]))
  {
    var q := p.(waiters := p.waiters + [w]);
    assert forall v :: v in q.waiters <==> v in p.waiters || v == w;
    assert Distinct(q.waiters);
    hide Distinct;
  }

  lemma NextIsNew(p: Pool)
    requires Inv(p)
    ensures p.next !in p.opening
  {
  }

  lemma AcquireNowPlaced(cfg: Config, p: Pool, caller: nat)
    requires Placed(cfg, p) && Inv(p) && Free(p, caller) && caller !in p.dead
    ensures Placed(cfg, AcquireNow(cfg, p, caller))
  {
    TakeIdleLists(p);
    var (p1, found) := TakeIdle(p);
    NextIsNew(p);
    SameListsKeep(cfg, p, p1);
    assert Free(p1, caller);
    hide TakeIdle, Inv, Placed, Free;
    match found
    case Some(c) => SameListsKeep(cfg, p1, Grant(p1, caller, c));
    case None =>
      OpenedPlaced(cfg, p1, ForCaller(caller));
      ParkedPlaced(cfg, p1, caller);
  }

  lemma AcquirePlaced(cfg: Config, p: Pool)
    requires Placed(cfg, p) && Inv(p)
    ensures Placed(cfg, Acquire(cfg, p))
  {
    var p1 := p.(callers := p.callers + 1);
    SamePlacesKeeps(p, p1);
    assert Placed(cfg, p1) && Free(p1, p.callers) && p.callers !in p.dead;
    assert Placed(cfg, p1.(recovering := p.recovering + {p.callers}));
    hide Placed, Free, Inv, AcquireNow;
    AcquireNowPlaced(cfg, p1, p.callers);
  }

  lemma ResumesPlaced(cfg: Config, p: Pool, caller: nat)
    requires Placed(cfg, p) && Inv(p) && caller in p.resuming
    ensures Placed(cfg, AcquireNow(cfg, p.(resuming := p.resuming - {caller}), caller))
  {
    var p1 := p.(resuming := p.resuming - {caller});
    SamePlacesKeeps(p, p1);
    assert Placed(cfg, p1) && Free(p1, caller);
    hide Placed, Free, Inv, AcquireNow;
    AcquireNowPlaced(cfg, p1, caller);
  }

  lemma SettlePlaced(cfg: Config, p: Pool)
    requires Placed(cfg, p)
    ensures Placed(cfg, SettleBreaker(p))
  {
    hide Distinct;
  }

  lemma FirstLeaves(cfg: Config, p: Pool)
    requires Placed(cfg, p) && p.waiters != []
    ensures Placed(cfg, p.(waiters := p.waiters[1..])) && Free(p.(waiters := p.waiters[1..]), p.waiters[0])
  {
    var q := p.(waiters := p.waiters[1..]);
    assert Distinct(q.waiters) && forall v :: v in q.waiters ==> v in p.waiters && v != p.waiters[0];
    assert p.waiters[0] in p.waiters;
    hide Distinct;
  }

  lemma CheckinPlaced(cfg: Config, p: Pool, c: nat)
    requires Placed(cfg, p)
    ensures Placed(cfg, Checkin(p, c))
  {
    if p.down {
      SameListsKeep(cfg, p, p.(idle := p.idle + [c]));
      hide Placed, SettleBreaker;
      SettlePlaced(cfg, p.(idle := p.idle + [c]));
    } else if p.waiters != [] {
      FirstLeaves(cfg, p);
      hide Placed;
      SameListsKeep(cfg, p.(waiters := p.waiters[1..]), Checkin(p, c));
    } else {
      SameListsKeep(cfg, p, Checkin(p, c));
      hide Placed;
    }
  }

  lemma {:induction false} OpeningPlaced(cfg: Config, p: Pool)
    requires Placed(cfg, p) && forall c :: c in p.opening ==> c < p.next
    ensures Placed(cfg, OpenForWaiters(cfg, p))
    decreases |p.waiters|
  {
    if p.waiters != [] && |p.all| < cfg.max {
      FirstLeaves(cfg, p);
      var p1 := p.(waiters := p.waiters[1..]);
      hide Placed, Free;
      OpenedPlaced(cfg, p1, ForWaiter(p.waiters[0]));
      OpeningPlaced(cfg, Opened(p1, ForWaiter(p.waiters[0])));
    }
  }

  lemma ReclaimPlaced(cfg: Config, p: Pool, c: nat)
    requires Placed(cfg, p) && Inv(p)
    ensures Placed(cfg, Reclaim(cfg, p, c))
  {
    assert forall d :: d in p.opening ==> d < p.next;
    SameListsKeep(cfg, p, p.(all := p.all - {c}));
    SameListsKeep(cfg, p, p.(all := p.all - {c}, shut := p.shut + {c}));
    SameListsKeep(cfg, p, p.(rolling := p.rolling + {c}));
    hide Placed, Inv, Checkin, OpenForWaiters;
    OpeningPlaced(cfg, p.(all := p.all - {c}));
    CheckinPlaced(cfg, p, c);
  }

  lemma ReleasePlaced(cfg: Config, p: Pool, caller: nat, c: nat, cancelling: bool)
    requires Placed(cfg, p) && Inv(p) && (caller, c) in p.held
    ensures Placed(cfg, Release(cfg, p, caller, c, cancelling))
  {
    LetGoKeeps(p, caller, c);
    var p1 := p.(held := p.held - {(caller, c)});
    var p2 := p1.(out := p.out - {c});
    SameListsKeep(cfg, p, p1);
    SameListsKeep(cfg, p, p2);
    SameListsKeep(cfg, p, p2.(settling := p.settling + {c}));
    hide Placed, Inv, Reclaim, Loose;
    if c in p.out { ReclaimPlaced(cfg, p2, c); }
  }

  lemma CancelSettlesPlaced(cfg: Config, p: Pool, c: nat)
    requires Placed(cfg, p) && Inv(p) && c in p.settling
    ensures Placed(cfg, Reclaim(cfg, p.(settling := p.settling - {c}), c))
  {
    var p1 := p.(settling := p.settling - {c});
    assert Inv(p1);
    SameListsKeep(cfg, p, p1);
    hide Placed, Inv, Reclaim;
    ReclaimPlaced(cfg, p1, c);
  }

  lemma RolledBackPlaced(cfg: Config, p: Pool, c: nat, ok: bool)
    requires Placed(cfg, p) && Inv(p)
    ensures Placed(cfg, RolledBack(cfg, p, c, ok))
  {
    assert forall d :: d in p.opening ==> d < p.next;
    var p1 := p.(rolling := p.rolling - {c}, tx := p.tx - {c});
    var p2 := p.(rolling := p.rolling - {c}, all := p.all - {c}, shut := p.shut + {c});
    SameListsKeep(cfg, p, p1);
    SameListsKeep(cfg, p, p2);
    hide Placed, Inv, Checkin, OpenForWaiters;
    CheckinPlaced(cfg, p1, c);
    OpeningPlaced(cfg, p2);
  }

  lemma OpeningOver(cfg: Config, p: Pool, c: nat)
    requires Placed(cfg, p) && c in p.opening
    ensures var p1 := p.(opening := p.opening - {c});
            Placed(cfg, p1) && (Opener(p.opening[c]).Some? ==> Free(p1, Opener(p.opening[c]).value))
  {
    hide Distinct;
  }

  lemma OpenSucceededPlaced(cfg: Config, p: Pool, c: nat)
    requires Placed(cfg, p) && c in p.opening
    ensures Placed(cfg, OpenSucceeded(p, c))
  {
    OpeningOver(cfg, p, c);
    var p1 := p.(opening := p.opening - {c});
    hide Placed, Free;
    match p.opening[c]
    case ForCaller(caller) => SameListsKeep(cfg, p1, OpenSucceeded(p, c));
    case ForWaiter(w) => SameListsKeep(cfg, p1, OpenSucceeded(p, c));
    case ForProbe =>
      SameListsKeep(cfg, p1, p1.(idle := p1.idle + [c]));
      hide SettleBreaker;
      SettlePlaced(cfg, p1.(idle := p1.idle + [c]));
  }

  lemma TripPlaced(cfg: Config, p: Pool, fatal: bool)
    requires Placed(cfg, p)
    ensures Placed(cfg, Trip(p, fatal))
    ensures Trip(p, fatal).waiters == p.waiters && Trip(p, fatal).dead == p.dead && Trip(p, fatal).opening == p.opening && Trip(p, fatal).callers == p.callers
  {
    SameListsKeep(cfg, p, p.(broken := true));
    SameListsKeep(cfg, p, p.(down := true));
    SettlePlaced(cfg, p.(broken := true));
    hide Placed;
  }

  lemma PutBackPlaced(cfg: Config, p: Pool, w: nat)
    requires Placed(cfg, p) && Free(p, w) && cfg.reconnect
    ensures Placed(cfg, p.(waiters := [w] + p.waiters))
  {
    var q := p.(waiters := [w] + p.waiters);
    assert forall v :: v in q.waiters <==> v in p.waiters || v == w;
    assert Distinct(q.waiters);
    hide Distinct;
  }

  lemma CallerRecovers(cfg: Config, p: Pool, w: nat)
    requires Placed(cfg, p) && Free(p, w) && cfg.reconnect && w !in p.dead
    ensures Placed(cfg, p.(recovering := p.recovering + {w}))
  {
    hide Distinct;
  }

  lemma TripFree(p: Pool, fatal: bool, w: nat)
    requires Free(p, w)
    ensures Free(Trip(p, fatal), w)
  {
  }

  lemma WaitersFail(cfg: Config, p: Pool)
    requires Placed(cfg, p)
    ensures Placed(cfg, p.(waiters := []))
  {
  }

  lemma OpenFailedPlaced(cfg: Config, p: Pool, c: nat, fatal: bool)
    requires Placed(cfg, p) && c in p.opening
    ensures Placed(cfg, OpenFailed(cfg, p, c, fatal))
  {
    OpeningOver(cfg, p, c);
    var p1 := p.(opening := p.opening - {c}, all := p.all - {c});
    SameListsKeep(cfg, p.(opening := p.opening - {c}), p1);
    assert Opener(p.opening[c]).Some? ==> Free(p1, Opener(p.opening[c]).value);
    match p.opening[c]
    case ForCaller(caller) =>
      assert caller !in p.dead;
      TripPlaced(cfg, p1, fatal);
      TripFree(p1, fatal, caller);
      hide Placed, Free, Trip;
      if cfg.reconnect { CallerRecovers(cfg, Trip(p1, fatal), caller); }
    case ForWaiter(w) =>
      hide Placed, Free, Trip;
      if cfg.reconnect {
        PutBackPlaced(cfg, p1, w);
        TripPlaced(cfg, p1.(waiters := [w] + p1.waiters), fatal);
        WaitersFail(cfg, Trip(p1.(waiters := [w] + p1.waiters), fatal));
      }
    case ForProbe =>
      SameListsKeep(cfg, p1, p1.(broken := true));
      hide Placed, SettleBreaker;
      SettlePlaced(cfg, p1.(broken := true));
  }

  lemma TimedOutPlaced(cfg: Config, p: Pool, caller: nat)
    requires Placed(cfg, p) && Waits(p, caller)
    ensures Placed(cfg, TimedOut(p, caller)) && Unparked(TimedOut(p, caller), caller)
    ensures forall w :: w in TimedOut(p, caller).waiters <==> w in p.waiters && w != caller
  {
    RemovedIsGone(p.waiters, caller);
    assert caller < p.callers;
    hide Distinct, Removed;
  }

  lemma EndedPlaced(cfg: Config, p: Pool)
    requires Placed(cfg, p)
    ensures Placed(cfg, Ended(p))
  {
  }

  lemma EvictedPlaced(cfg: Config, p: Pool, c: nat)
    requires Placed(cfg, p)
    ensures Placed(cfg, Evicted(p, c))
  {
    SameListsKeep(cfg, p, Evicted(p, c));
  }

  // ---- over every run ----

  lemma StepPlaced(cfg: Config, p: Pool, e: Event)
    requires Placed(cfg, p) && Inv(p)
    ensures Placed(cfg, Step(cfg, p, e))
  {
    NextIsNew(p);
    hide Placed, Inv, Acquire, AcquireNow, Release, Reclaim, RolledBack, OpenSucceeded, OpenFailed, Evicted, TimedOut, Ended, Waits, InUse;
    match e
    case AcquireCall => AcquirePlaced(cfg, p);
    case Resumes(caller) => if caller in p.resuming { ResumesPlaced(cfg, p, caller); }
    case ReleaseCall(caller, c, cancelling) => if (caller, c) in p.held { ReleasePlaced(cfg, p, caller, c, cancelling); }
    case CancelSettles(c) => if c in p.settling { CancelSettlesPlaced(cfg, p, c); }
    case RollbackEnds(c, ok) => RolledBackPlaced(cfg, p, c, ok);
    case OpenEnds(c, ok, fatal) => if c in p.opening { if ok { OpenSucceededPlaced(cfg, p, c); } else { OpenFailedPlaced(cfg, p, c, fatal); } }
    case ProbeOpens => OpenedPlaced(cfg, p, ForProbe);
    case WaitTimesOut(caller) => if Waits(p, caller) { TimedOutPlaced(cfg, p, caller); }
    case IdleTimesOut(c) => EvictedPlaced(cfg, p, c);
    case EndCall => EndedPlaced(cfg, p);
    case _ => SameListsKeep(cfg, p, Step(cfg, p, e));
  }

  /** Whatever happens, every caller is in one list at most, and one whose wait has timed out is in none that
      leads to a connection of its own; without the breaker it is no waiter either. */
  lemma {:induction false} EveryCallerPlaced(cfg: Config, events: seq<Event>)
    ensures Placed(cfg, Run(cfg, events))
    decreases |events|
  {
    if events != [] {
      var before := events[..|events| - 1];
      hide Placed, Inv, Step;
      EveryCallerPlaced(cfg, before);
      RunKeepsInv(cfg, before);
      StepPlaced(cfg, Run(cfg, before), events[|events| - 1]);
    }
  }

  // ---- who is given a connection in vain ----

  /** A connection was opened for `w`, its wait timed out meanwhile, the open failed, and `w` was put back. */
  ghost predicate PutBack(cfg: Config, events: seq<Event>, w: nat)
  {
    exists k :: 0 <= k < |events| && PutsBack(cfg, Run(cfg, events[..k]), events[k], w)
  }

  predicate PutsBack(cfg: Config, p: Pool, e: Event, w: nat)
  {
    cfg.reconnect && e.OpenEnds? && !e.ok && !e.fatal && e.c in p.opening && p.opening[e.c] == ForWaiter(w) && w in p.dead
  }

  /** A dead waiter comes into the list by no other way. */
  ghost predicate OnlyByFailure(cfg: Config, p: Pool, q: Pool, e: Event)
  {
    forall w :: w in q.waiters && w in q.dead && !(w in p.waiters && w in p.dead) ==> PutsBack(cfg, p, e, w)
  }

  lemma {:induction false} OpeningShrinks(cfg: Config, p: Pool)
    ensures var q := OpenForWaiters(cfg, p); q.dead == p.dead && forall w :: w in q.waiters ==> w in p.waiters
    decreases |p.waiters|
  {
    if p.waiters != [] && |p.all| < cfg.max {
      OpeningShrinks(cfg, Opened(p.(waiters := p.waiters[1..]), ForWaiter(p.waiters[0])));
    }
  }

  lemma ReclaimShrinks(cfg: Config, p: Pool, c: nat)
    ensures var q := Reclaim(cfg, p, c); q.dead == p.dead && forall w :: w in q.waiters ==> w in p.waiters
  {
    OpeningShrinks(cfg, p.(all := p.all - {c}));
    hide OpenForWaiters;
  }

  lemma RolledBackShrinks(cfg: Config, p: Pool, c: nat, ok: bool)
    ensures var q := RolledBack(cfg, p, c, ok); q.dead == p.dead && forall w :: w in q.waiters ==> w in p.waiters
  {
    OpeningShrinks(cfg, p.(rolling := p.rolling - {c}, all := p.all - {c}, shut := p.shut + {c}));
    hide OpenForWaiters;
  }

  lemma AcquireNowParks(cfg: Config, p: Pool, caller: nat)
    ensures var q := AcquireNow(cfg, p, caller); q.dead == p.dead && forall w :: w in q.waiters ==> w in p.waiters || w == caller
  {
    TakeIdleLists(p);
    hide TakeIdle;
  }

  lemma OpenFailedParks(cfg: Config, p: Pool, c: nat, fatal: bool)
    requires c in p.opening
    ensures var q := OpenFailed(cfg, p, c, fatal);
            q.dead == p.dead && forall w :: w in q.waiters ==> w in p.waiters || (cfg.reconnect && !fatal && p.opening[c] == ForWaiter(w))
  {
  }

  /** Who may come into the list in a step. */
  predicate Newcomer(cfg: Config, p: Pool, e: Event, w: nat)
  {
    match e
    case AcquireCall => w == p.callers
    case Resumes(caller) => w == caller && caller in p.resuming
    case OpenEnds(c, ok, fatal) => cfg.reconnect && !ok && !fatal && c in p.opening && p.opening[c] == ForWaiter(w)
    case _ => false
  }

  lemma StepParks(cfg: Config, p: Pool, e: Event)
    requires !e.WaitTimesOut?
    ensures var q := Step(cfg, p, e); q.dead == p.dead && forall w :: w in q.waiters ==> w in p.waiters || Newcomer(cfg, p, e, w)
  {
    hide AcquireNow, Reclaim, RolledBack, OpenFailed, InUse;
    match e
    case AcquireCall => AcquireNowParks(cfg, p.(callers := p.callers + 1), p.callers);
    case Resumes(caller) => AcquireNowParks(cfg, p.(resuming := p.resuming - {caller}), caller);
    case ReleaseCall(caller, c, cancelling) => ReclaimShrinks(cfg, p.(held := p.held - {(caller, c)}, out := p.out - {c}), c);
    case CancelSettles(c) => ReclaimShrinks(cfg, p.(settling := p.settling - {c}), c);
    case RollbackEnds(c, ok) => RolledBackShrinks(cfg, p, c, ok);
    case OpenEnds(c, ok, fatal) => if c in p.opening && !ok { OpenFailedParks(cfg, p, c, fatal); }
    case _ =>
  }

  lemma StepOnlyByFailure(cfg: Config, p: Pool, e: Event)
    requires Placed(cfg, p)
    ensures OnlyByFailure(cfg, p, Step(cfg, p, e), e)
  {
    if e.WaitTimesOut? {
      if Waits(p, e.caller) { TimedOutPlaced(cfg, p, e.caller); }
      hide Placed, Removed, Waits;
    } else {
      assert p.callers !in p.dead && forall w :: w in p.resuming ==> w !in p.dead;
      hide Placed, Step;
      StepParks(cfg, p, e);
    }
  }

  /** Over every run: a waiter whose wait has timed out is in the list only if it was put back after a failed open. */
  lemma {:induction false} DeadWaiterWasPutBack(cfg: Config, events: seq<Event>, w: nat)
    requires w in Run(cfg, events).waiters && w in Run(cfg, events).dead
    ensures cfg.reconnect && PutBack(cfg, events, w)
    decreases |events|
  {
    if events != [] {
      var n := |events| - 1;
      var before := events[..n];
      EveryCallerPlaced(cfg, before);
      hide Placed, Step;
      StepOnlyByFailure(cfg, Run(cfg, before), events[n]);
      if w in Run(cfg, before).waiters && w in Run(cfg, before).dead {
        DeadWaiterWasPutBack(cfg, before, w);
        var k :| 0 <= k < n && PutsBack(cfg, Run(cfg, before[..k]), before[k], w);
        assert before[..k] == events[..k] && before[k] == events[k];
      } else {
        assert PutsBack(cfg, Run(cfg, events[..n]), events[n], w);
      }
    }
  }

  lemma WaiterIsFirst(p: Pool, c: nat)
    ensures Waiter(p).Some? ==> p.waiters != [] && Waiter(p).value == p.waiters[0]
    ensures ReclaimedFor(p, c).Some? ==> p.waiters != [] && ReclaimedFor(p, c).value == p.waiters[0]
  {
  }

  /** Over every run, a connection is given to a caller whose wait has timed out only when one that was opened for
      a waiter comes too late; with the breaker on, also when a waiter is served that a failed open put back. Never
      does an acquire, a release, a rollback or a cancel's end give one away otherwise. */
  lemma LeaksOnlyLate(cfg: Config, events: seq<Event>, e: Event)
    requires Gone(Run(cfg, events), Recipient(cfg, Run(cfg, events), e))
    ensures var p := Run(cfg, events); var w := Recipient(cfg, p, e).value;
            || (e.OpenEnds? && e.ok && e.c in p.opening && p.opening[e.c] == ForWaiter(w))
            || (cfg.reconnect && (e.ReleaseCall? || e.CancelSettles? || e.RollbackEnds?) && p.waiters != [] && p.waiters[0] == w && PutBack(cfg, events, w))
  {
    var p := Run(cfg, events);
    EveryCallerPlaced(cfg, events);
    var w := Recipient(cfg, p, e).value;
    assert p.callers !in p.dead && forall v :: v in p.resuming ==> v !in p.dead;
    if e.OpenEnds? {
      assert e.c in p.opening && e.ok;
    } else {
      hide Placed, Run, PutBack, TakeIdle, Waiter, ReclaimedFor;
      if e.ReleaseCall? { WaiterIsFirst(p, e.c); }
      if e.CancelSettles? { WaiterIsFirst(p, e.c); }
      if e.RollbackEnds? { WaiterIsFirst(p, 0); }
      assert e.ReleaseCall? || e.CancelSettles? || e.RollbackEnds?;
      assert p.waiters[0] in p.waiters;
      DeadWaiterWasPutBack(cfg, events, w);
    }
  }

  /** A run that ends so: the open for the waiter fails after its timeout, the probe brings the pool back, another
      caller takes the connection and releases it, and the waiter that was put back is given it. */
  const BACK: seq<Event> := [OpenEnds(1, false, false), ProbeOpens, OpenEnds(2, true, false), AcquireCall, ReleaseCall(2, 2, false)]

  function After(p: Pool, events: seq<Event>): Pool
    decreases |events|
  {
    if events == [] then p else After(Step(ONE, p, events[0]), events[1..])
  }

  lemma {:induction false} RunAfter(before: seq<Event>, events: seq<Event>)
    ensures Run(ONE, before + events) == After(Run(ONE, before), events)
    decreases |events|
  {
    if events == [] {
      assert before + events == before;
    } else {
      assert (before + [events[0]])[..|before|] == before && before + [events[0]] + events[1..] == before + events;
      RunAfter(before + [events[0]], events[1..]);
    }
  }

  /** The pool's only connection is then checked out and nobody holds it. */
  lemma PutBackLeaks()
    ensures Run(ONE, LATE[..6] + BACK) == Sketch({2}, {2}, [], map[], {1}, {0}, {}, 3, 3)
  {
    SixLate();
    RunAfter(LATE[..6], BACK);
    OpenFails();
    ProbeComes();
    TakenAndReleased();
    hide Step;
    assert BACK[1..] == [ProbeOpens, OpenEnds(2, true, false), AcquireCall, ReleaseCall(2, 2, false)];
    assert BACK[1..][1..] == [OpenEnds(2, true, false), AcquireCall, ReleaseCall(2, 2, false)];
    assert BACK[1..][1..][1..] == [AcquireCall, ReleaseCall(2, 2, false)];
    assert BACK[1..][1..][1..][1..] == [ReleaseCall(2, 2, false)] && BACK[1..][1..][1..][1..][1..] == [];
  }

  lemma SixLate()
    ensures Run(ONE, LATE[..6]) == Sketch({1}, {}, [], map[1 := ForWaiter(1)], {1}, {0}, {}, 2, 2)
  {
    FirstOpens();
    SecondWaits();
    OpensForSecond();
    SecondIsGone();
    hide Step;
    assert LATE[..0] == [];
    Next(ONE, LATE, 0);
    Next(ONE, LATE, 1);
    Next(ONE, LATE, 2);
    Next(ONE, LATE, 3);
    Next(ONE, LATE, 4);
    Next(ONE, LATE, 5);
  }

  lemma OpenFails()
    ensures Step(ONE, Sketch({1}, {}, [], map[1 := ForWaiter(1)], {1}, {0}, {}, 2, 2), OpenEnds(1, false, false))
            == Sketch({}, {}, [1], map[], {1}, {0}, {}, 2, 2).(down := true)
  {
    var p := Sketch({1}, {}, [], map[1 := ForWaiter(1)], {1}, {0}, {}, 2, 2);
    assert p.opening - {1} == map[] && [1] + p.waiters == [1];
  }

  lemma ProbeComes()
    ensures Step(ONE, Sketch({}, {}, [1], map[], {1}, {0}, {}, 2, 2).(down := true), ProbeOpens)
            == Sketch({2}, {}, [1], map[2 := ForProbe], {1}, {0}, {}, 3, 2).(down := true)
    ensures Step(ONE, Sketch({2}, {}, [1], map[2 := ForProbe], {1}, {0}, {}, 3, 2).(down := true), OpenEnds(2, true, false))
            == Sketch({2}, {}, [1], map[], {1}, {0}, {}, 3, 2).(idle := [2])
  {
    var p := Sketch({2}, {}, [1], map[2 := ForProbe], {1}, {0}, {}, 3, 2).(down := true);
    assert p.opening - {2} == map[] && p.idle + [2] == [2];
  }

  lemma TakenAndReleased()
    ensures Step(ONE, Sketch({2}, {}, [1], map[], {1}, {0}, {}, 3, 2).(idle := [2]), AcquireCall)
            == Sketch({2}, {2}, [1], map[], {1}, {0}, {(2, 2)}, 3, 3)
    ensures Step(ONE, Sketch({2}, {2}, [1], map[], {1}, {0}, {(2, 2)}, 3, 3), ReleaseCall(2, 2, false))
            == Sketch({2}, {2}, [], map[], {1}, {0}, {}, 3, 3)
  {
    var p := Sketch({2}, {}, [1], map[], {1}, {0}, {}, 3, 2).(idle := [2], callers := 3);
    assert p.idle[..0] == [];
    assert TakeIdle(p) == (p.(idle := []), Some(2));
    var q := Sketch({2}, {2}, [1], map[], {1}, {0}, {(2, 2)}, 3, 3);
    assert q.held - {(2, 2)} == {} && q.out - {2} == {} && q.waiters[1..] == [];
  }
}
