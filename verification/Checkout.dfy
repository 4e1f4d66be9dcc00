/** The connection pool: checkout, hand-over to waiters, rollback and cancel draining on the way back,
    eviction, and the breaker that opens connections in an outage. */
module Checkout {
  import opened Bytes

  /** What a connection is opened for. */
  datatype Use = ForCaller(caller: nat) | ForWaiter(caller: nat) | ForProbe

  /** Connections and callers are numbered. `rolling`: a ROLLBACK is under way; `settling`: a cancelled query
      still drains; `dead`: callers whose wait timed out; `recovering`: callers that wait out an outage; `resuming`: callers woken after one. `shut`:
      connections that are closed, `tx`: those whose last status was not idle. `held`: who was given which
      connection and has not released it. */
  datatype Pool = Pool(idle: seq<nat>, all: set<nat>, out: set<nat>, waiters: seq<nat>, closed: bool, down: bool, broken: bool,
                       opening: map<nat, Use>, rolling: set<nat>, settling: set<nat>, recovering: set<nat>, resuming: set<nat>, dead: set<nat>,
                       shut: set<nat>, tx: set<nat>, held: set<(nat, nat)>, next: nat, callers: nat)

  /** `max`; `reconnect`: the breaker is on. */
  datatype Config = Config(max: nat, reconnect: bool)

  function Fresh(): Pool
  {
    Pool([], {}, {}, [], false, false, false, map[], {}, {}, {}, {}, {}, {}, {}, {}, 0, 0)
  }

  // ---- the parts of the methods ----

  /** A caller gets a connection; nobody is there any more if its wait timed out. */
  function Grant(p: Pool, caller: nat, c: nat): Pool
  {
    p.(out := p.out + {c}, held := if caller in p.dead then p.held else p.held + {(caller, c)})
  }

  function Opened(p: Pool, use: Use): Pool
  {
    p.(all := p.all + {p.next}, opening := p.opening[p.next := use], next := p.next + 1)
  }

  /** The newest live idle connection; dead ones on the way are dropped. */
  function TakeIdle(p: Pool): (Pool, Option<nat>)
    decreases |p.idle|
  {
    if p.idle == [] then (p, None)
    else
      var c := p.idle[|p.idle| - 1];
      var p1 := p.(idle := p.idle[..|p.idle| - 1]);
      if c in p.shut then TakeIdle(p1.(all := p.all - {c})) else (p1, Some(c))
  }

  function AcquireNow(cfg: Config, p: Pool, caller: nat): Pool
  {
    var (p1, found) := TakeIdle(p);
    match found
    case Some(c) => Grant(p1, caller, c)
    case None => if |p1.all| < cfg.max then Opened(p1, ForCaller(caller)) else p1.(waiters := p1.waiters + [caller])
  }

  function Acquire(cfg: Config, p: Pool): Pool
  {
    var caller := p.callers;
    var p1 := p.(callers := p.callers + 1);
    if p.closed || p.broken then p1
    else if p.down && cfg.reconnect then p1.(recovering := p.recovering + {caller})
    else AcquireNow(cfg, p1, caller)
  }

  function SettleBreaker(p: Pool): Pool
  {
    p.(down := false, recovering := {}, resuming := if p.closed || p.broken then p.resuming else p.resuming + p.recovering)
  }

  function Checkin(p: Pool, c: nat): Pool
  {
    if p.down then SettleBreaker(p.(idle := p.idle + [c]))
    else if p.waiters != [] then Grant(p.(waiters := p.waiters[1..]), p.waiters[0], c)
    else p.(idle := p.idle + [c])
  }

  function OpenForWaiters(cfg: Config, p: Pool): Pool
    decreases |p.waiters|
  {
    if p.waiters != [] && |p.all| < cfg.max then OpenForWaiters(cfg, Opened(p.(waiters := p.waiters[1..]), ForWaiter(p.waiters[0]))) else p
  }

  function Refill(cfg: Config, p: Pool): Pool
  {
    if p.down || p.closed then p else OpenForWaiters(cfg, p)
  }

  function Reclaim(cfg: Config, p: Pool, c: nat): Pool
  {
    if c in p.shut then Refill(cfg, p.(all := p.all - {c}))
    else if p.closed then p.(all := p.all - {c}, shut := p.shut + {c})
    else if c in p.tx then p.(rolling := p.rolling + {c})
    else Checkin(p, c)
  }

  /** A holder releases. `cancelling`: a query that it cancelled still drains. */
  function Release(cfg: Config, p: Pool, caller: nat, c: nat, cancelling: bool): Pool
  {
    var p1 := p.(held := p.held - {(caller, c)});
    if c !in p.out then p1
    else
      var p2 := p1.(out := p.out - {c});
      if cancelling then p2.(settling := p.settling + {c}) else Reclaim(cfg, p2, c)
  }

  /** A connection could not be opened. */
  function Trip(p: Pool, fatal: bool): Pool
  {
    if fatal then SettleBreaker(p.(broken := true))
    else if p.down || p.closed then p
    else p.(down := true)
  }

  function OpenFailed(cfg: Config, p: Pool, c: nat, fatal: bool): Pool
    requires c in p.opening
  {
    var use := p.opening[c];
    var p1 := p.(opening := p.opening - {c}, all := p.all - {c});
    match use
    case ForCaller(caller) =>
      if !cfg.reconnect then p1
      else
        var p2 := Trip(p1, fatal);
        if p2.broken || p2.closed then p2 else p2.(recovering := p2.recovering + {caller})
    case ForWaiter(w) =>
      if !cfg.reconnect then p1
      else
        var p2 := Trip(p1.(waiters := [w] + p1.waiters), fatal);
        if p2.broken then p2.(waiters := []) else p2
    case ForProbe => if fatal then SettleBreaker(p1.(broken := true)) else p1
  }

  function OpenSucceeded(p: Pool, c: nat): Pool
    requires c in p.opening
  {
    var use := p.opening[c];
    var p1 := p.(opening := p.opening - {c});
    match use
    case ForCaller(caller) => Grant(p1, caller, c)
    case ForWaiter(w) => Grant(p1, w, c)
    case ForProbe => SettleBreaker(p1.(idle := p1.idle + [c]))
  }

  function RolledBack(cfg: Config, p: Pool, c: nat, ok: bool): Pool
  {
    var p1 := p.(rolling := p.rolling - {c});
    if ok then Checkin(p1.(tx := p.tx - {c}), c) else Refill(cfg, p1.(all := p.all - {c}, shut := p.shut + {c}))
  }

  /** Without the first `x`. */
  function Removed(s: seq<nat>, x: nat): (r: seq<nat>)
  {
    if s == [] then [] else if s[0] == x then s[1..] else [s[0]] + Removed(s[1..], x)
  }

  function TimedOut(p: Pool, caller: nat): Pool
  {
    p.(waiters := Removed(p.waiters, caller), recovering := p.recovering - {caller}, dead := p.dead + {caller})
  }

  function Evicted(p: Pool, c: nat): Pool
  {
    if c in p.idle then p.(idle := Removed(p.idle, c), all := p.all - {c}, shut := p.shut + {c}) else p
  }

  function Ended(p: Pool): Pool
  {
    p.(closed := true, waiters := [], recovering := {}, shut := p.shut + p.all, all := {}, idle := [], out := {})
  }

  // ---- runs ----

  /** `Status`: a query of a holder, or one that drains, left the connection in or out of a transaction. */
  datatype Event = AcquireCall | Resumes(caller: nat) | ReleaseCall(caller: nat, c: nat, cancelling: bool) | CancelSettles(c: nat)
                 | RollbackEnds(c: nat, ok: bool) | OpenEnds(c: nat, ok: bool, fatal: bool) | ProbeOpens
                 | WaitTimesOut(caller: nat) | IdleTimesOut(c: nat) | Dies(c: nat) | Status(c: nat, inTx: bool) | EndCall

  predicate InUse(p: Pool, c: nat)
  {
    (exists h :: h in p.held && h.1 == c) || c in p.settling
  }

  /** The caller's timer runs: it is parked, or a connection is being opened for it after it was. It fires once. */
  predicate Waits(p: Pool, caller: nat)
  {
    caller !in p.dead && (caller in p.waiters || caller in p.recovering || ForWaiter(caller) in p.opening.Values)
  }

  /** A holder releases only what it holds: once. A rollback that succeeds leaves the status idle. */
  function Step(cfg: Config, p: Pool, e: Event): Pool
  {
    match e
    case AcquireCall => Acquire(cfg, p)
    case Resumes(caller) => if caller in p.resuming then AcquireNow(cfg, p.(resuming := p.resuming - {caller}), caller) else p
    case ReleaseCall(caller, c, cancelling) => if (caller, c) in p.held then Release(cfg, p, caller, c, cancelling) else p
    case CancelSettles(c) => if c in p.settling then Reclaim(cfg, p.(settling := p.settling - {c}), c) else p
    case RollbackEnds(c, ok) => if c in p.rolling then RolledBack(cfg, p, c, ok) else p
    case OpenEnds(c, ok, fatal) => if c !in p.opening then p else if ok then OpenSucceeded(p, c) else OpenFailed(cfg, p, c, fatal)
    case ProbeOpens => if cfg.reconnect && p.down && !p.closed then Opened(p, ForProbe) else p
    case WaitTimesOut(caller) => if Waits(p, caller) then TimedOut(p, caller) else p
    case IdleTimesOut(c) => Evicted(p, c)
    case Dies(c) => p.(shut := p.shut + {c})
    case Status(c, inTx) => if InUse(p, c) then p.(tx := if inTx then p.tx + {c} else p.tx - {c}) else p
    case EndCall => Ended(p)
  }

  function Run(cfg: Config, events: seq<Event>): Pool
  {
    if events == [] then Fresh() else Step(cfg, Run(cfg, events[..|events| - 1]), events[|events| - 1])
  }

  // ---- the invariant ----

  ghost predicate Distinct(idle: seq<nat>)
  {
    forall i, j :: 0 <= i < j < |idle| ==> idle[i] != idle[j]
  }

  /** A connection is in one place: idle, checked out, being opened, rolled back, or settling. */
  ghost predicate OnePlace(p: Pool)
  {
    && Distinct(p.idle)
    && (forall c :: c in p.idle ==> c !in p.out && c !in p.opening && c !in p.rolling && c !in p.settling)
    && (forall c :: c in p.out ==> c !in p.opening && c !in p.rolling && c !in p.settling)
    && (forall c :: c in p.opening ==> c !in p.rolling && c !in p.settling)
    && (forall c :: c in p.rolling ==> c !in p.settling)
  }

  ghost predicate Numbered(p: Pool)
  {
    forall c :: (c in p.idle || c in p.all || c in p.out || c in p.opening || c in p.rolling || c in p.settling || c in p.tx) ==> c < p.next
  }

  /** No connection has two holders; what is held is checked out, as long as the pool is open, and nowhere else. */
  ghost predicate Exclusive(p: Pool)
  {
    && (forall h, k :: h in p.held && k in p.held && h.1 == k.1 ==> h == k)
    && (forall h :: h in p.held ==>
          h.1 < p.next && (h.1 in p.out || p.closed) && h.1 !in p.idle && h.1 !in p.opening && h.1 !in p.rolling && h.1 !in p.settling)
  }

  /** What is idle or new has the idle status. */
  ghost predicate Clean(p: Pool)
  {
    (forall c :: c in p.idle ==> c !in p.tx) && (forall c :: c in p.opening ==> c !in p.tx)
  }

  /** Every live connection counts against the size. */
  ghost predicate Counted(p: Pool)
  {
    forall c :: (c in p.idle || c in p.out || c in p.opening || c in p.rolling || c in p.settling) ==> c in p.shut || c in p.all
  }

  ghost predicate Inv(p: Pool)
  {
    OnePlace(p) && Numbered(p) && Exclusive(p) && Clean(p) && Counted(p)
  }

  /** Without the breaker the pool is never down, has no probe and stays within its size. */
  ghost predicate Bounded(cfg: Config, p: Pool)
  {
    !cfg.reconnect ==> !p.down && |p.all| <= cfg.max && forall c :: c in p.opening ==> p.opening[c] != ForProbe
  }

  /** A connection that is in no place and has the idle status. */
  ghost predicate Loose(p: Pool, c: nat)
  {
    && c < p.next && (c in p.shut || c in p.all) && c !in p.idle && c !in p.out && c !in p.opening && c !in p.rolling && c !in p.settling
    && forall h :: h in p.held ==> h.1 != c
  }

  // ---- the parts keep it ----

  lemma GrantKeeps(p: Pool, caller: nat, c: nat)
    requires Inv(p) && Loose(p, c)
    ensures Inv(Grant(p, caller, c))
  {
  }

  lemma OpenedKeeps(cfg: Config, p: Pool, use: Use)
    requires Inv(p)
    ensures Inv(Opened(p, use)) && (Bounded(cfg, p) && |p.all| < cfg.max && use != ForProbe ==> Bounded(cfg, Opened(p, use)))
  {
  }

  lemma PopKeeps(p: Pool)
    requires Inv(p) && p.idle != []
    ensures var c := p.idle[|p.idle| - 1]; var p1 := p.(idle := p.idle[..|p.idle| - 1]); Inv(p1) && Loose(p1, c) && c !in p.tx
  {
    var c := p.idle[|p.idle| - 1];
    var rest := p.idle[..|p.idle| - 1];
    assert forall d :: d in rest ==> d in p.idle;
    assert c !in rest;
  }

  lemma {:induction false} TakeIdleKeeps(cfg: Config, p: Pool)
    requires Inv(p)
    ensures var (p1, found) := TakeIdle(p);
            && Inv(p1) && (Bounded(cfg, p) ==> Bounded(cfg, p1))
            && (found.Some? ==> Loose(p1, found.value) && found.value !in p1.tx)
    decreases |p.idle|
  {
    if p.idle != [] {
      PopKeeps(p);
      hide Loose, OnePlace, Exclusive, Clean, Numbered, Counted, Inv;
      var c := p.idle[|p.idle| - 1];
      var p1 := p.(idle := p.idle[..|p.idle| - 1]);
      if c in p.shut {
        DroppedKeeps(cfg, p1, c);
        TakeIdleKeeps(cfg, p1.(all := p.all - {c}));
      }
    }
  }

  lemma CheckinKeeps(cfg: Config, p: Pool, c: nat)
    requires Inv(p) && Loose(p, c) && c !in p.tx
    ensures Inv(Checkin(p, c)) && (Bounded(cfg, p) ==> Bounded(cfg, Checkin(p, c)))
  {
    if !p.down && p.waiters != [] { GrantKeeps(p.(waiters := p.waiters[1..]), p.waiters[0], c); }
  }

  lemma {:induction false} OpenForWaitersKeeps(cfg: Config, p: Pool)
    requires Inv(p)
    ensures Inv(OpenForWaiters(cfg, p)) && (Bounded(cfg, p) ==> Bounded(cfg, OpenForWaiters(cfg, p)))
    decreases |p.waiters|
  {
    if p.waiters != [] && |p.all| < cfg.max {
      var p1 := p.(waiters := p.waiters[1..]);
      OpenedKeeps(cfg, p1, ForWaiter(p.waiters[0]));
      OpenForWaitersKeeps(cfg, Opened(p1, ForWaiter(p.waiters[0])));
    }
  }

  lemma DroppedKeeps(cfg: Config, p: Pool, c: nat)
    requires Inv(p)
    ensures c in p.shut ==> var p1 := p.(all := p.all - {c}); Inv(p1) && (Bounded(cfg, p) ==> Bounded(cfg, p1))
    ensures var p1 := p.(all := p.all - {c}, shut := p.shut + {c}); Inv(p1) && (Bounded(cfg, p) ==> Bounded(cfg, p1))
  {
    assert |p.all - {c}| <= |p.all|;
  }

  lemma RefillKeeps(cfg: Config, p: Pool)
    requires Inv(p)
    ensures Inv(Refill(cfg, p)) && (Bounded(cfg, p) ==> Bounded(cfg, Refill(cfg, p)))
  {
    OpenForWaitersKeeps(cfg, p);
  }

  lemma RollingKeeps(p: Pool, c: nat)
    requires Inv(p) && Loose(p, c)
    ensures Inv(p.(rolling := p.rolling + {c}))
  {
  }

  lemma ReclaimKeeps(cfg: Config, p: Pool, c: nat)
    requires Inv(p) && Loose(p, c)
    ensures Inv(Reclaim(cfg, p, c)) && (Bounded(cfg, p) ==> Bounded(cfg, Reclaim(cfg, p, c)))
  {
    DroppedKeeps(cfg, p, c);
    RollingKeeps(p, c);
    hide Inv, Loose, Checkin, Refill;
    if c in p.shut { RefillKeeps(cfg, p.(all := p.all - {c})); }
    if c !in p.shut && !p.closed && c !in p.tx { CheckinKeeps(cfg, p, c); }
  }

  lemma LetGoKeeps(p: Pool, caller: nat, c: nat)
    requires Inv(p) && (caller, c) in p.held
    ensures var p1 := p.(held := p.held - {(caller, c)}); Inv(p1) && forall h :: h in p1.held ==> h.1 != c
    ensures c in p.out ==> var p2 := p.(held := p.held - {(caller, c)}, out := p.out - {c}); Inv(p2) && Loose(p2, c)
  {
    var p1 := p.(held := p.held - {(caller, c)});
    forall h | h in p1.held ensures h.1 != c { assert h in p.held; }
  }

  lemma SettlingKeeps(p: Pool, c: nat)
    requires Inv(p) && Loose(p, c)
    ensures Inv(p.(settling := p.settling + {c}))
  {
  }

  lemma ReleaseKeeps(cfg: Config, p: Pool, caller: nat, c: nat, cancelling: bool)
    requires Inv(p) && (caller, c) in p.held
    ensures Inv(Release(cfg, p, caller, c, cancelling)) && (Bounded(cfg, p) ==> Bounded(cfg, Release(cfg, p, caller, c, cancelling)))
  {
    LetGoKeeps(p, caller, c);
    hide Loose, Inv, Reclaim;
    if c in p.out {
      var p2 := p.(held := p.held - {(caller, c)}, out := p.out - {c});
      if cancelling { SettlingKeeps(p2, c); } else { ReclaimKeeps(cfg, p2, c); }
    }
  }

  lemma SettledKeeps(cfg: Config, p: Pool, c: nat)
    requires Inv(p) && c in p.settling
    ensures var p1 := Reclaim(cfg, p.(settling := p.settling - {c}), c); Inv(p1) && (Bounded(cfg, p) ==> Bounded(cfg, p1))
  {
    var p1 := p.(settling := p.settling - {c});
    assert Inv(p1) && Loose(p1, c);
    hide Loose, Inv, Reclaim;
    ReclaimKeeps(cfg, p1, c);
  }

  lemma RolledBackKeeps(cfg: Config, p: Pool, c: nat, ok: bool)
    requires Inv(p) && c in p.rolling
    ensures var p1 := RolledBack(cfg, p, c, ok); Inv(p1) && (Bounded(cfg, p) ==> Bounded(cfg, p1))
  {
    var p1 := p.(rolling := p.rolling - {c});
    assert Inv(p1) && Loose(p1, c);
    var p2 := p1.(tx := p.tx - {c});
    assert Inv(p2) && Loose(p2, c);
    hide Loose, Inv, Refill, Checkin;
    if ok {
      CheckinKeeps(cfg, p2, c);
    } else {
      DroppedKeeps(cfg, p1, c);
      RefillKeeps(cfg, p1.(all := p.all - {c}, shut := p.shut + {c}));
    }
  }

  lemma OpeningEnds(cfg: Config, p: Pool, c: nat)
    requires Inv(p) && c in p.opening
    ensures var p1 := p.(opening := p.opening - {c}); Inv(p1) && Loose(p1, c) && c !in p1.tx && (Bounded(cfg, p) ==> Bounded(cfg, p1))
  {
  }

  lemma ProbeKeeps(p: Pool, c: nat)
    requires Inv(p) && Loose(p, c) && c !in p.tx
    ensures Inv(SettleBreaker(p.(idle := p.idle + [c])))
  {
  }

  lemma OpenSucceededKeeps(cfg: Config, p: Pool, c: nat)
    requires Inv(p) && c in p.opening && Bounded(cfg, p)
    ensures Inv(OpenSucceeded(p, c)) && Bounded(cfg, OpenSucceeded(p, c))
  {
    OpeningEnds(cfg, p, c);
    var p1 := p.(opening := p.opening - {c});
    match p.opening[c]
    case ForCaller(caller) => hide Loose, Inv; GrantKeeps(p1, caller, c);
    case ForWaiter(w) => hide Loose, Inv; GrantKeeps(p1, w, c);
    case ForProbe => hide Loose, Inv; ProbeKeeps(p1, c);
  }

  /** The parts that tell nothing about where a connection is. */
  ghost predicate SamePlaces(p: Pool, q: Pool)
  {
    && q.idle == p.idle && q.out == p.out && q.opening == p.opening && q.rolling == p.rolling && q.settling == p.settling
    && q.held == p.held && q.tx == p.tx && q.next == p.next && q.all == p.all && q.shut >= p.shut && (p.closed ==> q.closed)
  }

  lemma SamePlacesKeeps(p: Pool, q: Pool)
    requires Inv(p) && SamePlaces(p, q)
    ensures Inv(q)
  {
  }

  lemma FailureMoves(cfg: Config, p: Pool, c: nat, fatal: bool)
    requires c in p.opening
    ensures var q := OpenFailed(cfg, p, c, fatal); SamePlaces(p.(opening := p.opening - {c}, all := p.all - {c}), q) && (!cfg.reconnect ==> q.down ==> p.down)
  {
    match p.opening[c]
    case ForCaller(_) =>
    case ForWaiter(_) =>
    case ForProbe =>
  }

  lemma OpenFailedKeeps(cfg: Config, p: Pool, c: nat, fatal: bool)
    requires Inv(p) && c in p.opening && Bounded(cfg, p)
    ensures Inv(OpenFailed(cfg, p, c, fatal)) && Bounded(cfg, OpenFailed(cfg, p, c, fatal))
  {
    var p1 := p.(opening := p.opening - {c}, all := p.all - {c});
    assert Inv(p1);
    hide Inv, Loose;
    assert |p.all - {c}| <= |p.all|;
    FailureMoves(cfg, p, c, fatal);
    hide OpenFailed;
    SamePlacesKeeps(p1, OpenFailed(cfg, p, c, fatal));
  }

  lemma AcquireNowKeeps(cfg: Config, p: Pool, caller: nat)
    requires Inv(p)
    ensures Inv(AcquireNow(cfg, p, caller)) && (Bounded(cfg, p) ==> Bounded(cfg, AcquireNow(cfg, p, caller)))
  {
    TakeIdleKeeps(cfg, p);
    var (p1, found) := TakeIdle(p);
    hide Inv, Loose, TakeIdle;
    match found
    case Some(c) => GrantKeeps(p1, caller, c);
    case None =>
      OpenedKeeps(cfg, p1, ForCaller(caller));
      SamePlacesKeeps(p1, p1.(waiters := p1.waiters + [caller]));
  }

  lemma {:induction false} RemovedIsGone(s: seq<nat>, x: nat)
    requires Distinct(s)
    ensures Distinct(Removed(s, x)) && forall d :: d in Removed(s, x) <==> d in s && d != x
    decreases |s|
  {
    if s != [] {
      assert forall d :: d in s <==> d == s[0] || d in s[1..];
      assert s[0] !in s[1..];
      RemovedIsGone(s[1..], x);
      var rest := Removed(s[1..], x);
      assert s[0] !in rest;
    }
  }

  lemma EvictedKeeps(cfg: Config, p: Pool, c: nat)
    requires Inv(p)
    ensures Inv(Evicted(p, c)) && (Bounded(cfg, p) ==> Bounded(cfg, Evicted(p, c)))
  {
    if c in p.idle {
      assert |p.all - {c}| <= |p.all|;
      RemovedIsGone(p.idle, c);
    }
  }

  lemma StatusKeeps(p: Pool, c: nat, inTx: bool)
    requires Inv(p) && InUse(p, c)
    ensures Inv(p.(tx := if inTx then p.tx + {c} else p.tx - {c}))
  {
  }

  lemma EndedKeeps(p: Pool)
    requires Inv(p)
    ensures Inv(Ended(p))
  {
  }

  lemma StepKeepsInv(cfg: Config, p: Pool, e: Event)
    requires Inv(p) && Bounded(cfg, p)
    ensures Inv(Step(cfg, p, e)) && Bounded(cfg, Step(cfg, p, e))
  {
    hide *;
    match e
    case AcquireCall => AcquireKeeps(cfg, p, e);
    case Resumes(_) => AcquireKeeps(cfg, p, e);
    case ReleaseCall(_, _, _) => ReturnKeeps(cfg, p, e);
    case CancelSettles(_) => ReturnKeeps(cfg, p, e);
    case RollbackEnds(_, _) => ReturnKeeps(cfg, p, e);
    case OpenEnds(_, _, _) => OpenKeeps(cfg, p, e);
    case ProbeOpens => OpenKeeps(cfg, p, e);
    case WaitTimesOut(_) => OtherKeeps(cfg, p, e);
    case IdleTimesOut(_) => OtherKeeps(cfg, p, e);
    case Dies(_) => OtherKeeps(cfg, p, e);
    case Status(_, _) => OtherKeeps(cfg, p, e);
    case EndCall => OtherKeeps(cfg, p, e);
  }

  lemma AcquireKeeps(cfg: Config, p: Pool, e: Event)
    requires Inv(p) && Bounded(cfg, p) && (e.AcquireCall? || e.Resumes?)
    ensures Inv(Step(cfg, p, e)) && Bounded(cfg, Step(cfg, p, e))
  {
    hide Inv, AcquireNow, Release, Reclaim, RolledBack, OpenSucceeded, OpenFailed, Evicted, InUse;
    match e
    case AcquireCall =>
      var p1 := p.(callers := p.callers + 1);
      var p2 := p1.(recovering := p.recovering + {p.callers});
      SamePlacesKeeps(p, p1);
      SamePlacesKeeps(p, p2);
      AcquireNowKeeps(cfg, p1, p.callers);
    case Resumes(caller) =>
      var p1 := p.(resuming := p.resuming - {caller});
      SamePlacesKeeps(p, p1);
      AcquireNowKeeps(cfg, p1, caller);
  }

  lemma ReturnKeeps(cfg: Config, p: Pool, e: Event)
    requires Inv(p) && Bounded(cfg, p) && (e.ReleaseCall? || e.CancelSettles? || e.RollbackEnds?)
    ensures Inv(Step(cfg, p, e)) && Bounded(cfg, Step(cfg, p, e))
  {
    hide Inv, Bounded, AcquireNow, Release, Reclaim, RolledBack, OpenSucceeded, OpenFailed, Evicted, InUse;
    match e
    case ReleaseCall(caller, c, cancelling) => if (caller, c) in p.held { ReleaseKeeps(cfg, p, caller, c, cancelling); }
    case CancelSettles(c) => if c in p.settling { SettledKeeps(cfg, p, c); }
    case RollbackEnds(c, ok) => if c in p.rolling { RolledBackKeeps(cfg, p, c, ok); }
  }

  lemma OpenKeeps(cfg: Config, p: Pool, e: Event)
    requires Inv(p) && Bounded(cfg, p) && (e.OpenEnds? || e.ProbeOpens?)
    ensures Inv(Step(cfg, p, e)) && Bounded(cfg, Step(cfg, p, e))
  {
    hide Inv, AcquireNow, Release, Reclaim, RolledBack, OpenSucceeded, OpenFailed, Evicted, InUse;
    match e
    case OpenEnds(c, ok, fatal) =>
      if c in p.opening {
        if ok { OpenSucceededKeeps(cfg, p, c); } else { OpenFailedKeeps(cfg, p, c, fatal); }
      }
    case ProbeOpens => OpenedKeeps(cfg, p, ForProbe);
  }

  lemma OtherKeeps(cfg: Config, p: Pool, e: Event)
    requires Inv(p) && Bounded(cfg, p) && (e.WaitTimesOut? || e.IdleTimesOut? || e.Dies? || e.Status? || e.EndCall?)
    ensures Inv(Step(cfg, p, e)) && Bounded(cfg, Step(cfg, p, e))
  {
    if e.EndCall? { EndedKeeps(p); }
    if e.Status? && InUse(p, e.c) { StatusKeeps(p, e.c, e.inTx); }
    hide Inv, AcquireNow, Release, Reclaim, RolledBack, OpenSucceeded, OpenFailed, Evicted, InUse;
    match e
    case WaitTimesOut(caller) => SamePlacesKeeps(p, Step(cfg, p, e));
    case IdleTimesOut(c) => EvictedKeeps(cfg, p, c);
    case Dies(c) => SamePlacesKeeps(p, Step(cfg, p, e));
    case Status(c, inTx) =>
    case EndCall =>
  }

  // ---- who gets what ----

  /** Every connection given away by a step has the idle status. */
  ghost predicate GivesClean(p: Pool, q: Pool)
  {
    forall h :: h in q.held && h !in p.held ==> h.1 !in q.tx
  }

  lemma {:induction false} TakeIdleGivesNothing(p: Pool)
    ensures TakeIdle(p).0.held == p.held
    decreases |p.idle|
  {
    if p.idle != [] {
      var c := p.idle[|p.idle| - 1];
      if c in p.shut { TakeIdleGivesNothing(p.(idle := p.idle[..|p.idle| - 1], all := p.all - {c})); }
    }
  }

  lemma {:induction false} OpeningGivesNothing(cfg: Config, p: Pool)
    ensures OpenForWaiters(cfg, p).held == p.held
    decreases |p.waiters|
  {
    if p.waiters != [] && |p.all| < cfg.max {
      OpeningGivesNothing(cfg, Opened(p.(waiters := p.waiters[1..]), ForWaiter(p.waiters[0])));
    }
  }

  lemma ReclaimGivesClean(cfg: Config, p: Pool, c: nat)
    ensures GivesClean(p, Reclaim(cfg, p, c))
  {
    OpeningGivesNothing(cfg, p.(all := p.all - {c}));
  }

  lemma RolledBackGivesClean(cfg: Config, p: Pool, c: nat, ok: bool)
    ensures GivesClean(p, RolledBack(cfg, p, c, ok))
  {
    OpeningGivesNothing(cfg, p.(rolling := p.rolling - {c}, all := p.all - {c}, shut := p.shut + {c}));
  }

  lemma AcquireNowGivesClean(cfg: Config, p: Pool, caller: nat)
    requires Inv(p)
    ensures GivesClean(p, AcquireNow(cfg, p, caller))
  {
    TakeIdleKeeps(cfg, p);
    TakeIdleGivesNothing(p);
    hide Inv, Loose, TakeIdle;
  }

  lemma StepGivesClean(cfg: Config, p: Pool, e: Event)
    requires Inv(p)
    ensures GivesClean(p, Step(cfg, p, e))
  {
    assert Clean(p);
    hide Inv, AcquireNow, Reclaim, RolledBack, Removed, InUse;
    match e
    case AcquireCall => 
      var p1 := p.(callers := p.callers + 1);
      SamePlacesKeeps(p, p1);
      AcquireNowGivesClean(cfg, p1, p.callers);
    case Resumes(caller) =>
      var p1 := p.(resuming := p.resuming - {caller});
      SamePlacesKeeps(p, p1);
      AcquireNowGivesClean(cfg, p1, caller);
    case ReleaseCall(caller, c, cancelling) =>
      var p1 := p.(held := p.held - {(caller, c)}, out := p.out - {c});
      ReclaimGivesClean(cfg, p1, c);
    case CancelSettles(c) => ReclaimGivesClean(cfg, p.(settling := p.settling - {c}), c);
    case RollbackEnds(c, ok) => RolledBackGivesClean(cfg, p, c, ok);
    case _ =>
  }

  // ---- over every run ----

  lemma {:induction false} RunKeepsInv(cfg: Config, events: seq<Event>)
    ensures Inv(Run(cfg, events)) && Bounded(cfg, Run(cfg, events))
    decreases |events|
  {
    if events != [] {
      RunKeepsInv(cfg, events[..|events| - 1]);
      StepKeepsInv(cfg, Run(cfg, events[..|events| - 1]), events[|events| - 1]);
    }
  }

  /** Whatever happens, a connection has at most one holder and is not in the pool meanwhile. */
  lemma CheckoutIsExclusive(cfg: Config, events: seq<Event>)
    ensures var p := Run(cfg, events);
            && (forall h, k :: h in p.held && k in p.held && h.1 == k.1 ==> h.0 == k.0)
            && (forall h :: h in p.held ==> h.1 !in p.idle && h.1 !in p.rolling && h.1 !in p.settling && h.1 !in p.opening)
            && (forall c :: c in p.idle ==> c !in p.out)
            && (forall i, j :: 0 <= i < j < |p.idle| ==> p.idle[i] != p.idle[j])
  {
    RunKeepsInv(cfg, events);
  }

  /** Whatever happened before, a caller is given a connection only with the idle status: no transaction leaks. */
  lemma NoTransactionLeaks(cfg: Config, events: seq<Event>, e: Event)
    ensures var p := Run(cfg, events);
            var q := Run(cfg, events + [e]);
            forall h :: h in q.held && h !in p.held ==> h.1 !in q.tx
  {
    RunKeepsInv(cfg, events);
    assert (events + [e])[..|events|] == events;
    StepGivesClean(cfg, Run(cfg, events), e);
  }

  /** The connections that are not closed, wherever they are. */
  function Live(p: Pool): set<nat>
  {
    (set c | c in p.idle && c !in p.shut) + ((p.out + p.opening.Keys + p.rolling + p.settling) - p.shut)
  }

  /** Without the breaker there are never more live connections than the configured maximum. */
  lemma NeverTooMany(cfg: Config, events: seq<Event>)
    requires !cfg.reconnect
    ensures |Live(Run(cfg, events))| <= cfg.max
  {
    RunKeepsInv(cfg, events);
    var p := Run(cfg, events);
    assert Live(p) <= p.all;
    Subset(Live(p), p.all);
  }

  lemma {:induction false} Subset<T>(a: set<T>, b: set<T>)
    requires a <= b
    ensures |a| <= |b|
  {
    assert b == a + (b - a);
  }

  // ---- whom a connection is checked out for ----

  ghost predicate Held(p: Pool, c: nat)
  {
    exists h :: h in p.held && h.1 == c
  }

  /** Whatever is checked out has a holder. */
  ghost predicate Owned(p: Pool)
  {
    forall c :: c in p.out ==> Held(p, c)
  }

  /** Who is given a connection that is checked in. */
  function Waiter(p: Pool): Option<nat>
  {
    if !p.down && p.waiters != [] then Some(p.waiters[0]) else None
  }

  function ReclaimedFor(p: Pool, c: nat): Option<nat>
  {
    if c in p.shut || p.closed || c in p.tx then None else Waiter(p)
  }

  function AcquiredBy(p: Pool, caller: nat): Option<nat>
  {
    if TakeIdle(p).1.Some? then Some(caller) else None
  }

  function OpenedFor(use: Use): Option<nat>
  {
    match use
    case ForCaller(caller) => Some(caller)
    case ForWaiter(w) => Some(w)
    case ForProbe => None
  }

  /** Whom a step gives a connection to. */
  function Recipient(cfg: Config, p: Pool, e: Event): Option<nat>
  {
    match e
    case AcquireCall => if p.closed || p.broken || (p.down && cfg.reconnect) then None else AcquiredBy(p, p.callers)
    case Resumes(caller) => if caller in p.resuming then AcquiredBy(p, caller) else None
    case ReleaseCall(caller, c, cancelling) =>
      if (caller, c) in p.held && c in p.out && !cancelling then ReclaimedFor(p, c) else None
    case CancelSettles(c) => if c in p.settling then ReclaimedFor(p, c) else None
    case RollbackEnds(c, ok) => if c in p.rolling && ok then Waiter(p) else None
    case OpenEnds(c, ok, _) => if c in p.opening && ok then OpenedFor(p.opening[c]) else None
    case _ => None
  }

  /** Nobody listens any more. */
  predicate Gone(p: Pool, r: Option<nat>)
  {
    r.Some? && r.value in p.dead
  }

  /** The same connections checked out, for the same holders. */
  predicate SameOwners(p: Pool, q: Pool)
  {
    q.out == p.out && q.held == p.held && q.dead == p.dead
  }

  lemma SameOwned(p: Pool, q: Pool)
    requires q.out == p.out && q.held == p.held
    ensures Owned(p) == Owned(q) && forall c :: Held(p, c) == Held(q, c)
  {
    forall c ensures Held(p, c) == Held(q, c) { }
  }

  lemma GrantOwned(p: Pool, caller: nat, c: nat)
    requires Owned(p) && !Held(p, c)
    ensures Owned(Grant(p, caller, c)) <==> caller !in p.dead
  {
    var q := Grant(p, caller, c);
    if caller in p.dead {
      assert c in q.out && !Held(q, c);
    } else {
      assert (caller, c) in q.held;
      forall d | d in q.out ensures Held(q, d) {
        if d != c {
          var h :| h in p.held && h.1 == d;
          assert h in q.held;
        }
      }
    }
  }

  lemma {:induction false} TakeIdleOwners(p: Pool)
    ensures SameOwners(p, TakeIdle(p).0)
    decreases |p.idle|
  {
    if p.idle != [] {
      var c := p.idle[|p.idle| - 1];
      if c in p.shut { TakeIdleOwners(p.(idle := p.idle[..|p.idle| - 1], all := p.all - {c})); }
    }
  }

  lemma {:induction false} OpeningOwners(cfg: Config, p: Pool)
    ensures SameOwners(p, OpenForWaiters(cfg, p))
    decreases |p.waiters|
  {
    if p.waiters != [] && |p.all| < cfg.max {
      OpeningOwners(cfg, Opened(p.(waiters := p.waiters[1..]), ForWaiter(p.waiters[0])));
    }
  }

  lemma RefillOwned(cfg: Config, p: Pool)
    requires Owned(p)
    ensures Owned(Refill(cfg, p))
  {
    OpeningOwners(cfg, p);
    SameOwned(p, Refill(cfg, p));
  }

  lemma CheckinOwned(p: Pool, c: nat)
    requires Owned(p) && !Held(p, c)
    ensures Owned(Checkin(p, c)) <==> !Gone(p, Waiter(p))
  {
    if Waiter(p).Some? {
      var p1 := p.(waiters := p.waiters[1..]);
      SameOwned(p, p1);
      hide Owned, Held, Grant;
      GrantOwned(p1, p.waiters[0], c);
    } else {
      SameOwned(p, Checkin(p, c));
    }
  }

  lemma ReclaimOwned(cfg: Config, p: Pool, c: nat)
    requires Owned(p) && !Held(p, c)
    ensures Owned(Reclaim(cfg, p, c)) <==> !Gone(p, ReclaimedFor(p, c))
  {
    hide Owned, Held, Checkin, Refill;
    if c in p.shut {
      SameOwned(p, p.(all := p.all - {c}));
      RefillOwned(cfg, p.(all := p.all - {c}));
    } else if p.closed || c in p.tx {
      SameOwned(p, Reclaim(cfg, p, c));
    } else {
      CheckinOwned(p, c);
    }
  }

  lemma LetGoOwned(p: Pool, caller: nat, c: nat)
    requires Owned(p) && Exclusive(p) && (caller, c) in p.held
    ensures var p1 := p.(held := p.held - {(caller, c)}, out := p.out - {c}); Owned(p1) && !Held(p1, c)
  {
    var p1 := p.(held := p.held - {(caller, c)}, out := p.out - {c});
    forall d | d in p1.out ensures Held(p1, d) {
      var h :| h in p.held && h.1 == d;
      assert h in p1.held;
    }
    assert forall h :: h in p1.held ==> h in p.held && h.1 != c;
  }

  lemma ReleaseOwned(cfg: Config, p: Pool, caller: nat, c: nat, cancelling: bool)
    requires Owned(p) && Exclusive(p) && (caller, c) in p.held
    ensures Owned(Release(cfg, p, caller, c, cancelling)) <==> !Gone(p, if c in p.out && !cancelling then ReclaimedFor(p, c) else None)
  {
    LetGoOwned(p, caller, c);
    var p1 := p.(held := p.held - {(caller, c)}, out := p.out - {c});
    hide Owned, Held, Exclusive, Reclaim;
    if c !in p.out {
      assert p1.out == p.out;
    } else if cancelling {
      SameOwned(p1, Release(cfg, p, caller, c, cancelling));
    } else {
      ReclaimOwned(cfg, p1, c);
    }
  }

  lemma RolledBackOwned(cfg: Config, p: Pool, c: nat, ok: bool)
    requires Owned(p) && !Held(p, c)
    ensures Owned(RolledBack(cfg, p, c, ok)) <==> !Gone(p, if ok then Waiter(p) else None)
  {
    var p1 := p.(rolling := p.rolling - {c}, tx := p.tx - {c});
    var p2 := p.(rolling := p.rolling - {c}, all := p.all - {c}, shut := p.shut + {c});
    SameOwned(p, p1);
    SameOwned(p, p2);
    hide Owned, Held, Checkin, Refill;
    if ok { CheckinOwned(p1, c); } else { RefillOwned(cfg, p2); }
  }

  lemma AcquireNowOwned(cfg: Config, p: Pool, caller: nat)
    requires Owned(p) && Inv(p)
    ensures Owned(AcquireNow(cfg, p, caller)) <==> !Gone(p, AcquiredBy(p, caller))
  {
    TakeIdleOwners(p);
    TakeIdleKeeps(cfg, p);
    var (p1, found) := TakeIdle(p);
    SameOwned(p, p1);
    assert found.Some? ==> !Held(p1, found.value);
    hide TakeIdle, Owned, Held, Inv, Loose, Grant;
    match found
    case Some(c) => GrantOwned(p1, caller, c);
    case None => SameOwned(p, AcquireNow(cfg, p, caller));
  }

  lemma OpenSucceededOwned(p: Pool, c: nat)
    requires Owned(p) && c in p.opening && !Held(p, c)
    ensures Owned(OpenSucceeded(p, c)) <==> !Gone(p, OpenedFor(p.opening[c]))
  {
    var p1 := p.(opening := p.opening - {c});
    SameOwned(p, p1);
    hide Owned, Held, Grant;
    match p.opening[c]
    case ForCaller(caller) => GrantOwned(p1, caller, c);
    case ForWaiter(w) => GrantOwned(p1, w, c);
    case ForProbe => SameOwned(p, OpenSucceeded(p, c));
  }

  lemma FailureOwners(cfg: Config, p: Pool, c: nat, fatal: bool)
    requires c in p.opening
    ensures SameOwners(p, OpenFailed(cfg, p, c, fatal))
  {
  }

  /** A checked-out connection loses its owner exactly if a step gives it to a caller whose wait has timed
      out: then nobody will release it. */
  lemma LeaksIff(cfg: Config, p: Pool, e: Event)
    requires Inv(p) && Owned(p)
    ensures Owned(Step(cfg, p, e)) <==> !Gone(p, Recipient(cfg, p, e))
  {
    assert Exclusive(p) && forall c :: c in p.opening || c in p.rolling || c in p.settling ==> !Held(p, c);
    if e.EndCall? { assert Owned(Ended(p)); }
    hide Inv, Owned, Held, Exclusive, AcquireNow, AcquiredBy, Release, Reclaim, RolledBack, Refill, OpenSucceeded, OpenFailed, OpenedFor, Waiter, Removed, InUse, Waits;
    match e
    case AcquireCall => AcquireLeaksIff(cfg, p);
    case Resumes(caller) =>
      var p1 := p.(resuming := p.resuming - {caller});
      SamePlacesKeeps(p, p1);
      SameOwned(p, p1);
      AcquireNowOwned(cfg, p1, caller);
      TakesTheSame(p, p1, caller);
    case ReleaseCall(caller, c, cancelling) => if (caller, c) in p.held { ReleaseOwned(cfg, p, caller, c, cancelling); }
    case CancelSettles(c) =>
      var p1 := p.(settling := p.settling - {c});
      SameOwned(p, p1);
      if c in p.settling {
        ReclaimOwned(cfg, p1, c);
      }
    case RollbackEnds(c, ok) => if c in p.rolling { RolledBackOwned(cfg, p, c, ok); }
    case OpenEnds(c, ok, fatal) =>
      if c in p.opening {
        if ok { OpenSucceededOwned(p, c); } else { FailureOwners(cfg, p, c, fatal); SameOwned(p, OpenFailed(cfg, p, c, fatal)); }
      }
    case EndCall =>
    case _ => SameOwned(p, Step(cfg, p, e));
  }

  lemma AcquireLeaksIff(cfg: Config, p: Pool)
    requires Inv(p) && Owned(p)
    ensures Owned(Step(cfg, p, AcquireCall)) <==> !Gone(p, Recipient(cfg, p, AcquireCall))
  {
    hide Inv, Owned, Held, AcquireNow, AcquiredBy, Release, Reclaim, RolledBack, Refill, OpenSucceeded, OpenFailed, Ended;
    var p1 := p.(callers := p.callers + 1);
    SamePlacesKeeps(p, p1);
    SameOwned(p, p1);
    SameOwned(p, p1.(recovering := p.recovering + {p.callers}));
    AcquireNowOwned(cfg, p1, p.callers);
    TakesTheSame(p, p1, p.callers);
  }

  lemma {:induction false} TakesTheSame(p: Pool, q: Pool, caller: nat)
    requires q.idle == p.idle && q.shut == p.shut
    ensures AcquiredBy(q, caller) == AcquiredBy(p, caller)
    decreases |p.idle|
  {
    if p.idle != [] {
      var c := p.idle[|p.idle| - 1];
      var rest := p.idle[..|p.idle| - 1];
      if c in p.shut { TakesTheSame(p.(idle := rest, all := p.all - {c}), q.(idle := rest, all := q.all - {c}), caller); }
    }
  }

  lemma NobodyGone(cfg: Config, p: Pool, e: Event)
    requires p.dead == {} && !e.WaitTimesOut?
    ensures Step(cfg, p, e).dead == {}
  {
    match e
    case AcquireCall => TakeIdleOwners(p.(callers := p.callers + 1));
    case Resumes(caller) => TakeIdleOwners(p.(resuming := p.resuming - {caller}));
    case ReleaseCall(caller, c, _) => ReclaimGone(cfg, p.(held := p.held - {(caller, c)}, out := p.out - {c}), c);
    case CancelSettles(c) => ReclaimGone(cfg, p.(settling := p.settling - {c}), c);
    case RollbackEnds(c, _) => OpeningOwners(cfg, p.(rolling := p.rolling - {c}, all := p.all - {c}, shut := p.shut + {c}));
    case OpenEnds(c, ok, fatal) => if c in p.opening && !ok { FailureOwners(cfg, p, c, fatal); }
    case _ =>
  }

  lemma ReclaimGone(cfg: Config, p: Pool, c: nat)
    requires p.dead == {}
    ensures Reclaim(cfg, p, c).dead == {}
  {
    OpeningOwners(cfg, p.(all := p.all - {c}));
  }

  /** As long as no wait times out, a connection that is checked out is always held by someone. */
  lemma {:induction false} NoTimeoutNoLeak(cfg: Config, events: seq<Event>)
    requires forall e :: e in events ==> !e.WaitTimesOut?
    ensures var p := Run(cfg, events); p.dead == {} && forall c :: c in p.out ==> exists h :: h in p.held && h.1 == c
    decreases |events|
  {
    if events != [] {
      var before := events[..|events| - 1];
      NoTimeoutNoLeak(cfg, before);
      RunKeepsInv(cfg, before);
      assert Owned(Run(cfg, before));
      LeaksIff(cfg, Run(cfg, before), events[|events| - 1]);
      NobodyGone(cfg, Run(cfg, before), events[|events| - 1]);
    }
  }

  const ONE := Config(1, true)

  /** The holder of the only connection loses it and releases while another caller waits, so one is opened
      for the waiter, whose wait times out before that is done. */
  const LATE: seq<Event> := [AcquireCall, OpenEnds(0, true, false), AcquireCall, Dies(0), ReleaseCall(0, 0, false), WaitTimesOut(1), OpenEnds(1, true, false)]

  lemma Next(cfg: Config, events: seq<Event>, n: nat)
    requires n < |events|
    ensures Run(cfg, events[..n + 1]) == Step(cfg, Run(cfg, events[..n]), events[n])
  {
    assert events[..n + 1][..n] == events[..n];
  }

  function Sketch(all: set<nat>, out: set<nat>, waiters: seq<nat>, opening: map<nat, Use>, dead: set<nat>, shut: set<nat>, held: set<(nat, nat)>, next: nat, callers: nat): Pool
  {
    Pool([], all, out, waiters, false, false, false, opening, {}, {}, {}, {}, dead, shut, {}, held, next, callers)
  }

  /** The first caller opens the only connection. */
  lemma FirstOpens()
    ensures Step(ONE, Fresh(), AcquireCall) == Sketch({0}, {}, [], map[0 := ForCaller(0)], {}, {}, {}, 1, 1)
    ensures Step(ONE, Sketch({0}, {}, [], map[0 := ForCaller(0)], {}, {}, {}, 1, 1), OpenEnds(0, true, false))
            == Sketch({0}, {0}, [], map[], {}, {}, {(0, 0)}, 1, 1)
  {
    var p1 := Sketch({0}, {}, [], map[0 := ForCaller(0)], {}, {}, {}, 1, 1);
    assert p1.opening - {0} == map[];
  }

  lemma SecondWaits()
    ensures Step(ONE, Sketch({0}, {0}, [], map[], {}, {}, {(0, 0)}, 1, 1), AcquireCall) == Sketch({0}, {0}, [1], map[], {}, {}, {(0, 0)}, 1, 2)
    ensures Step(ONE, Sketch({0}, {0}, [1], map[], {}, {}, {(0, 0)}, 1, 2), Dies(0)) == Sketch({0}, {0}, [1], map[], {}, {0}, {(0, 0)}, 1, 2)
  {
  }

  lemma OpensForSecond()
    ensures Step(ONE, Sketch({0}, {0}, [1], map[], {}, {0}, {(0, 0)}, 1, 2), ReleaseCall(0, 0, false))
            == Sketch({1}, {}, [], map[1 := ForWaiter(1)], {}, {0}, {}, 2, 2)
  {
    var p := Sketch({}, {}, [1], map[], {}, {0}, {}, 1, 2);
    var q := Sketch({1}, {}, [], map[1 := ForWaiter(1)], {}, {0}, {}, 2, 2);
    assert Opened(p.(waiters := []), ForWaiter(1)) == q;
    assert OpenForWaiters(ONE, p) == OpenForWaiters(ONE, q) by { assert p.waiters[1..] == []; }
    assert Refill(ONE, p) == q;
    var r := Sketch({0}, {}, [1], map[], {}, {0}, {}, 1, 2);
    assert r.(all := r.all - {0}) == p;
    assert Reclaim(ONE, r, 0) == q;
    var o := Sketch({0}, {0}, [1], map[], {}, {0}, {(0, 0)}, 1, 2);
    assert o.(held := o.held - {(0, 0)}, out := o.out - {0}) == r;
  }

  lemma SecondIsGone()
    ensures Step(ONE, Sketch({1}, {}, [], map[1 := ForWaiter(1)], {}, {0}, {}, 2, 2), WaitTimesOut(1))
            == Sketch({1}, {}, [], map[1 := ForWaiter(1)], {1}, {0}, {}, 2, 2)
    ensures Step(ONE, Sketch({1}, {}, [], map[1 := ForWaiter(1)], {1}, {0}, {}, 2, 2), OpenEnds(1, true, false))
            == Sketch({1}, {1}, [], map[], {1}, {0}, {}, 2, 2)
  {
    var p := Sketch({1}, {}, [], map[1 := ForWaiter(1)], {}, {0}, {}, 2, 2);
    assert p.opening[1] in p.opening.Values;
    assert p.opening - {1} == map[];
  }

  /** In the end the pool is full, nothing is under way, and nobody holds the connection that is checked out. */
  lemma TimedOutWaiterLeaks()
    ensures Run(ONE, LATE) == Sketch({1}, {1}, [], map[], {1}, {0}, {}, 2, 2) && ONE.max == 1
  {
    hide Step;
    FirstOpens();
    SecondWaits();
    OpensForSecond();
    SecondIsGone();
    assert LATE[..0] == [] && LATE[..7] == LATE;
    Next(ONE, LATE, 0);
    Next(ONE, LATE, 1);
    Next(ONE, LATE, 2);
    Next(ONE, LATE, 3);
    Next(ONE, LATE, 4);
    Next(ONE, LATE, 5);
    Next(ONE, LATE, 6);
  }
}
