/** The pool's methods, field by field, as they run between two waits. */
module PoolClass {
  import opened Bytes
  import opened Checkout
  import opened Waiters

  class ConnectionPool {
    const max: nat
    const reconnect: bool
    var idle: seq<nat>
    var all: set<nat>
    var out: set<nat>
    var waiters: seq<nat>
    var closed: bool
    var down: bool
    var broken: bool

    // what the promises in flight stand for
    var opening: map<nat, Use>
    var rolling: set<nat>
    var settling: set<nat>
    var recovering: set<nat>
    var resuming: set<nat>

    // the state of the connections themselves
    var shut: set<nat>
    var tx: set<nat>
    var next: nat
    var callers: nat

    ghost var held: set<(nat, nat)>
    ghost var dead: set<nat>

    ghost function Abs(): Pool
      reads this
    {
      Pool(idle, all, out, waiters, closed, down, broken, opening, rolling, settling, recovering, resuming, dead, shut, tx, held, next, callers)
    }

    /** No connection is in two places or has two holders, what is idle has the idle status, every live one
        counts, and without the breaker they are within the maximum. Every caller is in one list at most, and one
        whose wait has timed out in none that leads to a connection of its own. */
    ghost predicate Valid()
      reads this
    {
      Sound(Cfg(), Abs())
    }

    function Cfg(): Config
    {
      Config(max, reconnect)
    }

    constructor (max: nat, reconnect: bool)
      ensures Valid() && Abs() == Fresh() && Cfg() == Config(max, reconnect)
    {
      this.max, this.reconnect := max, reconnect;
      idle, all, out, waiters := [], {}, {}, [];
      closed, down, broken := false, false, false;
      opening, rolling, settling, recovering, resuming := map[], {}, {}, {}, {};
      shut, tx, next, callers := {}, {}, 0, 0;
      held, dead := {}, {};
    }

    /** A promise of a connection resolves; after a timeout nobody listens. */
    method Grant(caller: nat, c: nat)
      modifies this
      ensures Abs() == Checkout.Grant(old(Abs()), caller, c)
    {
      out := out + {c};
      if caller !in dead { held := held + {(caller, c)}; }
    }

    method Open(use: Use)
      modifies this
      ensures Abs() == Checkout.Opened(old(Abs()), use)
    {
      all := all + {next};
      opening := opening[next := use];
      next := next + 1;
    }

    /** Takes the newest live idle connection; without one, opens one below the maximum, or parks. */
    method AcquireNow(caller: nat)
      requires Valid() && Free(Abs(), caller) && caller !in dead
      modifies this
      ensures Valid() && Abs() == Checkout.AcquireNow(Cfg(), old(Abs()), caller) && GivesClean(old(Abs()), Abs())
      ensures forall n :: NewestLive(old(idle), shut, n) ==> idle == old(idle)[..n] && out == old(out) + {old(idle)[n]} && (caller, old(idle)[n]) in held
      ensures (forall m :: 0 <= m < |old(idle)| ==> old(idle)[m] in shut) ==>
                idle == [] && out == old(out) && (if caller in waiters then waiters == old(waiters) + [caller] && |all| >= max
                                                  else opening == old(opening)[old(next) := ForCaller(caller)])
    {
      AcquireNowSound(Cfg(), Abs(), caller);
      TakesNewest(Cfg(), Abs(), caller);
      hide Sound, GivesClean, Free, NewestLive, Checkout.AcquireNow;
      TakeOrOpen(caller);
    }

    method TakeOrOpen(caller: nat)
      modifies this
      ensures Abs() == Checkout.AcquireNow(Cfg(), old(Abs()), caller)
    {
      while idle != []
        invariant TakeIdle(Abs()) == TakeIdle(old(Abs()))
        decreases |idle|
      {
        var c := idle[|idle| - 1];
        idle := idle[..|idle| - 1];
        if c !in shut {
          Grant(caller, c);
          return;
        }
        all := all - {c};
      }
      if |all| < max { Open(ForCaller(caller)); } else { waiters := waiters + [caller]; }
    }

    method Acquire()
      requires Valid()
      modifies this
      ensures Valid() && Abs() == Checkout.Acquire(Cfg(), old(Abs())) && GivesClean(old(Abs()), Abs())
    {
      NewCaller(Cfg(), Abs());
      SoundInv(Cfg(), Abs());
      AcquireCallGivesClean(Cfg(), Abs());
      hide Sound, GivesClean, Checkout.Acquire, TakesCaller;
      AcquireAs();
    }

    method AcquireAs()
      requires Valid() && TakesCaller(Cfg(), Abs())
      modifies this
      ensures Valid() && Abs() == Checkout.Acquire(Cfg(), old(Abs()))
    {
      hide Sound, GivesClean, Free, Checkout.AcquireNow;
      var caller := callers;
      callers := callers + 1;
      if closed || broken { return; }
      if down && reconnect { recovering := recovering + {caller}; } else { AcquireNow(caller); }
    }

    method OnResume(caller: nat)
      requires Valid() && caller in resuming
      modifies this
      ensures Valid() && Abs() == Checkout.AcquireNow(Cfg(), old(Abs()).(resuming := old(resuming) - {caller}), caller) && GivesClean(old(Abs()), Abs())
    {
      ResumeSound(Cfg(), Abs(), caller);
      hide Sound, Free;
      resuming := resuming - {caller};
      AcquireNow(caller);
    }

    method SettleBreaker()
      modifies this
      ensures Abs() == Checkout.SettleBreaker(old(Abs()))
    {
      down := false;
      if !closed && !broken { resuming := resuming + recovering; }
      recovering := {};
    }

    /** A connection with nothing pending comes back: the first waiter gets it, else it is idle. */
    method Checkin(c: nat)
      requires Valid() && Loose(Abs(), c) && c !in tx
      modifies this
      ensures Valid() && Abs() == Checkout.Checkin(old(Abs()), c) && GivesClean(old(Abs()), Abs())
      ensures !old(down) && old(waiters) != [] ==> waiters == old(waiters)[1..] && (old(waiters)[0] in dead || (old(waiters)[0], c) in held)
      ensures old(down) ==> !down && c in idle && recovering == {} && resuming == old(resuming) + (if closed || broken then {} else old(recovering))
      ensures c in idle || c in out
    {
      CheckinSound(Cfg(), Abs(), c);
      hide Sound, Loose;
      if down {
        idle := idle + [c];
        SettleBreaker();
      } else if waiters != [] {
        var w := waiters[0];
        waiters := waiters[1..];
        Grant(w, c);
      } else {
        idle := idle + [c];
      }
    }

    method Refill()
      requires Valid()
      modifies this
      ensures Valid() && Abs() == Checkout.Refill(Cfg(), old(Abs())) && held == old(held)
      ensures !down && !closed ==> waiters == [] || |all| >= max
    {
      RefillSound(Cfg(), Abs());
      OpeningGivesNothing(Cfg(), Abs());
      hide Sound;
      if down || closed { return; }
      while waiters != [] && |all| < max
        invariant OpenForWaiters(Cfg(), Abs()) == OpenForWaiters(Cfg(), old(Abs()))
        decreases |waiters|
      {
        var w := waiters[0];
        waiters := waiters[1..];
        Open(ForWaiter(w));
      }
    }

    /** A connection that is in no place is taken back: never straight into other hands with a transaction open. */
    method Reclaim(c: nat)
      requires Valid() && Loose(Abs(), c)
      modifies this
      ensures Valid() && Abs() == Checkout.Reclaim(Cfg(), old(Abs()), c) && GivesClean(old(Abs()), Abs())
      ensures c in old(tx) || c in old(shut) || old(closed) ==> c !in idle && c !in out
    {
      ReclaimSound(Cfg(), Abs(), c);
      ReclaimGivesClean(Cfg(), Abs(), c);
      if c in tx || c in shut || closed { ReclaimedAway(Cfg(), Abs(), c); }
      if c in shut { DroppedSound(Cfg(), Abs(), c); }
      hide Sound, Loose, GivesClean;
      if c in shut {
        all := all - {c};
        Refill();
      } else if closed {
        all, shut := all - {c}, shut + {c};
      } else if c in tx {
        rolling := rolling + {c};
      } else {
        Checkin(c);
      }
    }

    /** `cancelling`: the connection says that a cancelled query still drains. */
    method Release(ghost caller: nat, c: nat, cancelling: bool)
      requires Valid() && (c in out ==> (caller, c) in held)
      modifies this
      ensures Valid() && Abs() == Checkout.Release(Cfg(), old(Abs()), caller, c, cancelling)
      ensures GivesClean(old(Abs()).(held := old(held) - {(caller, c)}), Abs())
      ensures c in old(out) && (cancelling || c in old(tx)) ==> c !in idle && c !in out
    {
      if (caller, c) in held {
        SoundInv(Cfg(), Abs());
        LetGoSound(Cfg(), Abs(), caller, c);
        ReleaseSound(Cfg(), Abs(), caller, c, cancelling);
        NotIdleWhileHeld(Abs(), caller, c);
      } else {
        assert held - {(caller, c)} == held;
      }
      ReleasesClean(Cfg(), Abs(), caller, c, cancelling);
      hide Sound, Loose, Checkout.Release, GivesClean;
      GiveBack(caller, c, cancelling);
    }

    method GiveBack(ghost caller: nat, c: nat, cancelling: bool)
      requires var p2 := Abs().(held := held - {(caller, c)}, out := out - {c}); c in out ==> Sound(Cfg(), p2) && Loose(p2, c)
      requires c in out ==> c !in idle
      modifies this
      ensures Abs() == Checkout.Release(Cfg(), old(Abs()), caller, c, cancelling)
      ensures c in old(out) && (cancelling || c in old(tx)) ==> c !in idle && c !in out
    {
      hide Sound, Loose, Checkout.Reclaim, GivesClean;
      held := held - {(caller, c)};
      if c !in out { return; }
      out := out - {c};
      if cancelling { settling := settling + {c}; } else { Reclaim(c); }
    }

    method OnCancelSettled(c: nat)
      requires Valid() && c in settling
      modifies this
      ensures Valid() && Abs() == Checkout.Reclaim(Cfg(), old(Abs()).(settling := old(settling) - {c}), c) && GivesClean(old(Abs()), Abs())
    {
      SettlingEnds(Cfg(), Abs(), c);
      hide Sound, Loose;
      settling := settling - {c};
      Reclaim(c);
    }

    method OnRollback(c: nat, ok: bool)
      requires Valid() && c in rolling
      modifies this
      ensures Valid() && Abs() == Checkout.RolledBack(Cfg(), old(Abs()), c, ok) && GivesClean(old(Abs()), Abs())
    {
      RollingEnds(Cfg(), Abs(), c);
      RolledBackGivesClean(Cfg(), Abs(), c, ok);
      hide Checkout.Checkin, Checkout.Refill, Inv, Bounded, Loose, GivesClean;
      if ok { BackFromRollback(c); } else { LostInRollback(c); }
    }

    method BackFromRollback(c: nat)
      requires var p1 := Abs().(rolling := rolling - {c}, tx := tx - {c}); Sound(Cfg(), p1) && Loose(p1, c)
      modifies this
      ensures Valid() && Abs() == Checkout.Checkin(old(Abs()).(rolling := old(rolling) - {c}, tx := old(tx) - {c}), c)
    {
      hide Checkout.Checkin, Inv, Bounded, Loose, GivesClean;
      rolling, tx := rolling - {c}, tx - {c};
      Checkin(c);
    }

    method LostInRollback(c: nat)
      requires var p1 := Abs().(rolling := rolling - {c}, all := all - {c}, shut := shut + {c}); Sound(Cfg(), p1)
      modifies this
      ensures Valid() && Abs() == Checkout.Refill(Cfg(), old(Abs()).(rolling := old(rolling) - {c}, all := old(all) - {c}, shut := old(shut) + {c}))
    {
      hide Checkout.Refill, Inv, Bounded;
      rolling, all, shut := rolling - {c}, all - {c}, shut + {c};
      Refill();
    }

    method Trip(fatal: bool)
      modifies this
      ensures Abs() == Checkout.Trip(old(Abs()), fatal)
    {
      if fatal {
        broken := true;
        SettleBreaker();
      } else if !down && !closed {
        down := true;
      }
    }

    method OnOpened(c: nat)
      requires Valid() && c in opening
      modifies this
      ensures Valid() && Abs() == Checkout.OpenSucceeded(old(Abs()), c) && GivesClean(old(Abs()), Abs())
      ensures c !in opening && (if old(opening)[c].ForProbe? then c in idle && !down && recovering == {} else c in out)
      ensures old(opening)[c].ForProbe? && !closed && !broken ==> resuming == old(resuming) + old(recovering)
      ensures Opener(old(opening)[c]).Some? && Opener(old(opening)[c]).value !in dead ==> (Opener(old(opening)[c]).value, c) in held
    {
      OpenSucceededSound(Cfg(), Abs(), c);
      assert c !in tx;
      hide Sound;
      OpenedVars(c);
    }

    method OpenedVars(c: nat)
      requires c in opening
      modifies this
      ensures Abs() == Checkout.OpenSucceeded(old(Abs()), c)
    {
      var use := opening[c];
      opening := opening - {c};
      match use {
        case ForCaller(caller) => Grant(caller, c);
        case ForWaiter(w) => Grant(w, c);
        case ForProbe =>
          idle := idle + [c];
          SettleBreaker();
      }
    }

    method OnOpenFailed(c: nat, fatal: bool)
      requires Valid() && c in opening
      modifies this
      ensures Valid() && Abs() == Checkout.OpenFailed(Cfg(), old(Abs()), c, fatal)
      ensures held == old(held) && out == old(out) && all == old(all) - {c} && c !in opening
      ensures reconnect && old(opening)[c].ForWaiter? && !broken ==> waiters == [old(opening)[c].caller] + old(waiters)
      ensures reconnect && fatal ==> broken && !down
      ensures reconnect && !fatal && !closed && !old(opening)[c].ForProbe? ==> down
      ensures reconnect && old(opening)[c].ForCaller? && !broken && !closed ==> old(opening)[c].caller in recovering
    {
      OpenFailedSound(Cfg(), Abs(), c, fatal);
      FailureMoves(Cfg(), Abs(), c, fatal);
      hide Sound;
      FailVars(c, fatal);
    }

    method FailVars(c: nat, fatal: bool)
      requires c in opening
      modifies this
      ensures Abs() == Checkout.OpenFailed(Cfg(), old(Abs()), c, fatal)
    {
      var use := opening[c];
      opening, all := opening - {c}, all - {c};
      match use {
        case ForCaller(caller) =>
          if reconnect {
            Trip(fatal);
            if !broken && !closed { recovering := recovering + {caller}; }
          }
        case ForWaiter(w) =>
          if reconnect {
            waiters := [w] + waiters;
            Trip(fatal);
            if broken { FailWaiters(); }
          }
        case ForProbe =>
          if fatal {
            broken := true;
            SettleBreaker();
          }
      }
    }

    /** indexOf and splice. */
    method Splice(s: seq<nat>, x: nat) returns (found: bool, r: seq<nat>)
      ensures r == Removed(s, x) && (found <==> x in s)
      ensures if x in s then exists i :: 0 <= i < |s| && s[i] == x && r == s[..i] + s[i + 1..] else r == s
    {
      var i := 0;
      while i < |s| && s[i] != x
        invariant 0 <= i <= |s| && x !in s[..i]
      {
        i := i + 1;
      }
      RemovedAt(s, x, i);
      found := i < |s|;
      r := if found then s[..i] + s[i + 1..] else s;
    }

    /** A wait timed out: the caller is in no list any more, and the others wait on in their order. */
    method OnWaitTimeout(caller: nat)
      requires Valid() && Waits(Abs(), caller)
      modifies this
      ensures Valid() && Abs() == Checkout.TimedOut(old(Abs()), caller)
      ensures caller in dead && caller !in waiters && caller !in recovering && caller !in resuming
      ensures if caller in old(waiters)
              then exists i :: 0 <= i < |old(waiters)| && old(waiters)[i] == caller && waiters == old(waiters)[..i] + old(waiters)[i + 1..]
              else waiters == old(waiters)
    {
      TimedOutSound(Cfg(), Abs(), caller);
      hide Sound;
      var _, ws := Splice(waiters, caller);
      waiters := ws;
      recovering, dead := recovering - {caller}, dead + {caller};
    }

    method OnIdleTimeout(c: nat)
      requires Valid()
      modifies this
      ensures Valid() && Abs() == Checkout.Evicted(old(Abs()), c)
      ensures held == old(held) && out == old(out) && c !in idle
    {
      EvictedSound(Cfg(), Abs(), c);
      if c in idle { RemovedIsGone(idle, c); }
      hide Sound;
      var found, rest := Splice(idle, c);
      if !found { return; }
      idle, all, shut := rest, all - {c}, shut + {c};
    }

    method FailWaiters()
      modifies this
      ensures Abs() == old(Abs()).(waiters := [])
    {
      waiters := [];
    }

    method CloseAll()
      modifies this
      ensures Abs() == old(Abs()).(shut := old(shut) + old(all), all := {}, idle := [], out := {})
    {
      shut := shut + all;
      all, idle, out := {}, [], {};
    }

    method End()
      requires Valid()
      modifies this
      ensures Valid() && Abs() == Checkout.Ended(old(Abs()))
      ensures closed && idle == [] && waiters == [] && recovering == {} && out == {} && all == {} && old(all) <= shut
    {
      EndedSound(Cfg(), Abs());
      hide Sound;
      closed, recovering := true, {};
      FailWaiters();
      CloseAll();
    }
  }

  // ---- the whole invariant ----

  ghost predicate Sound(cfg: Config, p: Pool)
  {
    Inv(p) && Bounded(cfg, p) && Placed(cfg, p)
  }

  lemma SoundInv(cfg: Config, p: Pool)
    requires Sound(cfg, p)
    ensures Inv(p)
  {
  }

  /** The newest idle connection that is not closed stands at `n`. */
  ghost predicate NewestLive(idle: seq<nat>, shut: set<nat>, n: int)
  {
    0 <= n < |idle| && idle[n] !in shut && forall m :: n < m < |idle| ==> idle[m] in shut
  }

  lemma {:induction false} TakenIs(p: Pool)
    ensures forall n :: NewestLive(p.idle, p.shut, n) ==> TakeIdle(p).1 == Some(p.idle[n]) && TakeIdle(p).0.idle == p.idle[..n]
    ensures (forall m :: 0 <= m < |p.idle| ==> p.idle[m] in p.shut) ==> TakeIdle(p).1 == None && TakeIdle(p).0.idle == []
    ensures var q := TakeIdle(p).0; q.out == p.out && q.held == p.held && q.waiters == p.waiters && q.opening == p.opening && q.next == p.next && q.dead == p.dead && q.shut == p.shut
    decreases |p.idle|
  {
    if p.idle != [] {
      var last := |p.idle| - 1;
      var c := p.idle[last];
      var p1 := p.(idle := p.idle[..last], all := p.all - {c});
      if c in p.shut {
        TakenIs(p1);
        forall n | NewestLive(p.idle, p.shut, n) ensures TakeIdle(p).1 == Some(p.idle[n]) && TakeIdle(p).0.idle == p.idle[..n] {
          assert n != last && NewestLive(p1.idle, p1.shut, n) && p1.idle[..n] == p.idle[..n];
        }
      }
    }
  }

  lemma TakesNewest(cfg: Config, p: Pool, caller: nat)
    requires caller !in p.dead && caller !in p.waiters
    ensures var q := Checkout.AcquireNow(cfg, p, caller);
            && (forall n :: NewestLive(p.idle, p.shut, n) ==> q.idle == p.idle[..n] && q.out == p.out + {p.idle[n]} && (caller, p.idle[n]) in q.held)
            && ((forall m :: 0 <= m < |p.idle| ==> p.idle[m] in p.shut) ==>
                  q.idle == [] && q.out == p.out && (if caller in q.waiters then q.waiters == p.waiters + [caller] && |q.all| >= cfg.max
                                                     else q.opening == p.opening[p.next := ForCaller(caller)]))
            && q.shut == p.shut
  {
    TakenIs(p);
    hide TakeIdle, NewestLive;
  }

  lemma AcquireNowSound(cfg: Config, p: Pool, caller: nat)
    requires Sound(cfg, p) && Free(p, caller) && caller !in p.dead
    ensures Sound(cfg, Checkout.AcquireNow(cfg, p, caller)) && GivesClean(p, Checkout.AcquireNow(cfg, p, caller)) && caller !in p.waiters
  {
    hide Inv, Bounded, Placed, Checkout.AcquireNow, GivesClean;
    AcquireNowKeeps(cfg, p, caller);
    AcquireNowGivesClean(cfg, p, caller);
    AcquireNowPlaced(cfg, p, caller);
  }

  lemma ResumeSound(cfg: Config, p: Pool, caller: nat)
    requires Sound(cfg, p) && caller in p.resuming
    ensures var p1 := p.(resuming := p.resuming - {caller}); Sound(cfg, p1) && Free(p1, caller) && caller !in p1.dead
  {
    SamePlacesKeeps(p, p.(resuming := p.resuming - {caller}));
    hide Inv, Distinct;
  }

  lemma CheckinSound(cfg: Config, p: Pool, c: nat)
    requires Sound(cfg, p) && Loose(p, c) && c !in p.tx
    ensures Sound(cfg, Checkout.Checkin(p, c))
  {
    hide Inv, Bounded, Placed, Checkout.Checkin, Loose;
    CheckinKeeps(cfg, p, c);
    CheckinPlaced(cfg, p, c);
  }

  lemma RefillSound(cfg: Config, p: Pool)
    requires Sound(cfg, p)
    ensures Sound(cfg, Checkout.Refill(cfg, p))
  {
    RefillKeeps(cfg, p);
    assert forall c :: c in p.opening ==> c < p.next;
    hide Inv, Bounded, Placed, OpenForWaiters;
    OpeningPlaced(cfg, p);
  }

  lemma ReclaimSound(cfg: Config, p: Pool, c: nat)
    requires Sound(cfg, p) && Loose(p, c)
    ensures Sound(cfg, Checkout.Reclaim(cfg, p, c))
  {
    hide Inv, Bounded, Placed, Checkout.Reclaim, Loose;
    ReclaimKeeps(cfg, p, c);
    ReclaimPlaced(cfg, p, c);
  }

  lemma DroppedSound(cfg: Config, p: Pool, c: nat)
    requires Sound(cfg, p) && c in p.shut
    ensures Sound(cfg, p.(all := p.all - {c}))
  {
    hide Inv, Bounded, Placed;
    DroppedKeeps(cfg, p, c);
    SameListsKeep(cfg, p, p.(all := p.all - {c}));
  }

  lemma LetGoSound(cfg: Config, p: Pool, caller: nat, c: nat)
    requires Sound(cfg, p) && (caller, c) in p.held
    ensures c in p.out ==> var p2 := p.(held := p.held - {(caller, c)}, out := p.out - {c}); Sound(cfg, p2) && Loose(p2, c)
  {
    var p2 := p.(held := p.held - {(caller, c)}, out := p.out - {c});
    hide Inv, Placed, Loose;
    LetGoKeeps(p, caller, c);
    SameListsKeep(cfg, p, p2);
  }

  lemma ReleaseSound(cfg: Config, p: Pool, caller: nat, c: nat, cancelling: bool)
    requires Sound(cfg, p) && (caller, c) in p.held
    ensures Sound(cfg, Checkout.Release(cfg, p, caller, c, cancelling))
  {
    hide Inv, Bounded, Placed, Checkout.Release;
    ReleaseKeeps(cfg, p, caller, c, cancelling);
    ReleasePlaced(cfg, p, caller, c, cancelling);
  }

  lemma OpenSucceededSound(cfg: Config, p: Pool, c: nat)
    requires Sound(cfg, p) && c in p.opening
    ensures Sound(cfg, Checkout.OpenSucceeded(p, c)) && c !in p.tx
  {
    assert c !in p.tx;
    hide Inv, Bounded, Placed, Checkout.OpenSucceeded;
    OpenSucceededKeeps(cfg, p, c);
    OpenSucceededPlaced(cfg, p, c);
  }

  lemma OpenFailedSound(cfg: Config, p: Pool, c: nat, fatal: bool)
    requires Sound(cfg, p) && c in p.opening
    ensures Sound(cfg, Checkout.OpenFailed(cfg, p, c, fatal))
  {
    hide Inv, Bounded, Placed, Checkout.OpenFailed;
    OpenFailedKeeps(cfg, p, c, fatal);
    OpenFailedPlaced(cfg, p, c, fatal);
  }

  lemma TimedOutSound(cfg: Config, p: Pool, caller: nat)
    requires Sound(cfg, p) && Waits(p, caller)
    ensures Sound(cfg, Checkout.TimedOut(p, caller)) && Unparked(Checkout.TimedOut(p, caller), caller)
  {
    hide Inv, Placed, Waits, Removed;
    SamePlacesKeeps(p, Checkout.TimedOut(p, caller));
    TimedOutPlaced(cfg, p, caller);
  }

  lemma EvictedSound(cfg: Config, p: Pool, c: nat)
    requires Sound(cfg, p)
    ensures Sound(cfg, Checkout.Evicted(p, c))
  {
    hide Inv, Bounded, Placed, Checkout.Evicted;
    EvictedKeeps(cfg, p, c);
    EvictedPlaced(cfg, p, c);
  }

  lemma EndedSound(cfg: Config, p: Pool)
    requires Sound(cfg, p)
    ensures Sound(cfg, Checkout.Ended(p))
  {
    EndedKeeps(p);
    EndedPlaced(cfg, p);
    hide Inv, Placed;
  }

  lemma ReclaimedAway(cfg: Config, p: Pool, c: nat)
    requires Loose(p, c) && (c in p.tx || c in p.shut || p.closed)
    ensures var q := Checkout.Reclaim(cfg, p, c); c !in q.idle && c !in q.out
  {
    OpeningOwners(cfg, p.(all := p.all - {c}));
    OpeningKeepsIdle(cfg, p.(all := p.all - {c}));
  }

  lemma {:induction false} OpeningKeepsIdle(cfg: Config, p: Pool)
    ensures OpenForWaiters(cfg, p).idle == p.idle
    decreases |p.waiters|
  {
    if p.waiters != [] && |p.all| < cfg.max { OpeningKeepsIdle(cfg, Opened(p.(waiters := p.waiters[1..]), ForWaiter(p.waiters[0]))); }
  }

  lemma ReleasesClean(cfg: Config, p: Pool, caller: nat, c: nat, cancelling: bool)
    ensures GivesClean(p.(held := p.held - {(caller, c)}), Checkout.Release(cfg, p, caller, c, cancelling))
  {
    ReclaimGivesClean(cfg, p.(held := p.held - {(caller, c)}, out := p.out - {c}), c);
  }

  /** One more caller does no harm, parked or not. */
  ghost predicate TakesCaller(cfg: Config, p: Pool)
  {
    var p1 := p.(callers := p.callers + 1);
    var p2 := p1.(recovering := p.recovering + {p.callers});
    Sound(cfg, p1) && Free(p1, p.callers) && p.callers !in p.dead && (cfg.reconnect ==> Sound(cfg, p2))
  }

  lemma NewCaller(cfg: Config, p: Pool)
    requires Sound(cfg, p)
    ensures TakesCaller(cfg, p)
  {
    var p1 := p.(callers := p.callers + 1);
    SamePlacesKeeps(p, p1);
    SamePlacesKeeps(p, p1.(recovering := p.recovering + {p.callers}));
    hide Inv, Distinct;
    assert Placed(cfg, p1) && Placed(cfg, p1.(recovering := p.recovering + {p.callers}));
    hide Placed;
  }

  lemma AcquireCallGivesClean(cfg: Config, p: Pool)
    requires Inv(p)
    ensures GivesClean(p, Checkout.Acquire(cfg, p))
  {
    StepGivesClean(cfg, p, AcquireCall);
  }

  lemma NotIdleWhileHeld(p: Pool, caller: nat, c: nat)
    requires Inv(p) && (caller, c) in p.held
    ensures c !in p.idle
  {
  }

  lemma SettlingEnds(cfg: Config, p: Pool, c: nat)
    requires Sound(cfg, p) && c in p.settling
    ensures var p1 := p.(settling := p.settling - {c}); Sound(cfg, p1) && Loose(p1, c)
  {
    var p1 := p.(settling := p.settling - {c});
    assert Inv(p1) && Loose(p1, c);
    SameListsKeep(cfg, p, p1);
    hide Inv, Loose, Placed;
  }

  lemma RollingEnds(cfg: Config, p: Pool, c: nat)
    requires Sound(cfg, p) && c in p.rolling
    ensures var p1 := p.(rolling := p.rolling - {c}, tx := p.tx - {c}); Sound(cfg, p1) && Loose(p1, c)
    ensures var p2 := p.(rolling := p.rolling - {c}, all := p.all - {c}, shut := p.shut + {c}); Sound(cfg, p2)
  {
    var p1, p2 := p.(rolling := p.rolling - {c}, tx := p.tx - {c}), p.(rolling := p.rolling - {c}, all := p.all - {c}, shut := p.shut + {c});
    assert Inv(p1) && Loose(p1, c);
    DroppedKeeps(cfg, p.(rolling := p.rolling - {c}), c);
    SameListsKeep(cfg, p, p1);
    SameListsKeep(cfg, p, p2);
    hide Inv, Loose, Placed;
  }

  lemma {:induction false} RemovedAt(s: seq<nat>, x: nat, i: nat)
    requires i <= |s| && x !in s[..i] && (i < |s| ==> s[i] == x)
    ensures Removed(s, x) == if i < |s| then s[..i] + s[i + 1..] else s
    decreases i
  {
    if i > 0 {
      assert s[0] in s[..i];
      assert s[1..][..i - 1] == s[..i][1..];
      RemovedAt(s[1..], x, i - 1);
    }
  }
}
