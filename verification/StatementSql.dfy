/** Which SQL a statement name stands for when a task binds it, and exactly when it is not the task's own. */
module StatementSql {
  import opened Bytes
  import opened Statements

  // ---- the SQL of a name, message by message ----

  function HeldSql(w: World, n: string): Option<string>
  {
    if n in w.held then Some(w.held[n].sql) else None
  }

  function SqlStep(n: string, s: Option<string>, m: Msg): Option<string>
  {
    if m == MClose(n) then None else if m.MParse? && m.name == n then Some(m.key.sql) else s
  }

  /** The SQL that `n` stands for after `msgs`, if it then stands for any. */
  function SqlAfter(n: string, s: Option<string>, msgs: seq<Msg>): Option<string>
    decreases |msgs|
  {
    if msgs == [] then s else SqlAfter(n, SqlStep(n, s, msgs[0]), msgs[1..])
  }

  /** Every Bind of `n` in `msgs` finds the SQL of its own task, or no statement. */
  predicate RightBinds(n: string, s: Option<string>, msgs: seq<Msg>)
    decreases |msgs|
  {
    msgs != [] ==>
      && (msgs[0].MBind? && msgs[0].name == n ==> s.None? || s.value == msgs[0].key.sql)
      && RightBinds(n, SqlStep(n, s, msgs[0]), msgs[1..])
  }

  /** The SQL that `n` will stand for once everything that was sent is read. */
  function FinalSql(w: World, n: string): Option<string>
  {
    SqlAfter(n, HeldSql(w, n), w.wire)
  }

  ghost predicate Right(w: World)
  {
    forall n :: n != "" ==> RightBinds(n, HeldSql(w, n), w.wire)
  }

  lemma {:induction false} Append(n: string, s: Option<string>, a: seq<Msg>, b: seq<Msg>)
    ensures SqlAfter(n, s, a + b) == SqlAfter(n, SqlAfter(n, s, a), b)
    ensures RightBinds(n, s, a + b) == (RightBinds(n, s, a) && RightBinds(n, SqlAfter(n, s, a), b))
    decreases |a|
  {
    if a == [] {
      assert a + b == b;
    } else {
      assert (a + b)[1..] == a[1..] + b;
      Append(n, SqlStep(n, s, a[0]), a[1..], b);
    }
  }

  lemma {:induction false} Weaker(n: string, s: Option<string>, msgs: seq<Msg>)
    ensures SqlAfter(n, None, msgs) in {None, SqlAfter(n, s, msgs)}
    ensures RightBinds(n, s, msgs) ==> RightBinds(n, None, msgs)
    decreases |msgs|
  {
    if msgs != [] && SqlStep(n, s, msgs[0]) != SqlStep(n, None, msgs[0]) { Weaker(n, s, msgs[1..]); }
  }

  // ---- one cycle ----

  /** The task binds its name without closing or parsing it. */
  predicate Trusts(c: Cache, t: Task)
  {
    t.name != "" && Closes(c, t) == [] && (Reuses(c, t) || SharesParse(c, t))
  }

  /** The SQL at the task's own Bind. */
  function OwnSql(c: Cache, t: Task, s: Option<string>): Option<string>
  {
    if !Reuses(c, t) && !SharesParse(c, t) then Some(t.key.sql) else if Closes(c, t) != [] then None else s
  }

  lemma ClosesSql(c: Cache, t: Task, n: string, s: Option<string>)
    ensures SqlAfter(n, s, Closes(c, t)) == if n == t.name && Closes(c, t) != [] then None else s
    ensures RightBinds(n, s, Closes(c, t))
  {
    var a, b, d := if t.name in c.prepared then [MClose(t.name)] else [], if t.name in c.stale then [MClose(t.name)] else [],
                   if t.name in c.parseInflight && !SharesParse(c, t) then [MClose(t.name)] else [];
    assert Closes(c, t) == [] || Closes(c, t) == a + b + d;
    assert forall x :: x in a || x in b || x in d ==> x == MClose(t.name);
    OnlyCloses(t.name, n, s, Closes(c, t));
  }

  lemma {:induction false} OnlyCloses(m: string, n: string, s: Option<string>, closes: seq<Msg>)
    requires forall x :: x in closes ==> x == MClose(m)
    ensures SqlAfter(n, s, closes) == if n == m && closes != [] then None else s
    ensures RightBinds(n, s, closes)
    decreases |closes|
  {
    if closes != [] {
      assert closes[0] in closes && forall x :: x in closes[1..] ==> x in closes;
      OnlyCloses(m, n, SqlStep(n, s, closes[0]), closes[1..]);
    }
  }

  lemma One(m: Msg, n: string, s: Option<string>, rest: seq<Msg>)
    ensures SqlAfter(n, s, [m] + rest) == SqlAfter(n, SqlStep(n, s, m), rest)
    ensures RightBinds(n, s, [m] + rest) == ((m.MBind? && m.name == n ==> s.None? || s.value == m.key.sql) && RightBinds(n, SqlStep(n, s, m), rest))
  {
    assert ([m] + rest)[1..] == rest;
  }

  lemma TailSql(t: Task, n: string, s: Option<string>)
    ensures var tail := [MBind(t.name, t.key), MExecute, MSync];
            && SqlAfter(n, s, tail) == s == SqlAfter(n, s, [MDescribe(t.name)] + tail)
            && RightBinds(n, s, tail) == RightBinds(n, s, [MDescribe(t.name)] + tail) == (n != t.name || s.None? || s.value == t.key.sql)
  {
    var tail := [MBind(t.name, t.key), MExecute, MSync];
    One(MDescribe(t.name), n, s, tail);
    One(MBind(t.name, t.key), n, s, [MExecute, MSync]);
    assert tail == [MBind(t.name, t.key)] + [MExecute, MSync];
    One(MExecute, n, s, [MSync]);
    assert [MExecute, MSync] == [MExecute] + [MSync];
  }

  /** What a cycle does to the SQL of a name, and whether it binds its own. */
  lemma CycleSql(c: Cache, t: Task, n: string, s: Option<string>)
    ensures SqlAfter(n, s, Messages(c, t)) == if n == t.name then OwnSql(c, t, s) else s
    ensures n != t.name ==> RightBinds(n, s, Messages(c, t))
    ensures n == t.name && n != "" ==> (RightBinds(n, s, Messages(c, t)) <==> !(Trusts(c, t) && s.Some? && s.value != t.key.sql))
  {
    ClosesSql(c, t, n, s);
    var tail := [MBind(t.name, t.key), MExecute, MSync];
    var s1 := SqlAfter(n, s, Closes(c, t));
    var parsed := SqlStep(n, s1, MParse(t.name, t.key));
    TailSql(t, n, s1);
    TailSql(t, n, parsed);
    One(MParse(t.name, t.key), n, s1, [MDescribe(t.name)] + tail);
    var rest := if Reuses(c, t) then tail else if SharesParse(c, t) then [MDescribe(t.name)] + tail else [MParse(t.name, t.key)] + ([MDescribe(t.name)] + tail);
    assert Messages(c, t) == Closes(c, t) + rest;
    Append(n, s, Closes(c, t), rest);
    hide Messages, Closes, SqlAfter, RightBinds;
  }

  // ---- steps ----

  /** Dispatching `t` now makes it run other SQL: it trusts its name, which will stand for something else. */
  ghost predicate Mistaken(w: World, t: Task)
  {
    Trusts(w.c, t) && FinalSql(w, t.name).Some? && FinalSql(w, t.name).value != t.key.sql
  }

  /** A dispatch keeps all binds right if and only if it is not mistaken. */
  lemma DispatchRightIff(w: World, t: Task, again: bool)
    requires Right(w)
    ensures Right(Step(w, Dispatch(t, again))) <==> !Mistaken(w, t)
  {
    assert Mistaken(w, t) ==> t.name != "";
    hide Messages, RightBinds, SqlAfter, Trusts, OwnSql, Serialized, Reuses;
    var w' := Step(w, Dispatch(t, again));
    assert w'.wire == w.wire + Messages(w.c, t) && w'.held == w.held;
    forall n | n != ""
      ensures RightBinds(n, HeldSql(w', n), w'.wire) <==> !(n == t.name && Mistaken(w, t))
    {
      Append(n, HeldSql(w, n), w.wire, Messages(w.c, t));
      CycleSql(w.c, t, n, FinalSql(w, n));
    }
    if Mistaken(w, t) {
      assert !RightBinds(t.name, HeldSql(w', t.name), w'.wire);
    }
  }

  /** The backend reads a message: a name then stands for what was foreseen, or for nothing. */
  lemma BackendKeepsSql(w: World, ok: bool, code: Code, n: string)
    requires Inv(w) && w.wire != [] && n != ""
    ensures var w' := OnMessage(w, ok, code);
            && FinalSql(w', n) in {None, FinalSql(w, n)}
            && (RightBinds(n, HeldSql(w, n), w.wire) ==> RightBinds(n, HeldSql(w', n), w'.wire))
  {
    assert NoDuplicate(n, n in w.held, w.wire);
    Weaker(n, SqlStep(n, HeldSql(w, n), w.wire[0]), w.wire[1..]);
    match w.wire[0] {
      case MClose(m) => assert w.skipping ==> !ClosesFirst(!w.skipping, w.wire);
      case MParse(m, key) => assert n in w.held && m == n ==> !NoDuplicate(n, n in w.held, w.wire);
      case _ =>
    }
  }

  lemma StepKeepsRight(w: World, e: Event)
    requires Inv(w) && Right(w) && (e.Dispatch? ==> !Mistaken(w, e.t))
    ensures Right(Step(w, e))
  {
    hide RightBinds, SqlAfter, Mistaken;
    match e
    case Dispatch(t, again) => DispatchRightIff(w, t, again);
    case Backend(ok, code) =>
      if w.wire != [] {
        forall n | n != "" ensures RightBinds(n, HeldSql(Step(w, e), n), Step(w, e).wire) { BackendKeepsSql(w, ok, code, n); }
      }
    case Reconnect => assert Right(Start()) by { NothingSent(); }
    case _ => assert Step(w, e).held == w.held && Step(w, e).wire == w.wire; assert forall n :: HeldSql(Step(w, e), n) == HeldSql(w, n);
  }

  lemma NothingSent()
    ensures Right(Start())
  {
  }

  /** No dispatch of a run is mistaken. */
  ghost predicate NoMistakes(events: seq<Event>)
  {
    forall i :: 0 <= i < |events| && events[i].Dispatch? ==> !Mistaken(Run(events[..i]), events[i].t)
  }

  /** Over every run whose throws lose no name, only a mistaken dispatch makes a task run SQL that is not its own. */
  lemma {:induction false} OwnSqlUnlessMistaken(events: seq<Event>)
    requires NothingLost(events) && NoMistakes(events)
    ensures Right(Run(events)) && !WrongSql(Run(events))
  {
    RunKeepsInv(events);
    if events == [] {
      NothingSent();
    } else {
      var before, e := events[..|events| - 1], events[|events| - 1];
      assert forall i :: 0 <= i < |before| ==> before[..i] == events[..i] && before[i] == events[i];
      hide Right, Mistaken, WrongSql, Inv, Step, Loses;
      OwnSqlUnlessMistaken(before);
      RunKeepsInv(before);
      StepKeepsRight(Run(before), e);
    }
    RightIsRight(Run(events));
  }

  lemma RightIsRight(w: World)
    requires Right(w)
    ensures !WrongSql(w)
  {
    if w.wire != [] { assert w.wire[0].MBind? && w.wire[0].name != "" ==> RightBinds(w.wire[0].name, HeldSql(w, w.wire[0].name), w.wire); }
  }

  // ---- what the client sees ----

  /** What the maps say of a name, and what the tasks in flight expect of it, is what it will stand for. */
  ghost predicate Known(w: World)
  {
    forall n :: n != "" && FinalSql(w, n).Some? ==> KnownAs(w, n, FinalSql(w, n).value)
  }

  ghost predicate KnownAs(w: World, n: string, sql: string)
  {
    && (n in w.c.prepared ==> w.c.prepared[n] == sql)
    && (n in w.c.parseInflight ==> w.c.parseInflight[n].sql == sql)
    && (forall f :: f in w.inflight && f.task.name == n ==> f.task.key.sql == sql)
  }

  /** No task of that name is in flight with other SQL. */
  ghost predicate SameSql(inflight: seq<Flight>, t: Task)
  {
    forall f :: f in inflight && f.task.name == t.name ==> f.task.key.sql == t.key.sql
  }

  /** The maps tell the truth, so a dispatch beside tasks with the same SQL is not mistaken. */
  lemma KnownIsRight(w: World, t: Task)
    requires Known(w)
    ensures !Mistaken(w, t)
  {
  }

  lemma DispatchKeepsKnown(w: World, t: Task, again: bool)
    requires Known(w) && (t.name != "" ==> SameSql(w.inflight, t))
    ensures Known(Step(w, Dispatch(t, again)))
  {
    var w' := Step(w, Dispatch(t, again));
    assert w'.wire == w.wire + Messages(w.c, t) && w'.held == w.held && w'.c == Serialized(w.c, t);
    hide Messages, SqlAfter, Step;
    forall n | n != "" && FinalSql(w', n).Some? ensures KnownAs(w', n, FinalSql(w', n).value) {
      Append(n, HeldSql(w, n), w.wire, Messages(w.c, t));
      CycleSql(w.c, t, n, FinalSql(w, n));
    }
  }

  /** The replies change what the client knows, the backend what it will come to. */
  lemma ReadKeepsKnown(w: World, e: Event)
    requires Known(w) && !e.Dispatch? && !e.Backend? && !e.Reconnect?
    ensures Known(Step(w, e))
  {
    var w' := Step(w, e);
    assert w'.wire == w.wire && w'.held == w.held;
    hide SqlAfter;
    forall n | n != "" && FinalSql(w', n).Some? ensures KnownAs(w', n, FinalSql(w', n).value) {
      assert FinalSql(w', n) == FinalSql(w, n) && KnownAs(w, n, FinalSql(w, n).value);
      if w.inflight != [] { assert w.inflight[0] in w.inflight; }
    }
  }

  lemma BackendKeepsKnown(w: World, ok: bool, code: Code)
    requires Inv(w) && Known(w) && w.wire != []
    ensures Known(OnMessage(w, ok, code))
  {
    var w' := OnMessage(w, ok, code);
    assert w'.c == w.c && w'.inflight == w.inflight;
    forall n | n != "" && FinalSql(w', n).Some? ensures KnownAs(w', n, FinalSql(w', n).value) { BackendKeepsSql(w, ok, code, n); }
  }

  ghost predicate SameSqlInFlight(events: seq<Event>)
  {
    forall i :: 0 <= i < |events| && events[i].Dispatch? && events[i].t.name != "" ==> SameSql(Run(events[..i]).inflight, events[i].t)
  }

  /** Over every run that never has one name in flight with two SQL texts, and whose throws lose no name, a
      named execution runs its own SQL: with a name's SQL confirmed, stale, under way or changed in between. */
  lemma {:induction false} OwnSqlAlways(events: seq<Event>)
    requires NothingLost(events) && SameSqlInFlight(events)
    ensures Known(Run(events)) && NoMistakes(events) && !WrongSql(Run(events))
  {
    if events == [] {
    } else {
      var before, e := events[..|events| - 1], events[|events| - 1];
      assert forall i :: 0 <= i < |before| ==> before[..i] == events[..i] && before[i] == events[i];
      hide Known, Mistaken, WrongSql, Inv, SameSql, Loses, Step;
      OwnSqlAlways(before);
      RunKeepsInv(before);
      KnownStep(Run(before), e);
      if e.Dispatch? { KnownIsRight(Run(before), e.t); }
      hide Run;
      forall i | 0 <= i < |events| && events[i].Dispatch? ensures !Mistaken(Run(events[..i]), events[i].t) {
        if i < |before| { assert !Mistaken(Run(before[..i]), before[i].t); } else { assert events[..i] == before; }
      }
    }
    OwnSqlUnlessMistaken(events);
  }

  lemma KnownStep(w: World, e: Event)
    requires Inv(w) && Known(w) && (e.Dispatch? && e.t.name != "" ==> SameSql(w.inflight, e.t))
    ensures Known(Step(w, e))
  {
    hide Inv, Known, SameSql;
    match e
    case Dispatch(t, again) => DispatchKeepsKnown(w, t, again);
    case Backend(ok, code) => if w.wire != [] { BackendKeepsKnown(w, ok, code); }
    case Reconnect => NothingKnown();
    case _ => ReadKeepsKnown(w, e);
  }

  lemma NothingKnown()
    ensures Known(Start())
  {
  }

  // ---- and in exactly these cases it goes wrong ----

  function Reads(k: nat): (r: seq<Event>)
    ensures |r| == k && forall e :: e in r ==> e == READ
  {
    if k == 0 then [] else [READ] + Reads(k - 1)
  }

  /** The backend reads one message of `a` without trouble of its own. */
  lemma OneRead(w: World, n: string, a: seq<Msg>, rest: seq<Msg>)
    requires n != "" && a != [] && w.wire == a + rest && ClosesFirst(!w.skipping, a) && NoDuplicate(n, n in w.held, a)
    ensures var w' := Step(w, READ);
            && w'.wire == a[1..] + rest && w'.c == w.c && (a[0] == MSync ==> !w'.skipping)
            && ClosesFirst(!w'.skipping, a[1..]) && NoDuplicate(n, n in w'.held, a[1..])
            && MayHold(n, n in w'.held, a[1..]) == MayHold(n, n in w.held, a)
            && SqlAfter(n, HeldSql(w', n), a[1..]) == SqlAfter(n, HeldSql(w, n), a)
  {
    if ClosesFirst(false, a[1..]) { ClosesFirstWeaker(a[1..]); }
  }

  /** It reads `a`: the name then stands for exactly what was foreseen. */
  lemma {:induction false} Drained(w: World, n: string, a: seq<Msg>, rest: seq<Msg>)
    requires n != "" && w.wire == a + rest && ClosesFirst(!w.skipping, a) && EndsClean(a) && NoDuplicate(n, n in w.held, a)
    requires a == [] ==> !w.skipping
    ensures var w' := Steps(w, Reads(|a|));
            && w'.wire == rest && w'.c == w.c && !w'.skipping
            && (n in w'.held <==> MayHold(n, n in w.held, a)) && HeldSql(w', n) == SqlAfter(n, HeldSql(w, n), a)
    decreases |a|
  {
    if a != [] {
      OneRead(w, n, a, rest);
      if a[1..] != [] { assert a[1..][|a[1..]| - 1] == a[|a| - 1]; }
      assert Reads(|a|)[0] == READ && Reads(|a|)[1..] == Reads(|a| - 1);
      hide Step, ClosesFirst, NoDuplicate, OnMessage;
      Drained(Step(w, READ), n, a[1..], rest);
    }
  }

  /** After `before` the run can go on by reads alone until a task is bound to other SQL. */
  ghost predicate RunsWrong(before: seq<Event>, more: seq<Event>)
  {
    (forall e :: e in more ==> e.Backend?) && WrongSql(Run(before + more))
  }

  lemma MistakeRunsWrong(w: World, t: Task, again: bool) returns (more: seq<Event>)
    requires Inv(w) && Mistaken(w, t)
    ensures (forall e :: e in more ==> e.Backend?) && WrongSql(Steps(Step(w, Dispatch(t, again)), more))
  {
    var w1 := Step(w, Dispatch(t, again));
    var bind := [MBind(t.name, t.key), MExecute, MSync];
    assert NoDuplicate(t.name, t.name in w.held, w.wire);
    Drained(w1, t.name, w.wire, Messages(w.c, t));
    more := Reads(|w.wire|);
    var w2 := Steps(w1, more);
    assert HeldSql(w2, t.name) == FinalSql(w, t.name);
    assert w2.wire == Messages(w.c, t);
    if Reuses(w.c, t) {
      assert Messages(w.c, t) == bind;
    } else {
      assert Messages(w.c, t) == [MDescribe(t.name)] + bind;
      var w3 := Step(w2, READ);
      assert w3.wire == bind && w3.held == w2.held && !w3.skipping;
      StepsAppend(w1, more, [READ]);
      assert Steps(w2, [READ]) == Steps(w3, []) == w3;
      more := more + [READ];
    }
  }

  /** Exactly the mistaken dispatches make a named execution run SQL that is not its own. */
  lemma MistakenIff(events: seq<Event>, t: Task, again: bool)
    requires NothingLost(events) && NoMistakes(events)
    ensures Mistaken(Run(events), t) <==> exists more :: RunsWrong(events + [Dispatch(t, again)], more)
  {
    RunKeepsInv(events);
    var before := events + [Dispatch(t, again)];
    assert before[..|events|] == events;
    if Mistaken(Run(events), t) {
      hide Mistaken, Inv, Step, WrongSql;
      var more := MistakeRunsWrong(Run(events), t, again);
      RunSteps(before, more);
      assert RunsWrong(before, more);
    } else {
      hide Mistaken, Loses, WrongSql, Inv, Step;
      forall more | RunsWrong(before, more) ensures false {
        var all := before + more;
        assert forall i :: |before| <= i < |all| ==> all[i] in more;
        forall i | 0 <= i < |before|
          ensures (all[i].Dispatch? ==> !Mistaken(Run(all[..i]), all[i].t)) && (all[i].Throw? ==> !Loses(Run(all[..i]), all[i].t))
        {
          if i < |events| { assert all[..i] == events[..i] && all[i] == events[i]; } else { assert all[..i] == events; }
        }
        OwnSqlUnlessMistaken(all);
      }
    }
  }

  /** After `before` the run can go on, with no further throw, to a Parse of a name that is held. */
  ghost predicate ParsesTwice(before: seq<Event>, more: seq<Event>)
  {
    (forall e :: e in more ==> !e.Throw?) && DuplicateParse(Run(before + more))
  }

  lemma LossParsesTwice(w: World, t: Task) returns (more: seq<Event>)
    requires Inv(w) && Loses(w, t)
    ensures (forall e :: e in more ==> !e.Throw?) && DuplicateParse(Steps(Step(w, Throw(t)), more))
  {
    var w1 := Step(w, Throw(t));
    assert Closes(w.c, t) != [] && t.name != "" && !Covered(w1.c, t.name);
    var cycle := Messages(w1.c, t);
    assert Closes(w1.c, t) == [] && cycle[0] == MParse(t.name, t.key);
    var w2 := Step(w1, Dispatch(t, false));
    assert NoDuplicate(t.name, t.name in w.held, w.wire);
    Drained(w2, t.name, w.wire, cycle);
    more := [Dispatch(t, false)] + Reads(|w.wire|);
    assert more[1..] == Reads(|w.wire|);
    assert Steps(w1, more) == Steps(w2, Reads(|w.wire|));
  }

  /** Exactly the throws that lose a name break the promise of the maps. */
  lemma LosesIff(events: seq<Event>, t: Task)
    requires NothingLost(events)
    ensures Loses(Run(events), t) <==> exists more :: ParsesTwice(events + [Throw(t)], more)
  {
    RunKeepsInv(events);
    var before := events + [Throw(t)];
    assert before[..|events|] == events;
    if Loses(Run(events), t) {
      hide Loses, Inv, Step, DuplicateParse;
      var more := LossParsesTwice(Run(events), t);
      RunSteps(before, more);
      assert ParsesTwice(before, more);
    } else {
      hide Loses, DuplicateParse, Inv, Step;
      forall more | ParsesTwice(before, more) ensures false {
        var all := before + more;
        assert forall i :: |before| <= i < |all| ==> all[i] in more;
        forall i | 0 <= i < |before| && all[i].Throw? ensures !Loses(Run(all[..i]), all[i].t) {
          if i < |events| { assert all[..i] == events[..i] && all[i] == events[i]; } else { assert all[..i] == events; }
        }
        NeverDuplicateParse(all);
      }
    }
  }
}
