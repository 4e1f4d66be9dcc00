/** Prepared-statement names: the client's three maps, the messages a task writes, and a backend that
    reads them one by one. */
module Statements {

  /** The SQL and the declared parameter types of a Parse. */
  datatype Key = Key(sql: string, types: seq<nat>)

  /** `name` is empty for an unnamed statement. */
  datatype Task = Task(name: string, key: Key)

  datatype Msg = MClose(name: string) | MParse(name: string, key: Key) | MDescribe(name: string)
               | MBind(name: string, key: Key) | MExecute | MSync

  /** `prepared`: names with their SQL, confirmed by a Describe; `parseInflight`: names whose Parse was
      written but not confirmed; `stale`: names to close before their next Parse. */
  datatype Cache = Cache(prepared: map<string, string>, parseInflight: map<string, Key>, stale: set<string>)

  function NoStatements(): Cache
  {
    Cache(map[], map[], {})
  }

  predicate Reuses(c: Cache, t: Task)
  {
    t.name != "" && t.name in c.prepared && c.prepared[t.name] == t.key.sql
  }

  predicate SharesParse(c: Cache, t: Task)
  {
    t.name != "" && t.name in c.parseInflight && c.parseInflight[t.name] == t.key
  }

  /** Names that this task closes, once per reason: cached under other SQL, stale, in flight under another key. */
  function Closes(c: Cache, t: Task): seq<Msg>
  {
    if t.name == "" || Reuses(c, t) then []
    else
      (if t.name in c.prepared then [MClose(t.name)] else [])
      + (if t.name in c.stale then [MClose(t.name)] else [])
      + (if t.name in c.parseInflight && !SharesParse(c, t) then [MClose(t.name)] else [])
  }

  /** The messages of one command cycle. */
  function Messages(c: Cache, t: Task): seq<Msg>
  {
    Closes(c, t)
    + (if Reuses(c, t) then []
       else (if SharesParse(c, t) then [] else [MParse(t.name, t.key)]) + [MDescribe(t.name)])
    + [MBind(t.name, t.key), MExecute, MSync]
  }

  /** The maps after the task's closes are written. */
  function Forget(c: Cache, t: Task): Cache
  {
    if t.name == "" || Reuses(c, t) then c
    else Cache(c.prepared - {t.name},
               if SharesParse(c, t) then c.parseInflight else c.parseInflight - {t.name},
               c.stale - {t.name})
  }

  /** The maps after the whole task is serialized. */
  function Serialized(c: Cache, t: Task): Cache
  {
    var c1 := Forget(c, t);
    if t.name == "" || Reuses(c, t) || SharesParse(c, t) then c1
    else c1.(parseInflight := c1.parseInflight[t.name := t.key])
  }

  /** The Describe response of `t` arrived. */
  function Cached(c: Cache, t: Task): Cache
  {
    if t.name == "" then c
    else c.(prepared := c.prepared[t.name := t.key.sql], parseInflight := c.parseInflight - {t.name})
  }

  datatype Code = Invalidated | Other

  /** The cycle of `t` ended with an error. `describes`: it asked for a description. */
  function Failed(c: Cache, t: Task, describes: bool, code: Code): Cache
  {
    if t.name == "" then c
    else
      var c1 := if describes && t.name !in c.prepared
                then Cache(c.prepared, if SharesParse(c, t) then c.parseInflight - {t.name} else c.parseInflight,
                           c.stale + {t.name})
                else c;
      if code == Invalidated then c1.(prepared := c1.prepared - {t.name}, stale := c1.stale + {t.name}) else c1
  }

  // ---- client and backend ----

  datatype Flight = Flight(task: Task, describes: bool, error: ErrorState)
  datatype ErrorState = NoError | Error(code: Code)
  datatype Reply = Described | ErrorReply(code: Code) | ReadyForQuery

  /** `wire`: messages written and not yet read by the backend; `skipping`: it discards messages until
      Sync; `held`: its named statements; `replies`: what it sent and the client did not read. `inflight`
      is the client's list of cycles. */
  datatype World = World(c: Cache, inflight: seq<Flight>, wire: seq<Msg>, skipping: bool,
                         held: map<string, Key>, replies: seq<Reply>)

  /** `again`: the task was dispatched before and is retried. */
  datatype Event = Dispatch(t: Task, again: bool) | Throw(t: Task) | ReadReply | DecodeError | Backend(ok: bool, code: Code) | Reconnect

  function Start(): World
  {
    World(NoStatements(), [], [], false, map[], [])
  }

  function OnReply(w: World): World
    requires w.replies != []
  {
    var w1 := w.(replies := w.replies[1..]);
    if w.inflight == [] then w1
    else
      var f := w.inflight[0];
      match w.replies[0]
      case Described => w1.(c := Cached(w.c, f.task))
      case ErrorReply(code) => w1.(inflight := [f.(error := Error(code))] + w.inflight[1..])
      case ReadyForQuery =>
        w1.(inflight := w.inflight[1..],
            c := if f.error.Error? then Failed(w.c, f.task, f.describes, f.error.code) else w.c)
  }

  /** The backend reads one message. `ok`: nothing but the protocol's own rules stands against it. */
  function OnMessage(w: World, ok: bool, code: Code): World
    requires w.wire != []
  {
    var w1 := w.(wire := w.wire[1..]);
    var failed := w1.(skipping := true, replies := w.replies + [ErrorReply(code)]);
    match w.wire[0]
    case MSync => w1.(skipping := false, replies := w.replies + [ReadyForQuery])
    case MClose(n) => if w.skipping then w1 else w1.(held := w.held - {n})
    case MParse(n, key) =>
      if w.skipping then w1
      else if !ok || (n != "" && n in w.held) then failed
      else w1.(held := w.held[n := key])
    case MDescribe(n) =>
      if w.skipping then w1
      else if !ok || n !in w.held then failed
      else w1.(replies := w.replies + [Described])
    case MBind(n, _) =>
      if w.skipping then w1
      else if !ok || n !in w.held then failed
      else w1
    case MExecute => if w.skipping || ok then w1 else failed
  }

  /** A task that throws while it serializes takes its bytes back, but not what it did to the maps. */
  function Step(w: World, e: Event): World
  {
    match e
    case Dispatch(t, again) =>
      w.(c := Serialized(w.c, t), wire := w.wire + Messages(w.c, t),
         inflight := w.inflight + [Flight(t, !Reuses(w.c, t) || again, NoError)])
    case Throw(t) => w.(c := Forget(w.c, t))
    case DecodeError =>
      if w.inflight == [] then w else w.(inflight := [w.inflight[0].(error := Error(Other))] + w.inflight[1..])
    case ReadReply => if w.replies == [] then w else OnReply(w)
    case Backend(ok, code) => if w.wire == [] then w else OnMessage(w, ok, code)
    case Reconnect => Start()
  }

  function Run(events: seq<Event>): World
  {
    if events == [] then Start() else Step(Run(events[..|events| - 1]), events[|events| - 1])
  }

  // ---- what the backend could come to hold ----

  /** Could the backend hold `n` after it read `msgs`, if it held it (`h`) before? Every Parse may succeed. */
  function MayHold(n: string, h: bool, msgs: seq<Msg>): bool
    decreases |msgs|
  {
    if msgs == [] then h
    else MayHold(n, if msgs[0] == MClose(n) then false else if msgs[0].MParse? && msgs[0].name == n then true else h, msgs[1..])
  }

  /** No Parse of `n` in `msgs` can find `n` already held. */
  function NoDuplicate(n: string, h: bool, msgs: seq<Msg>): bool
    decreases |msgs|
  {
    if msgs == [] then true
    else if msgs[0] == MClose(n) then NoDuplicate(n, false, msgs[1..])
    else if msgs[0].MParse? && msgs[0].name == n then !h && NoDuplicate(n, true, msgs[1..])
    else NoDuplicate(n, h, msgs[1..])
  }

  /** A Close, and then a Parse, comes only where no error of its own cycle can have come before it. */
  function ClosesFirst(clean: bool, msgs: seq<Msg>): bool
    decreases |msgs|
  {
    if msgs == [] then true
    else match msgs[0]
      case MClose(_) => clean && ClosesFirst(clean, msgs[1..])
      case MParse(_, _) => clean && ClosesFirst(false, msgs[1..])
      case MSync => ClosesFirst(true, msgs[1..])
      case _ => ClosesFirst(false, msgs[1..])
  }

  predicate EndsClean(msgs: seq<Msg>)
  {
    msgs != [] ==> msgs[|msgs| - 1] == MSync
  }

  ghost predicate Covered(c: Cache, n: string)
  {
    n in c.prepared || n in c.parseInflight || n in c.stale
  }

  /** Any name the backend could hold once it has read everything that was sent is in one of the maps. */
  ghost predicate Coverage(w: World)
  {
    forall n :: n != "" && MayHold(n, n in w.held, w.wire) ==> Covered(w.c, n)
  }

  ghost predicate Inv(w: World)
  {
    && Coverage(w)
    && (forall n :: n != "" ==> NoDuplicate(n, n in w.held, w.wire))
    && ClosesFirst(!w.skipping, w.wire)
    && EndsClean(w.wire)
    && (w.skipping ==> w.wire != [])
  }

  lemma {:induction false} MayHoldAppend(n: string, h: bool, a: seq<Msg>, b: seq<Msg>)
    ensures MayHold(n, h, a + b) == MayHold(n, MayHold(n, h, a), b)
    ensures NoDuplicate(n, h, a + b) == (NoDuplicate(n, h, a) && NoDuplicate(n, MayHold(n, h, a), b))
    decreases |a|
  {
    if a == [] {
      assert a + b == b;
    } else {
      assert (a + b)[1..] == a[1..] + b;
      var h' := if a[0] == MClose(n) then false else if a[0].MParse? && a[0].name == n then true else h;
      MayHoldAppend(n, h', a[1..], b);
    }
  }

  lemma {:induction false} Monotone(n: string, msgs: seq<Msg>)
    ensures MayHold(n, false, msgs) ==> MayHold(n, true, msgs)
    ensures NoDuplicate(n, true, msgs) ==> NoDuplicate(n, false, msgs)
    decreases |msgs|
  {
    if msgs != [] { Monotone(n, msgs[1..]); }
  }

  lemma ClosesFirstWeaker(msgs: seq<Msg>)
    requires ClosesFirst(false, msgs)
    ensures ClosesFirst(true, msgs)
  {
  }

  lemma {:induction false} ClosesFirstAppend(clean: bool, a: seq<Msg>, b: seq<Msg>)
    requires ClosesFirst(clean, a) && ClosesFirst(true, b)
    requires a != [] && EndsClean(a)
    ensures ClosesFirst(clean, a + b)
    decreases |a|
  {
    assert (a + b)[1..] == a[1..] + b;
    if a[1..] == [] {
      assert a[1..] + b == b;
    } else {
      assert a[1..][|a[1..]| - 1] == a[|a| - 1];
      match a[0]
      case MClose(_) => ClosesFirstAppend(clean, a[1..], b);
      case MParse(_, _) => ClosesFirstAppend(false, a[1..], b);
      case MSync => ClosesFirstAppend(true, a[1..], b);
      case _ => ClosesFirstAppend(false, a[1..], b);
    }
  }

  // ---- one cycle, served ----

  /** The backend reads everything that was written, and nothing stands against it. */
  function ReadAll(w: World): World
    decreases |w.wire|
  {
    if w.wire == [] then w else ReadAll(OnMessage(w, true, Other))
  }

  /** The statement is bound and run once, at the end of the cycle. */
  lemma RunsOnce(c: Cache, t: Task)
    ensures var m := Messages(c, t); var n := |m|;
            && n >= 3 && m[n - 3] == MBind(t.name, t.key) && m[n - 2] == MExecute && m[n - 1] == MSync
            && forall i :: 0 <= i < n - 3 ==> !m[i].MBind? && m[i] != MExecute && m[i] != MSync
  {
  }

  lemma ReadMore(w: World, m: Msg, rest: seq<Msg>)
    requires w.wire == [m] + rest
    ensures ReadAll(w) == ReadAll(OnMessage(w, true, Other)) && OnMessage(w, true, Other).wire == rest
  {
    assert w.wire[1..] == rest;
  }

  lemma {:induction false} ClosesRead(w: World, name: string, closes: seq<Msg>, rest: seq<Msg>)
    requires w.wire == closes + rest && !w.skipping && forall x :: x in closes ==> x == MClose(name)
    ensures ReadAll(w) == ReadAll(w.(wire := rest, held := if closes == [] then w.held else w.held - {name}))
    decreases |closes|
  {
    if closes == [] {
      assert w.wire == rest;
    } else {
      assert closes[0] in closes && forall x :: x in closes[1..] ==> x in closes;
      assert w.wire == [MClose(name)] + (closes[1..] + rest);
      ReadMore(w, MClose(name), closes[1..] + rest);
      var w1 := OnMessage(w, true, Other);
      ClosesRead(w1, name, closes[1..], rest);
      assert w.held - {name} - {name} == w.held - {name};
    }
  }

  lemma OnlyCloses(c: Cache, t: Task)
    ensures forall x :: x in Closes(c, t) ==> x == MClose(t.name)
    ensures t.name != "" && !Reuses(c, t) && !SharesParse(c, t) && Covered(c, t.name) ==> Closes(c, t) != []
    ensures Reuses(c, t) ==> Closes(c, t) == []
  {
  }

  /** What a dispatch needs of the backend: a name it holds is in the maps, and a task that leaves out its Parse
      finds its SQL there. */
  ghost predicate Agrees(c: Cache, t: Task, held: map<string, Key>)
  {
    && (t.name != "" && t.name in held ==> Covered(c, t.name))
    && (Reuses(c, t) || SharesParse(c, t) ==> Closes(c, t) == [] && t.name in held && held[t.name].sql == t.key.sql)
  }

  /** The cycle of a task, read by a backend that agrees with the maps: it is described unless its description is
      known, it ends with one ReadyForQuery and no error, the backend then holds the task's SQL under its name, and
      no other name is touched. */
  lemma CycleIsServed(c: Cache, t: Task, held: map<string, Key>)
    requires Agrees(c, t, held)
    ensures var w := ReadAll(World(c, [], Messages(c, t), false, held, []));
            && w.wire == [] && !w.skipping
            && w.replies == (if Reuses(c, t) then [] else [Described]) + [ReadyForQuery]
            && t.name in w.held && w.held[t.name].sql == t.key.sql
            && forall n :: n != t.name ==> (n in w.held <==> n in held) && (n in held ==> w.held[n] == held[n])
  {
    var tail := [MBind(t.name, t.key)] + ([MExecute] + ([MSync] + []));
    var middle := if Reuses(c, t) then tail
                  else if SharesParse(c, t) then [MDescribe(t.name)] + tail
                  else [MParse(t.name, t.key)] + ([MDescribe(t.name)] + tail);
    assert Messages(c, t) == Closes(c, t) + middle;
    var w := World(c, [], Closes(c, t) + middle, false, held, []);
    OnlyCloses(c, t);
    ClosesRead(w, t.name, Closes(c, t), middle);
    var w1 := w.(wire := middle, held := if Closes(c, t) == [] then held else held - {t.name});
    MiddleRead(c, t, w1, tail);
  }

  lemma MiddleRead(c: Cache, t: Task, w: World, tail: seq<Msg>)
    requires tail == [MBind(t.name, t.key)] + ([MExecute] + ([MSync] + []))
    requires w.wire == (if Reuses(c, t) then tail
                        else if SharesParse(c, t) then [MDescribe(t.name)] + tail
                        else [MParse(t.name, t.key)] + ([MDescribe(t.name)] + tail))
    requires !w.skipping && w.replies == []
    requires if Reuses(c, t) || SharesParse(c, t) then t.name in w.held && w.held[t.name].sql == t.key.sql else t.name == "" || t.name !in w.held
    ensures var r := ReadAll(w);
            && r.wire == [] && !r.skipping && r.replies == (if Reuses(c, t) then [] else [Described]) + [ReadyForQuery]
            && t.name in r.held && r.held[t.name].sql == t.key.sql
            && forall n :: n != t.name ==> (n in r.held <==> n in w.held) && (n in w.held ==> r.held[n] == w.held[n])
  {
    var w1, w2 := w, w;
    if !Reuses(c, t) && !SharesParse(c, t) {
      ReadMore(w, MParse(t.name, t.key), [MDescribe(t.name)] + tail);
      w1 := OnMessage(w, true, Other);
    }
    w2 := w1;
    if !Reuses(c, t) {
      ReadMore(w1, MDescribe(t.name), tail);
      w2 := OnMessage(w1, true, Other);
    }
    ReadMore(w2, MBind(t.name, t.key), [MExecute] + ([MSync] + []));
    var w3 := OnMessage(w2, true, Other);
    ReadMore(w3, MExecute, [MSync] + []);
    var w4 := OnMessage(w3, true, Other);
    ReadMore(w4, MSync, []);
  }

  lemma ClosesEffect(c: Cache, t: Task, n: string, h: bool, rest: seq<Msg>)
    ensures MayHold(n, h, Closes(c, t) + rest) == MayHold(n, if n == t.name && Closes(c, t) != [] then false else h, rest)
    ensures NoDuplicate(n, h, Closes(c, t) + rest) == NoDuplicate(n, if n == t.name && Closes(c, t) != [] then false else h, rest)
    ensures ClosesFirst(true, Closes(c, t) + rest) == ClosesFirst(true, rest)
  {
    var a, b, d := if t.name in c.prepared then [MClose(t.name)] else [], if t.name in c.stale then [MClose(t.name)] else [],
                   if t.name in c.parseInflight && !SharesParse(c, t) then [MClose(t.name)] else [];
    assert Closes(c, t) == [] || Closes(c, t) == a + b + d;
    assert forall x :: x in a || x in b || x in d ==> x == MClose(t.name);
    CloseAgain(t.name, n, h, Closes(c, t), rest);
  }

  lemma {:induction false} CloseAgain(m: string, n: string, h: bool, closes: seq<Msg>, rest: seq<Msg>)
    requires forall x :: x in closes ==> x == MClose(m)
    ensures MayHold(n, h, closes + rest) == MayHold(n, if n == m && closes != [] then false else h, rest)
    ensures NoDuplicate(n, h, closes + rest) == NoDuplicate(n, if n == m && closes != [] then false else h, rest)
    ensures ClosesFirst(true, closes + rest) == ClosesFirst(true, rest)
    decreases |closes|
  {
    if closes == [] {
      assert closes + rest == rest;
    } else {
      assert closes[0] in closes;
      assert forall x :: x in closes[1..] ==> x in closes;
      assert closes + rest == [MClose(m)] + (closes[1..] + rest);
      OneClose(m, n, h, closes[1..] + rest);
      CloseAgain(m, n, if n == m then false else h, closes[1..], rest);
    }
  }

  lemma OneClose(m: string, n: string, h: bool, rest: seq<Msg>)
    ensures MayHold(n, h, [MClose(m)] + rest) == MayHold(n, if n == m then false else h, rest)
    ensures NoDuplicate(n, h, [MClose(m)] + rest) == NoDuplicate(n, if n == m then false else h, rest)
    ensures ClosesFirst(true, [MClose(m)] + rest) == ClosesFirst(true, rest)
  {
    assert ([MClose(m)] + rest)[1..] == rest;
  }

  lemma Head(m: Msg, n: string, h: bool, rest: seq<Msg>)
    requires !m.MClose?
    ensures MayHold(n, h, [m] + rest) == MayHold(n, h || (m.MParse? && m.name == n), rest)
    ensures NoDuplicate(n, h, [m] + rest) == ((m.MParse? && m.name == n ==> !h) && NoDuplicate(n, h || (m.MParse? && m.name == n), rest))
    ensures !m.MSync? ==> ClosesFirst(true, [m] + rest) == ClosesFirst(false, rest)
    ensures !m.MSync? && !m.MParse? ==> ClosesFirst(false, [m] + rest) == ClosesFirst(false, rest)
  {
    assert ([m] + rest)[1..] == rest;
  }

  /** What one cycle's messages do to the name they are about, and to the others. */
  lemma CycleEffect(c: Cache, t: Task, n: string, h: bool)
    requires n != ""
    ensures n != t.name ==> MayHold(n, h, Messages(c, t)) == h && NoDuplicate(n, h, Messages(c, t))
    ensures n == t.name ==>
              MayHold(n, h, Messages(c, t)) == ((h && Closes(c, t) == []) || (!Reuses(c, t) && !SharesParse(c, t)))
    ensures n == t.name && (h ==> Covered(c, n)) ==> NoDuplicate(n, h, Messages(c, t))
    ensures ClosesFirst(true, Messages(c, t)) && EndsClean(Messages(c, t)) && Messages(c, t) != []
  {
    var tail := [MBind(t.name, t.key)] + ([MExecute] + ([MSync] + []));
    assert [MBind(t.name, t.key), MExecute, MSync] == tail;
    var h1 := if n == t.name && Closes(c, t) != [] then false else h;
    var h2 := h1 || n == t.name;
    forall g: bool ensures MayHold(n, g, tail) == g && NoDuplicate(n, g, tail) && ClosesFirst(false, tail) && ClosesFirst(true, tail) {
      Head(MSync, n, g, []);
      Head(MExecute, n, g, [MSync] + []);
      Head(MBind(t.name, t.key), n, g, [MExecute] + ([MSync] + []));
      assert ([MSync] + [])[1..] == [] && ClosesFirst(false, [MSync] + []);
    }
    var described := [MDescribe(t.name)] + tail;
    Head(MDescribe(t.name), n, h1, tail);
    Head(MDescribe(t.name), n, h2, tail);
    var parsed := [MParse(t.name, t.key)] + described;
    Head(MParse(t.name, t.key), n, h1, described);
    var rest := if Reuses(c, t) then tail else if SharesParse(c, t) then described else parsed;
    assert Messages(c, t) == Closes(c, t) + rest;
    ClosesEffect(c, t, n, h, rest);
  }

  /** After the task is serialized, its name is covered if the backend could hold it. */
  lemma SerializedCovers(c: Cache, t: Task, n: string, h: bool)
    requires n != "" && (h ==> Covered(c, n))
    ensures MayHold(n, h, Messages(c, t)) ==> Covered(Serialized(c, t), n)
  {
    CycleEffect(c, t, n, h);
  }

  lemma DispatchKeepsInv(w: World, t: Task, again: bool)
    requires Inv(w)
    ensures Inv(Step(w, Dispatch(t, again)))
  {
    hide Covered, Serialized, Messages, Reuses, MayHold, NoDuplicate;
    var w' := Step(w, Dispatch(t, again));
    var cycle := Messages(w.c, t);
    CycleEffect(w.c, t, "s", false);
    if w.wire == [] { assert w'.wire == cycle; } else { ClosesFirstAppend(!w.skipping, w.wire, cycle); }
    forall n | n != ""
      ensures MayHold(n, n in w'.held, w'.wire) ==> Covered(w'.c, n)
      ensures NoDuplicate(n, n in w'.held, w'.wire)
    {
      var h := MayHold(n, n in w.held, w.wire);
      MayHoldAppend(n, n in w.held, w.wire, cycle);
      CycleEffect(w.c, t, n, h);
      SerializedCovers(w.c, t, n, h);
    }
  }

  lemma ReadKeepsInv(w: World)
    requires Inv(w)
    ensures Inv(Step(w, ReadReply)) && Inv(Step(w, DecodeError))
  {
    hide MayHold, NoDuplicate, ClosesFirst, EndsClean;
    assert forall n :: Covered(w.c, n) ==> Covered(Step(w, ReadReply).c, n);
  }

  lemma BackendKeepsName(w: World, ok: bool, code: Code, n: string)
    requires Inv(w) && w.wire != [] && n != ""
    ensures MayHold(n, n in OnMessage(w, ok, code).held, w.wire[1..]) ==> Covered(w.c, n)
    ensures NoDuplicate(n, n in OnMessage(w, ok, code).held, w.wire[1..])
  {
    hide Covered;
    Monotone(n, w.wire[1..]);
    assert MayHold(n, n in w.held, w.wire) ==> Covered(w.c, n);
    assert NoDuplicate(n, n in w.held, w.wire);
    match w.wire[0] {
      case MClose(m) => assert w.skipping ==> !ClosesFirst(!w.skipping, w.wire);
      case MParse(m, key) => assert n in w.held && m == n ==> !NoDuplicate(n, n in w.held, w.wire);
      case _ =>
    }
  }

  lemma BackendKeepsInv(w: World, ok: bool, code: Code)
    requires Inv(w) && w.wire != []
    ensures Inv(OnMessage(w, ok, code))
  {
    var w' := OnMessage(w, ok, code);
    forall n | n != ""
      ensures MayHold(n, n in w'.held, w'.wire) ==> Covered(w'.c, n)
      ensures NoDuplicate(n, n in w'.held, w'.wire)
    {
      BackendKeepsName(w, ok, code, n);
    }
    if w'.wire != [] { assert w'.wire[|w'.wire| - 1] == w.wire[|w.wire| - 1]; }
    if ClosesFirst(false, w'.wire) { ClosesFirstWeaker(w'.wire); }
  }

  /** The task closes its name without a Parse of its own under way: all the client knows of the name goes. */
  predicate Forgets(c: Cache, t: Task)
  {
    Closes(c, t) != [] && !SharesParse(c, t)
  }

  /** It throws after it forgot a name that the backend could hold: the Close is taken back with its bytes. */
  ghost predicate Loses(w: World, t: Task)
  {
    Forgets(w.c, t) && MayHold(t.name, t.name in w.held, w.wire)
  }

  /** A task that throws while it serializes keeps the invariant exactly if it loses no name. */
  lemma ThrowKeepsInvIff(w: World, t: Task)
    requires Inv(w)
    ensures Inv(Step(w, Throw(t))) <==> !Loses(w, t)
  {
    var w' := Step(w, Throw(t));
    assert forall n :: n != t.name ==> (Covered(w.c, n) <==> Covered(w'.c, n));
    if Forgets(w.c, t) {
      assert t.name != "" && !Covered(w'.c, t.name);
    } else {
      assert Covered(w.c, t.name) && t.name != "" ==> Covered(w'.c, t.name);
    }
  }

  /** The hypothesis on serialization: no task that throws has closed a name that the backend could hold. */
  ghost predicate NothingLost(events: seq<Event>)
  {
    forall i :: 0 <= i < |events| && events[i].Throw? ==> !Loses(Run(events[..i]), events[i].t)
  }

  /** Over every run of client and backend the maps cover what the backend could hold. */
  lemma {:induction false} RunKeepsInv(events: seq<Event>)
    requires NothingLost(events)
    ensures Inv(Run(events))
  {
    if events != [] {
      var before, e := events[..|events| - 1], events[|events| - 1];
      assert forall i :: 0 <= i < |before| ==> before[..i] == events[..i];
      RunKeepsInv(before);
      var w := Run(before);
      match e
      case Dispatch(t, again) => DispatchKeepsInv(w, t, again);
      case Throw(t) => ThrowKeepsInvIff(w, t);
      case Backend(ok, code) => if w.wire != [] { BackendKeepsInv(w, ok, code); }
      case _ => ReadKeepsInv(w);
    }
  }

  /** The backend is about to execute a Parse of a name that it holds. */
  ghost predicate DuplicateParse(w: World)
  {
    && w.wire != [] && !w.skipping
    && w.wire[0].MParse? && w.wire[0].name != "" && w.wire[0].name in w.held
  }

  /** The promise of the three maps: the backend never reads a Parse for a name it already holds,
      across bursts, errors, retries, reuse of a name with new SQL and reconnects. */
  lemma NeverDuplicateParse(events: seq<Event>)
    requires NothingLost(events)
    ensures !DuplicateParse(Run(events))
  {
    RunKeepsInv(events);
  }

  // ---- which SQL a name stands for ----

  /** The backend is about to bind a named statement whose SQL is not the task's. */
  ghost predicate WrongSql(w: World)
  {
    && w.wire != [] && !w.skipping && w.wire[0].MBind? && w.wire[0].name != ""
    && w.wire[0].name in w.held && w.held[w.wire[0].name].sql != w.wire[0].key.sql
  }

  ghost predicate Agree(sqlOf: string -> string, w: World)
  {
    && (forall n :: n in w.held && n != "" ==> w.held[n].sql == sqlOf(n))
    && (forall m :: m in w.wire && (m.MParse? || m.MBind?) && m.name != "" ==> m.key.sql == sqlOf(m.name))
  }

  lemma DispatchAgrees(sqlOf: string -> string, w: World, t: Task, again: bool)
    requires Agree(sqlOf, w) && (t.name != "" ==> t.key.sql == sqlOf(t.name))
    ensures Agree(sqlOf, Step(w, Dispatch(t, again)))
  {
    hide Messages, Serialized, Reuses;
    ParsesAndBinds(w.c, t);
    var w' := Step(w, Dispatch(t, again));
    assert w'.wire == w.wire + Messages(w.c, t) && w'.held == w.held;
  }

  lemma ParsesAndBinds(c: Cache, t: Task)
    ensures forall m :: m in Messages(c, t) && (m.MParse? || m.MBind?) ==> m.name == t.name && m.key == t.key
  {
    hide Reuses, SharesParse;
    assert forall m :: m in Closes(c, t) ==> m.MClose?;
  }

  lemma BackendAgrees(sqlOf: string -> string, w: World, ok: bool, code: Code)
    requires Agree(sqlOf, w) && w.wire != []
    ensures Agree(sqlOf, OnMessage(w, ok, code))
  {
    assert w.wire[0] in w.wire;
  }

  lemma StepAgrees(sqlOf: string -> string, w: World, e: Event)
    requires Agree(sqlOf, w)
    requires e.Dispatch? && e.t.name != "" ==> e.t.key.sql == sqlOf(e.t.name)
    ensures Agree(sqlOf, Step(w, e))
  {
    match e
    case Dispatch(t, again) => DispatchAgrees(sqlOf, w, t, again);
    case Backend(ok, code) => if w.wire != [] { BackendAgrees(sqlOf, w, ok, code); }
    case _ =>
  }

  lemma AgreeIsRight(sqlOf: string -> string, w: World)
    requires Agree(sqlOf, w)
    ensures !WrongSql(w)
  {
    if w.wire != [] { assert w.wire[0] in w.wire; }
  }

  /** If every name is used with one SQL text only, every named execution runs its own SQL. */
  lemma {:induction false} OneSqlPerName(sqlOf: string -> string, events: seq<Event>)
    requires forall e :: e in events && e.Dispatch? && e.t.name != "" ==> e.t.key.sql == sqlOf(e.t.name)
    ensures Agree(sqlOf, Run(events)) && !WrongSql(Run(events))
  {
    hide Step, WrongSql;
    if events != [] {
      var before := events[..|events| - 1];
      OneSqlPerName(sqlOf, before);
      StepAgrees(sqlOf, Run(before), events[|events| - 1]);
    }
    AgreeIsRight(sqlOf, Run(events));
  }

  // ---- two inputs that break the promises ----

  const INSERT := Key("insert", [])
  const SELECT := Key("select", [])
  const USE_INSERT := Task("s", INSERT)
  const USE_SELECT := Task("s", SELECT)

  function Steps(w: World, events: seq<Event>): World
    decreases |events|
  {
    if events == [] then w else Steps(Step(w, events[0]), events[1..])
  }

  lemma {:induction false} RunSteps(before: seq<Event>, events: seq<Event>)
    ensures Run(before + events) == Steps(Run(before), events)
    decreases |events|
  {
    if events == [] {
      assert before + events == before;
    } else {
      assert before + events == (before + [events[0]]) + events[1..];
      RunSteps(before + [events[0]], events[1..]);
      assert (before + [events[0]])[..|before|] == before;
    }
  }

  lemma {:induction false} StepsAppend(w: World, a: seq<Event>, b: seq<Event>)
    ensures Steps(w, a + b) == Steps(Steps(w, a), b)
    decreases |a|
  {
    if a == [] {
      assert a + b == b;
    } else {
      assert (a + b)[1..] == a[1..] + b;
      StepsAppend(Step(w, a[0]), a[1..], b);
    }
  }

  const READ := Backend(true, Other)
  const READ5: seq<Event> := [READ, READ, READ, READ, READ]

  function FirstUse(key: Key): seq<Msg>
  {
    [MParse("s", key), MDescribe("s"), MBind("s", key), MExecute, MSync]
  }

  /** The backend reads one first-use cycle of `s` without an error. */
  lemma BackendReadsFirstUse(w: World, key: Key, rest: seq<Msg>)
    requires w.wire == FirstUse(key) + rest && !w.skipping && "s" !in w.held
    ensures Steps(w, READ5) == w.(wire := rest, held := w.held["s" := key], replies := w.replies + [Described, ReadyForQuery])
  {
    var held := w.held["s" := key];
    var w1 := w.(wire := [MDescribe("s"), MBind("s", key), MExecute, MSync] + rest, held := held);
    var w2 := w1.(wire := [MBind("s", key), MExecute, MSync] + rest, replies := w.replies + [Described]);
    var w3 := w2.(wire := [MExecute, MSync] + rest);
    var w4 := w3.(wire := [MSync] + rest);
    var w5 := w4.(wire := rest, replies := w.replies + [Described, ReadyForQuery]);
    assert w.wire[1..] == w1.wire && w1.wire[1..] == w2.wire && w2.wire[1..] == w3.wire && w3.wire[1..] == w4.wire && w4.wire[1..] == rest;
    assert w2.replies + [ReadyForQuery] == w5.replies;
    assert Step(w, READ) == w1 && Step(w1, READ) == w2 && Step(w2, READ) == w3 && Step(w3, READ) == w4 && Step(w4, READ) == w5;
    hide Step;
    assert Steps(w4, [READ]) == w5;
    assert [READ, READ][1..] == [READ] && Steps(w3, [READ, READ]) == w5;
    assert [READ, READ, READ][1..] == [READ, READ] && Steps(w2, [READ, READ, READ]) == w5;
    assert [READ, READ, READ, READ][1..] == [READ, READ, READ] && Steps(w1, [READ, READ, READ, READ]) == w5;
    assert READ5[1..] == [READ, READ, READ, READ];
  }

  /** Without the hypothesis on serialization the promise is false: `s` is prepared and confirmed, a
      task with other SQL closes it in the batch and then throws, so the Close never leaves, and the next
      use parses a name the backend still holds. */
  lemma ThrowBreaksThePromise()
    ensures DuplicateParse(Run([Dispatch(USE_INSERT, false)] + READ5 + [ReadReply, Throw(USE_SELECT), Dispatch(USE_INSERT, false)]))
  {
    var w0 := Start();
    var w1 := Step(w0, Dispatch(USE_INSERT, false));
    assert Messages(w0.c, USE_INSERT) == FirstUse(INSERT) + [];
    BackendReadsFirstUse(w1, INSERT, []);
    var w2 := Steps(w1, READ5);
    var tail := [ReadReply, Throw(USE_SELECT), Dispatch(USE_INSERT, false)];
    ThrowTail(w2);
    assert [Dispatch(USE_INSERT, false)][1..] == [];
    StepsAppend(w0, [Dispatch(USE_INSERT, false)], READ5);
    StepsAppend(w0, [Dispatch(USE_INSERT, false)] + READ5, tail);
    RunSteps([], [Dispatch(USE_INSERT, false)] + READ5 + tail);
    assert [] + ([Dispatch(USE_INSERT, false)] + READ5 + tail) == [Dispatch(USE_INSERT, false)] + READ5 + tail;
  }

  lemma ThrowTail(w: World)
    requires w.c == Cache(map[], map["s" := INSERT], {}) && w.inflight == [Flight(USE_INSERT, true, NoError)]
    requires w.wire == [] && !w.skipping && "s" in w.held && w.replies == [Described, ReadyForQuery]
    ensures DuplicateParse(Steps(w, [ReadReply, Throw(USE_SELECT), Dispatch(USE_INSERT, false)]))
  {
    var w1 := Step(w, ReadReply);
    assert w1.c == Cache(map["s" := "insert"], map[], {});
    var w2 := Step(w1, Throw(USE_SELECT));
    assert "select" != "insert" by { assert |"select"| == |"insert"| && "select"[0] != "insert"[0]; }
    assert w2.c == Cache(map[], map[], {});
    var w3 := Step(w2, Dispatch(USE_INSERT, false));
    assert Messages(w2.c, USE_INSERT)[0] == MParse("s", INSERT);
    var es := [ReadReply, Throw(USE_SELECT), Dispatch(USE_INSERT, false)];
    assert es[1..] == [Throw(USE_SELECT), Dispatch(USE_INSERT, false)] && es[1..][1..] == [Dispatch(USE_INSERT, false)];
    assert [Dispatch(USE_INSERT, false)][1..] == [];
    assert Steps(w2, [Dispatch(USE_INSERT, false)]) == Steps(w3, []) == w3;
    assert Steps(w1, es[1..]) == w3;
  }

  const BURST: seq<Event> := [Dispatch(USE_INSERT, false), Dispatch(USE_SELECT, false)]
  const THIRD: seq<Event> := [ReadReply, Dispatch(USE_INSERT, false), READ]

  /** A name used with two SQL texts in one burst: the first Describe response overwrites what the map
      says of the name, so a third task with the first SQL is bound to the second statement. */
  lemma TwoSqlsInOneBurst()
    ensures WrongSql(Run(BURST + READ5 + THIRD + READ5))
  {
    var rest := [MClose("s")] + FirstUse(SELECT);
    var w1 := BurstSent(rest);
    BackendReadsFirstUse(w1, INSERT, rest);
    var w2 := Steps(w1, READ5);
    ThirdReuses(w2, rest);
    var w3 := Steps(w2, THIRD);
    BackendReadsFirstUse(w3, SELECT, [MBind("s", INSERT), MExecute, MSync]);
    assert SELECT.sql[0] != INSERT.sql[0];
    StepsAppend(Start(), BURST, READ5);
    StepsAppend(Start(), BURST + READ5, THIRD);
    StepsAppend(Start(), BURST + READ5 + THIRD, READ5);
    RunSteps([], BURST + READ5 + THIRD + READ5);
    assert [] + (BURST + READ5 + THIRD + READ5) == BURST + READ5 + THIRD + READ5;
  }

  lemma BurstSent(rest: seq<Msg>) returns (w: World)
    requires rest == [MClose("s")] + FirstUse(SELECT)
    ensures w == Steps(Start(), BURST)
    ensures w == World(Cache(map[], map["s" := SELECT], {}), [Flight(USE_INSERT, true, NoError), Flight(USE_SELECT, true, NoError)],
                       FirstUse(INSERT) + rest, false, map[], [])
  {
    var w1 := Step(Start(), BURST[0]);
    assert w1.c == Cache(map[], map["s" := INSERT], {}) && w1.wire == FirstUse(INSERT);
    w := Step(w1, BURST[1]);
    assert SELECT.sql[0] != INSERT.sql[0];
    assert Messages(w1.c, USE_SELECT) == rest;
    assert w.c == Cache(map[], map["s" := SELECT], {});
    assert BURST[1..] == [BURST[1]] && BURST[1..][1..] == [];
    assert Steps(w1, BURST[1..]) == Steps(w, []) == w;
  }

  lemma ThirdReuses(w: World, rest: seq<Msg>)
    requires w == World(Cache(map[], map["s" := SELECT], {}), [Flight(USE_INSERT, true, NoError), Flight(USE_SELECT, true, NoError)],
                        rest, false, map["s" := INSERT], [Described, ReadyForQuery])
    requires rest == [MClose("s")] + FirstUse(SELECT)
    ensures Steps(w, THIRD).wire == FirstUse(SELECT) + [MBind("s", INSERT), MExecute, MSync]
    ensures !Steps(w, THIRD).skipping && "s" !in Steps(w, THIRD).held
  {
    var w1 := Step(w, ReadReply);
    assert w1.c == Cache(map["s" := "insert"], map[], {});
    var w2 := Step(w1, Dispatch(USE_INSERT, false));
    assert Messages(w1.c, USE_INSERT) == [MBind("s", INSERT), MExecute, MSync];
    assert w2.wire == [MClose("s")] + (FirstUse(SELECT) + [MBind("s", INSERT), MExecute, MSync]);
    var w3 := Step(w2, READ);
    assert w3.wire == w2.wire[1..] == FirstUse(SELECT) + [MBind("s", INSERT), MExecute, MSync];
    assert THIRD[1..] == [Dispatch(USE_INSERT, false), READ] && THIRD[1..][1..] == [READ] && [READ][1..] == [];
    assert Steps(w2, [READ]) == Steps(w3, []) == w3;
    assert Steps(w1, THIRD[1..]) == w3;
  }

  // ---- the maps as fields ----

  lemma NoCloses(c: Cache, t: Task)
    requires t.name == "" || Reuses(c, t)
    ensures Closes(c, t) == []
  {
  }

  /** The next use of the name, whatever its SQL, closes the name before anything else. */
  ghost predicate ClosedNext(c: Cache, n: string)
  {
    forall t: Task :: t.name == n ==> Messages(c, t)[0] == MClose(n)
  }

  lemma StaleIsClosedNext(c: Cache, n: string)
    requires n != "" && n in c.stale && n !in c.prepared
    ensures ClosedNext(c, n)
  {
    forall t: Task | t.name == n ensures Messages(c, t)[0] == MClose(n) {
      assert Closes(c, t)[0] == MClose(n);
    }
  }

  /** `world` is what is around the maps: the tasks in flight, the messages and replies on their way, the backend. */
  class StatementCache {
    var prepared: map<string, string>
    var parseInflight: map<string, Key>
    var staleStatements: set<string>
    ghost var world: World

    ghost function Abs(): Cache
      reads this
    {
      Cache(prepared, parseInflight, staleStatements)
    }

    /** The maps cover every name that the backend could hold once it has read what was sent, and no Parse
        of a held name is on its way. */
    ghost predicate Valid()
      reads this
    {
      world.c == Abs() && Inv(world)
    }

    constructor ()
      ensures Valid() && world == Start()
    {
      prepared, parseInflight, staleStatements := map[], map[], {};
      world := Start();
    }

    /** Closes the name for each reason there is to: other SQL, a stale statement, another Parse under way. */
    method WriteCloses(t: Task) returns (out: seq<Msg>)
      requires t.name != "" && !Reuses(Abs(), t)
      modifies this`prepared, this`parseInflight, this`staleStatements
      ensures out == Closes(old(Abs()), t) && Abs() == Forget(old(Abs()), t)
    {
      out := [];
      if t.name in prepared {
        out := out + [MClose(t.name)];
        prepared := prepared - {t.name};
      }
      if t.name in staleStatements {
        out := out + [MClose(t.name)];
        staleStatements := staleStatements - {t.name};
      }
      if t.name in parseInflight && parseInflight[t.name] != t.key {
        out := out + [MClose(t.name)];
        parseInflight := parseInflight - {t.name};
      }
    }

    /** Serializes `t` into the batch. `throws`: a value fails to encode, and the bytes are taken back; the
        maps then fail their promise exactly if the task had closed a name that the backend could hold. */
    method StartTask(t: Task, throws: bool, batch: seq<Msg>, ghost again: bool) returns (sent: seq<Msg>, reused: bool)
      requires Valid()
      modifies this
      ensures sent == if throws then batch else batch + Messages(old(Abs()), t)
      ensures reused == Reuses(old(Abs()), t)
      ensures world == Step(old(world), if throws then Throw(t) else Dispatch(t, again)) && world.c == Abs()
      ensures Valid() <==> !(throws && Loses(old(world), t))
    {
      sent, reused := Serialize(t, throws, batch);
      if throws { ThrowKeepsInvIff(world, t); } else { DispatchKeepsInv(world, t, again); }
      hide Inv, Messages, Serialized, Forget, Loses;
      world := Step(world, if throws then Throw(t) else Dispatch(t, again));
    }

    method Serialize(t: Task, throws: bool, batch: seq<Msg>) returns (sent: seq<Msg>, reused: bool)
      modifies this`prepared, this`parseInflight, this`staleStatements
      ensures sent == if throws then batch else batch + Messages(old(Abs()), t)
      ensures Abs() == if throws then Forget(old(Abs()), t) else Serialized(old(Abs()), t)
      ensures reused == Reuses(old(Abs()), t)
    {
      hide Closes;
      var mark := |batch|;
      var out: seq<Msg> := [];
      reused := t.name != "" && t.name in prepared && prepared[t.name] == t.key.sql;
      var writesParse := false;
      if !reused {
        if t.name != "" { out := WriteCloses(t); } else { NoCloses(Abs(), t); }
        if t.name == "" || t.name !in parseInflight || parseInflight[t.name] != t.key {
          out := out + [MParse(t.name, t.key)];
          writesParse := t.name != "";
        }
        out := out + [MDescribe(t.name)];
      } else {
        NoCloses(Abs(), t);
      }
      out := out + [MBind(t.name, t.key), MExecute, MSync];
      sent := batch + out;
      if throws {
        sent := sent[..mark];
        return;
      }
      if writesParse { parseInflight := parseInflight[t.name := t.key]; }
    }

    /** The Describe response for the oldest task arrived: from now on that SQL is run without a Parse. */
    method CacheStatement(t: Task)
      requires Valid() && world.replies != [] && world.replies[0] == Described
      requires world.inflight != [] && world.inflight[0].task == t
      modifies this
      ensures Valid() && world == Step(old(world), ReadReply)
      ensures t.name != "" ==> Reuses(Abs(), t) && Messages(Abs(), t) == [MBind(t.name, t.key), MExecute, MSync] && t.name !in parseInflight
      ensures forall n :: n != t.name ==> (Covered(old(Abs()), n) <==> Covered(Abs(), n))
    {
      ReadKeepsInv(world);
      hide Inv;
      if t.name != "" {
        prepared := prepared[t.name := t.key.sql];
        parseInflight := parseInflight - {t.name};
        NoCloses(Abs(), t);
      }
      world := Step(world, ReadReply);
    }

    /** ReadyForQuery for the oldest task, whose cycle ended with an error: a name that the error leaves in
        doubt is closed before its next use. */
    method OnCycleFailed(t: Task, describes: bool, code: Code)
      requires Valid() && world.replies != [] && world.replies[0] == ReadyForQuery
      requires world.inflight != [] && world.inflight[0] == Flight(t, describes, Error(code))
      modifies this
      ensures Valid() && world == Step(old(world), ReadReply)
      ensures t.name != "" && (code == Invalidated || (describes && t.name !in old(prepared))) ==> ClosedNext(Abs(), t.name)
      ensures t.name != "" && code != Invalidated && (!describes || t.name in old(prepared)) ==> Abs() == old(Abs())
    {
      ReadKeepsInv(world);
      hide Inv, Messages, ClosedNext;
      FailMaps(t, describes, code);
      if t.name != "" && t.name in staleStatements && t.name !in prepared { StaleIsClosedNext(Abs(), t.name); }
      world := Step(world, ReadReply);
    }

    method FailMaps(t: Task, describes: bool, code: Code)
      modifies this`prepared, this`parseInflight, this`staleStatements
      ensures Abs() == Failed(old(Abs()), t, describes, code)
    {
      if t.name == "" { return; }
      if describes && t.name !in prepared {
        if t.name in parseInflight && parseInflight[t.name] == t.key { parseInflight := parseInflight - {t.name}; }
        staleStatements := staleStatements + {t.name};
      }
      if code == Invalidated {
        prepared := prepared - {t.name};
        staleStatements := staleStatements + {t.name};
      }
    }

    /** What happens meanwhile and does not touch the maps: the backend reads, an answer is noted. */
    ghost method Meanwhile(e: Event)
      requires Valid() && (e.Backend? || e.ReadReply? || e.DecodeError?) && Step(world, e).c == world.c
      modifies this`world
      ensures Valid() && world == Step(old(world), e)
    {
      ReadKeepsInv(world);
      if e.Backend? && world.wire != [] { BackendKeepsInv(world, e.ok, e.code); }
      hide Inv;
      world := Step(world, e);
    }

    /** A new socket, and with it a new backend. */
    method Clear()
      requires Valid()
      modifies this
      ensures Valid() && world == Step(old(world), Reconnect)
    {
      prepared, parseInflight, staleStatements := map[], map[], {};
      world := Start();
    }
  }
}
