/** The main loop of the server and its client threads, step by step and interleaved in any way. */
module ThreadAdmission {

  const MAX_CLIENTS_THREADS := 0x4000

  /** What the thread of a client has done so far. */
  datatype Thread = NotStarted | Working | Uncounted | Closed | Finished

  /** One accepted connection: how often its socket was closed and its thread argument freed. `lapsed`: the thread
      was started and then reported as not started. */
  datatype Conn = Conn(thread: Thread, holdsArg: bool, closed: nat, freed: nat, lapsed: bool)

  /** Where the main thread is, and with which connection. */
  datatype Main =
    | Accepting
    | HasSocket(c: nat)
    | HasArg(c: nat)
    | Reserved(c: nat)
    | Started(c: nat)
    | NotCreated(c: nat)
    | GivingBack(c: nat)
    | Freeing(c: nat)
    | Closing(c: nat)

  datatype State = State(counter: int, main: Main, conns: seq<Conn>)

  const START := State(0, Accepting, [])

  datatype Action =
    | Accept
    | Calloc(ok: bool)
    | AddCounter
    | AttrInitFails
    | PthreadCreate(ok: bool)
    | AttrDestroy(ok: bool)
    | RemoveCounter
    | FreeArg
    | CloseSocket
    | ThreadRemovesCounter(c: nat)
    | ThreadCloses(c: nat)
    | ThreadFrees(c: nat)

  predicate Next(s: State, a: Action, t: State) {
    match a
    case Accept =>
      s.main.Accepting?
      && t == s.(main := HasSocket(|s.conns|), conns := s.conns + [Conn(NotStarted, false, 0, 0, false)])
    case Calloc(ok) =>
      s.main.HasSocket? && s.main.c < |s.conns|
      && t == if ok
              then s.(main := HasArg(s.main.c), conns := s.conns[s.main.c := s.conns[s.main.c].(holdsArg := true)])
              else s.(main := Closing(s.main.c))
    case AddCounter =>
      s.main.HasArg?
      && t == if s.counter >= MAX_CLIENTS_THREADS then s.(main := Freeing(s.main.c))
              else s.(counter := s.counter + 1, main := Reserved(s.main.c))
    case AttrInitFails => s.main.Reserved? && t == s.(main := GivingBack(s.main.c))
    case PthreadCreate(ok) =>
      s.main.Reserved? && s.main.c < |s.conns|
      && t == if ok
              then s.(main := Started(s.main.c), conns := s.conns[s.main.c := s.conns[s.main.c].(thread := Working)])
              else s.(main := NotCreated(s.main.c))
    case AttrDestroy(ok) =>
      || (s.main.NotCreated? && t == s.(main := GivingBack(s.main.c)))
      || (s.main.Started? && s.main.c < |s.conns|
          && t == if ok then s.(main := Accepting)
                  else s.(main := GivingBack(s.main.c),
                      conns := s.conns[s.main.c := s.conns[s.main.c].(lapsed := true)]))
    case RemoveCounter => s.main.GivingBack? && t == s.(counter := s.counter - 1, main := Freeing(s.main.c))
    case FreeArg =>
      s.main.Freeing? && s.main.c < |s.conns|
      && t == s.(main := Closing(s.main.c),
          conns := s.conns[s.main.c := s.conns[s.main.c].(freed := s.conns[s.main.c].freed + 1)])
    case CloseSocket =>
      s.main.Closing? && s.main.c < |s.conns|
      && t == s.(main := Accepting,
          conns := s.conns[s.main.c := s.conns[s.main.c].(closed := s.conns[s.main.c].closed + 1)])
    case ThreadRemovesCounter(c) =>
      c < |s.conns| && s.conns[c].thread.Working?
      && t == s.(counter := s.counter - 1, conns := s.conns[c := s.conns[c].(thread := Uncounted)])
    case ThreadCloses(c) =>
      c < |s.conns| && s.conns[c].thread.Uncounted?
      && t == s.(conns := s.conns[c := s.conns[c].(thread := Closed, closed := s.conns[c].closed + 1)])
    case ThreadFrees(c) =>
      c < |s.conns| && s.conns[c].thread.Closed?
      && t == s.(conns := s.conns[c := s.conns[c].(thread := Finished, freed := s.conns[c].freed + 1)])
  }

  ghost predicate RunOf(states: seq<State>, actions: seq<Action>) {
    && |states| == |actions| + 1 && states[0] == START
    && forall i :: 0 <= i < |actions| ==> Next(states[i], actions[i], states[i + 1])
  }

  /******* counting *******/

  function Share(k: Conn): int {
    (if k.thread.Working? then 1 else 0) - (if k.lapsed then 1 else 0)
  }

  /** Threads that still count, less the lapses. */
  function Shares(conns: seq<Conn>): int {
    if conns == [] then 0 else Shares(conns[..|conns| - 1]) + Share(conns[|conns| - 1])
  }

  function WorkingThreads(conns: seq<Conn>): nat {
    if conns == [] then 0
    else WorkingThreads(conns[..|conns| - 1]) + if conns[|conns| - 1].thread.Working? then 1 else 0
  }

  lemma {:induction false} SharesUpdate(conns: seq<Conn>, c: nat, k: Conn)
    requires c < |conns|
    ensures Shares(conns[c := k]) == Shares(conns) - Share(conns[c]) + Share(k)
  {
    var n := |conns| - 1;
    if c == n {
      assert conns[c := k][..n] == conns[..n];
    } else {
      SharesUpdate(conns[..n], c, k);
      assert conns[c := k][..n] == conns[..n][c := k];
    }
  }

  lemma {:induction false} SharesWithoutLapses(conns: seq<Conn>)
    requires forall c :: 0 <= c < |conns| ==> !conns[c].lapsed
    ensures Shares(conns) == WorkingThreads(conns)
  {
    if conns != [] { SharesWithoutLapses(conns[..|conns| - 1]); }
  }

  /** The main thread has counted a client that no thread has taken over. */
  function Reservation(m: Main): nat {
    if m.Reserved? || m.NotCreated? || m.GivingBack? then 1 else 0
  }

  /******* ownership *******/

  predicate WithMain(m: Main, c: nat) {
    !m.Accepting? && m.c == c
  }

  /** What the main thread leaves to no thread, or wrongly thinks it does, it cleans up itself. */
  predicate Disowned(k: Conn) {
    k.thread.NotStarted? || k.lapsed
  }

  predicate ConnFits(m: Main, k: Conn, c: nat) {
    && k.closed == (if k.thread.Closed? || k.thread.Finished? then 1 else 0)
                   + (if Disowned(k) && !WithMain(m, c) then 1 else 0)
    && k.freed == (if k.thread.Finished? then 1 else 0)
                  + (if Disowned(k) && k.holdsArg && (!WithMain(m, c) || m.Closing?) then 1 else 0)
    && (!k.thread.NotStarted? ==> k.holdsArg)
    && (k.lapsed ==> !k.thread.NotStarted?)
    && (WithMain(m, c) ==>
          && (k.holdsArg <==> !m.HasSocket? && !(m.Closing? && !k.holdsArg))
          && (m.HasSocket? || m.HasArg? || m.Reserved? || m.NotCreated? ==> k.thread.NotStarted? && !k.lapsed)
          && (m.Started? ==> !k.thread.NotStarted? && !k.lapsed)
          && (m.GivingBack? || m.Freeing? ==> k.thread.NotStarted? || k.lapsed)
          && (m.Closing? ==> k.thread.NotStarted? || k.lapsed))
  }

  predicate Accounted(s: State) {
    && (!s.main.Accepting? ==> s.main.c < |s.conns|)
    && s.counter == Shares(s.conns) + Reservation(s.main)
    && s.counter <= MAX_CLIENTS_THREADS
    && forall c :: 0 <= c < |s.conns| ==> ConnFits(s.main, s.conns[c], c)
  }

  lemma NextAccounts(s: State, a: Action, t: State)
    requires Accounted(s) && Next(s, a, t)
    ensures Accounted(t)
  {
    hide Shares, ConnFits, Next;
    NextCounts(s, a, t);
    forall c | 0 <= c < |t.conns| ensures ConnFits(t.main, t.conns[c], c) {
      NextFits(s, a, t, c);
    }
  }

  /** The counter moves with the threads that count and the main thread's reservation. */
  lemma NextCounts(s: State, a: Action, t: State)
    requires Accounted(s) && Next(s, a, t)
    ensures (!t.main.Accepting? ==> t.main.c < |t.conns|) && t.counter <= MAX_CLIENTS_THREADS
    ensures t.counter == Shares(t.conns) + Reservation(t.main)
  {
    hide Shares;
    var c := Touched(s, a);
    if a.Accept? {
      SharesAppend(s.conns, t.conns[|s.conns|]);
    } else if c < |s.conns| {
      assert ConnFits(s.main, s.conns[c], c);
      SharesUpdate(s.conns, c, t.conns[c]);
      assert t.conns == s.conns[c := t.conns[c]];
    }
  }

  lemma NextFits(s: State, a: Action, t: State, c: nat)
    requires Accounted(s) && Next(s, a, t) && c < |t.conns|
    ensures ConnFits(t.main, t.conns[c], c)
  {
    hide Shares;
    if c < |s.conns| {
      assert ConnFits(s.main, s.conns[c], c);
    }
  }

  function Touched(s: State, a: Action): nat {
    match a
    case ThreadRemovesCounter(c) => c
    case ThreadCloses(c) => c
    case ThreadFrees(c) => c
    case _ => if s.main.Accepting? then |s.conns| else s.main.c
  }

  lemma SharesAppend(conns: seq<Conn>, k: Conn)
    ensures Shares(conns + [k]) == Shares(conns) + Share(k)
  {
    assert (conns + [k])[..|conns|] == conns;
  }

  lemma {:induction false} RunAccounts(states: seq<State>, actions: seq<Action>, n: nat)
    requires RunOf(states, actions) && n < |states|
    ensures Accounted(states[n])
  {
    hide Next, Accounted;
    if n == 0 {
      StartAccounts();
    } else {
      RunAccounts(states, actions, n - 1);
      NextAccounts(states[n - 1], actions[n - 1], states[n]);
    }
  }

  lemma StartAccounts()
    ensures Accounted(START)
  {
  }

  /******* what this means *******/

  ghost predicate NoLapse(s: State) {
    forall c :: 0 <= c < |s.conns| ==> !s.conns[c].lapsed
  }

  /** Unless `pthread_attr_destroy` failed after a thread was started: the counter is the number of threads that have
      not counted themselves out plus the main thread's reservation, it stays within its limits, and each socket is
      closed and each argument freed at most once, exactly once when its handler is finished, and never while a
      thread still uses them. */
  lemma CountsAndOwnership(states: seq<State>, actions: seq<Action>, n: nat)
    requires RunOf(states, actions) && n < |states| && NoLapse(states[n])
    ensures var s := states[n];
            && s.counter == WorkingThreads(s.conns) + Reservation(s.main)
            && 0 <= s.counter <= MAX_CLIENTS_THREADS
            && forall c :: 0 <= c < |s.conns| ==>
                 && s.conns[c].closed <= 1 && s.conns[c].freed <= 1
                 && (s.conns[c].thread.Working? || s.conns[c].thread.Uncounted? ==>
                     s.conns[c].closed == s.conns[c].freed == 0)
                 && (s.conns[c].thread.Closed? ==> s.conns[c].freed == 0)
                 && (s.conns[c].thread.Finished? ==> s.conns[c].closed == s.conns[c].freed == 1)
  {
    RunAccounts(states, actions, n);
    SharesWithoutLapses(states[n].conns);
  }

  /** Nothing is under way: the main thread waits and every started thread is finished. */
  predicate Quiet(s: State) {
    s.main.Accepting? && forall c :: 0 <= c < |s.conns| ==> s.conns[c].thread.NotStarted? || s.conns[c].thread.Finished?
  }

  function Lapses(conns: seq<Conn>): nat {
    if conns == [] then 0 else Lapses(conns[..|conns| - 1]) + if conns[|conns| - 1].lapsed then 1 else 0
  }

  lemma {:induction false} QuietShares(conns: seq<Conn>)
    requires forall c :: 0 <= c < |conns| ==> !conns[c].thread.Working?
    ensures Shares(conns) + Lapses(conns) == 0
  {
    if conns != [] { QuietShares(conns[..|conns| - 1]); }
  }

  /** Once all is quiet, the counter is short by the number of lapses, and a connection was cleaned up exactly once
      if and only if it did not lapse; a lapsed one was cleaned up twice. */
  lemma CleanedUpOnceExact(states: seq<State>, actions: seq<Action>, n: nat)
    requires RunOf(states, actions) && n < |states| && Quiet(states[n])
    ensures states[n].counter + Lapses(states[n].conns) == 0
    ensures forall c :: 0 <= c < |states[n].conns| ==>
              var k := states[n].conns[c]; var times := if k.lapsed then 2 else 1;
              k.closed == times && k.freed == if k.holdsArg then times else 0
  {
    RunAccounts(states, actions, n);
    QuietShares(states[n].conns);
  }

  const WAITING := Conn(NotStarted, true, 0, 0, false)

  lemma ThreadIsStarted() returns (states: seq<State>, actions: seq<Action>)
    ensures RunOf(states, actions) && states != []
    ensures states[|states| - 1] == State(1, Started(0), [WAITING.(thread := Working)])
  {
    hide RunOf;
    states, actions := Extended([START], [], Accept, State(0, HasSocket(0), [WAITING.(holdsArg := false)]));
    states, actions := Extended(states, actions, Calloc(true), State(0, HasArg(0), [WAITING]));
    states, actions := Extended(states, actions, AddCounter, State(1, Reserved(0), [WAITING]));
    states, actions := Extended(states, actions, PthreadCreate(true),
        State(1, Started(0), [WAITING.(thread := Working)]));
  }

  lemma MainCleansUp() returns (states: seq<State>, actions: seq<Action>)
    ensures RunOf(states, actions) && states != []
    ensures states[|states| - 1] == State(0, Accepting, [Conn(Working, true, 1, 1, true)])
  {
    hide RunOf;
    states, actions := ThreadIsStarted();
    states, actions := Extended(states, actions, AttrDestroy(false),
        State(1, GivingBack(0), [Conn(Working, true, 0, 0, true)]));
    states, actions := Extended(states, actions, RemoveCounter,
        State(0, Freeing(0), [Conn(Working, true, 0, 0, true)]));
    states, actions := Extended(states, actions, FreeArg, State(0, Closing(0), [Conn(Working, true, 0, 1, true)]));
    states, actions := Extended(states, actions, CloseSocket, State(0, Accepting, [Conn(Working, true, 1, 1, true)]));
  }

  /** One failing `pthread_attr_destroy` is enough: the socket is closed twice, the argument freed twice, and the
      counter ends below zero. */
  lemma LapseCleansUpTwice() returns (states: seq<State>, actions: seq<Action>)
    ensures RunOf(states, actions) && states != []
    ensures states[|states| - 1] == State(-1, Accepting, [Conn(Finished, true, 2, 2, true)])
  {
    hide RunOf;
    states, actions := MainCleansUp();
    states, actions := Extended(states, actions, ThreadRemovesCounter(0),
        State(-1, Accepting, [Conn(Uncounted, true, 1, 1, true)]));
    states, actions := Extended(states, actions, ThreadCloses(0),
        State(-1, Accepting, [Conn(Closed, true, 2, 1, true)]));
    states, actions := Extended(states, actions, ThreadFrees(0),
        State(-1, Accepting, [Conn(Finished, true, 2, 2, true)]));
  }

  lemma Extended(states: seq<State>, actions: seq<Action>, a: Action, t: State)
    returns (longer: seq<State>, more: seq<Action>)
    requires (states == [START] && actions == []) || RunOf(states, actions)
    requires states != [] && Next(states[|states| - 1], a, t)
    ensures RunOf(longer, more) && longer != [] && longer[|longer| - 1] == t
  {
    hide Next;
    longer, more := states + [t], actions + [a];
  }

  /******* what was done to a connection *******/

  /** Some earlier step of the run was `a`, with the main thread at `m`. */
  ghost predicate Happened(states: seq<State>, actions: seq<Action>, n: nat, m: Main, a: Action)
    requires n <= |actions| <= |states|
  {
    exists i :: 0 <= i < n && states[i].main == m && actions[i] == a
  }

  /** A connection has an argument, a thread, a lapse exactly if the call that gives it one did so. */
  ghost predicate HistoryFits(states: seq<State>, actions: seq<Action>, n: nat, c: nat, k: Conn)
    requires n <= |actions| <= |states|
  {
    && (k.holdsArg <==> Happened(states, actions, n, HasSocket(c), Calloc(true)))
    && (!k.thread.NotStarted? <==> Happened(states, actions, n, Reserved(c), PthreadCreate(true)))
    && (k.lapsed <==> Happened(states, actions, n, Started(c), AttrDestroy(false)))
  }

  lemma DoneStep(states: seq<State>, actions: seq<Action>, n: nat, m: Main, a: Action)
    requires 0 < n <= |actions| <= |states|
    ensures Happened(states, actions, n, m, a) <==>
              Happened(states, actions, n - 1, m, a) || (states[n - 1].main == m && actions[n - 1] == a)
  {
  }

  /** What one step does to the three. */
  lemma ConnStep(s: State, a: Action, t: State, c: nat)
    requires Next(s, a, t) && c < |s.conns|
    ensures |s.conns| <= |t.conns|
    ensures t.conns[c].holdsArg <==> s.conns[c].holdsArg || (s.main == HasSocket(c) && a == Calloc(true))
    ensures t.conns[c].thread.NotStarted? <==>
              s.conns[c].thread.NotStarted? && !(s.main == Reserved(c) && a == PthreadCreate(true))
    ensures t.conns[c].lapsed <==> s.conns[c].lapsed || (s.main == Started(c) && a == AttrDestroy(false))
  {
  }

  lemma NewConn(s: State, a: Action, t: State)
    requires Next(s, a, t)
    ensures |s.conns| <= |t.conns| <= |s.conns| + 1
    ensures |t.conns| > |s.conns| ==> t.conns[|s.conns|] == Conn(NotStarted, false, 0, 0, false)
  {
  }

  /** The main thread has not been with a connection that is still to come. */
  lemma {:induction false} NotYet(states: seq<State>, actions: seq<Action>, n: nat, m: Main, a: Action)
    requires RunOf(states, actions) && n <= |actions|
    requires !m.Accepting? && m.c >= |states[n].conns|
    ensures !Happened(states, actions, n, m, a)
  {
    hide Next;
    if n > 0 {
      NewConn(states[n - 1], actions[n - 1], states[n]);
      NotYet(states, actions, n - 1, m, a);
      RunAccounts(states, actions, n - 1);
      DoneStep(states, actions, n, m, a);
    }
  }

  lemma {:induction false} HistoryExact(states: seq<State>, actions: seq<Action>, n: nat, c: nat)
    requires RunOf(states, actions) && n <= |actions| && c < |states[n].conns|
    ensures HistoryFits(states, actions, n, c, states[n].conns[c])
  {
    hide Next, Happened;
    if n > 0 {
      var s, a, t := states[n - 1], actions[n - 1], states[n];
      NewConn(s, a, t);
      if c < |s.conns| {
        HistoryExact(states, actions, n - 1, c);
        ConnStep(s, a, t, c);
        DoneStep(states, actions, n, HasSocket(c), Calloc(true));
        DoneStep(states, actions, n, Reserved(c), PthreadCreate(true));
        DoneStep(states, actions, n, Started(c), AttrDestroy(false));
      } else {
        NotYet(states, actions, n - 1, HasSocket(c), Calloc(true));
        NotYet(states, actions, n - 1, Reserved(c), PthreadCreate(true));
        NotYet(states, actions, n - 1, Started(c), AttrDestroy(false));
        RunAccounts(states, actions, n - 1);
        DoneStep(states, actions, n, HasSocket(c), Calloc(true));
        DoneStep(states, actions, n, Reserved(c), PthreadCreate(true));
        DoneStep(states, actions, n, Started(c), AttrDestroy(false));
      }
    }
  }

  /** All is quiet exactly if there is nothing left to do but to wait for the next client. */
  lemma QuietExact(states: seq<State>, actions: seq<Action>, n: nat)
    requires RunOf(states, actions) && n < |states|
    ensures Quiet(states[n]) <==> forall a, t :: Next(states[n], a, t) ==> a.Accept?
  {
    var s := states[n];
    RunAccounts(states, actions, n);
    if !Quiet(s) {
      var a, t := StepLeft(s);
    }
  }

  lemma StepLeft(s: State) returns (a: Action, t: State)
    requires Accounted(s) && !Quiet(s)
    ensures Next(s, a, t) && !a.Accept?
  {
    if !s.main.Accepting? {
      a, t := MainStep(s);
    } else {
      var c :| 0 <= c < |s.conns| && !s.conns[c].thread.NotStarted? && !s.conns[c].thread.Finished?;
      var k := s.conns[c];
      match k.thread
      case Working =>
        a, t := ThreadRemovesCounter(c), s.(counter := s.counter - 1, conns := s.conns[c := k.(thread := Uncounted)]);
      case Uncounted =>
        a, t := ThreadCloses(c), s.(conns := s.conns[c := k.(thread := Closed, closed := k.closed + 1)]);
      case Closed =>
        a, t := ThreadFrees(c), s.(conns := s.conns[c := k.(thread := Finished, freed := k.freed + 1)]);
    }
  }

  lemma MainStep(s: State) returns (a: Action, t: State)
    requires Accounted(s) && !s.main.Accepting?
    ensures Next(s, a, t) && !a.Accept?
  {
    var c := s.main.c;
    match s.main
    case HasSocket(_) => a, t := Calloc(false), s.(main := Closing(c));
    case HasArg(_) =>
      a := AddCounter;
      t := if s.counter >= MAX_CLIENTS_THREADS then s.(main := Freeing(c))
           else s.(counter := s.counter + 1, main := Reserved(c));
    case Reserved(_) => a, t := AttrInitFails, s.(main := GivingBack(c));
    case Started(_) => a, t := AttrDestroy(true), s.(main := Accepting);
    case NotCreated(_) => a, t := AttrDestroy(true), s.(main := GivingBack(c));
    case GivingBack(_) => a, t := RemoveCounter, s.(counter := s.counter - 1, main := Freeing(c));
    case Freeing(_) =>
      a, t := FreeArg, s.(main := Closing(c), conns := s.conns[c := s.conns[c].(freed := s.conns[c].freed + 1)]);
    case Closing(_) =>
      a, t := CloseSocket, s.(main := Accepting, conns := s.conns[c := s.conns[c].(closed := s.conns[c].closed + 1)]);
  }

  /******* how long it takes *******/

  function MainLeft(m: Main): nat {
    match m
    case Accepting => 0
    case HasSocket(_) => 10
    case HasArg(_) => 9
    case Reserved(_) => 8
    case Started(_) => 4
    case NotCreated(_) => 4
    case GivingBack(_) => 3
    case Freeing(_) => 2
    case Closing(_) => 1
  }

  function ThreadLeft(t: Thread): nat {
    match t
    case Working => 3
    case Uncounted => 2
    case Closed => 1
    case _ => 0
  }

  function ThreadsLeft(conns: seq<Conn>): nat {
    if conns == [] then 0 else ThreadsLeft(conns[..|conns| - 1]) + ThreadLeft(conns[|conns| - 1].thread)
  }

  lemma {:induction false} ThreadsLeftUpdate(conns: seq<Conn>, c: nat, k: Conn)
    requires c < |conns|
    ensures ThreadsLeft(conns[c := k]) == ThreadsLeft(conns) - ThreadLeft(conns[c].thread) + ThreadLeft(k.thread)
  {
    var n := |conns| - 1;
    if c < n {
      ThreadsLeftUpdate(conns[..n], c, k);
      assert conns[c := k][..n] == conns[..n][c := k];
    } else {
      assert conns[c := k][..n] == conns[..n];
    }
  }

  lemma StepShortens(s: State, a: Action, t: State)
    requires Accounted(s) && Next(s, a, t)
    ensures MainLeft(t.main) + ThreadsLeft(t.conns) <=
              MainLeft(s.main) + ThreadsLeft(s.conns) + (if a.Accept? then 10 else -1)
    ensures |t.conns| == |s.conns| + if a.Accept? then 1 else 0
  {
    hide ThreadsLeft, Shares;
    var c := Touched(s, a);
    if a.Accept? {
      AppendedLeft(s.conns, t.conns[|s.conns|]);
    } else if c < |s.conns| {
      assert ConnFits(s.main, s.conns[c], c);
      ThreadsLeftUpdate(s.conns, c, t.conns[c]);
      assert t.conns == s.conns[c := t.conns[c]];
    }
  }

  lemma AppendedLeft(conns: seq<Conn>, k: Conn)
    ensures ThreadsLeft(conns + [k]) == ThreadsLeft(conns) + ThreadLeft(k.thread)
  {
    assert (conns + [k])[..|conns|] == conns;
  }

  /** Every connection is done with in at most eleven steps, whatever fails: so a run that goes on forever accepts
      connections forever, and without new ones all becomes quiet. */
  lemma {:induction false} StepsBounded(states: seq<State>, actions: seq<Action>, n: nat)
    requires RunOf(states, actions) && n < |states|
    ensures n + MainLeft(states[n].main) + ThreadsLeft(states[n].conns) <= 11 * |states[n].conns|
  {
    hide Next, ThreadsLeft;
    if n == 0 {
      NothingLeft();
    } else {
      StepsBounded(states, actions, n - 1);
      RunAccounts(states, actions, n - 1);
      StepShortens(states[n - 1], actions[n - 1], states[n]);
    }
  }

  lemma NothingLeft()
    ensures ThreadsLeft([]) == 0
  {
  }
}
