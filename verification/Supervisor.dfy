/** The timeout supervisor of a benchmark run (scripts/benchmark_cli.py:262-363) as a state machine:
    the main thread, the watchdog thread and the leader process take steps in any order.

    Interrupts strike the main thread between any two of its calls. What they do depends on where:
    - `Interrupt`, in the `try` block up to the moment in which `wait4` reaps the leader, starts the
      cleanup;
    - `LateInterrupt`, between that moment and the end of the block, does so as well, and the cleanup
      ends in the error of reaping once more;
    - `Escape`, before the block is entered or anywhere in the cleanup, leaves `_reap` at once.
    Interrupts inside the sleep, the join and the `wait4` of the cleanup are caught there and are no
    steps. */
module Supervisor {
  import opened Orders

  datatype Thread = Main | Watchdog

  datatype Signum = TERM | KILL

  /** What the outside world can see, in order. */
  datatype Event = Signal(sender: Thread, signum: Signum) | Grace(sender: Thread) | LeaderExited | Reap

  datatype Leader = Running | Zombie | Reaped

  /** Where the main thread is: the normal path from the start of the watchdog on, the cleanup path and
      the four ways out. `NoChild` is the exception of waiting for a leader that has been reaped
      already, `Escaped` an interrupt that nothing caught. */
  datatype MainAt =
    | Entering | WaitingForExit | MarkingExit | SettingAbort | Joining | Reaping | Leaving
    | CleanupAbort | CleanupMark | CleanupTerm | CleanupGrace | CleanupKill | CleanupJoin | CleanupReap | Raising
    | Returned(timedOut: bool) | Raised | NoChild | Escaped

  datatype WatchdogAt = WaitingForAbort | Expired | SendingTerm | InGrace | SendingKill | Finished

  datatype State = State(
    main: MainAt, watchdog: WatchdogAt, leader: Leader,
    leaderExited: bool, abort: bool, timedOut: bool, log: seq<Event>)

  datatype Action = MainStep | WatchdogStep | Expire | LeaderExit | Interrupt | LateInterrupt | Escape

  function Start(): State {
    State(Entering, WaitingForAbort, Running, false, false, false, [])
  }

  /** The main thread's next step, if it is not blocked. */
  function MainNext(s: State): Option<State> {
    match s.main
    case Entering => Some(s.(main := WaitingForExit))
    case WaitingForExit => if s.leader == Running then None else Some(s.(main := MarkingExit))
    case MarkingExit => Some(s.(main := SettingAbort, leaderExited := true))
    case SettingAbort => Some(s.(main := Joining, abort := true))
    case Joining => if s.watchdog == Finished then Some(s.(main := Reaping)) else None
    case Reaping => if s.leader == Zombie then Some(s.(main := Leaving, leader := Reaped, log := s.log + [Reap])) else None
    case Leaving => Some(s.(main := Returned(s.timedOut)))
    case CleanupAbort => Some(s.(main := CleanupMark, abort := true))
    case CleanupMark => Some(s.(main := CleanupTerm, leaderExited := true))
    case CleanupTerm => Some(s.(main := CleanupGrace, log := s.log + [Signal(Main, TERM)]))
    case CleanupGrace => Some(s.(main := CleanupKill, log := s.log + [Grace(Main)]))
    case CleanupKill => Some(s.(main := CleanupJoin, log := s.log + [Signal(Main, KILL)]))
    case CleanupJoin => if s.watchdog == Finished then Some(s.(main := CleanupReap)) else None
    case CleanupReap => (
      match s.leader
      case Running => None
      case Zombie => Some(s.(main := Raising, leader := Reaped, log := s.log + [Reap]))
      case Reaped => Some(s.(main := NoChild)))
    case Raising => Some(s.(main := Raised))
    case Returned(_) => None
    case Raised => None
    case NoChild => None
    case Escaped => None
  }

  /** The main thread is out of `_reap`. */
  predicate HasLeft(m: MainAt) {
    m.Returned? || m == Raised || m == NoChild || m == Escaped
  }

  function WatchdogNext(s: State): Option<State> {
    match s.watchdog
    case WaitingForAbort => if s.abort then Some(s.(watchdog := Finished)) else None
    case Expired => Some(s.(watchdog := SendingTerm, timedOut := true))
    case SendingTerm => Some(s.(watchdog := InGrace, log := s.log + [Signal(Watchdog, TERM)]))
    case InGrace => Some(s.(watchdog := SendingKill, log := s.log + [Grace(Watchdog)]))
    case SendingKill => Some(s.(watchdog := Finished, log := s.log + [Signal(Watchdog, KILL)]))
    case Finished => None
  }

  predicate InTry(m: MainAt) {
    m in {WaitingForExit, MarkingExit, SettingAbort, Joining, Reaping}
  }

  /** Where an interrupt is caught by nothing. From `Raising` on it leaves as the main thread does
      anyway. */
  predicate Unguarded(m: MainAt) {
    m in {Entering, CleanupAbort, CleanupMark, CleanupTerm, CleanupGrace, CleanupKill, CleanupJoin, CleanupReap}
  }

  /** One action, if it is possible. The deadline may pass at any time while the watchdog waits, also
      when the abort flag has just been set. */
  function Next(s: State, a: Action): Option<State> {
    match a
    case MainStep => MainNext(s)
    case WatchdogStep => WatchdogNext(s)
    case Expire => if s.watchdog == WaitingForAbort then Some(s.(watchdog := Expired)) else None
    case LeaderExit => if s.leader == Running then Some(s.(leader := Zombie, log := s.log + [LeaderExited])) else None
    case Interrupt => if InTry(s.main) then Some(s.(main := CleanupAbort)) else None
    case LateInterrupt => if s.main == Leaving then Some(s.(main := CleanupAbort)) else None
    case Escape => if Unguarded(s.main) then Some(s.(main := Escaped)) else None
  }

  /** The state an interleaving leads to, if all its actions are possible in turn. */
  function Run(s: State, actions: seq<Action>): Option<State>
    decreases |actions|
  {
    if actions == [] then Some(s)
    else
      var t := Next(s, actions[0]);
      if t.None? then None else Run(t.value, actions[1..])
  }

  /** An interrupt that the source does not plan for. */
  predicate Untimely(a: Action) {
    a == LateInterrupt || a == Escape
  }

  predicate Timely(actions: seq<Action>) {
    LateInterrupt !in actions && Escape !in actions
  }

  // --------------------------------------------------------------- invariant

  function By(log: seq<Event>, thread: Thread): seq<Event> {
    if log == [] then []
    else
      var e := log[|log| - 1];
      By(log[..|log| - 1], thread) + if (e.Signal? || e.Grace?) && e.sender == thread then [e] else []
  }

  /** How far each thread has got with its signals. */
  function WatchdogSignals(w: WatchdogAt, timedOut: bool): seq<Event> {
    match w
    case InGrace => [Signal(Watchdog, TERM)]
    case SendingKill => [Signal(Watchdog, TERM), Grace(Watchdog)]
    case Finished => if timedOut then [Signal(Watchdog, TERM), Grace(Watchdog), Signal(Watchdog, KILL)] else []
    case _ => []
  }

  function MainSignals(m: MainAt): seq<Event> {
    match m
    case CleanupGrace => [Signal(Main, TERM)]
    case CleanupKill => [Signal(Main, TERM), Grace(Main)]
    case CleanupJoin => [Signal(Main, TERM), Grace(Main), Signal(Main, KILL)]
    case CleanupReap => [Signal(Main, TERM), Grace(Main), Signal(Main, KILL)]
    case Raising => [Signal(Main, TERM), Grace(Main), Signal(Main, KILL)]
    case Raised => [Signal(Main, TERM), Grace(Main), Signal(Main, KILL)]
    case _ => []
  }

  predicate HasReaped(m: MainAt) {
    m == Leaving || m == Raising || m.Returned? || m == Raised
  }

  predicate HasJoined(m: MainAt) {
    HasReaped(m) || m == Reaping || m == CleanupReap
  }

  /** The main thread has set the abort flag. */
  predicate HasAborted(m: MainAt) {
    HasJoined(m) || m in {Joining, CleanupMark, CleanupTerm, CleanupGrace, CleanupKill, CleanupJoin}
  }

  /** What the positions of the threads say about each other. */
  ghost predicate PlacesAgree(s: State) {
    && (HasReaped(s.main) <==> s.leader == Reaped)
    && (HasJoined(s.main) ==> s.watchdog == Finished)
    && (s.timedOut ==> s.watchdog in {SendingTerm, InGrace, SendingKill, Finished})
    && (s.watchdog in {SendingTerm, InGrace, SendingKill} ==> s.timedOut)
    && (HasAborted(s.main) ==> s.abort)
    && (s.main in {MarkingExit, SettingAbort, Joining, Reaping} ==> s.leader == Zombie)
    && (s.main.Returned? ==> s.main.timedOut == s.timedOut)
    && s.main != NoChild && s.main != Escaped
  }

  /** What the log holds. */
  ghost predicate LogAgrees(log: seq<Event>, byWatchdog: seq<Event>, byMain: seq<Event>, leader: Leader) {
    && By(log, Watchdog) == byWatchdog
    && By(log, Main) == byMain
    && OneReapAtEnd(log, leader == Reaped)
    && ((LeaderExited in log) <==> leader != Running)
    && OnceIn(log, LeaderExited)
  }

  ghost predicate Invariant(s: State) {
    && PlacesAgree(s)
    && LogAgrees(s.log, WatchdogSignals(s.watchdog, s.timedOut), MainSignals(s.main), s.leader)
  }

  /** The reap happens once and nothing happens after it. */
  ghost predicate OneReapAtEnd(log: seq<Event>, reaped: bool) {
    && (reaped ==> log != [] && log[|log| - 1] == Reap)
    && (forall i :: 0 <= i < |log| - (if reaped then 1 else 0) ==> log[i] != Reap)
  }

  ghost predicate OnceIn(log: seq<Event>, e: Event) {
    forall i, j :: 0 <= i < j < |log| && log[i] == e ==> log[j] != e
  }

  lemma ByGrows(log: seq<Event>, e: Event, thread: Thread)
    ensures By(log + [e], thread) == By(log, thread) + if (e.Signal? || e.Grace?) && e.sender == thread then [e] else []
  {
    assert (log + [e])[..|log|] == log;
  }

  /** One more event: by a thread while the leader is there, its exit, or the reap. */
  lemma LogGrows(log: seq<Event>, byWatchdog: seq<Event>, byMain: seq<Event>, leader: Leader, e: Event)
    requires LogAgrees(log, byWatchdog, byMain, leader) && leader != Reaped
    requires e == LeaderExited ==> leader == Running
    requires e == Reap ==> leader == Zombie
    ensures LogAgrees(log + [e],
                      byWatchdog + (if (e.Signal? || e.Grace?) && e.sender == Watchdog then [e] else []),
                      byMain + (if (e.Signal? || e.Grace?) && e.sender == Main then [e] else []),
                      if e == LeaderExited then Zombie else if e == Reap then Reaped else leader)
  {
    ByGrows(log, e, Watchdog);
    ByGrows(log, e, Main);
  }

  lemma StartIsSafe()
    ensures Invariant(Start())
  {
  }

  lemma PlacesKept(s: State, a: Action)
    requires PlacesAgree(s) && Next(s, a).Some? && !Untimely(a)
    ensures PlacesAgree(Next(s, a).value)
  {
    if a == MainStep {
      MainKeepsPlaces(s);
    } else if a == WatchdogStep {
      WatchdogKeepsPlaces(s);
    } else {
      hide MainNext, WatchdogNext;
    }
  }

  lemma MainKeepsPlaces(s: State)
    requires PlacesAgree(s) && MainNext(s).Some?
    ensures PlacesAgree(MainNext(s).value)
  {
    if InTry(s.main) || s.main == Leaving {
      TryKeepsPlaces(s);
    } else {
      CleanupKeepsPlaces(s);
    }
  }

  lemma TryKeepsPlaces(s: State)
    requires PlacesAgree(s) && MainNext(s).Some? && (InTry(s.main) || s.main == Leaving)
    ensures PlacesAgree(MainNext(s).value)
  {
  }

  lemma CleanupKeepsPlaces(s: State)
    requires PlacesAgree(s) && MainNext(s).Some? && !InTry(s.main) && s.main != Leaving
    ensures PlacesAgree(MainNext(s).value)
  {
  }

  lemma WatchdogKeepsPlaces(s: State)
    requires PlacesAgree(s) && WatchdogNext(s).Some?
    ensures PlacesAgree(WatchdogNext(s).value)
  {
  }

  /** The event that an action adds to the log, if any. */
  function Added(s: State, a: Action): Option<Event> {
    match a
    case MainStep => (
      match s.main
      case Reaping => Some(Reap)
      case CleanupReap => Some(Reap)
      case CleanupTerm => Some(Signal(Main, TERM))
      case CleanupGrace => Some(Grace(Main))
      case CleanupKill => Some(Signal(Main, KILL))
      case _ => None)
    case WatchdogStep => (
      match s.watchdog
      case SendingTerm => Some(Signal(Watchdog, TERM))
      case InGrace => Some(Grace(Watchdog))
      case SendingKill => Some(Signal(Watchdog, KILL))
      case _ => None)
    case LeaderExit => Some(LeaderExited)
    case _ => None
  }

  lemma NextAdds(s: State, a: Action)
    requires PlacesAgree(s) && Next(s, a).Some? && !Untimely(a)
    ensures var t, e := Next(s, a).value, Added(s, a);
            if e.None? then
              && t.log == s.log && t.leader == s.leader
              && WatchdogSignals(t.watchdog, t.timedOut) == WatchdogSignals(s.watchdog, s.timedOut)
              && MainSignals(t.main) == MainSignals(s.main)
            else
              && s.leader != Reaped && t.log == s.log + [e.value]
              && (e.value == LeaderExited ==> s.leader == Running) && (e.value == Reap ==> s.leader == Zombie)
              && t.leader == (if e.value == LeaderExited then Zombie else if e.value == Reap then Reaped else s.leader)
  {
    if a == MainStep {
      MainAdds(s);
    } else {
      hide MainNext, MainSignals;
    }
  }

  lemma MainAdds(s: State)
    requires PlacesAgree(s) && MainNext(s).Some?
    ensures var t, e := MainNext(s).value, Added(s, MainStep);
            if e.None? then
              && t.log == s.log && t.leader == s.leader
              && WatchdogSignals(t.watchdog, t.timedOut) == WatchdogSignals(s.watchdog, s.timedOut)
              && MainSignals(t.main) == MainSignals(s.main)
            else
              && s.leader != Reaped && t.log == s.log + [e.value]
              && (e.value == LeaderExited ==> s.leader == Running) && (e.value == Reap ==> s.leader == Zombie)
              && t.leader == (if e.value == LeaderExited then Zombie else if e.value == Reap then Reaped else s.leader)
  {
    hide WatchdogNext, WatchdogSignals;
  }

  lemma SignalsFollow(s: State, a: Action)
    requires PlacesAgree(s) && Next(s, a).Some? && !Untimely(a) && Added(s, a).Some?
    ensures var t, e := Next(s, a).value, Added(s, a).value;
            && WatchdogSignals(t.watchdog, t.timedOut)
               == WatchdogSignals(s.watchdog, s.timedOut) + (if (e.Signal? || e.Grace?) && e.sender == Watchdog then [e] else [])
            && MainSignals(t.main)
               == MainSignals(s.main) + (if (e.Signal? || e.Grace?) && e.sender == Main then [e] else [])
  {
  }

  lemma NextKeepsInvariant(s: State, a: Action)
    requires Invariant(s) && Next(s, a).Some? && !Untimely(a)
    ensures Invariant(Next(s, a).value)
  {
    hide PlacesAgree, LogAgrees, Next, Added, WatchdogSignals, MainSignals;
    PlacesKept(s, a);
    NextAdds(s, a);
    if Added(s, a).Some? {
      SignalsFollow(s, a);
      LogGrows(s.log, WatchdogSignals(s.watchdog, s.timedOut), MainSignals(s.main), s.leader, Added(s, a).value);
    }
  }

  lemma {:induction false} RunKeepsInvariant(s: State, actions: seq<Action>)
    requires Invariant(s) && Timely(actions) && Run(s, actions).Some?
    ensures Invariant(Run(s, actions).value)
    decreases |actions|
  {
    hide Invariant, Next;
    if actions != [] {
      NextKeepsInvariant(s, actions[0]);
      RunKeepsInvariant(Next(s, actions[0]).value, actions[1..]);
    }
  }

  lemma ReachableIsSafe(actions: seq<Action>)
    requires Timely(actions) && Run(Start(), actions).Some?
    ensures Invariant(Run(Start(), actions).value)
  {
    hide Invariant, Run, Next;
    StartIsSafe();
    RunKeepsInvariant(Start(), actions);
  }

  // ---------------------------------------------------- what every run obeys

  /** No signal follows a reap: the group that is signalled is still the leader's own. */
  ghost predicate NoSignalAfterReap(log: seq<Event>) {
    forall i, j :: 0 <= i < j < |log| && log[i] == Reap ==> !log[j].Signal?
  }

  lemma {:induction false} ByMembers(log: seq<Event>, thread: Thread)
    ensures forall e :: e in log && (e.Signal? || e.Grace?) && e.sender == thread ==> e in By(log, thread)
  {
    if log != [] {
      ByMembers(log[..|log| - 1], thread);
      assert log == log[..|log| - 1] + [log[|log| - 1]];
    }
  }

  // An interrupt after the reap: from there on only the main thread moves, and it signals.

  /** Where the main thread is `k` steps after a late interrupt. */
  function LateMain(k: nat): MainAt {
    match k
    case 0 => CleanupAbort
    case 1 => CleanupMark
    case 2 => CleanupTerm
    case 3 => CleanupGrace
    case 4 => CleanupKill
    case 5 => CleanupJoin
    case 6 => CleanupReap
    case _ => NoChild
  }

  ghost predicate LateState(s: State, base: seq<Event>, k: nat) {
    && k <= 7 && (s.main == LateMain(k) || s.main == Escaped) && s.leader == Reaped && s.watchdog == Finished
    && s.log == base + MainSignals(LateMain(if k < 6 then k else 5))
  }

  function MainSteps(actions: seq<Action>): nat {
    if actions == [] then 0 else (if actions[0] == MainStep then 1 else 0) + MainSteps(actions[1..])
  }

  lemma LateNext(s: State, base: seq<Event>, k: nat, a: Action)
    requires LateState(s, base, k) && Next(s, a).Some?
    ensures a == MainStep || a == Escape
    ensures LateState(Next(s, a).value, base, if a == MainStep then k + 1 else k)
    ensures a == Escape ==> Next(s, a).value.main == Escaped
    ensures s.main != Escaped && (a == MainStep ==> Next(s, a).value.main != Escaped)
  {
    if a == MainStep {
      LateMainNext(s, base, k);
    }
  }

  lemma LateMainNext(s: State, base: seq<Event>, k: nat)
    requires LateState(s, base, k) && MainNext(s).Some?
    ensures LateState(MainNext(s).value, base, k + 1) && MainNext(s).value.main != Escaped
  {
    assert s.main == LateMain(k);
    if 2 <= k <= 4 {
      LateSignal(base, k);
    }
  }

  lemma LateSignal(base: seq<Event>, k: nat)
    requires 2 <= k <= 4
    ensures var e := if k == 2 then Signal(Main, TERM) else if k == 3 then Grace(Main) else Signal(Main, KILL);
            (base + MainSignals(LateMain(k))) + [e] == base + MainSignals(LateMain(k + 1))
  {
  }

  lemma {:induction false} LateRun(s: State, actions: seq<Action>, base: seq<Event>, k: nat)
    requires LateState(s, base, k) && Run(s, actions).Some?
    ensures LateState(Run(s, actions).value, base, k + MainSteps(actions))
    ensures Run(s, actions).value.main == Escaped <==> s.main == Escaped || Escape in actions
    ensures LateInterrupt !in actions
    decreases |actions|
  {
    hide LateState, Next;
    if actions != [] {
      var a := actions[0];
      LateNext(s, base, k, a);
      LateRun(Next(s, a).value, actions[1..], base, if a == MainStep then k + 1 else k);
      assert actions == [a] + actions[1..];
    }
  }

  // An interrupt that nothing catches: the leader is left to others.

  ghost predicate EscapedState(s: State) {
    s.main == Escaped && s.leader != Reaped && Reap !in s.log
  }

  lemma {:induction false} EscapedRun(s: State, actions: seq<Action>)
    requires EscapedState(s) && Run(s, actions).Some?
    ensures EscapedState(Run(s, actions).value) && LateInterrupt !in actions
    decreases |actions|
  {
    if actions != [] {
      EscapedNext(s, actions[0]);
      hide Next, EscapedState;
      EscapedRun(Next(s, actions[0]).value, actions[1..]);
      assert actions == [actions[0]] + actions[1..];
    }
  }

  lemma EscapedNext(s: State, a: Action)
    requires EscapedState(s) && Next(s, a).Some?
    ensures EscapedState(Next(s, a).value) && a != LateInterrupt
  {
  }

  /** The first interrupt that the source does not plan for. */
  lemma FirstUntimely(actions: seq<Action>) returns (n: nat)
    requires !Timely(actions)
    ensures n < |actions| && Untimely(actions[n]) && forall i :: 0 <= i < n ==> !Untimely(actions[i])
  {
    n := 0;
    while !Untimely(actions[n])
      invariant n < |actions| && forall i :: 0 <= i < n ==> !Untimely(actions[i])
      decreases |actions| - n
    {
      n := n + 1;
    }
  }

  lemma RunOne(s: State, a: Action, rest: seq<Action>)
    requires Run(s, [a] + rest).Some?
    ensures Next(s, a).Some? && Run(s, [a] + rest) == Run(Next(s, a).value, rest)
  {
    hide Next;
    assert ([a] + rest)[1..] == rest;
  }

  lemma {:induction false} RunSplits(s: State, a: seq<Action>, b: seq<Action>)
    ensures Run(s, a + b) == if Run(s, a).None? then None else Run(Run(s, a).value, b)
    decreases |a|
  {
    hide Next;
    if a == [] {
      assert a + b == b;
    } else {
      assert (a + b)[0] == a[0] && (a + b)[1..] == a[1..] + b;
      if Next(s, a[0]).Some? {
        RunSplits(Next(s, a[0]).value, a[1..], b);
      }
    }
  }

  lemma UntimelyNext(s: State, a: Action)
    requires Invariant(s) && Untimely(a) && Next(s, a).Some?
    ensures a == LateInterrupt ==> OneReapAtEnd(s.log, true) && LateState(Next(s, a).value, s.log, 0) && Next(s, a).value.main != Escaped
    ensures a == Escape ==> EscapedState(Next(s, a).value)
  {
    hide MainNext, WatchdogNext, WatchdogSignals, By;
  }

  /** A run with an interrupt that is not planned for: up to there it was safe; after a late interrupt
      it is determined, after an escape it reaps nothing. */
  lemma UntimelyRun(actions: seq<Action>) returns (n: nat, base: seq<Event>)
    requires !Timely(actions) && Run(Start(), actions).Some?
    ensures n < |actions| && Untimely(actions[n]) && forall i :: 0 <= i < n ==> !Untimely(actions[i])
    ensures forall i :: n < i < |actions| ==> actions[i] != LateInterrupt
    ensures var s, rest := Run(Start(), actions).value, actions[n + 1..];
            && (actions[n] == LateInterrupt ==>
                  && OneReapAtEnd(base, true) && LateState(s, base, MainSteps(rest))
                  && (s.main == Escaped <==> Escape in rest))
            && (actions[n] == Escape ==> EscapedState(s))
  {
    hide Run, Next, LateState, EscapedState, OneReapAtEnd, Invariant;
    n := FirstUntimely(actions);
    var before, a, rest := actions[..n], actions[n], actions[n + 1..];
    assert actions == before + ([a] + rest);
    RunSplits(Start(), before, [a] + rest);
    ReachableIsSafe(before);
    var s := Run(Start(), before).value;
    base := s.log;
    RunOne(s, a, rest);
    UntimelyNext(s, a);
    if a == LateInterrupt {
      LateRun(Next(s, a).value, rest, base, 0);
    } else {
      EscapedRun(Next(s, a).value, rest);
    }
    forall i | n < i < |actions| ensures actions[i] != LateInterrupt {
      assert actions[i] == rest[i - n - 1];
    }
  }

  /** No late interrupt has been followed by three more steps of the main thread, the third of which
      sends TERM. */
  predicate InTime(actions: seq<Action>) {
    forall i :: 0 <= i < |actions| && actions[i] == LateInterrupt ==> MainSteps(actions[i + 1..]) < 3
  }

  lemma LateLog(log: seq<Event>, base: seq<Event>, k: nat)
    requires OneReapAtEnd(base, true) && k <= 7
    requires log == base + MainSignals(LateMain(if k < 6 then k else 5))
    ensures NoSignalAfterReap(log) <==> k < 3
    ensures OnceIn(log, Reap) && Reap in log
  {
    assert log[|base| - 1] == Reap;
    if k < 3 {
      assert log == base;
    } else {
      assert log[|base|] == Signal(Main, TERM);
    }
  }

  /** Safety is exact. In every interleaving, no group signal follows the reap if and only if no
      late interrupt has been followed by three more steps of the main thread. */
  lemma SafetyIsExact(actions: seq<Action>)
    requires Run(Start(), actions).Some?
    ensures NoSignalAfterReap(Run(Start(), actions).value.log) <==> InTime(actions)
  {
    hide Run, Next, MainSignals, MainSteps;
    if Timely(actions) {
      ReachableIsSafe(actions);
    } else {
      var n, base := UntimelyRun(actions);
      if actions[n] == LateInterrupt {
        LateLog(Run(Start(), actions).value.log, base, MainSteps(actions[n + 1..]));
      }
    }
  }

  /** The leader has been reaped exactly once and the watchdog is finished. */
  ghost predicate LeftNothing(s: State) {
    s.watchdog == Finished && s.leader == Reaped && Reap in s.log && OnceIn(s.log, Reap)
  }

  /** Every escape comes after a late interrupt, and so after the reap. */
  predicate EscapesAreLate(actions: seq<Action>) {
    forall i :: 0 <= i < |actions| && actions[i] == Escape ==> LateInterrupt in actions[..i]
  }

  lemma EscapesByFirst(actions: seq<Action>, n: nat)
    requires n < |actions| && Untimely(actions[n]) && forall i :: 0 <= i < n ==> !Untimely(actions[i])
    ensures EscapesAreLate(actions) <==> actions[n] == LateInterrupt
  {
    if actions[n] == LateInterrupt {
      forall i | 0 <= i < |actions| && actions[i] == Escape ensures LateInterrupt in actions[..i] {
        assert i > n;
        assert actions[..i][n] == LateInterrupt;
      }
    } else {
      assert forall i :: 0 <= i < n ==> actions[..n][i] == actions[i];
    }
  }

  /** In every interleaving, whoever leaves has reaped the leader exactly once and joined the watchdog
      if and only if no interrupt escaped from the start or the cleanup before the reap. */
  lemma ExitIsClean(actions: seq<Action>)
    requires Run(Start(), actions).Some? && HasLeft(Run(Start(), actions).value.main)
    ensures LeftNothing(Run(Start(), actions).value) <==> EscapesAreLate(actions)
  {
    hide Run, Next, MainSignals, MainSteps;
    if Timely(actions) {
      ReachableIsSafe(actions);
    } else {
      var n, base := UntimelyRun(actions);
      EscapesByFirst(actions, n);
      if actions[n] == LateInterrupt {
        LateLog(Run(Start(), actions).value.log, base, MainSteps(actions[n + 1..]));
      }
    }
  }

  /** Which way out a run takes: an interrupt that escapes leaves at once, a late one otherwise leads to
      the error of reaping twice, and without either the reap was the last event. */
  lemma WayOut(actions: seq<Action>)
    requires Run(Start(), actions).Some? && HasLeft(Run(Start(), actions).value.main)
    ensures var s := Run(Start(), actions).value;
            && (s.main == Escaped <==> Escape in actions)
            && (s.main == NoChild <==> LateInterrupt in actions && Escape !in actions)
            && (s.main.Returned? || s.main == Raised ==> Timely(actions) && s.log != [] && s.log[|s.log| - 1] == Reap)
  {
    hide Run, Next, MainSteps;
    if Timely(actions) {
      ReachableIsSafe(actions);
    } else {
      var n, base := UntimelyRun(actions);
      assert actions == actions[..n] + ([actions[n]] + actions[n + 1..]);
    }
  }

  /** A normal return that reports no timeout sent no signal at all: the leader exited and was
      reaped. */
  lemma QuietReturn(actions: seq<Action>)
    requires Run(Start(), actions).Some?
    requires Run(Start(), actions).value.main == Returned(false)
    ensures Run(Start(), actions).value.log == [LeaderExited, Reap]
  {
    hide Run, Next;
    WayOut(actions);
    ReachableIsSafe(actions);
    QuietLog(Run(Start(), actions).value.log);
  }

  lemma QuietLog(log: seq<Event>)
    requires LogAgrees(log, [], [], Reaped)
    ensures log == [LeaderExited, Reap]
  {
    ByMembers(log, Main);
    ByMembers(log, Watchdog);
    hide By;
    forall i | 0 <= i < |log| - 1 ensures log[i] == LeaderExited {
      assert log[i] in log;
    }
    if |log| > 1 {
      FirstTwoDiffer(log, LeaderExited);
    }
    assert log[|log| - 1] == Reap;
    assert log == [log[0], log[1]];
  }

  lemma FirstTwoDiffer(log: seq<Event>, e: Event)
    requires OnceIn(log, e) && |log| > 1
    ensures log[0] == e ==> log[1] != e
  {
  }

  function WithoutExit(log: seq<Event>): seq<Event> {
    if log == [] then []
    else WithoutExit(log[..|log| - 1]) + if log[|log| - 1] == LeaderExited then [] else [log[|log| - 1]]
  }

  lemma {:induction false} OnlyWatchdogLeft(log: seq<Event>)
    requires forall i :: 0 <= i < |log| ==> log[i] != Reap && !((log[i].Signal? || log[i].Grace?) && log[i].sender == Main)
    ensures WithoutExit(log) == By(log, Watchdog)
  {
    if log != [] {
      OnlyWatchdogLeft(log[..|log| - 1]);
    }
  }

  /** A normal return that reports a timeout sent TERM, waited out the whole grace period, sent KILL
      and only then reaped. */
  lemma TimedOutReturn(actions: seq<Action>)
    requires Run(Start(), actions).Some?
    requires Run(Start(), actions).value.main == Returned(true)
    ensures WithoutExit(Run(Start(), actions).value.log)
            == [Signal(Watchdog, TERM), Grace(Watchdog), Signal(Watchdog, KILL), Reap]
  {
    hide Run, Next;
    WayOut(actions);
    ReachableIsSafe(actions);
    TimedOutLog(Run(Start(), actions).value.log);
  }

  lemma TimedOutLog(log: seq<Event>)
    requires LogAgrees(log, WatchdogSignals(Finished, true), [], Reaped)
    ensures WithoutExit(log) == [Signal(Watchdog, TERM), Grace(Watchdog), Signal(Watchdog, KILL), Reap]
  {
    var front := log[..|log| - 1];
    ByMembers(log, Main);
    assert log == front + [Reap];
    ByGrows(front, Reap, Watchdog);
    forall i | 0 <= i < |front| ensures !((front[i].Signal? || front[i].Grace?) && front[i].sender == Main) {
      assert front[i] in log;
    }
    OnlyWatchdogLeft(front);
    assert WithoutExit(log) == WithoutExit(front) + [Reap];
  }

  /** An interrupted run re-raises only after the main thread itself has sent TERM, waited and sent
      KILL, in this order, and then reaped. */
  lemma InterruptedRun(actions: seq<Action>)
    requires Run(Start(), actions).Some?
    requires Run(Start(), actions).value.main == Raised
    ensures By(Run(Start(), actions).value.log, Main) == [Signal(Main, TERM), Grace(Main), Signal(Main, KILL)]
  {
    hide Run, Next;
    WayOut(actions);
    ReachableIsSafe(actions);
  }

  // ------------------------------------------------------- what does happen

  lemma Go(actions: seq<Action>, s: State, a: Action) returns (more: seq<Action>, t: State)
    requires Run(Start(), actions) == Some(s) && Next(s, a).Some?
    ensures Run(Start(), more) == Some(t) && t == Next(s, a).value
  {
    hide Next;
    more, t := actions + [a], Next(s, a).value;
    RunSplits(Start(), actions, [a]);
    assert [a][1..] == [] && Run(t, []) == Some(t);
  }

  /** The leader exits and is reaped. */
  lemma ReapedRun() returns (actions: seq<Action>, s: State)
    ensures Run(Start(), actions) == Some(s)
    ensures s == State(Leaving, Finished, Reaped, true, true, false, [LeaderExited, Reap])
  {
    hide Run;
    actions, s := [], Start();
    RunNothing(s);
    actions, s := Go(actions, s, MainStep);
    actions, s := Go(actions, s, LeaderExit);
    actions, s := Go(actions, s, MainStep);
    actions, s := Go(actions, s, MainStep);
    actions, s := Go(actions, s, MainStep);
    actions, s := Go(actions, s, WatchdogStep);
    actions, s := Go(actions, s, MainStep);
    actions, s := Go(actions, s, MainStep);
  }

  lemma QuietRun() returns (actions: seq<Action>, s: State)
    ensures Run(Start(), actions) == Some(s)
    ensures s.main == Returned(false)
  {
    hide Run;
    actions, s := ReapedRun();
    actions, s := Go(actions, s, MainStep);
  }

  /** The deadline passes, and the watchdog ends the run. */
  lemma TimedOutRun() returns (actions: seq<Action>, s: State)
    ensures Run(Start(), actions) == Some(s)
    ensures s.main == Returned(true)
  {
    hide Run;
    actions, s := [], Start();
    RunNothing(s);
    actions, s := Go(actions, s, MainStep);
    actions, s := Go(actions, s, Expire);
    actions, s := Go(actions, s, WatchdogStep);
    actions, s := Go(actions, s, WatchdogStep);
    actions, s := Go(actions, s, WatchdogStep);
    actions, s := Go(actions, s, WatchdogStep);
    actions, s := Go(actions, s, LeaderExit);
    actions, s := Go(actions, s, MainStep);
    actions, s := Go(actions, s, MainStep);
    actions, s := Go(actions, s, MainStep);
    actions, s := Go(actions, s, MainStep);
    actions, s := Go(actions, s, MainStep);
    actions, s := Go(actions, s, MainStep);
  }

  /** An interrupt while the leader runs, up to the end of the signals. */
  lemma StoppedRun() returns (actions: seq<Action>, s: State)
    ensures Run(Start(), actions) == Some(s)
    ensures s == State(CleanupJoin, WaitingForAbort, Running, true, true, false, [Signal(Main, TERM), Grace(Main), Signal(Main, KILL)])
  {
    hide Run;
    actions, s := [], Start();
    RunNothing(s);
    actions, s := Go(actions, s, MainStep);
    actions, s := Go(actions, s, Interrupt);
    actions, s := Go(actions, s, MainStep);
    actions, s := Go(actions, s, MainStep);
    actions, s := Go(actions, s, MainStep);
    actions, s := Go(actions, s, MainStep);
    actions, s := Go(actions, s, MainStep);
  }

  lemma RaisedRun() returns (actions: seq<Action>, s: State)
    ensures Run(Start(), actions) == Some(s)
    ensures s.main == Raised
  {
    hide Run;
    actions, s := StoppedRun();
    actions, s := Go(actions, s, WatchdogStep);
    actions, s := Go(actions, s, LeaderExit);
    actions, s := Go(actions, s, MainStep);
    actions, s := Go(actions, s, MainStep);
    actions, s := Go(actions, s, MainStep);
  }

  /** An interrupt after the reap: the signal that must not be. */
  lemma UnsafeRun() returns (actions: seq<Action>, s: State)
    ensures Run(Start(), actions) == Some(s)
    ensures s == State(CleanupGrace, Finished, Reaped, true, true, false, [LeaderExited, Reap, Signal(Main, TERM)])
    ensures !NoSignalAfterReap(s.log)
  {
    hide Run;
    actions, s := ReapedRun();
    actions, s := Go(actions, s, LateInterrupt);
    actions, s := Go(actions, s, MainStep);
    actions, s := Go(actions, s, MainStep);
    actions, s := Go(actions, s, MainStep);
    assert s.log[1] == Reap && s.log[2].Signal?;
  }

  lemma NoChildRun() returns (actions: seq<Action>, s: State)
    ensures Run(Start(), actions) == Some(s)
    ensures s.main == NoChild
  {
    hide Run;
    actions, s := UnsafeRun();
    actions, s := Go(actions, s, MainStep);
    actions, s := Go(actions, s, MainStep);
    actions, s := Go(actions, s, MainStep);
    actions, s := Go(actions, s, MainStep);
  }

  /** A second interrupt in the cleanup leaves the leader behind. */
  lemma UncleanRun() returns (actions: seq<Action>, s: State)
    ensures Run(Start(), actions) == Some(s)
    ensures s.main == Escaped && !LeftNothing(s)
  {
    hide Run;
    actions, s := [], Start();
    RunNothing(s);
    actions, s := Go(actions, s, MainStep);
    actions, s := Go(actions, s, Interrupt);
    actions, s := Go(actions, s, Escape);
  }

  lemma RunNothing(s: State)
    ensures Run(s, []) == Some(s)
  {
  }

  // ------------------------------------------------------ liveness and limits

  function MainLeft(m: MainAt): nat {
    match m
    case Entering => 16
    case WaitingForExit => 15
    case MarkingExit => 14
    case SettingAbort => 13
    case Joining => 12
    case Reaping => 11
    case Leaving => 10
    case CleanupAbort => 8
    case CleanupMark => 7
    case CleanupTerm => 6
    case CleanupGrace => 5
    case CleanupKill => 4
    case CleanupJoin => 3
    case CleanupReap => 2
    case Raising => 1
    case _ => 0
  }

  function WatchdogLeft(w: WatchdogAt): nat {
    match w
    case WaitingForAbort => 5
    case Expired => 4
    case SendingTerm => 3
    case InGrace => 2
    case SendingKill => 1
    case Finished => 0
  }

  /** How many steps can still be taken. */
  function StepsLeft(s: State): nat {
    MainLeft(s.main) + WatchdogLeft(s.watchdog) + if s.leader == Running then 1 else 0
  }

  lemma StepsRunOut(s: State, a: Action)
    requires Next(s, a).Some?
    ensures StepsLeft(Next(s, a).value) < StepsLeft(s)
  {
    if a == MainStep {
      MainStepsRunOut(s);
    } else if a == WatchdogStep {
      WatchdogStepsRunOut(s);
    } else if a == Interrupt {
      hide MainNext, WatchdogNext;
    }
  }

  lemma MainStepsRunOut(s: State)
    requires MainNext(s).Some?
    ensures StepsLeft(MainNext(s).value) < StepsLeft(s)
  {
    MainMovesOn(s);
  }

  lemma MainMovesOn(s: State)
    requires MainNext(s).Some?
    ensures var t := MainNext(s).value;
            && MainLeft(t.main) < MainLeft(s.main)
            && t.watchdog == s.watchdog && (t.leader == Running ==> s.leader == Running)
  {
    if InTry(s.main) || s.main == Entering || s.main == Leaving {
      TryMovesOn(s);
    } else {
      CleanupMovesOn(s);
    }
  }

  lemma TryMovesOn(s: State)
    requires MainNext(s).Some? && (InTry(s.main) || s.main == Entering || s.main == Leaving)
    ensures var t := MainNext(s).value;
            && MainLeft(t.main) < MainLeft(s.main)
            && t.watchdog == s.watchdog && (t.leader == Running ==> s.leader == Running)
  {
  }

  lemma CleanupMovesOn(s: State)
    requires MainNext(s).Some? && !InTry(s.main) && s.main != Entering && s.main != Leaving
    ensures var t := MainNext(s).value;
            && MainLeft(t.main) < MainLeft(s.main)
            && t.watchdog == s.watchdog && (t.leader == Running ==> s.leader == Running)
  {
  }

  lemma WatchdogStepsRunOut(s: State)
    requires WatchdogNext(s).Some?
    ensures StepsLeft(WatchdogNext(s).value) < StepsLeft(s)
  {
    hide MainLeft;
  }

  /** Every run is short: 22 actions at most, however it is interleaved and interrupted. */
  lemma {:induction false} RunsEnd(s: State, actions: seq<Action>)
    requires Run(s, actions).Some?
    ensures |actions| + StepsLeft(Run(s, actions).value) <= StepsLeft(s)
    ensures StepsLeft(Start()) == 22
    decreases |actions|
  {
    hide Next;
    if actions != [] {
      StepsRunOut(s, actions[0]);
      RunsEnd(Next(s, actions[0]).value, actions[1..]);
    }
  }

  /** No deadlock: a run that has not left can always go on, and if it needs the leader to exit to go
      on after its own KILL, that KILL has been sent. */
  lemma NeverStuck(actions: seq<Action>)
    requires Run(Start(), actions).Some?
    ensures var s := Run(Start(), actions).value;
            HasLeft(s.main) || Next(s, MainStep).Some? || Next(s, WatchdogStep).Some?
            || (s.leader == Running && s.main == WaitingForExit)
            || (s.leader == Running && s.main == CleanupReap && Signal(Main, KILL) in s.log)
  {
    hide Run, Next, MainSteps;
    var s := Run(Start(), actions).value;
    if Timely(actions) {
      ReachableIsSafe(actions);
      PlacesMoveOn(s);
      if s.main == CleanupReap {
        assert Signal(Main, KILL) in By(s.log, Main);
        SentByMain(s.log);
      }
    } else {
      var n, base := UntimelyRun(actions);
      if actions[n] == LateInterrupt {
        LateMovesOn(s, base, MainSteps(actions[n + 1..]));
      }
    }
  }

  lemma LateMovesOn(s: State, base: seq<Event>, k: nat)
    requires LateState(s, base, k)
    ensures HasLeft(s.main) || Next(s, MainStep).Some?
  {
  }

  lemma PlacesMoveOn(s: State)
    requires PlacesAgree(s)
    ensures HasLeft(s.main) || Next(s, MainStep).Some? || Next(s, WatchdogStep).Some?
            || (s.leader == Running && (s.main == WaitingForExit || s.main == CleanupReap))
  {
  }

  lemma {:induction false} SentByMain(log: seq<Event>)
    ensures forall e :: e in By(log, Main) ==> e in log
  {
    if log != [] {
      SentByMain(log[..|log| - 1]);
    }
  }
}
