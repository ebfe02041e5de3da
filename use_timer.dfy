/** The candidate page's hooks (frontend/src/hooks/useTimer.js). `useTimer` is a
    restartable per-question countdown: `start`, `stop` and `reset`, one decrement per
    interval tick while it runs with time left, and an expiry callback read through a
    ref, so the callback registered last is the one called. `useAntiCheat` installs
    four event listeners and its cleanup removes them again. React's scheduler is
    replaced by explicit calls: one `Tick` per elapsed second, one `Rerun` per change
    of the effect's dependencies. */
module TimerHooks {
  import opened Wrappers

  // ---------------------------------------------------------------- countdown

  /** The countdown's state: the seconds shown, whether it runs, and the callback the
      expiry ref holds. */
  datatype Timer<C> = Timer(timeLeft: int, isRunning: bool, onExpire: Option<C>)

  /** `start(seconds)`: the time is set and the countdown runs. */
  function Started<C>(t: Timer<C>, seconds: int): Timer<C> {
    t.(timeLeft := seconds, isRunning := true)
  }

  /** `stop()`: the countdown halts and keeps its time. */
  function Stopped<C>(t: Timer<C>): Timer<C> {
    t.(isRunning := false)
  }

  /** `reset(seconds)`: stop, then set the time; the countdown is left halted. */
  function ResetTo<C>(t: Timer<C>, seconds: int): Timer<C> {
    Stopped(t).(timeLeft := seconds)
  }

  /** The interval effect schedules a tick exactly when the countdown runs with time left. */
  predicate Ticking<C>(t: Timer<C>) {
    t.isRunning && t.timeLeft > 0
  }

  /** One interval tick: down by one second, or, from the last second, to 0 and halted
      with the callback in the ref invoked. Without a scheduled tick nothing happens. */
  function TickOnce<C>(t: Timer<C>): (Timer<C>, Option<C>) {
    if !Ticking(t) then (t, None)
    else if t.timeLeft <= 1 then (t.(timeLeft := 0, isRunning := false), t.onExpire)
    else (t.(timeLeft := t.timeLeft - 1), None)
  }

  function Calls<C>(c: Option<C>): seq<C> {
    if c.Some? then [c.value] else []
  }

  /** `n` consecutive ticks: the final state and the callbacks invoked, in order. */
  function RunTicks<C>(t: Timer<C>, n: nat): (Timer<C>, seq<C>)
    decreases n
  {
    if n == 0 then (t, [])
    else
      var step := TickOnce(t);
      var rest := RunTicks(step.0, n - 1);
      (rest.0, Calls(step.1) + rest.1)
  }

  /** A halted or exhausted countdown stays as it is and calls nothing. */
  lemma {:induction false} IdleStaysIdle<C>(t: Timer<C>, n: nat)
    requires !Ticking(t)
    ensures RunTicks(t, n) == (t, [])
  {
    if n > 0 {
      IdleStaysIdle(t, n - 1);
      assert Calls(TickOnce(t).1) + [] == [];
    }
  }

  /** While fewer ticks than the seconds left have passed, each one took exactly one
      second off and nothing was called. */
  lemma {:induction false} TicksCountDown<C>(t: Timer<C>, k: nat)
    requires Ticking(t) && k < t.timeLeft
    ensures RunTicks(t, k) == (t.(timeLeft := t.timeLeft - k), [])
    decreases k
  {
    if k > 0 {
      var next := t.(timeLeft := t.timeLeft - 1);
      assert TickOnce(t) == (next, None);
      TicksCountDown(next, k - 1);
      var rest := RunTicks(next, k - 1);
      assert rest.0 == t.(timeLeft := t.timeLeft - k);
      assert rest.1 == [];
      assert RunTicks(t, k) == (rest.0, Calls<C>(None) + rest.1);
      assert Calls<C>(None) + rest.1 == [];
    }
  }

  /** Once as many ticks as seconds left have passed, the countdown is at 0, halted, and
      has called the callback in its ref exactly once, whatever further ticks come. */
  lemma {:induction false} ExpiresOnce<C>(t: Timer<C>, m: nat)
    requires Ticking(t) && m >= t.timeLeft
    ensures RunTicks(t, m) == (t.(timeLeft := 0, isRunning := false), Calls(t.onExpire))
    decreases m
  {
    var next := TickOnce(t).0;
    if t.timeLeft <= 1 {
      IdleStaysIdle(next, m - 1);
      assert Calls(TickOnce(t).1) + [] == Calls(t.onExpire);
    } else {
      assert TickOnce(t) == (next, None);
      ExpiresOnce(next, m - 1);
      var rest := RunTicks(next, m - 1);
      assert rest.0 == t.(timeLeft := 0, isRunning := false);
      assert rest.1 == Calls(t.onExpire);
      assert RunTicks(t, m) == (rest.0, Calls<C>(None) + rest.1);
      assert Calls<C>(None) + rest.1 == Calls(t.onExpire);
    }
  }

  /** Armed with `n` > 0 seconds, the countdown expires on precisely the `n`-th tick. */
  lemma ArmedCountdown<C>(t: Timer<C>, n: int, k: nat)
    requires n > 0
    ensures k < n ==> RunTicks(Started(t, n), k) == (Timer(n - k, true, t.onExpire), [])
    ensures k >= n ==> RunTicks(Started(t, n), k) == (Timer(0, false, t.onExpire), Calls(t.onExpire))
  {
    if k < n {
      TicksCountDown(Started(t, n), k);
    } else {
      ExpiresOnce(Started(t, n), k);
    }
  }

  /** Armed with no time, the countdown claims to run but no tick is ever scheduled,
      so it never expires. */
  lemma NoTimeNeverExpires<C>(t: Timer<C>, seconds: int, k: nat)
    requires seconds <= 0
    ensures Started(t, seconds).isRunning
    ensures RunTicks(Started(t, seconds), k) == (Started(t, seconds), [])
  {
    IdleStaysIdle(Started(t, seconds), k);
  }

  /** Expiry calls the callback registered last, not the one in place when the
      countdown was armed: arm with `a`, let `j` ticks pass, register `b`, and the
      remaining ticks call `b` once and `a` never. */
  lemma LatestCallbackFires<C>(t: Timer<C>, n: int, a: C, b: C, j: nat, k: nat)
    requires 0 <= j < n <= j + k
    ensures var (midway, early) := RunTicks(Started(t.(onExpire := Some(a)), n), j);
      && early == []
      && RunTicks(midway.(onExpire := Some(b)), k).1 == [b]
  {
    var armed := Started(t.(onExpire := Some(a)), n);
    TicksCountDown(armed, j);
    ExpiresOnce(armed.(timeLeft := n - j, onExpire := Some(b)), k);
  }

  /** What the candidate page does on each new question, `reset(s)` then `start(s)`,
      is the same as `start(s)` alone. */
  lemma ResetThenStart<C>(t: Timer<C>, seconds: int)
    ensures Started(ResetTo(t, seconds), seconds) == Started(t, seconds)
    ensures !Ticking(ResetTo(t, seconds)) && ResetTo(t, seconds).timeLeft == seconds
  {
  }

  /** `percentage`: the time left as a share of the hook's `initialSeconds`, not of the
      time the countdown was last armed with. */
  function PercentageOf(timeLeft: int, initialSeconds: int): (p: real)
    requires initialSeconds != 0
    ensures p * initialSeconds as real == 100.0 * timeLeft as real
  {
    (timeLeft as real / initialSeconds as real) * 100.0
  }

  /** The share is a percentage while the time left is within the hook's initial
      seconds, full exactly at the initial seconds; armed with more, it exceeds 100. */
  lemma PercentageBounds(timeLeft: int, initialSeconds: int)
    requires initialSeconds > 0
    ensures 0 <= timeLeft <= initialSeconds ==> 0.0 <= PercentageOf(timeLeft, initialSeconds) <= 100.0
    ensures PercentageOf(timeLeft, initialSeconds) == 100.0 <==> timeLeft == initialSeconds
    ensures timeLeft > initialSeconds ==> PercentageOf(timeLeft, initialSeconds) > 100.0
  {
    var p := PercentageOf(timeLeft, initialSeconds);
    var n := initialSeconds as real;
    assert p * n == 100.0 * timeLeft as real;
    if p == 100.0 {
      assert 100.0 * n == 100.0 * timeLeft as real;
    }
    if timeLeft == initialSeconds {
      assert (p - 100.0) * n == 0.0;
    }
    if timeLeft > initialSeconds {
      assert p * n > 100.0 * n;
    }
    if 0 <= timeLeft <= initialSeconds {
      assert p * n <= 100.0 * n;
      assert 0.0 <= p * n;
    }
  }

  /** `useTimer(initialSeconds, onExpire)`: the hook's state as an object. */
  class Countdown<C> {
    const initialSeconds: int
    var timeLeft: int
    var isRunning: bool
    var onExpire: Option<C>

    function State(): Timer<C>
      reads this
    {
      Timer(timeLeft, isRunning, onExpire)
    }

    constructor (initialSeconds: int, onExpire: Option<C>)
      ensures this.initialSeconds == initialSeconds
      ensures State() == Timer(initialSeconds, false, onExpire)
    {
      this.initialSeconds := initialSeconds;
      timeLeft, isRunning := initialSeconds, false;
      this.onExpire := onExpire;
    }

    /** The effect that keeps the ref on the callback passed in the latest render. */
    method SetOnExpire(callback: Option<C>)
      modifies this`onExpire
      ensures State() == old(State()).(onExpire := callback)
    {
      onExpire := callback;
    }

    method Start(seconds: int)
      modifies this`timeLeft, this`isRunning
      ensures State() == Started(old(State()), seconds)
    {
      timeLeft, isRunning := seconds, true;
    }

    method Stop()
      modifies this`isRunning
      ensures State() == Stopped(old(State()))
    {
      isRunning := false;
    }

    method Reset(seconds: int)
      modifies this`timeLeft, this`isRunning
      ensures State() == ResetTo(old(State()), seconds)
    {
      Stop();
      timeLeft := seconds;
    }

    /** One second of the scheduled interval; returns the callback it invoked, if any. */
    method Tick() returns (fired: Option<C>)
      modifies this`timeLeft, this`isRunning
      ensures (State(), fired) == TickOnce(old(State()))
    {
      fired := None;
      if isRunning && timeLeft > 0 {
        if timeLeft <= 1 {
          isRunning := false;
          fired := onExpire;
          timeLeft := 0;
        } else {
          timeLeft := timeLeft - 1;
        }
      }
    }

    function Percentage(): real
      reads this
      requires initialSeconds != 0
    {
      PercentageOf(timeLeft, initialSeconds)
    }
  }

  // ---------------------------------------------------------------- anti-cheat

  /** An installed listener; `generation` tells apart the closures of different effect
      runs, which is what `removeEventListener` matches on. */
  datatype Listener =
    | PopState(generation: nat)
    | VisibilityChange(generation: nat, sessionId: Option<string>, hasCallback: bool)
    | ContextMenu(generation: nat)
    | KeyDown(generation: nat)

  /** The four listeners one run of the effect adds, in order. */
  function Installed(generation: nat, sessionId: Option<string>, hasCallback: bool): (ls: seq<Listener>)
    ensures |ls| == 4
  {
    [PopState(generation), VisibilityChange(generation, sessionId, hasCallback), ContextMenu(generation),
     KeyDown(generation)]
  }

  /** `removeEventListener`: the first registration of exactly this listener goes. */
  function Remove(ls: seq<Listener>, l: Listener): (r: seq<Listener>)
    ensures l in ls ==> |r| == |ls| - 1
    ensures l !in ls ==> r == ls
  {
    if ls == [] then []
    else if ls[0] == l then ls[1..] else [ls[0]] + Remove(ls[1..], l)
  }

  /** Removal takes away one registration of the listener and keeps all others. */
  lemma {:induction false} RemoveTakesOne(ls: seq<Listener>, l: Listener)
    ensures multiset(Remove(ls, l)) == multiset(ls) - multiset{l}
  {
    if ls != [] {
      assert ls == [ls[0]] + ls[1..];
      if ls[0] != l {
        RemoveTakesOne(ls[1..], l);
      }
    }
  }

  lemma RemoveFirst(ls: seq<Listener>, l: Listener)
    requires ls != [] && ls[0] == l
    ensures Remove(ls, l) == ls[1..]
  {
  }

  /** Removing the four listeners of one effect run, in the order the cleanup does,
      leaves none of them. */
  lemma CleanupRemovesAll(generation: nat, sessionId: Option<string>, hasCallback: bool)
    ensures Remove(Remove(Remove(Remove(Installed(generation, sessionId, hasCallback), PopState(generation)),
      VisibilityChange(generation, sessionId, hasCallback)), ContextMenu(generation)), KeyDown(generation)) == []
  {
    var ls := Installed(generation, sessionId, hasCallback);
    RemoveFirst(ls, PopState(generation));
    RemoveFirst(ls[1..], VisibilityChange(generation, sessionId, hasCallback));
    RemoveFirst(ls[2..], ContextMenu(generation));
    RemoveFirst(ls[3..], KeyDown(generation));
    assert ls[1..][1..] == ls[2..] && ls[2..][1..] == ls[3..] && ls[3..][1..] == [];
  }

  /** The session id is present and not empty, as JavaScript's truthiness requires. */
  predicate Present(sessionId: Option<string>) {
    sessionId.Some? && sessionId.value != ""
  }

  /** How many times the listeners call `onTabSwitch` for one `visibilitychange`. */
  function TabReports(ls: seq<Listener>, hidden: bool): nat {
    if ls == [] then 0
    else
      var l := ls[0];
      (if l.VisibilityChange? && hidden && Present(l.sessionId) && l.hasCallback then 1 else 0)
        + TabReports(ls[1..], hidden)
  }

  /** Whether a listener stops the context menu. */
  function BlocksContextMenu(ls: seq<Listener>): bool {
    exists k :: 0 <= k < |ls| && ls[k].ContextMenu?
  }

  /** How many times the listeners re-push the history entry for one `popstate`. */
  function HistoryRepushes(ls: seq<Listener>): nat {
    if ls == [] then 0 else (if ls[0].PopState? then 1 else 0) + HistoryRepushes(ls[1..])
  }

  /** The key filter: F12, Ctrl+Shift+'I' and Ctrl+'u' are blocked. */
  function KeyBlocked(key: string, ctrlKey: bool, shiftKey: bool): bool {
    key == "F12" || (ctrlKey && shiftKey && key == "I") || (ctrlKey && key == "u")
  }

  /** Only those three combinations are blocked, and the letters are case-sensitive:
      Ctrl+'U' and Ctrl+Shift+'i' pass, while Shift does not matter for Ctrl+'u'. */
  lemma KeyFilterCases(key: string, ctrlKey: bool, shiftKey: bool)
    ensures KeyBlocked("F12", ctrlKey, shiftKey)
    ensures KeyBlocked("u", ctrlKey, shiftKey) <==> ctrlKey
    ensures KeyBlocked("I", ctrlKey, shiftKey) <==> ctrlKey && shiftKey
    ensures !KeyBlocked("U", ctrlKey, shiftKey) && !KeyBlocked("i", ctrlKey, shiftKey)
    ensures !ctrlKey ==> (KeyBlocked(key, ctrlKey, shiftKey) <==> key == "F12")
  {
  }

  /** The four listeners of one effect run: one tab report per hidden-page event when
      the session id and the callback are there, one history re-push per `popstate`,
      and the context menu blocked. */
  lemma InstalledBehaviour(generation: nat, sessionId: Option<string>, hasCallback: bool, hidden: bool)
    ensures TabReports(Installed(generation, sessionId, hasCallback), hidden)
      == (if hidden && Present(sessionId) && hasCallback then 1 else 0)
    ensures HistoryRepushes(Installed(generation, sessionId, hasCallback)) == 1
    ensures BlocksContextMenu(Installed(generation, sessionId, hasCallback))
  {
    var ls := Installed(generation, sessionId, hasCallback);
    var v := VisibilityChange(generation, sessionId, hasCallback);
    var tail := [ContextMenu(generation), KeyDown(generation)];
    assert ls[1..] == [v] + tail && tail[1..] == [KeyDown(generation)];
    assert TabReports(tail, hidden) == 0 && HistoryRepushes(tail) == 0 by {
      assert TabReports(tail[1..][1..], hidden) == 0 && HistoryRepushes(tail[1..][1..]) == 0;
    }
    assert TabReports([v] + tail, hidden) == TabReports(ls, hidden) - 0;
    assert ls[2].ContextMenu?;
  }

  /** `useAntiCheat(sessionId, onTabSwitch)`: the listeners on the page and the number
      of history entries pushed. */
  class AntiCheat {
    var listeners: seq<Listener>
    var generation: nat
    var mounted: bool
    var sessionId: Option<string>
    var hasCallback: bool
    var historyPushes: nat

    /** While mounted, exactly the four listeners of the latest effect run are on the
        page; afterwards none. */
    ghost predicate Valid()
      reads this
    {
      if mounted then listeners == Installed(generation, sessionId, hasCallback) else listeners == []
    }

    constructor ()
      ensures Valid() && !mounted && historyPushes == 0
    {
      listeners, generation, mounted := [], 0, false;
      sessionId, hasCallback, historyPushes := None, false, 0;
    }

    /** The effect: push a history entry and add the four listeners. */
    method Install(sid: Option<string>, callback: bool)
      requires Valid() && !mounted
      modifies this
      ensures Valid() && mounted && sessionId == sid && hasCallback == callback
      ensures generation == old(generation) + 1 && historyPushes == old(historyPushes) + 1
      ensures listeners == Installed(generation, sid, callback)
    {
      historyPushes := historyPushes + 1;
      generation := generation + 1;
      sessionId, hasCallback := sid, callback;
      listeners := listeners + Installed(generation, sid, callback);
      mounted := true;
    }

    /** The effect's cleanup: remove the four listeners it added. */
    method Cleanup()
      requires Valid() && mounted
      modifies this`listeners, this`mounted
      ensures Valid() && !mounted && listeners == []
    {
      var g := generation;
      var ls := listeners;
      ls := Remove(ls, PopState(g));
      ls := Remove(ls, VisibilityChange(g, sessionId, hasCallback));
      ls := Remove(ls, ContextMenu(g));
      ls := Remove(ls, KeyDown(g));
      CleanupRemovesAll(g, sessionId, hasCallback);
      listeners, mounted := ls, false;
    }

    /** A change of `sessionId` or of the callback: cleanup, then the effect again. The
        page never holds more than the four listeners of the latest run. */
    method Rerun(sid: Option<string>, callback: bool)
      requires Valid()
      modifies this
      ensures Valid() && mounted && |listeners| == 4
      ensures listeners == Installed(generation, sid, callback)
      ensures historyPushes == old(historyPushes) + 1
    {
      if mounted {
        Cleanup();
      }
      Install(sid, callback);
    }

    /** A `visibilitychange` event: how many tab switches are reported. */
    method VisibilityChanged(hidden: bool) returns (reports: nat)
      requires Valid()
      ensures reports == TabReports(listeners, hidden)
      ensures mounted ==> reports == (if hidden && Present(sessionId) && hasCallback then 1 else 0)
      ensures !mounted ==> reports == 0
    {
      reports := 0;
      var i := 0;
      while i < |listeners|
        invariant 0 <= i <= |listeners|
        invariant reports + TabReports(listeners[i..], hidden) == TabReports(listeners, hidden)
      {
        var l := listeners[i];
        assert listeners[i..] == [l] + listeners[i + 1..];
        if l.VisibilityChange? && hidden && Present(l.sessionId) && l.hasCallback {
          reports := reports + 1;
        }
        i := i + 1;
      }
      if mounted {
        InstalledBehaviour(generation, sessionId, hasCallback, hidden);
      }
    }

    /** A `popstate` event (the back button): each listener pushes the entry again. */
    method PoppedState()
      requires Valid()
      modifies this`historyPushes
      ensures historyPushes == old(historyPushes) + HistoryRepushes(listeners)
      ensures mounted ==> historyPushes == old(historyPushes) + 1
      ensures !mounted ==> historyPushes == old(historyPushes)
    {
      if mounted {
        InstalledBehaviour(generation, sessionId, hasCallback, false);
      }
      historyPushes := historyPushes + HistoryRepushes(listeners);
    }
  }
}
