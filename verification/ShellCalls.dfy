/** What one call of bash does to every cached shell, and how its opening loop counts. */
module ShellCalls {
  import opened Text
  import opened ShellCache

  // ----- the opening loop, attempt by attempt

  /** The attempts that are made: up to the first that settles the loop. */
  function Made(attempts: seq<Attempt>, holding: bool): seq<Attempt>
    requires Settles(attempts, holding)
  {
    match attempts[0]
    case SpawnFailed(expired) =>
      if holding && !expired then [attempts[0]] + Made(attempts[1..], holding) else [attempts[0]]
    case EchoFailed(expired) =>
      if expired then [attempts[0]] else [attempts[0]] + Made(attempts[1..], true)
    case _ => [attempts[0]]
  }

  function SpawnsOf(attempts: seq<Attempt>): nat {
    if attempts == [] then 0
    else (if attempts[0].SpawnIOError? || attempts[0].SpawnFailed? then 0 else 1) + SpawnsOf(attempts[1..])
  }

  /** Every failed echo closes its shell; a failed spawn closes the shell of the attempt before again. */
  function ClosesOf(attempts: seq<Attempt>, holding: bool): nat {
    if attempts == [] then 0
    else
      (if attempts[0].EchoFailed? || (attempts[0].SpawnFailed? && holding) then 1 else 0)
      + ClosesOf(attempts[1..], holding || attempts[0].EchoFailed?)
  }

  /** How many shells an opening creates, and how often it closes one. */
  lemma {:induction false} TryOpenCounts(attempts: seq<Attempt>, w: World, held: Option<Handle>)
    requires Settles(attempts, held.Some?)
    ensures var o := TryOpen(attempts, w, held);
            var made := Made(attempts, held.Some?);
            o.world.spawned == w.spawned + SpawnsOf(made)
            && |o.world.exits| == |w.exits| + ClosesOf(made, held.Some?)
  {
    var made := Made(attempts, held.Some?);
    match attempts[0]
    case SpawnFailed(expired) =>
      if held.Some? && !expired {
        TryOpenCounts(attempts[1..], w.Exit(held.value), held);
        assert made[1..] == Made(attempts[1..], true);
      }
    case EchoFailed(expired) =>
      if !expired {
        TryOpenCounts(attempts[1..], w.Spawn().Exit(w.spawned), Some(w.spawned));
        assert made[1..] == Made(attempts[1..], true);
      }
    case _ =>
  }

  /** Only the last attempt made decides how the loop ends, and whether it holds a shell by then. */
  lemma {:induction false} TryOpenLast(attempts: seq<Attempt>, w: World, held: Option<Handle>)
    requires Settles(attempts, held.Some?)
    ensures var made := Made(attempts, held.Some?);
            var holding := held.Some? || exists i :: 0 <= i < |made| - 1 && made[i].EchoFailed?;
            TryOpen(attempts, w, held).error ==
              match made[|made| - 1]
              case Ready => None
              case SpawnIOError => Some(SpawnRefused)
              case SpawnFailed(_) => Some(if holding then GaveUp else NoShell)
              case EchoIOError => Some(EchoRefused)
              case EchoFailed(_) => Some(GaveUp)
  {
    var made := Made(attempts, held.Some?);
    match attempts[0]
    case SpawnFailed(expired) =>
      if held.Some? && !expired {
        TryOpenLast(attempts[1..], w.Exit(held.value), held);
        assert made[1..] == Made(attempts[1..], true);
      }
    case EchoFailed(expired) =>
      if !expired {
        TryOpenLast(attempts[1..], w.Spawn().Exit(w.spawned), Some(w.spawned));
        assert made[1..] == Made(attempts[1..], true);
        assert made[0].EchoFailed?;
      }
    case _ =>
  }

  /** The loop holds a shell exactly when it held or created one, and then the one created last. */
  lemma {:induction false} TryOpenHolds(attempts: seq<Attempt>, w: World, held: Option<Handle>)
    requires Settles(attempts, held.Some?)
    ensures var o := TryOpen(attempts, w, held);
            o.held == if SpawnsOf(Made(attempts, held.Some?)) > 0 then Some(o.world.spawned - 1) else held
  {
    var made := Made(attempts, held.Some?);
    match attempts[0]
    case SpawnFailed(expired) =>
      if held.Some? && !expired {
        TryOpenHolds(attempts[1..], w.Exit(held.value), held);
        assert made[1..] == Made(attempts[1..], true);
      }
    case EchoFailed(expired) =>
      if !expired {
        TryOpenHolds(attempts[1..], w.Spawn().Exit(w.spawned), Some(w.spawned));
        TryOpenCounts(attempts[1..], w.Spawn().Exit(w.spawned), Some(w.spawned));
        assert made[1..] == Made(attempts[1..], true);
      }
    case _ =>
  }

  // ----- one call

  /** Which of its three stages makes a call raise. */
  lemma BashFailures(s: State, call: BashCall)
    ensures var r := BashStep(s, call).result;
            var uncached := call.Id() !in s.cache;
            (r.LookupFailed? <==> uncached && !Finds(s, call))
            && (r.OpenFailed? <==> uncached && Finds(s, call) && !Opens(call.attempts, false))
            && (r.ExportFailed? <==> uncached && call.node.None? && Opens(call.attempts, false) && !call.exportsWork)
  {
    hide LookupRun, TryOpen, LookupFinds, LookupLoses, Opens;
    if call.Id() !in s.cache {
      var l := LookupRun(call.lookup, 0, s, 0.0, call.timeout);
      LookupOutcome(call.lookup, 0, s, 0.0, call.timeout);
      TryOpenOutcome(call.attempts, (if call.node.None? then s else l.state).world, None);
    }
  }

  /** Two calls share a cached shell exactly when they come from the same thread for the same node; the
      host and a node called None are the same. */
  lemma SameKey(a: BashCall, b: BashCall)
    ensures a.Id() == b.Id()
       <==> a.thread == b.thread
            && (a.node == b.node || (a.node.None? && b.node == Some("None")) || (b.node.None? && a.node == Some("None")))
  {
  }

  /** What a call does to the shells that were cached before it: a call that opens a shell and returns
      removes the shells of dead threads and closes each exactly once; every shell of a live thread, and
      every shell at all when the call raises or finds its own, stays cached and untouched. */
  lemma BashSweepsExactly(s: State, call: BashCall, k: Key)
    requires Safe(s) && k in s.cache
    ensures var t := BashStep(s, call).state;
            var h := s.cache[k];
            if call.Id() !in s.cache && Returns(s, call) && k.thread != call.thread && k.thread !in call.others
            then k !in t.cache && t.world.exits[h] == s.world.exits[h] + 1
            else k in t.cache && t.cache[k] == h && t.world.exits[h] == s.world.exits[h]
  {
    hide Safe, OpenStep, LookupRun, LookupFinds, Opens;
    CachedShell(s, k);
    if call.Id() !in s.cache {
      if call.node.None? {
        OpenStepSweeps(s, call, k);
      } else {
        var l := LookupRun(call.lookup, 0, s, 0.0, call.timeout);
        LookupSafe(call.lookup, 0, s, 0.0, call.timeout);
        LookupOutcome(call.lookup, 0, s, 0.0, call.timeout);
        LookupSpares(call.lookup, 0, s, 0.0, call.timeout, s.cache[k]);
        if l.error.None? { OpenStepSweeps(l.state, call, k); }
      }
    }
  }

  lemma OpenStepSweeps(s: State, call: BashCall, k: Key)
    requires Safe(s) && k in s.cache && call.Id() !in s.cache
    ensures var t := OpenStep(s, call).state;
            var h := s.cache[k];
            if Opens(call.attempts, false) && (call.node.Some? || call.exportsWork)
               && k.thread != call.thread && k.thread !in call.others
            then k !in t.cache && t.world.exits[h] == s.world.exits[h] + 1
            else k in t.cache && t.cache[k] == h && t.world.exits[h] == s.world.exits[h]
  {
    hide TryOpen, CloseKeys, Opens, Safe;
    var o := TryOpen(call.attempts, s.world, None);
    var t := State(o.world, if o.held.Some? then s.cache[call.Id() := o.held.value] else s.cache, s.control);
    SafeIsCounted(s);
    CachedShell(s, k);
    TryOpenEffect(call.attempts, s.world, None);
    TryOpenOutcome(call.attempts, s.world, None);
    CacheNewShell(s, call.Id(), o);
    CloseKeysExactly(t, Stale(t, call.others + {call.thread}), k);
  }

  /** A call that finds no shell of its own caches one exactly when its attempts create one, however it
      ends; it is the shell created last, and open unless the attempts leave a closed one. */
  lemma BashCachesNewShell(s: State, call: BashCall)
    requires Safe(s) && call.Id() !in s.cache
    ensures var t := BashStep(s, call).state;
            && (call.Id() in t.cache <==> Finds(s, call) && SpawnsOf(Made(call.attempts, false)) > 0)
            && (call.Id() in t.cache ==>
                  t.cache[call.Id()] == t.world.spawned - 1
                  && (t.world.IsOpen(t.world.spawned - 1) <==> !LeavesClosed(call.attempts, false)))
  {
    hide Safe, OpenStep, LookupRun, LookupFinds, LeavesClosed, Made, SpawnsOf;
    if call.node.None? {
      OpenStepCaches(s, call);
    } else {
      var l := LookupRun(call.lookup, 0, s, 0.0, call.timeout);
      LookupSafe(call.lookup, 0, s, 0.0, call.timeout);
      LookupOutcome(call.lookup, 0, s, 0.0, call.timeout);
      if l.error.None? { OpenStepCaches(l.state, call); }
    }
  }

  lemma OpenStepCaches(s: State, call: BashCall)
    requires Safe(s) && call.Id() !in s.cache
    ensures var t := OpenStep(s, call).state;
            && (call.Id() in t.cache <==> SpawnsOf(Made(call.attempts, false)) > 0)
            && (call.Id() in t.cache ==>
                  t.cache[call.Id()] == t.world.spawned - 1
                  && (t.world.IsOpen(t.world.spawned - 1) <==> !LeavesClosed(call.attempts, false)))
  {
    hide TryOpen, CloseKeys, LeavesClosed, Safe, Made, SpawnsOf;
    var o := TryOpen(call.attempts, s.world, None);
    var t := State(o.world, if o.held.Some? then s.cache[call.Id() := o.held.value] else s.cache, s.control);
    SafeIsCounted(s);
    TryOpenEffect(call.attempts, s.world, None);
    TryOpenOutcome(call.attempts, s.world, None);
    TryOpenHolds(call.attempts, s.world, None);
    CacheNewShell(s, call.Id(), o);
    CloseKeysSafe(t, Stale(t, call.others + {call.thread}));
    if o.held.Some? {
      CloseKeysExactly(t, Stale(t, call.others + {call.thread}), call.Id());
    }
  }

  /** A call adds no key but its own. */
  lemma BashAddsOwnKey(s: State, call: BashCall, k: Key)
    requires Safe(s) && k in BashStep(s, call).state.cache
    ensures k in s.cache || k == call.Id()
  {
    hide LookupRun, TryOpen, Safe;
    LookupSafe(call.lookup, 0, s, 0.0, call.timeout);
  }
}
