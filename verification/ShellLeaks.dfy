/** Leaks: over runs whose calls may raise, which shells stay reachable and which are lost for good. */
module ShellLeaks {
  import opened Text
  import opened ShellCache

  // ----- states without a lost shell

  /** Weaker than `Good`: every open shell is held, but a held shell may be closed; an open control shell. */
  ghost predicate NoLeak(s: State) {
    && Safe(s)
    && (forall h: Handle | s.world.IsOpen(h) :: IsHeld(s, h))
    && (s.control.Some? ==> s.world.IsOpen(s.control.value))
  }

  ghost predicate NoneOpen(s: State) {
    forall h: Handle :: !s.world.IsOpen(h)
  }

  lemma GoodHasNoLeak(s: State)
    requires Good(s)
    ensures NoLeak(s)
  {
    if s.control.Some? {
      assert IsHeld(s, s.control.value);
    }
  }

  lemma CloseKeysNoLeak(s: State, keys: set<Key>)
    requires NoLeak(s)
    ensures NoLeak(CloseKeys(s, keys)) && CloseKeys(s, keys).control == s.control
  {
    CloseKeysSafe(s, keys);
    var t := CloseKeys(s, keys);
    var closed := ShellsOf(s, keys);
    var bag: multiset<Handle> := multiset(closed);
    assert forall h: Handle :: t.world.exits[h] == s.world.exits[h] + bag[h];
    forall h: Handle | t.world.IsOpen(h) ensures IsHeld(t, h) {
      assert s.world.IsOpen(h) && IsHeld(s, h);
      if s.control != Some(h) {
        var k :| k in s.cache && s.cache[k] == h;
        assert k in t.cache && t.cache[k] == h;
      }
    }
    if s.control.Some? {
      assert s.control.value !in closed;
    }
  }

  lemma CloseControlNoLeak(s: State)
    requires NoLeak(s)
    ensures NoLeak(CloseControl(s)) && CloseControl(s).control.None?
  {
    CloseControlSafe(s);
    var t := CloseControl(s);
    forall h: Handle | t.world.IsOpen(h) ensures IsHeld(t, h) {
      assert s.world.IsOpen(h) && IsHeld(s, h);
    }
  }

  lemma CacheNewShellNoLeak(s: State, key: Key, o: Opening)
    requires NoLeak(s) && key !in s.cache && OpeningEffect(s.world, None, o)
    ensures NoLeak(State(o.world, if o.held.Some? then s.cache[key := o.held.value] else s.cache, s.control))
  {
    var t := State(o.world, if o.held.Some? then s.cache[key := o.held.value] else s.cache, s.control);
    CacheNewShell(s, key, o);
    forall h: Handle | t.world.IsOpen(h) ensures IsHeld(t, h) {
      if h < s.world.spawned {
        assert s.world.IsOpen(h) && IsHeld(s, h);
        if s.control != Some(h) {
          var k :| k in s.cache && s.cache[k] == h;
          assert t.cache[k] == h;
        }
      } else {
        assert t.cache[key] == h;
      }
    }
  }

  lemma NoLeakIsSafe(s: State)
    requires NoLeak(s)
    ensures Safe(s) && Counted(s.world)
  {
  }

  lemma OpenStepNoLeak(s: State, call: BashCall)
    requires NoLeak(s) && call.Id() !in s.cache
    ensures NoLeak(OpenStep(s, call).state) && OpenStep(s, call).state.control == s.control
  {
    hide NoLeak, TryOpen, CloseKeys, OpeningEffect;
    var o := TryOpen(call.attempts, s.world, None);
    var t := State(o.world, if o.held.Some? then s.cache[call.Id() := o.held.value] else s.cache, s.control);
    NoLeakIsSafe(s);
    TryOpenEffect(call.attempts, s.world, None);
    CacheNewShellNoLeak(s, call.Id(), o);
    CloseKeysNoLeak(t, Stale(t, call.others + {call.thread}));
  }

  /** Without a refused echo, opening the control shell loses nothing. */
  lemma ControlShellNoLeak(s: State, attempts: Attempts)
    requires NoLeak(s) && (s.control.Some? || !EndsRefused(attempts, false))
    ensures NoLeak(ControlShell(s, attempts).state)
  {
    hide TryOpen, EndsRefused;
    ControlShellSafe(s, attempts);
    if s.control.None? {
      var o := TryOpen(attempts, s.world, None);
      TryOpenEffect(attempts, s.world, None);
      TryOpenOutcome(attempts, s.world, None);
      var t := ControlShell(s, attempts).state;
      forall h: Handle | t.world.IsOpen(h) ensures IsHeld(t, h) {
        if h < s.world.spawned {
          assert s.world.IsOpen(h) && IsHeld(s, h);
        }
      }
    }
  }

  lemma {:induction false} LookupNoLeak(script: nat -> Lookup, i: nat, s: State, elapsed: real, timeout: real)
    requires NoLeak(s) && elapsed >= i as real && !LookupLoses(script, i, s.control.Some?, elapsed, timeout)
    ensures NoLeak(LookupRun(script, i, s, elapsed, timeout).state)
    decreases if i == 0 then 1 else 0, timeout
  {
    hide NoLeak, ControlShell, CloseControl, Opens, EndsRefused;
    var l := script(i);
    var c := ControlShell(s, l.attempts);
    ControlShellOutcome(s, l.attempts);
    RefusedIsNotOpen(l.attempts, false);
    ControlShellNoLeak(s, l.attempts);
    LookupUnroll(script, i, s, elapsed, timeout);
    if c.error.None? {
      CloseControlNoLeak(c.state);
      var t := if l.reply.TimedOut? then CloseControl(c.state) else c.state;
      var now := elapsed + l.duration;
      if (l.reply.NotFound? || l.reply.TimedOut?) && timeout - now > 0.0 {
        LookupNoLeak(script, i + 1, t, now + l.nap, timeout - now);
      }
    }
  }

  lemma {:induction false} RefusedIsNotOpen(attempts: seq<Attempt>, holding: bool)
    requires Settles(attempts, holding)
    ensures EndsRefused(attempts, holding) ==> !Opens(attempts, holding)
  {
    match attempts[0]
    case SpawnFailed(expired) =>
      if holding && !expired { RefusedIsNotOpen(attempts[1..], holding); }
    case EchoFailed(expired) =>
      if !expired { RefusedIsNotOpen(attempts[1..], true); }
    case _ =>
  }

  /** A call of bash that loses no control shell loses nothing, even if it gives up. */
  lemma BashNoLeak(s: State, call: BashCall)
    requires NoLeak(s) && !LosesControl(s, call)
    ensures NoLeak(BashStep(s, call).state)
    ensures call.node.None? ==> BashStep(s, call).state.control == s.control
  {
    hide NoLeak, OpenStep, LookupRun, LookupLoses;
    if call.Id() !in s.cache {
      if call.node.None? {
        OpenStepNoLeak(s, call);
      } else {
        LookupNoLeak(call.lookup, 0, s, 0.0, call.timeout);
        NoLeakIsSafe(s);
        LookupSafe(call.lookup, 0, s, 0.0, call.timeout);
        var l := LookupRun(call.lookup, 0, s, 0.0, call.timeout);
        if l.error.None? { OpenStepNoLeak(l.state, call); }
      }
    }
  }

  // ----- a lost shell stays lost

  /** An open shell that nothing refers to. */
  predicate Lost(s: State, h: Handle) {
    s.world.IsOpen(h) && !IsHeld(s, h)
  }

  lemma CloseKeysLost(s: State, keys: set<Key>, h: Handle)
    requires Lost(s, h)
    ensures Lost(CloseKeys(s, keys), h)
  {
    var closed := ShellsOf(s, keys);
    assert h !in closed;
    var bag: multiset<Handle> := multiset(closed);
    assert CloseKeys(s, keys).world.exits[h] == s.world.exits[h] + bag[h];
  }

  lemma CloseControlLost(s: State, h: Handle)
    requires Lost(s, h)
    ensures Lost(CloseControl(s), h)
  {
  }

  lemma NewShellLost(s: State, key: Key, o: Opening, h: Handle)
    requires Lost(s, h) && key !in s.cache && OpeningEffect(s.world, None, o)
    ensures Lost(State(o.world, if o.held.Some? then s.cache[key := o.held.value] else s.cache, s.control), h)
  {
    var t := State(o.world, if o.held.Some? then s.cache[key := o.held.value] else s.cache, s.control);
    forall k | k in t.cache ensures t.cache[k] != h {
      if k != key {
        assert s.cache[k] == t.cache[k];
      }
    }
  }

  lemma OpenStepLost(s: State, call: BashCall, h: Handle)
    requires Safe(s) && Lost(s, h) && call.Id() !in s.cache
    ensures Lost(OpenStep(s, call).state, h)
  {
    hide Lost, Safe, TryOpen, CloseKeys, OpeningEffect;
    var o := TryOpen(call.attempts, s.world, None);
    var t := State(o.world, if o.held.Some? then s.cache[call.Id() := o.held.value] else s.cache, s.control);
    SafeIsCounted(s);
    TryOpenEffect(call.attempts, s.world, None);
    NewShellLost(s, call.Id(), o, h);
    CloseKeysLost(t, Stale(t, call.others + {call.thread}), h);
  }

  lemma ControlShellLost(s: State, attempts: Attempts, h: Handle)
    requires Safe(s) && Lost(s, h)
    ensures Lost(ControlShell(s, attempts).state, h)
  {
    hide TryOpen;
    TryOpenEffect(attempts, s.world, None);
  }

  lemma {:induction false} LookupLost(script: nat -> Lookup, i: nat, s: State, elapsed: real, timeout: real, h: Handle)
    requires Safe(s) && Lost(s, h) && elapsed >= i as real
    ensures Lost(LookupRun(script, i, s, elapsed, timeout).state, h)
    decreases if i == 0 then 1 else 0, timeout
  {
    hide Lost, Safe, ControlShell, CloseControl;
    var l := script(i);
    var c := ControlShell(s, l.attempts);
    ControlShellLost(s, l.attempts, h);
    ControlShellSafe(s, l.attempts);
    LookupUnroll(script, i, s, elapsed, timeout);
    if c.error.None? {
      CloseControlLost(c.state, h);
      CloseControlSafe(c.state);
      var t := if l.reply.TimedOut? then CloseControl(c.state) else c.state;
      var now := elapsed + l.duration;
      if (l.reply.NotFound? || l.reply.TimedOut?) && timeout - now > 0.0 {
        LookupLost(script, i + 1, t, now + l.nap, timeout - now, h);
      }
    }
  }

  lemma BashLost(s: State, call: BashCall, h: Handle)
    requires Safe(s) && Lost(s, h)
    ensures Lost(BashStep(s, call).state, h)
  {
    hide Lost, Safe, OpenStep, LookupRun;
    if call.Id() !in s.cache {
      if call.node.None? {
        OpenStepLost(s, call, h);
      } else {
        LookupLost(call.lookup, 0, s, 0.0, call.timeout, h);
        LookupSafe(call.lookup, 0, s, 0.0, call.timeout);
        var l := LookupRun(call.lookup, 0, s, 0.0, call.timeout);
        if l.error.None? { OpenStepLost(l.state, call, h); }
      }
    }
  }

  // ----- losing a control shell

  lemma ControlShellLoses(s: State, attempts: Attempts) returns (h: Handle)
    requires Safe(s) && s.control.None? && EndsRefused(attempts, false)
    ensures Lost(ControlShell(s, attempts).state, h)
  {
    hide TryOpen, EndsRefused;
    var o := TryOpen(attempts, s.world, None);
    TryOpenEffect(attempts, s.world, None);
    TryOpenOutcome(attempts, s.world, None);
    h := o.held.value;
  }

  lemma {:induction false} LookupLosesShell(script: nat -> Lookup, i: nat, s: State, elapsed: real, timeout: real)
    returns (h: Handle)
    requires Safe(s) && elapsed >= i as real && LookupLoses(script, i, s.control.Some?, elapsed, timeout)
    ensures Lost(LookupRun(script, i, s, elapsed, timeout).state, h)
    decreases if i == 0 then 1 else 0, timeout
  {
    hide Lost, Safe, ControlShell, CloseControl, Opens, EndsRefused;
    var l := script(i);
    var c := ControlShell(s, l.attempts);
    ControlShellOutcome(s, l.attempts);
    ControlShellSafe(s, l.attempts);
    LookupUnroll(script, i, s, elapsed, timeout);
    if c.error.Some? {
      h := ControlShellLoses(s, l.attempts);
    } else {
      CloseControlSafe(c.state);
      var t := if l.reply.TimedOut? then CloseControl(c.state) else c.state;
      var now := elapsed + l.duration;
      h := LookupLosesShell(script, i + 1, t, now + l.nap, timeout - now);
    }
  }

  /** A call that loses a control shell leaves an open shell that nothing refers to. */
  lemma BashLoses(s: State, call: BashCall) returns (h: Handle)
    requires Safe(s) && LosesControl(s, call)
    ensures Lost(BashStep(s, call).state, h)
  {
    hide Lost, Safe, OpenStep, LookupRun, LookupLoses;
    LookupOutcome(call.lookup, 0, s, 0.0, call.timeout);
    h := LookupLosesShell(call.lookup, 0, s, 0.0, call.timeout);
  }
}
