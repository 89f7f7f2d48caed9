/** The cluster object: its locked methods, loop by loop, proved against the shell cache steps. */
module Cluster {
  import opened Text
  import opened ShellCache
  import opened ShellRuns

  lemma OneMoreShell(s: State, done: set<Key>, k: Key)
    requires Safe(s) && k in s.cache && k !in done
    ensures ShellsOf(s, done + {k}) == ShellsOf(s, done) + {s.cache[k]} && s.cache[k] !in ShellsOf(s, done)
  {
  }

  lemma ExitOneMore(w: World, shells: set<Handle>, h: Handle)
    requires h !in shells
    ensures w.ExitAll(shells + {h}) == w.ExitAll(shells).Exit(h)
  {
    var a: multiset<Handle>, b: multiset<Handle> := multiset(shells), multiset(shells + {h});
    assert b == a + multiset{h};
    assert w.exits + b == w.exits + a + multiset{h};
  }

  /** Closing one more key. */
  lemma CloseOneMore(s: State, done: set<Key>, k: Key)
    requires Safe(s) && k in s.cache && k !in done
    ensures var t := CloseKeys(s, done);
            k in t.cache
            && CloseKeys(s, done + {k}) == State(t.world.Exit(t.cache[k]), t.cache - {k}, t.control)
  {
    OneMoreShell(s, done, k);
    hide Safe, ShellsOf;
    ExitOneMore(s.world, ShellsOf(s, done), s.cache[k]);
    assert CloseKeys(s, done + {k}).cache == CloseKeys(s, done).cache - {k};
  }

  lemma CloseNothing(s: State)
    ensures CloseKeys(s, {}) == s
  {
    assert ShellsOf(s, {}) == {};
    var bag: multiset<Handle> := multiset(ShellsOf(s, {}));
    assert s.world.exits + bag == s.world.exits;
  }

  lemma CloseOnlyCached(s: State, keys: set<Key>)
    ensures CloseKeys(s, keys) == CloseKeys(s, set k | k in keys && k in s.cache)
  {
    var cached := set k | k in keys && k in s.cache;
    assert ShellsOf(s, keys) == ShellsOf(s, cached);
    hide ShellsOf;
    assert CloseKeys(s, keys).cache == CloseKeys(s, cached).cache;
  }

  class Cluster {
    var cache: map<Key, Handle>
    var control: Option<Handle>
    /** The operating system's record of the shells. */
    var world: World

    constructor ()
      ensures Now() == EMPTY
    {
      cache := map[];
      control := None;
      world := World(0, multiset{});
    }

    function Now(): State
      reads this
    {
      State(world, cache, control)
    }

    method Spawn() returns (h: Handle)
      modifies this`world
      ensures h == old(world.spawned) && world == old(world).Spawn()
    {
      h := world.spawned;
      world := world.Spawn();
    }

    method ExitShell(h: Handle)
      modifies this`world
      ensures world == old(world).Exit(h)
    {
      world := world.Exit(h);
    }

    /** The loops that walk over a snapshot of the cached keys and close those that qualify. */
    method CloseWhere(keys: set<Key>)
      requires Safe(Now())
      modifies this`cache, this`world
      ensures Now() == CloseKeys(old(Now()), keys)
    {
      hide Safe, CloseKeys;
      var todo := set k | k in keys && k in cache;
      ghost var start := Now();
      ghost var all := todo;
      CloseOnlyCached(start, keys);
      CloseNothing(start);
      assert all - todo == {};
      while todo != {}
        invariant todo <= all && (forall k | k in all :: k in start.cache)
        invariant Now() == CloseKeys(start, all - todo)
        decreases |todo|
      {
        var k :| k in todo;
        CloseOneMore(start, all - todo, k);
        assert (all - todo) + {k} == all - (todo - {k});
        ExitShell(cache[k]);
        cache := cache - {k};
        todo := todo - {k};
      }
      assert all - todo == all;
    }

    /** control_shell */
    method GetControlShell(attempts: Attempts) returns (error: Option<OpenError>)
      modifies this`control, this`world
      ensures Now() == ControlShell(old(Now()), attempts).state
      ensures error == ControlShell(old(Now()), attempts).error
    {
      if control.Some? {
        return None;
      }
      var shell: Option<Handle> := None;
      var i := 0;
      while true
        invariant i < |attempts| && Settles(attempts[i..], shell.Some?)
        invariant cache == old(cache) && control.None?
        invariant TryOpen(attempts[i..], world, shell) == TryOpen(attempts, old(world), None)
        decreases |attempts| - i
      {
        match attempts[i] {
          case Ready =>
            var h := Spawn();
            shell := Some(h);
            break;
          case SpawnIOError =>
            return Some(SpawnRefused);
          case SpawnFailed(expired) =>
            if shell.None? {
              return Some(NoShell);
            }
            ExitShell(shell.value);
            if expired {
              return Some(GaveUp);
            }
          case EchoIOError =>
            var h := Spawn();
            return Some(EchoRefused);
          case EchoFailed(expired) =>
            var h := Spawn();
            shell := Some(h);
            ExitShell(h);
            if expired {
              return Some(GaveUp);
            }
        }
        assert attempts[i..][1..] == attempts[i + 1..];
        i := i + 1;
      }
      control := shell;
      error := None;
    }

    method CloseControlShell()
      modifies this`control, this`world
      ensures Now() == CloseControl(old(Now()))
    {
      if control.Some? {
        var shell := control.value;
        control := None;
        ExitShell(shell);
      }
    }

    /** node_container_id: the loop has no bound of its own; the shrinking time limit ends it. */
    method NodeContainerId(script: nat -> Lookup, timeout: real) returns (error: Option<LookupError>, attempts: nat)
      modifies this`control, this`world
      ensures Now() == LookupRun(script, 0, old(Now()), 0.0, timeout).state
      ensures error == LookupRun(script, 0, old(Now()), 0.0, timeout).error
      ensures attempts >= 2 ==> (attempts as real - 1.0) * (attempts as real - 2.0) < 2.0 * timeout
    {
      hide ControlShell, CloseControl, LookupRun;
      ghost var run := LookupRun(script, 0, Now(), 0.0, timeout);
      LookupTerminatesInTime(script, Now(), timeout);
      var i, elapsed, left := 0, 0.0, timeout;
      while true
        invariant elapsed >= i as real && cache == old(cache)
        invariant var rest := LookupRun(script, i, Now(), elapsed, left);
                  rest.state == run.state && rest.error == run.error && i + |rest.retries| == |run.retries|
        decreases if i == 0 then 1 else 0, left
      {
        var l := script(i);
        LookupUnroll(script, i, Now(), elapsed, left);
        attempts := i + 1;
        var failure := GetControlShell(l.attempts);
        if failure.Some? {
          return Some(ControlFailed(failure.value)), attempts;
        }
        if l.reply.Found? {
          return None, attempts;
        }
        if l.reply.Refused? {
          return Some(LookupRefused), attempts;
        }
        if l.reply.TimedOut? {
          CloseControlShell();
        }
        elapsed := elapsed + l.duration;
        left := left - elapsed;
        if left <= 0.0 {
          return Some(LookupExpired), attempts;
        }
        elapsed := elapsed + l.nap;
        i := i + 1;
      }
    }
  
    /** The opening loop of bash: each shell is cached under the caller's key before it is tried. */
    method OpenBash(id: Key, attempts: Attempts) returns (error: Option<OpenError>)
      requires id !in cache
      modifies this`cache, this`world
      ensures var o := TryOpen(attempts, old(world), None);
              error == o.error && world == o.world
              && cache == if o.held.Some? then old(cache)[id := o.held.value] else old(cache)
    {
      ghost var shell: Option<Handle> := None;
      var i := 0;
      while true
        invariant i < |attempts| && Settles(attempts[i..], shell.Some?)
        invariant cache == if shell.Some? then old(cache)[id := shell.value] else old(cache)
        invariant TryOpen(attempts[i..], world, shell) == TryOpen(attempts, old(world), None)
        decreases |attempts| - i
      {
        match attempts[i] {
          case Ready =>
            var h := Spawn();
            cache := cache[id := h];
            return None;
          case SpawnIOError =>
            return Some(SpawnRefused);
          case SpawnFailed(expired) =>
            if id !in cache {
              return Some(NoShell);
            }
            ExitShell(cache[id]);
            if expired {
              return Some(GaveUp);
            }
          case EchoIOError =>
            var h := Spawn();
            cache := cache[id := h];
            return Some(EchoRefused);
          case EchoFailed(expired) =>
            var h := Spawn();
            shell := Some(h);
            cache := cache[id := h];
            ExitShell(cache[id]);
            if expired {
              return Some(GaveUp);
            }
        }
        assert attempts[i..][1..] == attempts[i + 1..];
        i := i + 1;
      }
    }

    method Bash(call: BashCall) returns (r: BashResult)
      requires Safe(Now())
      modifies this
      ensures Now() == BashStep(old(Now()), call).state && r == BashStep(old(Now()), call).result
    {
      hide Safe, TryOpen, LookupRun, CloseKeys;
      var id := call.Id();
      if id !in cache {
        if call.node.Some? {
          LookupSafe(call.lookup, 0, Now(), 0.0, call.timeout);
          var failure, attempts := NodeContainerId(call.lookup, call.timeout);
          if failure.Some? {
            return LookupFailed(failure.value);
          }
        }
        ghost var s := Now();
        OpenedIsSafe(s, call);
        var error := OpenBash(id, call.attempts);
        if error.Some? {
          return OpenFailed(error.value);
        }
        if call.node.None? && !call.exportsWork {
          return ExportFailed;
        }
        CloseKeysKeepsOther(Now(), Stale(Now(), call.others + {call.thread}), id);
        CloseWhere(Stale(Now(), call.others + {call.thread}));
      }
      r := Shell(cache[id]);
    }

    method CloseBash(thread: string, node: Option<string>)
      requires Safe(Now())
      modifies this`cache, this`world
      ensures Now() == ShellCache.CloseBash(old(Now()), thread, node)
    {
      CloseWhere({Key(thread, NodeText(node))});
    }

    /** Node.close_bashes */
    method CloseBashes(name: string)
      requires Safe(Now())
      modifies this`cache, this`world
      ensures Now() == ShellCache.CloseBashes(old(Now()), name)
    {
      CloseWhere(set k | k in cache && EndsWith(k.node, name));
    }

    method Down(call: DownCall) returns (r: DownResult)
      requires Safe(Now())
      modifies this
      ensures Now() == DownStep(old(Now()), call).state && r == DownStep(old(Now()), call).result
    {
      hide Safe, BashStep, ShellCache.CloseKeys, CloseControl;
      BashKeepsSafe(Now(), call.HostBash());
      var bash := Bash(call.HostBash());
      if !bash.Shell? {
        return ShellUnbound;
      }
      CloseKeysSafe(Now(), OtherShells(Now(), bash.handle));
      CloseWhere(OtherShells(Now(), bash.handle));
      match call.command {
        case CommandTimedOut =>
          CloseBash(call.thread, None);
          return CommandRaised;
        case CommandBroke =>
          return CommandRaised;
        case Completed =>
          CloseControlShell();
          return IsDown;
      }
    }

    /** The final part of __exit__: every cached shell is closed, the cache keeps its entries. */
    method CloseCached()
      requires Safe(Now())
      modifies this`world
      ensures Now() == CachedClosed(old(Now()))
    {
      hide Safe, ShellsOf;
      ghost var d := Now();
      var todo := cache.Keys;
      assert d.cache.Keys - todo == {};
      ExitNothing(d);
      while todo != {}
        invariant todo <= d.cache.Keys && cache == d.cache && control == d.control
        invariant world == d.world.ExitAll(ShellsOf(d, d.cache.Keys - todo))
        decreases |todo|
      {
        var k :| k in todo;
        OneMoreShell(d, d.cache.Keys - todo, k);
        ExitOneMore(d.world, ShellsOf(d, d.cache.Keys - todo), cache[k]);
        assert (d.cache.Keys - todo) + {k} == d.cache.Keys - (todo - {k});
        ExitShell(cache[k]);
        todo := todo - {k};
      }
      assert d.cache.Keys - todo == d.cache.Keys;
    }

    /** __exit__ */
    method Leave(call: ExitCall)
      requires Safe(Now())
      modifies this
      ensures Now() == ExitStep(old(Now()), call)
    {
      hide Safe, DownStep, CachedClosed;
      if call.logs.Collected? || (call.logs.CollectingRaised? && call.logs.spawned) {
        var shell := Spawn();
        ExitShell(shell);
      }
      CollectLogsSafe(old(Now()), call.logs);
      if !call.logs.CollectingRaised? {
        DownKeepsSafe(Now(), call.down);
        var r := Down(call.down);
      }
      CloseCached();
    }
  }

  lemma ExitNothing(s: State)
    ensures s.world.ExitAll(ShellsOf(s, {})) == s.world
  {
    CloseNothing(s);
  }

  lemma OpenedIsSafe(s: State, call: BashCall)
    requires Safe(s) && call.Id() !in s.cache
    ensures var o := TryOpen(call.attempts, s.world, None);
            Safe(State(o.world, if o.held.Some? then s.cache[call.Id() := o.held.value] else s.cache, s.control))
  {
    hide Safe, TryOpen;
    SafeIsCounted(s);
    TryOpenEffect(call.attempts, s.world, None);
    CacheNewShell(s, call.Id(), TryOpen(call.attempts, s.world, None));
  }

  lemma CloseKeysKeepsOther(s: State, keys: set<Key>, k: Key)
    requires k in s.cache && k !in keys
    ensures k in CloseKeys(s, keys).cache && CloseKeys(s, keys).cache[k] == s.cache[k]
  {
  }
}
