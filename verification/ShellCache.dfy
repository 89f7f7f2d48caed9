/** The shell cache of the cluster object as a state machine: every locked call is one step, shells are
    numbered in the order they are created, and every close is counted. */
module ShellCache {
  import opened Text

  type Handle = nat

  /** Which thread a cached shell belongs to and which node it talks to; the host's node is "None". */
  datatype Key = Key(thread: string, node: string)

  /** All shells ever created, and how often each was closed. */
  datatype World = World(spawned: nat, exits: multiset<Handle>) {
    predicate IsOpen(h: Handle) {
      h < spawned && exits[h] == 0
    }

    function Spawn(): World {
      World(spawned + 1, exits)
    }

    function Exit(h: Handle): World {
      World(spawned, exits + multiset{h})
    }

    function ExitAll(hs: set<Handle>): World {
      World(spawned, exits + multiset(hs))
    }
  }

  datatype State = State(world: World, cache: map<Key, Handle>, control: Option<Handle>)

  const EMPTY := State(World(0, multiset{}), map[], None)

  // ----- invariants

  /** Holds in every state, however calls end: two keys never share a shell, the control shell is not
      cached, and only existing shells are closed. */
  predicate Safe(s: State) {
    && (forall k, l | k in s.cache && l in s.cache && s.cache[k] == s.cache[l] :: k == l)
    && (forall k | k in s.cache :: s.cache[k] < s.world.spawned)
    && (s.control.Some? ==> s.control.value < s.world.spawned && forall k | k in s.cache :: s.cache[k] != s.control.value)
    && (forall h | h in s.world.exits :: h < s.world.spawned)
  }

  /** Is this shell still reachable through the cache or as the control shell? */
  predicate IsHeld(s: State, h: Handle) {
    (exists k :: k in s.cache && s.cache[k] == h) || s.control == Some(h)
  }

  /** What runs without exceptions keep: exactly the shells held are open. */
  ghost predicate Good(s: State) {
    Safe(s) && forall h: Handle :: s.world.IsOpen(h) <==> IsHeld(s, h)
  }

  // ----- opening a shell

  /** One pass through an opening loop: creating the shell and running `echo 1` in it. `expired` says
      that the time limit is over when the failure is noticed. */
  datatype Attempt =
    | Ready
    | SpawnIOError
    | SpawnFailed(expired: bool)
    | EchoIOError
    | EchoFailed(expired: bool)

  datatype OpenError =
    | SpawnRefused  // IOError while creating the shell
    | EchoRefused   // IOError while running echo
    | GaveUp        // RuntimeError after the time limit
    | NoShell       // the handler finds no shell to close

  datatype Opening = Opening(world: World, held: Option<Handle>, error: Option<OpenError>)

  /** The loop ends: some attempt succeeds or raises. `holding`: an earlier attempt left a shell. */
  predicate Settles(attempts: seq<Attempt>, holding: bool) {
    attempts != [] &&
    match attempts[0]
    case Ready => true
    case SpawnIOError => true
    case SpawnFailed(expired) => !holding || expired || Settles(attempts[1..], holding)
    case EchoIOError => true
    case EchoFailed(expired) => expired || Settles(attempts[1..], true)
  }

  type Attempts = a: seq<Attempt> | Settles(a, false) witness [Ready]

  /** The loop: every shell that fails its echo is closed, and the shell last created stays referenced. */
  function TryOpen(attempts: seq<Attempt>, w: World, held: Option<Handle>): (o: Opening)
    requires Settles(attempts, held.Some?)
    ensures o.error.None? || o.error == Some(EchoRefused) || o.error == Some(GaveUp) ==> o.held.Some?
  {
    var fresh_ := w.spawned;
    match attempts[0]
    case Ready => Opening(w.Spawn(), Some(fresh_), None)
    case SpawnIOError => Opening(w, held, Some(SpawnRefused))
    case SpawnFailed(expired) =>
      if held.None? then Opening(w, None, Some(NoShell))
      else if expired then Opening(w.Exit(held.value), held, Some(GaveUp))
      else TryOpen(attempts[1..], w.Exit(held.value), held)
    case EchoIOError => Opening(w.Spawn(), Some(fresh_), Some(EchoRefused))
    case EchoFailed(expired) =>
      if expired then Opening(w.Spawn().Exit(fresh_), Some(fresh_), Some(GaveUp))
      else TryOpen(attempts[1..], w.Spawn().Exit(fresh_), Some(fresh_))
  }

  /** The shell the loop leaves referenced is usable: it was opened, or only its echo was refused. */
  predicate Usable(o: Opening) {
    o.held.Some? && (o.error.None? || o.error == Some(EchoRefused))
  }

  /** Only existing shells have been closed. */
  predicate Counted(w: World) {
    forall h: Handle | h in w.exits :: h < w.spawned
  }

  /** Of the shells an opening creates, all are closed except a usable one it leaves referenced; older
      shells are not touched, apart from the one it was already holding. */
  ghost predicate OpeningEffect(w: World, held: Option<Handle>, o: Opening) {
    && o.world.spawned >= w.spawned
    && Counted(o.world)
    && (forall h: Handle :: w.exits[h] <= o.world.exits[h])
    && (forall h: Handle | h < w.spawned && held != Some(h) :: o.world.exits[h] == w.exits[h])
    && (forall h: Handle | w.spawned <= h && o.world.IsOpen(h) :: o.held == Some(h) && Usable(o))
    && (o.held.Some? ==> (o.held == held || w.spawned <= o.held.value) && o.held.value < o.world.spawned)
    && (o.held.Some? ==> (o.world.IsOpen(o.held.value) <==> Usable(o)))
    && (o.error.None? ==> o.held.Some? && w.spawned <= o.held.value)
  }

  /** Closing the held shell once more, and then opening. */
  lemma RetryAfterSpawn(w: World, held: Handle, o: Opening)
    requires held < w.spawned && OpeningEffect(w.Exit(held), Some(held), o)
    ensures OpeningEffect(w, Some(held), o)
  {
  }

  /** Creating and closing a shell, and then opening. */
  lemma RetryAfterEcho(w: World, held: Option<Handle>, o: Opening)
    requires OpeningEffect(w.Spawn().Exit(w.spawned), Some(w.spawned), o)
    ensures OpeningEffect(w, held, o)
  {
    var w1 := w.Spawn().Exit(w.spawned);
    forall h: Handle | h < w.spawned && held != Some(h) ensures o.world.exits[h] == w.exits[h] {
      assert w1.exits[h] == w.exits[h];
    }
  }

  lemma LastAttemptEffect(attempts: seq<Attempt>, w: World, held: Option<Handle>)
    requires Settles(attempts, held.Some?) && Counted(w)
    requires held.Some? ==> held.value < w.spawned && !w.IsOpen(held.value)
    requires attempts[0].SpawnFailed? ==> held.None? || attempts[0].expired
    requires attempts[0].EchoFailed? ==> attempts[0].expired
    ensures OpeningEffect(w, held, TryOpen(attempts, w, held))
  {
    hide TryOpen, OpeningEffect;
    if attempts[0].SpawnIOError? || attempts[0].SpawnFailed? {
      LastSpawnFails(attempts, w, held);
    } else {
      LastSpawnSucceeds(attempts, w, held);
    }
  }

  lemma LastSpawnFails(attempts: seq<Attempt>, w: World, held: Option<Handle>)
    requires Settles(attempts, held.Some?) && Counted(w)
    requires held.Some? ==> held.value < w.spawned && !w.IsOpen(held.value)
    requires attempts[0].SpawnIOError? || (attempts[0].SpawnFailed? && (held.None? || attempts[0].expired))
    ensures OpeningEffect(w, held, TryOpen(attempts, w, held))
  {
  }

  lemma LastSpawnSucceeds(attempts: seq<Attempt>, w: World, held: Option<Handle>)
    requires Settles(attempts, held.Some?) && Counted(w)
    requires attempts[0].Ready? || attempts[0].EchoIOError? || (attempts[0].EchoFailed? && attempts[0].expired)
    ensures OpeningEffect(w, held, TryOpen(attempts, w, held))
  {
  }

  lemma {:induction false} TryOpenEffect(attempts: seq<Attempt>, w: World, held: Option<Handle>)
    requires Settles(attempts, held.Some?) && Counted(w)
    requires held.Some? ==> held.value < w.spawned && !w.IsOpen(held.value)
    ensures OpeningEffect(w, held, TryOpen(attempts, w, held))
  {
    hide OpeningEffect;
    if attempts[0].SpawnFailed? && held.Some? && !attempts[0].expired {
      TryOpenEffect(attempts[1..], w.Exit(held.value), held);
      RetryAfterSpawn(w, held.value, TryOpen(attempts, w, held));
    } else if attempts[0].EchoFailed? && !attempts[0].expired {
      TryOpenEffect(attempts[1..], w.Spawn().Exit(w.spawned), Some(w.spawned));
      RetryAfterEcho(w, held, TryOpen(attempts, w, held));
    } else {
      LastAttemptEffect(attempts, w, held);
    }
  }

  // How an opening ends, read off its attempts alone. `holding`: an earlier attempt left a shell.

  /** Some attempt succeeds. */
  predicate Opens(attempts: seq<Attempt>, holding: bool)
    requires Settles(attempts, holding)
  {
    match attempts[0]
    case Ready => true
    case SpawnFailed(expired) => holding && !expired && Opens(attempts[1..], holding)
    case EchoFailed(expired) => !expired && Opens(attempts[1..], true)
    case _ => false
  }

  /** The loop ends with an IOError from an echo, so its last shell stays open. */
  predicate EndsRefused(attempts: seq<Attempt>, holding: bool)
    requires Settles(attempts, holding)
  {
    match attempts[0]
    case EchoIOError => true
    case SpawnFailed(expired) => holding && !expired && EndsRefused(attempts[1..], holding)
    case EchoFailed(expired) => !expired && EndsRefused(attempts[1..], true)
    case _ => false
  }

  /** The loop ends with a closed shell in hand: an echo fails when the time is over, or after a failed
      echo a spawn is refused or fails when the time is over. */
  predicate LeavesClosed(attempts: seq<Attempt>, holding: bool)
    requires Settles(attempts, holding)
  {
    match attempts[0]
    case SpawnIOError => holding
    case SpawnFailed(expired) => holding && (expired || LeavesClosed(attempts[1..], holding))
    case EchoFailed(expired) => expired || LeavesClosed(attempts[1..], true)
    case _ => false
  }

  lemma {:induction false} TryOpenOutcome(attempts: seq<Attempt>, w: World, held: Option<Handle>)
    requires Settles(attempts, held.Some?)
    ensures var o := TryOpen(attempts, w, held);
            (o.error.None? <==> Opens(attempts, held.Some?))
            && (o.error == Some(EchoRefused) <==> EndsRefused(attempts, held.Some?))
            && (o.held.Some? && !Usable(o) <==> LeavesClosed(attempts, held.Some?))
  {
    match attempts[0]
    case SpawnFailed(expired) =>
      if held.Some? && !expired {
        TryOpenOutcome(attempts[1..], w.Exit(held.value), held);
      }
    case EchoFailed(expired) =>
      if !expired {
        TryOpenOutcome(attempts[1..], w.Spawn().Exit(w.spawned), Some(w.spawned));
      }
    case _ =>
  }

  // ----- closing cached shells

  function ShellsOf(s: State, keys: set<Key>): set<Handle> {
    set k | k in s.cache && k in keys :: s.cache[k]
  }

  /** Removes these keys from the cache and closes their shells. */
  function CloseKeys(s: State, keys: set<Key>): State {
    State(s.world.ExitAll(ShellsOf(s, keys)),
          map k | k in s.cache && k !in keys :: s.cache[k],
          s.control)
  }

  lemma CloseKeysSafe(s: State, keys: set<Key>)
    requires Safe(s)
    ensures Safe(CloseKeys(s, keys))
    ensures CloseKeys(s, keys).control == s.control && CloseKeys(s, keys).world.spawned == s.world.spawned
    ensures forall k | k in CloseKeys(s, keys).cache :: k in s.cache
  {
    var t := CloseKeys(s, keys);
    var closed := ShellsOf(s, keys);
    forall h | h in t.world.exits ensures h < t.world.spawned {
      assert h in s.world.exits || h in closed;
    }
  }

  lemma CloseKeysGood(s: State, keys: set<Key>)
    requires Good(s)
    ensures Good(CloseKeys(s, keys))
  {
    CloseKeysSafe(s, keys);
    var t := CloseKeys(s, keys);
    var closed := ShellsOf(s, keys);
    var bag: multiset<Handle> := multiset(closed);
    forall h: Handle ensures t.world.IsOpen(h) <==> IsHeld(t, h) {
      assert t.world.exits[h] == s.world.exits[h] + bag[h];
      if IsHeld(t, h) {
        assert IsHeld(s, h);
        assert h !in closed;
      }
      if t.world.IsOpen(h) && s.control != Some(h) {
        assert s.world.IsOpen(h) && IsHeld(s, h);
        var k :| k in s.cache && s.cache[k] == h;
        assert k in t.cache && t.cache[k] == h;
      }
    }
  }

  function NodeText(node: Option<string>): string {
    if node.None? then "None" else node.value
  }

  function CloseBash(s: State, thread: string, node: Option<string>): State {
    CloseKeys(s, {Key(thread, NodeText(node))})
  }

  predicate EndsWith(s: string, suffix: string) {
    |suffix| <= |s| && s[|s| - |suffix|..] == suffix
  }

  /** Node.close_bashes: every cached shell whose node name ends with this one. */
  function CloseBashes(s: State, name: string): State {
    CloseKeys(s, set k | k in s.cache && EndsWith(k.node, name))
  }

  /** Closing keys removes exactly them, and closes the shell of each exactly once. */
  lemma CloseKeysExactly(s: State, keys: set<Key>, k: Key)
    requires Safe(s) && k in s.cache
    ensures var t := CloseKeys(s, keys);
            if k in keys then k !in t.cache && t.world.exits[s.cache[k]] == s.world.exits[s.cache[k]] + 1
            else k in t.cache && t.cache[k] == s.cache[k] && t.world.exits[s.cache[k]] == s.world.exits[s.cache[k]]
  {
    var closed := ShellsOf(s, keys);
    var bag: multiset<Handle> := multiset(closed);
    assert CloseKeys(s, keys).world.exits[s.cache[k]] == s.world.exits[s.cache[k]] + bag[s.cache[k]];
    assert s.cache[k] in closed <==> k in keys;
  }

  /** close_bash closes the caller's shell for this node and spares every other key. */
  lemma CloseBashExactly(s: State, thread: string, node: Option<string>, k: Key)
    requires Safe(s) && k in s.cache
    ensures var t := CloseBash(s, thread, node);
            if k.thread == thread && (k.node == if node.None? then "None" else node.value)
            then k !in t.cache && t.world.exits[s.cache[k]] == s.world.exits[s.cache[k]] + 1
            else k in t.cache && t.cache[k] == s.cache[k] && t.world.exits[s.cache[k]] == s.world.exits[s.cache[k]]
  {
    hide Safe, CloseKeys;
    CloseKeysExactly(s, {Key(thread, NodeText(node))}, k);
  }

  /** close_bashes closes, for every thread, the shells whose node is any text followed by this name. */
  lemma CloseBashesExactly(s: State, name: string, k: Key)
    requires Safe(s) && k in s.cache
    ensures var t := CloseBashes(s, name);
            if exists before :: k.node == before + name
            then k !in t.cache && t.world.exits[s.cache[k]] == s.world.exits[s.cache[k]] + 1
            else k in t.cache && t.cache[k] == s.cache[k] && t.world.exits[s.cache[k]] == s.world.exits[s.cache[k]]
  {
    hide Safe, CloseKeys, EndsWith;
    EndsWithExactly(k.node, name);
    CloseKeysExactly(s, (set l | l in s.cache && EndsWith(l.node, name)), k);
  }

  lemma EndsWithExactly(s: string, suffix: string)
    ensures EndsWith(s, suffix) <==> exists before :: s == before + suffix
  {
    if EndsWith(s, suffix) {
      assert s == s[..|s| - |suffix|] + suffix;
    }
  }

  // ----- the control shell

  datatype Controlled = Controlled(state: State, error: Option<OpenError>)

  function ControlShell(s: State, attempts: Attempts): Controlled {
    if s.control.Some? then Controlled(s, None)
    else
      var o := TryOpen(attempts, s.world, None);
      Controlled(State(o.world, s.cache, if o.error.None? then o.held else None), o.error)
  }

  function CloseControl(s: State): State {
    if s.control.None? then s else State(s.world.Exit(s.control.value), s.cache, None)
  }

  lemma ControlShellSafe(s: State, attempts: Attempts)
    requires Safe(s)
    ensures Safe(ControlShell(s, attempts).state)
    ensures ControlShell(s, attempts).state.cache == s.cache
    ensures ControlShell(s, attempts).error.None? ==> ControlShell(s, attempts).state.control.Some?
  {
    TryOpenEffect(attempts, s.world, None);
  }

  /** Only an IOError from an echo loses a control shell: it stays open and nothing refers to it. */
  lemma ControlShellGood(s: State, attempts: Attempts)
    requires Good(s)
    ensures Good(ControlShell(s, attempts).state) <==> s.control.Some? || !EndsRefused(attempts, false)
  {
    hide TryOpen, EndsRefused;
    ControlShellSafe(s, attempts);
    TryOpenOutcome(attempts, s.world, None);
    if s.control.None? {
      var o := TryOpen(attempts, s.world, None);
      var t := ControlShell(s, attempts).state;
      TryOpenEffect(attempts, s.world, None);
      if o.error == Some(EchoRefused) {
        assert t.world.IsOpen(o.held.value) && !IsHeld(t, o.held.value);
      } else {
        forall h: Handle ensures t.world.IsOpen(h) <==> IsHeld(t, h) {
          assert h < s.world.spawned ==> (t.world.IsOpen(h) <==> s.world.IsOpen(h));
          assert s.world.IsOpen(h) <==> IsHeld(s, h);
        }
      }
    }
  }

  lemma CloseControlSafe(s: State)
    requires Safe(s)
    ensures Safe(CloseControl(s))
  {
  }

  lemma CloseControlGood(s: State)
    requires Good(s)
    ensures Good(CloseControl(s))
  {
    if s.control.Some? {
      var t := CloseControl(s);
      forall h: Handle ensures t.world.IsOpen(h) <==> IsHeld(t, h) {
        assert s.world.IsOpen(h) <==> IsHeld(s, h);
      }
    }
  }

  // ----- looking up a container

  type Duration = r: real | r >= 0.0 witness 0.0

  /** sleep(1) lasts at least one second. */
  type Nap = r: real | r >= 1.0 witness 1.0

  datatype LookupReply = Found | NotFound | Refused | TimedOut

  /** One attempt of node_container_id: how the control shell opens if it is not open, what the command
      answers, how long the attempt takes, and how long the sleep after it takes. */
  datatype Lookup = Lookup(attempts: Attempts, reply: LookupReply, duration: Duration, nap: Nap)

  datatype LookupError = ControlFailed(error: OpenError) | LookupRefused | LookupExpired

  /** `retries` lists the time elapsed at each decision to try again. */
  datatype LookupResult = LookupResult(state: State, error: Option<LookupError>, retries: seq<real>)

  /** node_container_id from attempt `i` on. The time elapsed since the very first attempt is taken off
      the time left again and again, so every attempt after the second takes off at least a second:
      the loop ends whatever the script answers. */
  function LookupRun(script: nat -> Lookup, i: nat, s: State, elapsed: real, timeout: real): (r: LookupResult)
    requires elapsed >= i as real
    decreases if i == 0 then 1 else 0, timeout
  {
    var l := script(i);
    var c := ControlShell(s, l.attempts);
    if c.error.Some? then LookupResult(c.state, Some(ControlFailed(c.error.value)), [])
    else if l.reply.Found? then LookupResult(c.state, None, [])
    else if l.reply.Refused? then LookupResult(c.state, Some(LookupRefused), [])
    else
      var t := if l.reply.TimedOut? then CloseControl(c.state) else c.state;
      var now := elapsed + l.duration;
      var left := timeout - now;
      if left <= 0.0 then LookupResult(t, Some(LookupExpired), [])
      else
        var r := LookupRun(script, i + 1, t, now + l.nap, left);
        r.(retries := [now] + r.retries)
  }

  /** One attempt, and then the rest. */
  lemma LookupUnroll(script: nat -> Lookup, i: nat, s: State, elapsed: real, timeout: real)
    requires elapsed >= i as real
    ensures var l := script(i);
            var c := ControlShell(s, l.attempts);
            var t := if l.reply.TimedOut? then CloseControl(c.state) else c.state;
            var now := elapsed + l.duration;
            LookupRun(script, i, s, elapsed, timeout) ==
              if c.error.Some? then LookupResult(c.state, Some(ControlFailed(c.error.value)), [])
              else if l.reply.Found? then LookupResult(c.state, None, [])
              else if l.reply.Refused? then LookupResult(c.state, Some(LookupRefused), [])
              else if timeout - now <= 0.0 then LookupResult(t, Some(LookupExpired), [])
              else
                var rest := LookupRun(script, i + 1, t, now + l.nap, timeout - now);
                rest.(retries := [now] + rest.retries)
  {
    hide ControlShell, CloseControl;
  }

  lemma {:induction false} LookupSafe(script: nat -> Lookup, i: nat, s: State, elapsed: real, timeout: real)
    requires Safe(s) && elapsed >= i as real
    ensures Safe(LookupRun(script, i, s, elapsed, timeout).state)
    ensures LookupRun(script, i, s, elapsed, timeout).state.cache == s.cache
    decreases if i == 0 then 1 else 0, timeout
  {
    hide Safe, ControlShell, CloseControl;
    var l := script(i);
    var c := ControlShell(s, l.attempts).state;
    ControlShellSafe(s, l.attempts);
    CloseControlSafe(c);
    CloseControlCache(c);
    var t := if l.reply.TimedOut? then CloseControl(c) else c;
    var now := elapsed + l.duration;
    if ControlShell(s, l.attempts).error.None? && (l.reply.NotFound? || l.reply.TimedOut?) && timeout - now > 0.0 {
      LookupSafe(script, i + 1, t, now + l.nap, timeout - now);
    }
  }

  lemma CloseControlCache(s: State)
    ensures CloseControl(s).cache == s.cache
  {
  }

  /** Opening or closing the control shell touches no shell that is not the control shell. */
  lemma ControlShellSpares(s: State, attempts: Attempts, h: Handle)
    requires Safe(s) && h < s.world.spawned && s.control != Some(h)
    ensures var t := ControlShell(s, attempts).state;
            h < t.world.spawned && t.control != Some(h) && t.world.exits[h] == s.world.exits[h]
  {
    hide TryOpen;
    TryOpenEffect(attempts, s.world, None);
  }

  lemma {:induction false} LookupSpares(script: nat -> Lookup, i: nat, s: State, elapsed: real, timeout: real, h: Handle)
    requires Safe(s) && elapsed >= i as real && h < s.world.spawned && s.control != Some(h)
    ensures var t := LookupRun(script, i, s, elapsed, timeout).state;
            h < t.world.spawned && t.world.exits[h] == s.world.exits[h]
    decreases if i == 0 then 1 else 0, timeout
  {
    hide Safe, ControlShell, LookupRun;
    var l := script(i);
    var c := ControlShell(s, l.attempts);
    ControlShellSpares(s, l.attempts, h);
    ControlShellSafe(s, l.attempts);
    CloseControlSafe(c.state);
    LookupUnroll(script, i, s, elapsed, timeout);
    var t := if l.reply.TimedOut? then CloseControl(c.state) else c.state;
    var now := elapsed + l.duration;
    if c.error.None? && (l.reply.NotFound? || l.reply.TimedOut?) && timeout - now > 0.0 {
      LookupSpares(script, i + 1, t, now + l.nap, timeout - now, h);
    }
  }

  // How a lookup ends, read off its script and time limit. `open`: there is a control shell already.

  /** Some attempt finds the container. */
  predicate LookupFinds(script: nat -> Lookup, i: nat, open: bool, elapsed: real, timeout: real)
    requires elapsed >= i as real
    decreases if i == 0 then 1 else 0, timeout
  {
    var l := script(i);
    var now := elapsed + l.duration;
    (open || Opens(l.attempts, false))
    && (l.reply.Found?
        || ((l.reply.NotFound? || l.reply.TimedOut?) && timeout - now > 0.0
            && LookupFinds(script, i + 1, !l.reply.TimedOut?, now + l.nap, timeout - now)))
  }

  /** Some attempt has to open a control shell and ends with an IOError from its echo. */
  predicate LookupLoses(script: nat -> Lookup, i: nat, open: bool, elapsed: real, timeout: real)
    requires elapsed >= i as real
    decreases if i == 0 then 1 else 0, timeout
  {
    var l := script(i);
    var now := elapsed + l.duration;
    if !open && !Opens(l.attempts, false) then EndsRefused(l.attempts, false)
    else
      (l.reply.NotFound? || l.reply.TimedOut?) && timeout - now > 0.0
      && LookupLoses(script, i + 1, !l.reply.TimedOut?, now + l.nap, timeout - now)
  }

  lemma ControlShellOutcome(s: State, attempts: Attempts)
    ensures var c := ControlShell(s, attempts);
            (c.error.None? <==> s.control.Some? || Opens(attempts, false))
            && (c.error == Some(EchoRefused) <==> s.control.None? && EndsRefused(attempts, false))
            && (c.error.None? ==> c.state.control.Some? && CloseControl(c.state).control.None?)
  {
    TryOpenOutcome(attempts, s.world, None);
  }

  lemma {:induction false} LookupOutcome(script: nat -> Lookup, i: nat, s: State, elapsed: real, timeout: real)
    requires elapsed >= i as real
    ensures var r := LookupRun(script, i, s, elapsed, timeout);
            (r.error.None? <==> LookupFinds(script, i, s.control.Some?, elapsed, timeout))
            && (r.error == Some(ControlFailed(EchoRefused)) <==> LookupLoses(script, i, s.control.Some?, elapsed, timeout))
    decreases if i == 0 then 1 else 0, timeout
  {
    hide ControlShell, CloseControl, Opens, EndsRefused, LookupRun;
    var l := script(i);
    var c := ControlShell(s, l.attempts);
    ControlShellOutcome(s, l.attempts);
    LookupUnroll(script, i, s, elapsed, timeout);
    var t := if l.reply.TimedOut? then CloseControl(c.state) else c.state;
    var now := elapsed + l.duration;
    if c.error.None? && (l.reply.NotFound? || l.reply.TimedOut?) && timeout - now > 0.0 {
      LookupOutcome(script, i + 1, t, now + l.nap, timeout - now);
    }
  }

  /** Every attempt before the last finds no container or times out; the last one decides the result. */
  lemma {:induction false} LookupLastAttempt(script: nat -> Lookup, i: nat, s: State, elapsed: real, timeout: real)
    requires elapsed >= i as real
    ensures var r := LookupRun(script, i, s, elapsed, timeout);
            var last := script(i + |r.retries|).reply;
            (forall j | i <= j < i + |r.retries| :: script(j).reply.NotFound? || script(j).reply.TimedOut?)
            && match r.error
               case None => last.Found?
               case Some(ControlFailed(_)) => true
               case Some(LookupRefused) => last.Refused?
               case Some(LookupExpired) => last.NotFound? || last.TimedOut?
    decreases if i == 0 then 1 else 0, timeout
  {
    hide ControlShell, CloseControl, LookupRun;
    var l := script(i);
    var c := ControlShell(s, l.attempts);
    LookupUnroll(script, i, s, elapsed, timeout);
    var t := if l.reply.TimedOut? then CloseControl(c.state) else c.state;
    var now := elapsed + l.duration;
    if c.error.None? && (l.reply.NotFound? || l.reply.TimedOut?) && timeout - now > 0.0 {
      LookupLastAttempt(script, i + 1, t, now + l.nap, timeout - now);
    }
  }

  lemma {:induction false} LookupGood(script: nat -> Lookup, i: nat, s: State, elapsed: real, timeout: real)
    requires Good(s) && elapsed >= i as real
    ensures Good(LookupRun(script, i, s, elapsed, timeout).state)
       <==> !LookupLoses(script, i, s.control.Some?, elapsed, timeout)
    decreases if i == 0 then 1 else 0, timeout
  {
    hide Good, ControlShell, CloseControl, Opens, EndsRefused, LookupRun;
    var l := script(i);
    var c := ControlShell(s, l.attempts);
    ControlShellGood(s, l.attempts);
    ControlShellOutcome(s, l.attempts);
    LookupUnroll(script, i, s, elapsed, timeout);
    if c.error.None? {
      CloseControlGood(c.state);
      var t := if l.reply.TimedOut? then CloseControl(c.state) else c.state;
      var now := elapsed + l.duration;
      if (l.reply.NotFound? || l.reply.TimedOut?) && timeout - now > 0.0 {
        LookupGood(script, i + 1, t, now + l.nap, timeout - now);
      }
    }
  }

  /** n(n-1)/2 */
  function Triangle(n: nat): real {
    if n == 0 then 0.0 else Triangle(n - 1) + (n - 1) as real
  }

  lemma {:induction false} TriangleNonNegative(n: nat)
    ensures Triangle(n) >= 0.0
  {
    if n > 0 { TriangleNonNegative(n - 1); }
  }

  /** However the lookup goes, starting its n-th attempt (n >= 2) takes an original time limit above
      (n-1)(n-2)/2 seconds, and every decision to try again is made before that limit. */
  lemma {:induction false} LookupAttemptsBounded(script: nat -> Lookup, i: nat, s: State, elapsed: real, timeout: real,
                                                 original: real)
    requires elapsed >= i as real && original - timeout >= Triangle(i) && (i == 0 || timeout > 0.0)
    ensures var r := LookupRun(script, i, s, elapsed, timeout);
            var n := i + |r.retries| + 1;
            (n >= 2 ==> Triangle(n - 1) < original) && forall t | t in r.retries :: t < original
    decreases if i == 0 then 1 else 0, timeout
  {
    hide ControlShell, CloseControl, LookupRun;
    TriangleNonNegative(i);
    LookupUnroll(script, i, s, elapsed, timeout);
    var l := script(i);
    var c := ControlShell(s, l.attempts);
    var now := elapsed + l.duration;
    var left := timeout - now;
    if c.error.None? && (l.reply.NotFound? || l.reply.TimedOut?) && left > 0.0 {
      var t := if l.reply.TimedOut? then CloseControl(c.state) else c.state;
      LookupAttemptsBounded(script, i + 1, t, now + l.nap, left, original);
    }
  }

  lemma {:induction false} TriangleFormula(n: nat)
    ensures 2.0 * Triangle(n) == n as real * (n as real - 1.0)
  {
    if n > 0 {
      TriangleFormula(n - 1);
      var x := n as real;
      assert (n - 1) as real == x - 1.0;
      assert (x - 1.0) * (x - 2.0) + 2.0 * (x - 1.0) == (x - 1.0) * x;
    }
  }

  /** The bound in closed form, for a lookup from its beginning. */
  lemma LookupTerminatesInTime(script: nat -> Lookup, s: State, timeout: real)
    ensures var r := LookupRun(script, 0, s, 0.0, timeout);
            var n := (|r.retries| + 1) as real;
            (n >= 2.0 ==> (n - 1.0) * (n - 2.0) < 2.0 * timeout) && forall t | t in r.retries :: t < timeout
  {
    hide LookupRun;
    var n := |LookupRun(script, 0, s, 0.0, timeout).retries| + 1;
    LookupAttemptsBounded(script, 0, s, 0.0, timeout, timeout);
    TriangleFormula(n - 1);
    assert (n - 1) as real == n as real - 1.0;
  }

  // ----- bash

  /** One call of Cluster.bash. `others` are the other live threads: threading.enumerate() always
      includes the caller. */
  datatype BashCall = BashCall(thread: string, node: Option<string>, others: set<string>,
                               lookup: nat -> Lookup, timeout: real, attempts: Attempts, exportsWork: bool)
  {
    function Id(): Key {
      Key(thread, NodeText(node))
    }
  }

  datatype BashResult =
    | Shell(handle: Handle)
    | LookupFailed(lookup: LookupError)
    | OpenFailed(error: OpenError)
    | ExportFailed

  datatype Bashed = Bashed(state: State, result: BashResult)

  function Stale(s: State, live: set<string>): set<Key> {
    set k | k in s.cache && k.thread !in live
  }

  /** Opens the shell of a call whose container id, if any, is known. The shell last created is cached
      under the caller's key even when the loop raises. */
  function OpenStep(s: State, call: BashCall): Bashed {
    var o := TryOpen(call.attempts, s.world, None);
    var t := State(o.world, if o.held.Some? then s.cache[call.Id() := o.held.value] else s.cache, s.control);
    if o.error.Some? then Bashed(t, OpenFailed(o.error.value))
    else if call.node.None? && !call.exportsWork then Bashed(t, ExportFailed)
    else Bashed(CloseKeys(t, Stale(t, call.others + {call.thread})), Shell(o.held.value))
  }

  function BashStep(s: State, call: BashCall): Bashed {
    if call.Id() in s.cache then Bashed(s, Shell(s.cache[call.Id()]))
    else if call.node.None? then OpenStep(s, call)
    else
      var l := LookupRun(call.lookup, 0, s, 0.0, call.timeout);
      if l.error.Some? then Bashed(l.state, LookupFailed(l.error.value))
      else OpenStep(l.state, call)
  }

  /** The call's container lookup succeeds, or it needs none. */
  predicate Finds(s: State, call: BashCall) {
    call.node.None? || LookupFinds(call.lookup, 0, s.control.Some?, 0.0, call.timeout)
  }

  /** The call loses a control shell that it leaves open. */
  predicate LosesControl(s: State, call: BashCall) {
    call.Id() !in s.cache && call.node.Some? && LookupLoses(call.lookup, 0, s.control.Some?, 0.0, call.timeout)
  }

  /** The call leaves a closed shell cached. */
  predicate CachesClosed(s: State, call: BashCall) {
    call.Id() !in s.cache && Finds(s, call) && LeavesClosed(call.attempts, false)
  }

  /** What breaks "open exactly when held", in terms of the cache, the control shell and the scripts. */
  predicate Spoils(s: State, call: BashCall) {
    LosesControl(s, call) || CachesClosed(s, call)
  }

  /** The call returns a shell instead of raising. */
  predicate Returns(s: State, call: BashCall) {
    call.Id() in s.cache
    || (Finds(s, call) && Opens(call.attempts, false) && (call.node.Some? || call.exportsWork))
  }

  lemma BashReturnsExactly(s: State, call: BashCall)
    ensures BashStep(s, call).result.Shell? <==> Returns(s, call)
  {
    hide LookupRun, TryOpen, LookupFinds, LookupLoses, Opens;
    if call.Id() !in s.cache {
      var l := LookupRun(call.lookup, 0, s, 0.0, call.timeout);
      LookupOutcome(call.lookup, 0, s, 0.0, call.timeout);
      TryOpenOutcome(call.attempts, (if call.node.None? then s else l.state).world, None);
    }
  }

  lemma CacheNewShell(s: State, key: Key, o: Opening)
    requires Safe(s) && key !in s.cache && OpeningEffect(s.world, None, o)
    ensures Safe(State(o.world, if o.held.Some? then s.cache[key := o.held.value] else s.cache, s.control))
  {
  }

  lemma CacheNewShellGood(s: State, key: Key, o: Opening)
    requires Good(s) && key !in s.cache && OpeningEffect(s.world, None, o)
    ensures var t := State(o.world, if o.held.Some? then s.cache[key := o.held.value] else s.cache, s.control);
            Good(t) <==> o.held.None? || Usable(o)
  {
    var t := State(o.world, if o.held.Some? then s.cache[key := o.held.value] else s.cache, s.control);
    CacheNewShell(s, key, o);
    if o.held.Some? && !Usable(o) {
      assert t.cache[key] == o.held.value;
      assert IsHeld(t, o.held.value) && !t.world.IsOpen(o.held.value);
    } else {
      forall h: Handle ensures t.world.IsOpen(h) <==> IsHeld(t, h) {
        NewShellHeld(s, key, o, h);
      }
    }
  }

  lemma NewShellHeld(s: State, key: Key, o: Opening, h: Handle)
    requires Good(s) && key !in s.cache && OpeningEffect(s.world, None, o) && (o.held.None? || Usable(o))
    ensures var t := State(o.world, if o.held.Some? then s.cache[key := o.held.value] else s.cache, s.control);
            t.world.IsOpen(h) <==> IsHeld(t, h)
  {
    var t := State(o.world, if o.held.Some? then s.cache[key := o.held.value] else s.cache, s.control);
    assert s.world.IsOpen(h) <==> IsHeld(s, h);
    if o.held == Some(h) {
      assert t.cache[key] == h;
    } else if IsHeld(s, h) {
      if s.control != Some(h) {
        var k :| k in s.cache && s.cache[k] == h;
        assert t.cache[k] == h;
      }
    } else {
      forall k | k in t.cache ensures t.cache[k] != h {
        if k != key {
          assert s.cache[k] == t.cache[k];
        }
      }
    }
  }

  lemma OpenStepSafe(s: State, call: BashCall)
    requires Safe(s) && call.Id() !in s.cache
    ensures Safe(OpenStep(s, call).state)
  {
    hide Safe, TryOpen;
    var o := TryOpen(call.attempts, s.world, None);
    var t := State(o.world, if o.held.Some? then s.cache[call.Id() := o.held.value] else s.cache, s.control);
    SafeIsCounted(s);
    TryOpenEffect(call.attempts, s.world, None);
    CacheNewShell(s, call.Id(), o);
    CloseKeysSafe(t, Stale(t, call.others + {call.thread}));
  }

  lemma SafeIsCounted(s: State)
    requires Safe(s)
    ensures Counted(s.world)
  {
  }

  /** Two keys never share a shell, however a call of bash ends. */
  lemma BashKeepsSafe(s: State, call: BashCall)
    requires Safe(s)
    ensures Safe(BashStep(s, call).state)
  {
    hide Safe, OpenStep, LookupRun;
    if call.Id() !in s.cache {
      if call.node.None? {
        OpenStepSafe(s, call);
      } else {
        var l := LookupRun(call.lookup, 0, s, 0.0, call.timeout);
        LookupSafe(call.lookup, 0, s, 0.0, call.timeout);
        if l.error.None? { OpenStepSafe(l.state, call); }
      }
    }
  }

  lemma OpenStepGood(s: State, call: BashCall)
    requires Good(s) && call.Id() !in s.cache
    ensures Good(OpenStep(s, call).state) <==> !LeavesClosed(call.attempts, false)
  {
    hide Good, TryOpen, CloseKeys, LeavesClosed;
    TryOpenOutcome(call.attempts, s.world, None);
    var o := TryOpen(call.attempts, s.world, None);
    var t := State(o.world, if o.held.Some? then s.cache[call.Id() := o.held.value] else s.cache, s.control);
    GoodIsCounted(s);
    TryOpenEffect(call.attempts, s.world, None);
    CacheNewShellGood(s, call.Id(), o);
    assert o.error.None? ==> Usable(o);
    if o.error.None? {
      CloseKeysGood(t, Stale(t, call.others + {call.thread}));
    }
  }

  lemma GoodIsCounted(s: State)
    requires Good(s)
    ensures Safe(s) && Counted(s.world)
  {
  }

  /** From a good state a call of bash leads to a good state exactly when it does not spoil it, whether
      it returns or raises. */
  lemma BashKeepsGood(s: State, call: BashCall)
    requires Good(s)
    ensures Good(BashStep(s, call).state) <==> !Spoils(s, call)
  {
    hide Good, OpenStep, LookupRun, TryOpen, LookupFinds, LookupLoses, LeavesClosed;
    if call.Id() !in s.cache {
      if call.node.None? {
        OpenStepGood(s, call);
      } else {
        var l := LookupRun(call.lookup, 0, s, 0.0, call.timeout);
        LookupGood(call.lookup, 0, s, 0.0, call.timeout);
        LookupOutcome(call.lookup, 0, s, 0.0, call.timeout);
        GoodIsCounted(s);
        LookupSafe(call.lookup, 0, s, 0.0, call.timeout);
        if l.error.None? { OpenStepGood(l.state, call); }
      }
    }
  }

  /** A call that returns gives the cached shell of the caller's own key; the sweep that follows an
      opening never takes it away, and leaves no shell of a dead thread. From a good state it is open. */
  lemma BashReturnsOwnShell(s: State, call: BashCall)
    requires Good(s) && Returns(s, call)
    ensures var b := BashStep(s, call);
            b.result.Shell?
            && call.Id() in b.state.cache && b.state.cache[call.Id()] == b.result.handle
            && Good(b.state) && b.state.world.IsOpen(b.result.handle)
            && (call.Id() !in s.cache ==> forall k | k in b.state.cache :: k.thread in call.others + {call.thread})
  {
    hide LookupRun, TryOpen, Good, Safe, Returns, Spoils;
    GoodIsCounted(s);
    BashKeepsGood(s, call);
    BashReturnsExactly(s, call);
    ReturnsUnspoilt(s, call);
    ReturnsCached(s, call);
    GoodHolds(BashStep(s, call).state, call.Id());
  }

  lemma ReturnsCached(s: State, call: BashCall)
    requires BashStep(s, call).result.Shell?
    ensures var b := BashStep(s, call);
            call.Id() in b.state.cache && b.state.cache[call.Id()] == b.result.handle
            && (call.Id() !in s.cache ==> forall k | k in b.state.cache :: k.thread in call.others + {call.thread})
  {
    hide LookupRun, TryOpen;
  }

  lemma CachedShell(s: State, k: Key)
    requires Safe(s) && k in s.cache
    ensures s.cache[k] < s.world.spawned && s.control != Some(s.cache[k])
  {
  }

  /** A call that returns spoils nothing. */
  lemma ReturnsUnspoilt(s: State, call: BashCall)
    requires Returns(s, call)
    ensures !Spoils(s, call)
  {
    hide LookupRun, TryOpen, LookupFinds, LookupLoses, Opens, LeavesClosed;
    LookupOutcome(call.lookup, 0, s, 0.0, call.timeout);
    TryOpenOutcome(call.attempts, s.world, None);
  }

  lemma GoodHolds(s: State, k: Key)
    requires Good(s) && k in s.cache
    ensures s.world.IsOpen(s.cache[k])
  {
    assert IsHeld(s, s.cache[k]);
  }

  /** After a call that caches a closed shell, the next call of the same thread for the same node returns
      that shell, whatever its own scripts say. */
  lemma ClosedShellIsReturned(s: State, first: BashCall, next: BashCall)
    requires Good(s) && CachesClosed(s, first) && next.Id() == first.Id()
    ensures var t := BashStep(s, first).state;
            BashStep(t, next).result.Shell? && !t.world.IsOpen(BashStep(t, next).result.handle)
  {
    hide LookupRun, Good, TryOpen, CloseKeys, LookupFinds, LeavesClosed;
    GoodIsCounted(s);
    LookupSafe(first.lookup, 0, s, 0.0, first.timeout);
    LookupOutcome(first.lookup, 0, s, 0.0, first.timeout);
    var u := if first.node.None? then s else LookupRun(first.lookup, 0, s, 0.0, first.timeout).state;
    SafeIsCounted(u);
    TryOpenEffect(first.attempts, u.world, None);
    TryOpenOutcome(first.attempts, u.world, None);
  }

  /** A call whose only echo fails when the time is over. */
  const GIVING_UP := BashCall("main", None, {}, (i: nat) => Lookup([Ready], Found, 0.0, 1.0), 0.0, [EchoFailed(true)], true)

  /** A call that needs a control shell, whose echo is refused. */
  const REFUSED := BashCall("main", Some("clickhouse1"), {}, (i: nat) => Lookup([EchoIOError], Found, 0.0, 1.0), 300.0,
                            [Ready], true)

  /** The very first call can leave a closed shell cached. */
  lemma GaveUpWitness()
    ensures BashStep(EMPTY, GIVING_UP).result == OpenFailed(GaveUp) && !Good(BashStep(EMPTY, GIVING_UP).state)
  {
    EmptyIsGood();
    BashKeepsGood(EMPTY, GIVING_UP);
    hide Good;
    assert CachesClosed(EMPTY, GIVING_UP);
  }

  /** The very first call can lose its control shell. */
  lemma LostControlWitness()
    ensures LosesControl(EMPTY, REFUSED) && !Good(BashStep(EMPTY, REFUSED).state)
  {
    EmptyIsGood();
    BashKeepsGood(EMPTY, REFUSED);
    hide Good, BashStep;
    assert LosesControl(EMPTY, REFUSED);
  }

  lemma EmptyIsGood()
    ensures Good(EMPTY)
  {
  }
}
