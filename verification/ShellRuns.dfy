/** Bringing the cluster down, leaving it, and whole runs of interleaved calls. */
module ShellRuns {
  import opened Text
  import opened ShellCache
  import opened ShellLeaks

  // ----- down

  /** How the docker-compose down command ends: a timeout closes the host shell before it is raised again. */
  datatype CommandEnd = Completed | CommandTimedOut | CommandBroke

  /** One call of Cluster.down: its inner call of bash(None) and the command run in that shell. */
  datatype DownCall = DownCall(thread: string, others: set<string>, attempts: Attempts, exportsWork: bool,
                               command: CommandEnd)
  {
    function HostBash(): BashCall {
      BashCall(thread, None, others, (i: nat) => Lookup([Ready], Found, 0.0, 1.0), 0.0, attempts, exportsWork)
    }

    function HostKey(): Key {
      Key(thread, "None")
    }
  }

  /** `ShellUnbound`: bash(None) raised, so the clean-up part reads a name that was never assigned. */
  datatype DownResult = IsDown | ShellUnbound | CommandRaised

  datatype Downed = Downed(state: State, result: DownResult)

  /** Every key whose shell is not the host shell just obtained. */
  function OtherShells(s: State, host: Handle): set<Key> {
    set k | k in s.cache && s.cache[k] != host
  }

  function DownStep(s: State, call: DownCall): Downed {
    var b := BashStep(s, call.HostBash());
    if !b.result.Shell? then Downed(b.state, ShellUnbound)
    else
      var t := CloseKeys(b.state, OtherShells(b.state, b.result.handle));
      match call.command
      case Completed => Downed(CloseControl(t), IsDown)
      case CommandTimedOut => Downed(CloseBash(t, call.thread, None), CommandRaised)
      case CommandBroke => Downed(t, CommandRaised)
  }

  /** Down finishes: the host shell is cached or opens with working exports, and the command completes. */
  predicate DownFinishes(s: State, call: DownCall) {
    call.command.Completed? && (call.HostKey() in s.cache || (Opens(call.attempts, false) && call.exportsWork))
  }

  lemma DownFinishesExactly(s: State, call: DownCall)
    ensures DownStep(s, call).result.IsDown? <==> DownFinishes(s, call)
  {
    hide BashStep, CloseKeys, Opens;
    BashReturnsExactly(s, call.HostBash());
  }

  /** Without a host shell down fails on an unassigned name; with one its command decides. */
  lemma DownResults(s: State, call: DownCall)
    ensures DownStep(s, call).result.ShellUnbound? <==> !Returns(s, call.HostBash())
    ensures DownStep(s, call).result.CommandRaised? <==> Returns(s, call.HostBash()) && !call.command.Completed?
  {
    hide BashStep, CloseKeys, Returns;
    BashReturnsExactly(s, call.HostBash());
  }

  /** Which cached shells down closes: every other shell exactly once, and the host shell only when its
      command runs into a timeout. */
  lemma DownSweepsExactly(s: State, call: DownCall, k: Key)
    requires Safe(s) && Returns(s, call.HostBash()) && k in BashStep(s, call.HostBash()).state.cache
    ensures var b := BashStep(s, call.HostBash()).state;
            var d := DownStep(s, call).state;
            var h := b.cache[k];
            if k != Key(call.thread, "None") || call.command.CommandTimedOut?
            then k !in d.cache && d.world.exits[h] == b.world.exits[h] + 1
            else k in d.cache && d.cache[k] == h && d.world.exits[h] == b.world.exits[h]
  {
    hide BashStep, CloseKeys, CloseControl, Returns, Safe;
    var b := BashStep(s, call.HostBash());
    var host := call.HostBash().Id();
    BashReturnsExactly(s, call.HostBash());
    BashKeepsSafe(s, call.HostBash());
    ReturnsCached(s, call.HostBash());
    var others := OtherShells(b.state, b.result.handle);
    var t := CloseKeys(b.state, others);
    OnlyHostSpared(b.state, host, k);
    CloseKeysSafe(b.state, others);
    CloseKeysExactly(b.state, others, k);
    CloseKeysExactly(b.state, others, host);
    CachedShell(b.state, k);
    CloseControlSpares(t, b.state.cache[k]);
    if call.command.CommandTimedOut? {
      CloseTwice(b.state, others, {call.HostKey()}, k);
    }
  }

  lemma OnlyHostSpared(s: State, host: Key, k: Key)
    requires Safe(s) && host in s.cache && k in s.cache
    ensures k in OtherShells(s, s.cache[host]) <==> k != host
  {
  }

  lemma CloseControlSpares(s: State, h: Handle)
    requires s.control != Some(h)
    ensures CloseControl(s).cache == s.cache && CloseControl(s).world.exits[h] == s.world.exits[h]
  {
  }

  /** Closing two disjoint sets of keys closes each shell once. */
  lemma CloseTwice(s: State, first: set<Key>, second: set<Key>, k: Key)
    requires Safe(s) && k in s.cache && first !! second
    ensures var t := CloseKeys(CloseKeys(s, first), second);
            if k in first || k in second then k !in t.cache && t.world.exits[s.cache[k]] == s.world.exits[s.cache[k]] + 1
            else k in t.cache && t.cache[k] == s.cache[k] && t.world.exits[s.cache[k]] == s.world.exits[s.cache[k]]
  {
    CloseKeysSafe(s, first);
    CloseKeysExactly(s, first, k);
    var t := CloseKeys(s, first);
    if k in t.cache {
      CloseKeysExactly(t, second, k);
    } else {
      var closed := ShellsOf(t, second);
      var bag: multiset<Handle> := multiset(closed);
      assert CloseKeys(t, second).world.exits[s.cache[k]] == t.world.exits[s.cache[k]] + bag[s.cache[k]];
    }
  }

  lemma DownKeepsSafe(s: State, call: DownCall)
    requires Safe(s)
    ensures Safe(DownStep(s, call).state)
  {
    hide Safe, BashStep, CloseKeys, CloseControl;
    var b := BashStep(s, call.HostBash());
    BashKeepsSafe(s, call.HostBash());
    if b.result.Shell? {
      var t := CloseKeys(b.state, OtherShells(b.state, b.result.handle));
      CloseKeysSafe(b.state, OtherShells(b.state, b.result.handle));
      CloseControlSafe(t);
      CloseKeysSafe(t, {call.HostKey()});
    }
  }

  /** From a good state, down leads to a good state unless opening the host shell spoils it. */
  lemma DownKeepsGood(s: State, call: DownCall)
    requires Good(s)
    ensures Good(DownStep(s, call).state) <==> !Spoils(s, call.HostBash())
  {
    hide Good, Safe, BashStep, CloseKeys, CloseControl, Spoils, Returns;
    var b := BashStep(s, call.HostBash());
    BashKeepsGood(s, call.HostBash());
    BashReturnsExactly(s, call.HostBash());
    if b.result.Shell? {
      GoodIsCounted(s);
      ReturnsUnspoilt(s, call.HostBash());
      var t := CloseKeys(b.state, OtherShells(b.state, b.result.handle));
      CloseKeysGood(b.state, OtherShells(b.state, b.result.handle));
      CloseControlGood(t);
      CloseKeysGood(t, {call.HostKey()});
    }
  }

  /** A completed down leaves one cached shell, the caller's open host shell, and no control shell; each
      other shell that bash left cached, and the control shell, was closed exactly once more. */
  lemma DownLeavesHostShell(s: State, call: DownCall)
    requires Good(s) && DownFinishes(s, call)
    ensures var b := BashStep(s, call.HostBash());
            var d := DownStep(s, call).state;
            b.result.Shell? && DownStep(s, call).result.IsDown? && Good(d) && d.control.None?
            && d.cache == map[call.HostKey() := b.result.handle] && d.world.IsOpen(b.result.handle)
            && d.world.spawned == b.state.world.spawned
            && forall h: Handle | h < d.world.spawned ::
                 d.world.exits[h] == b.state.world.exits[h]
                   + if h != b.result.handle && IsHeld(b.state, h) then 1 else 0
  {
    hide BashStep, Good, Safe, IsHeld, Opens, Returns, Spoils;
    var b := BashStep(s, call.HostBash());
    DownFinishesExactly(s, call);
    BashReturnsExactly(s, call.HostBash());
    BashReturnsOwnShell(s, call.HostBash());
    DownKeepsGood(s, call);
    GoodIsCounted(s);
    ReturnsUnspoilt(s, call.HostBash());
    GoodIsCounted(b.state);
    CloseOthers(b.state, call.HostKey(), b.result.handle);
    var d := DownStep(s, call).state;
    GoodHolds(d, call.HostKey());
  }

  lemma CloseOthers(s: State, host: Key, shell: Handle)
    requires Safe(s) && host in s.cache && s.cache[host] == shell
    ensures var d := CloseControl(CloseKeys(s, OtherShells(s, shell)));
            d.cache == map[host := shell] && d.control.None? && d.world.spawned == s.world.spawned
            && forall h: Handle ::
                 d.world.exits[h] == s.world.exits[h] + if h != shell && IsHeld(s, h) then 1 else 0
  {
    var t := CloseKeys(s, OtherShells(s, shell));
    var d := CloseControl(t);
    assert forall k :: k in t.cache <==> k == host;
    assert t.cache == map[host := shell];
    forall h: Handle ensures d.world.exits[h] == s.world.exits[h] + if h != shell && IsHeld(s, h) then 1 else 0 {
      OthersClosed(s, shell, h);
    }
  }

  lemma OthersClosed(s: State, shell: Handle, h: Handle)
    requires Safe(s) && s.control != Some(shell)
    ensures CloseControl(CloseKeys(s, OtherShells(s, shell))).world.exits[h]
         == s.world.exits[h] + if h != shell && IsHeld(s, h) then 1 else 0
  {
    assert s.control == Some(h) ==> forall k | k in s.cache :: s.cache[k] != h;
    hide Safe;
    var closed := ShellsOf(s, OtherShells(s, shell));
    var bag: multiset<Handle> := multiset(closed);
    assert CloseKeys(s, OtherShells(s, shell)).world.exits[h] == s.world.exits[h] + bag[h];
    assert h in closed <==> h != shell && exists k :: k in s.cache && s.cache[k] == h;
  }

  // ----- leaving the cluster

  /** The service logs are collected in a shell of its own that is closed again; when collecting raises,
      `spawned` says whether that shell had been created, and down is not called. */
  datatype LogCollection = NotCollected | Collected | CollectingRaised(spawned: bool)

  datatype ExitCall = ExitCall(logs: LogCollection, down: DownCall)

  function CollectLogs(s: State, logs: LogCollection): State {
    if logs.NotCollected? || (logs.CollectingRaised? && !logs.spawned) then s
    else State(s.world.Spawn().Exit(s.world.spawned), s.cache, s.control)
  }

  /** Collecting creates one shell, unless it is not asked for or that very shell cannot be created, and
      leaves nothing open that was not open before. */
  lemma CollectLogsExactly(s: State, logs: LogCollection)
    ensures var t := CollectLogs(s, logs);
            t.world.spawned == s.world.spawned + (if logs.Collected? || logs == CollectingRaised(true) then 1 else 0)
            && t.cache == s.cache && t.control == s.control
            && forall h: Handle :: t.world.IsOpen(h) <==> s.world.IsOpen(h)
  {
  }

  /** Cluster.__exit__ up to its final part. */
  function BeforeClosing(s: State, call: ExitCall): State {
    var t := CollectLogs(s, call.logs);
    if call.logs.CollectingRaised? then t else DownStep(t, call.down).state
  }

  /** Every cached shell is closed; the cache keeps its entries. */
  function CachedClosed(d: State): State {
    State(d.world.ExitAll(ShellsOf(d, d.cache.Keys)), d.cache, d.control)
  }

  /** Cluster.__exit__ */
  function ExitStep(s: State, call: ExitCall): State {
    CachedClosed(BeforeClosing(s, call))
  }

  lemma CollectLogsSafe(s: State, logs: LogCollection)
    requires Safe(s)
    ensures Safe(CollectLogs(s, logs))
  {
  }

  lemma BeforeClosingSafe(s: State, call: ExitCall)
    requires Safe(s)
    ensures Safe(BeforeClosing(s, call))
  {
    hide Safe, DownStep, CollectLogs;
    CollectLogsSafe(s, call.logs);
    DownKeepsSafe(CollectLogs(s, call.logs), call.down);
  }

  /** The final part of leaving closes every cached shell exactly once more and keeps its entry. */
  lemma ExitClosesCached(s: State, call: ExitCall, k: Key)
    requires Safe(s) && k in BeforeClosing(s, call).cache
    ensures var d := BeforeClosing(s, call);
            var e := ExitStep(s, call);
            e.cache == d.cache && e.control == d.control
            && e.world.exits[d.cache[k]] == d.world.exits[d.cache[k]] + 1
  {
    BeforeClosingSafe(s, call);
    hide BeforeClosing;
    var d := BeforeClosing(s, call);
    var bag: multiset<Handle> := multiset(ShellsOf(d, d.cache.Keys));
    assert d.cache[k] in ShellsOf(d, d.cache.Keys);
    assert ExitStep(s, call).world.exits[d.cache[k]] == d.world.exits[d.cache[k]] + bag[d.cache[k]];
  }

  /** Leaving closes the control shell, or there is none. */
  predicate ControlCloses(s: State, call: ExitCall) {
    s.control.None? || (!call.logs.CollectingRaised? && DownFinishes(s, call.down))
  }

  /** Closing everything cached leaves only a control shell. */
  lemma CloseCached(d: State)
    requires NoLeak(d)
    ensures NoneOpen(CachedClosed(d)) <==> d.control.None?
  {
    var closed := ShellsOf(d, d.cache.Keys);
    var bag: multiset<Handle> := multiset(closed);
    var w := d.world.ExitAll(closed);
    assert forall h: Handle :: w.exits[h] == d.world.exits[h] + bag[h];
    if d.control.Some? {
      assert d.control.value !in closed;
      assert w.IsOpen(d.control.value);
    } else {
      forall h: Handle ensures !w.IsOpen(h) {
        if d.world.IsOpen(h) {
          assert IsHeld(d, h);
          assert h in closed;
        }
      }
    }
  }

  lemma CollectLogsNoLeak(s: State, logs: LogCollection)
    requires NoLeak(s)
    ensures NoLeak(CollectLogs(s, logs))
    ensures CollectLogs(s, logs).control == s.control && CollectLogs(s, logs).cache == s.cache
  {
    var t := CollectLogs(s, logs);
    forall h: Handle | t.world.IsOpen(h) ensures IsHeld(t, h) {
      assert s.world.IsOpen(h) && IsHeld(s, h);
    }
  }

  /** Down loses nothing, however it ends, and closes the control shell exactly when it finishes. */
  lemma DownNoLeak(s: State, call: DownCall)
    requires NoLeak(s)
    ensures NoLeak(DownStep(s, call).state)
    ensures DownStep(s, call).state.control == if DownFinishes(s, call) then None else s.control
  {
    hide NoLeak, BashStep, CloseKeys, CloseControl, DownFinishes;
    var b := BashStep(s, call.HostBash());
    DownFinishesExactly(s, call);
    BashNoLeak(s, call.HostBash());
    if b.result.Shell? {
      var t := CloseKeys(b.state, OtherShells(b.state, b.result.handle));
      CloseKeysNoLeak(b.state, OtherShells(b.state, b.result.handle));
      CloseKeysNoLeak(t, {call.HostKey()});
      CloseControlNoLeak(t);
    }
  }

  /** As long as no shell is lost, leaving closes everything exactly when it closes the control shell:
      there is none, or collecting the logs does not raise and down finishes. Closed shells that failed
      calls left in the cache do no harm. */
  lemma ExitClosesAll(s: State, call: ExitCall)
    requires NoLeak(s)
    ensures NoneOpen(ExitStep(s, call)) <==> ControlCloses(s, call)
  {
    hide NoneOpen, NoLeak, DownStep, CollectLogs, CachedClosed;
    var t := CollectLogs(s, call.logs);
    CollectLogsNoLeak(s, call.logs);
    DownNoLeak(t, call.down);
    CloseCached(BeforeClosing(s, call));
  }

  // ----- whole runs

  /** One locked call of some thread. Runs interleave the calls of all threads in any order; only
      down is taken without callers in between. Of Cluster.shell, which opens a shell for its caller to
      keep, the locked part is the container lookup. */
  datatype Op =
    | Bash(bash: BashCall)
    | CloseOne(thread: string, node: Option<string>)
    | CloseNode(name: string)
    | OpenUncached(lookup: nat -> Lookup, timeout: real)
    | Down(down: DownCall)

  function Step(s: State, op: Op): State {
    match op
    case Bash(call) => BashStep(s, call).state
    case CloseOne(thread, node) => CloseBash(s, thread, node)
    case CloseNode(name) => CloseBashes(s, name)
    case OpenUncached(lookup, timeout) => LookupRun(lookup, 0, s, 0.0, timeout).state
    case Down(call) => DownStep(s, call).state
  }

  predicate ReturnsNormally(s: State, op: Op) {
    match op
    case Bash(call) => Returns(s, call)
    case OpenUncached(lookup, timeout) => LookupFinds(lookup, 0, s.control.Some?, 0.0, timeout)
    case Down(call) => DownFinishes(s, call)
    case _ => true
  }

  /** The call breaks "open exactly when held". Raising alone does not. */
  predicate StepSpoils(s: State, op: Op) {
    match op
    case Bash(call) => Spoils(s, call)
    case OpenUncached(lookup, timeout) => LookupLoses(lookup, 0, s.control.Some?, 0.0, timeout)
    case Down(call) => Spoils(s, call.HostBash())
    case _ => false
  }

  /** The call loses a control shell. */
  predicate StepLoses(s: State, op: Op) {
    match op
    case Bash(call) => LosesControl(s, call)
    case OpenUncached(lookup, timeout) => LookupLoses(lookup, 0, s.control.Some?, 0.0, timeout)
    case _ => false
  }

  function Run(s: State, ops: seq<Op>): State
    decreases ops
  {
    if ops == [] then s else Run(Step(s, ops[0]), ops[1..])
  }

  predicate AllReturn(s: State, ops: seq<Op>)
    decreases ops
  {
    ops == [] || (ReturnsNormally(s, ops[0]) && AllReturn(Step(s, ops[0]), ops[1..]))
  }

  predicate NoneSpoils(s: State, ops: seq<Op>)
    decreases ops
  {
    ops == [] || (!StepSpoils(s, ops[0]) && NoneSpoils(Step(s, ops[0]), ops[1..]))
  }

  predicate SomeLoses(s: State, ops: seq<Op>)
    decreases ops
  {
    ops != [] && (StepLoses(s, ops[0]) || SomeLoses(Step(s, ops[0]), ops[1..]))
  }

  lemma StepIsSafe(s: State, op: Op)
    requires Safe(s)
    ensures Safe(Step(s, op))
  {
    hide Safe, BashStep, DownStep, CloseKeys, LookupRun;
    match op {
      case Bash(call) => BashKeepsSafe(s, call);
      case CloseOne(thread, node) => CloseKeysSafe(s, {Key(thread, NodeText(node))});
      case CloseNode(name) => CloseKeysSafe(s, set k | k in s.cache && EndsWith(k.node, name));
      case OpenUncached(lookup, timeout) => LookupSafe(lookup, 0, s, 0.0, timeout);
      case Down(call) => DownKeepsSafe(s, call);
    }
  }

  /** Over every run, raising calls included, two keys never share a shell and the control shell is
      never a cached one. */
  lemma {:induction false} RunsAreSafe(s: State, ops: seq<Op>)
    requires Safe(s)
    ensures Safe(Run(s, ops))
    decreases ops
  {
    hide Safe, Step;
    if ops != [] {
      StepIsSafe(s, ops[0]);
      RunsAreSafe(Step(s, ops[0]), ops[1..]);
    }
  }

  lemma StepIsGood(s: State, op: Op)
    requires Good(s) && !StepSpoils(s, op)
    ensures Good(Step(s, op))
  {
    hide Good, BashStep, CloseKeys, Safe, DownStep, Spoils, LookupRun, LookupLoses;
    match op {
      case Bash(call) => BashKeepsGood(s, call);
      case CloseOne(thread, node) => CloseKeysGood(s, {Key(thread, NodeText(node))});
      case CloseNode(name) => CloseKeysGood(s, set k | k in s.cache && EndsWith(k.node, name));
      case OpenUncached(lookup, timeout) => LookupGood(lookup, 0, s, 0.0, timeout);
      case Down(call) => DownKeepsGood(s, call);
    }
  }

  /** Over every interleaving in which no call spoils it, raising calls included, the open shells are
      exactly the cached ones and the control shell. */
  lemma {:induction false} UnspoiltRunsAreGood(s: State, ops: seq<Op>)
    requires Good(s) && NoneSpoils(s, ops)
    ensures Good(Run(s, ops))
    decreases ops
  {
    hide Good, Step, StepSpoils;
    if ops != [] {
      StepIsGood(s, ops[0]);
      UnspoiltRunsAreGood(Step(s, ops[0]), ops[1..]);
    }
  }

  lemma ReturningSpoilsNothing(s: State, op: Op)
    requires ReturnsNormally(s, op)
    ensures !StepSpoils(s, op)
  {
    hide Spoils, Opens, LookupRun, LookupLoses, LookupFinds;
    match op {
      case Bash(call) => ReturnsUnspoilt(s, call);
      case OpenUncached(lookup, timeout) => LookupOutcome(lookup, 0, s, 0.0, timeout);
      case Down(call) => ReturnsUnspoilt(s, call.HostBash());
      case _ =>
    }
  }

  lemma {:induction false} NormalRunsAreUnspoilt(s: State, ops: seq<Op>)
    requires AllReturn(s, ops)
    ensures NoneSpoils(s, ops)
    decreases ops
  {
    hide Step, StepSpoils, ReturnsNormally;
    if ops != [] {
      ReturningSpoilsNothing(s, ops[0]);
      NormalRunsAreUnspoilt(Step(s, ops[0]), ops[1..]);
    }
  }

  /** Over every interleaving of calls that return normally, every shell ever created is held or closed,
      and every held one is open. */
  lemma NormalRunsAreGood(s: State, ops: seq<Op>)
    requires Good(s) && AllReturn(s, ops)
    ensures Good(Run(s, ops))
  {
    NormalRunsAreUnspoilt(s, ops);
    UnspoiltRunsAreGood(s, ops);
  }

  // ----- leaks over whole runs

  lemma StepNoLeak(s: State, op: Op)
    requires NoLeak(s) && !StepLoses(s, op)
    ensures NoLeak(Step(s, op))
  {
    hide NoLeak, BashStep, CloseKeys, DownStep, LosesControl, LookupRun, LookupLoses;
    match op {
      case Bash(call) => BashNoLeak(s, call);
      case CloseOne(thread, node) => CloseKeysNoLeak(s, {Key(thread, NodeText(node))});
      case CloseNode(name) => CloseKeysNoLeak(s, set k | k in s.cache && EndsWith(k.node, name));
      case OpenUncached(lookup, timeout) => LookupNoLeak(lookup, 0, s, 0.0, timeout);
      case Down(call) => DownNoLeak(s, call);
    }
  }

  lemma {:induction false} RunNoLeak(s: State, ops: seq<Op>)
    requires NoLeak(s) && !SomeLoses(s, ops)
    ensures NoLeak(Run(s, ops))
    decreases ops
  {
    hide NoLeak, Step, StepLoses;
    if ops != [] {
      StepNoLeak(s, ops[0]);
      RunNoLeak(Step(s, ops[0]), ops[1..]);
    }
  }

  lemma DownLost(s: State, call: DownCall, h: Handle)
    requires Safe(s) && Lost(s, h)
    ensures Lost(DownStep(s, call).state, h)
  {
    hide Lost, BashStep, CloseKeys, CloseControl;
    var b := BashStep(s, call.HostBash());
    BashLost(s, call.HostBash(), h);
    if b.result.Shell? {
      var t := CloseKeys(b.state, OtherShells(b.state, b.result.handle));
      CloseKeysLost(b.state, OtherShells(b.state, b.result.handle), h);
      CloseKeysLost(t, {call.HostKey()}, h);
      CloseControlLost(t, h);
    }
  }

  lemma StepLost(s: State, op: Op, h: Handle)
    requires Safe(s) && Lost(s, h)
    ensures Lost(Step(s, op), h)
  {
    hide Safe, Lost, BashStep, CloseKeys, DownStep, LookupRun;
    match op {
      case Bash(call) => BashLost(s, call, h);
      case CloseOne(thread, node) => CloseKeysLost(s, {Key(thread, NodeText(node))}, h);
      case CloseNode(name) => CloseKeysLost(s, (set k | k in s.cache && EndsWith(k.node, name)), h);
      case OpenUncached(lookup, timeout) => LookupLost(lookup, 0, s, 0.0, timeout, h);
      case Down(call) => DownLost(s, call, h);
    }
  }

  lemma {:induction false} RunLost(s: State, ops: seq<Op>, h: Handle)
    requires Safe(s) && Lost(s, h)
    ensures Lost(Run(s, ops), h)
    decreases ops
  {
    hide Safe, Lost, Step;
    if ops != [] {
      StepLost(s, ops[0], h);
      StepIsSafe(s, ops[0]);
      RunLost(Step(s, ops[0]), ops[1..], h);
    }
  }

  lemma StepLosesShell(s: State, op: Op) returns (h: Handle)
    requires Safe(s) && StepLoses(s, op)
    ensures Lost(Step(s, op), h)
  {
    hide Safe, Lost, BashStep, LosesControl, LookupRun, LookupLoses;
    match op {
      case Bash(call) => h := BashLoses(s, call);
      case OpenUncached(lookup, timeout) => h := LookupLosesShell(lookup, 0, s, 0.0, timeout);
    }
  }

  /** A run in which some call loses a control shell ends with that shell open and unreferenced. */
  lemma {:induction false} RunLoses(s: State, ops: seq<Op>) returns (h: Handle)
    requires Safe(s) && SomeLoses(s, ops)
    ensures Lost(Run(s, ops), h)
    decreases ops
  {
    hide Safe, Lost, Step, StepLoses;
    StepIsSafe(s, ops[0]);
    if StepLoses(s, ops[0]) {
      h := StepLosesShell(s, ops[0]);
      RunLost(Step(s, ops[0]), ops[1..], h);
    } else {
      h := RunLoses(Step(s, ops[0]), ops[1..]);
    }
  }

  lemma ExitLost(s: State, call: ExitCall, h: Handle)
    requires Safe(s) && Lost(s, h)
    ensures !NoneOpen(ExitStep(s, call))
  {
    hide DownStep;
    var t := CollectLogs(s, call.logs);
    assert Safe(t) && Lost(t, h);
    DownLost(t, call.down, h);
    var d := BeforeClosing(s, call);
    var bag: multiset<Handle> := multiset(ShellsOf(d, d.cache.Keys));
    assert h !in ShellsOf(d, d.cache.Keys);
    assert ExitStep(s, call).world.exits[h] == d.world.exits[h] + bag[h];
    assert ExitStep(s, call).world.IsOpen(h);
  }

  /** From the creation of the cluster object through any run, raising calls included, to __exit__: no
      shell opened through bash or as the control shell stays open exactly when no call loses a control
      shell and leaving closes the last one. Give-ups never leak. */
  lemma AnyRunThenExit(ops: seq<Op>, call: ExitCall)
    ensures var s := Run(EMPTY, ops);
            NoneOpen(ExitStep(s, call)) <==> !SomeLoses(EMPTY, ops) && ControlCloses(s, call)
  {
    hide NoLeak, Lost, Safe, Run, ExitStep, NoneOpen, SomeLoses, ControlCloses;
    EmptyIsGood();
    GoodIsCounted(EMPTY);
    GoodHasNoLeak(EMPTY);
    RunsAreSafe(EMPTY, ops);
    if SomeLoses(EMPTY, ops) {
      var h := RunLoses(EMPTY, ops);
      ExitLost(Run(EMPTY, ops), call, h);
    } else {
      RunNoLeak(EMPTY, ops);
      ExitClosesAll(Run(EMPTY, ops), call);
    }
  }

  /** In particular, after calls that return normally only the control shell can stay open. */
  lemma NormalRunThenExit(ops: seq<Op>, call: ExitCall)
    requires AllReturn(EMPTY, ops)
    ensures NoneOpen(ExitStep(Run(EMPTY, ops), call)) <==> ControlCloses(Run(EMPTY, ops), call)
  {
    hide Good, NoLeak, Run, ExitStep, NoneOpen, ControlCloses, AllReturn;
    EmptyIsGood();
    NormalRunsAreGood(EMPTY, ops);
    GoodHasNoLeak(Run(EMPTY, ops));
    ExitClosesAll(Run(EMPTY, ops), call);
  }

  /** One call of bash that finds its container at once. */
  const ONE_CALL := [Bash(BashCall("main", Some("clickhouse1"), {}, (i: nat) => Lookup([Ready], Found, 0.0, 1.0), 300.0,
                                   [Ready], true))]

  /** Leaving with a down whose command raises. */
  const BROKEN_EXIT := ExitCall(NotCollected, DownCall("main", {}, [Ready], true, CommandBroke))

  /** Leaving can keep the control shell open even after calls that all return. */
  lemma OpenAfterExitWitness()
    ensures AllReturn(EMPTY, ONE_CALL) && !NoneOpen(ExitStep(Run(EMPTY, ONE_CALL), BROKEN_EXIT))
  {
    hide ExitStep, NoneOpen;
    NormalRunThenExit(ONE_CALL, BROKEN_EXIT);
    assert Run(EMPTY, ONE_CALL) == Step(EMPTY, ONE_CALL[0]);
  }
}
