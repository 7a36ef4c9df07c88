/** The runtime election. */
module Election {
  // Contenders of `acquireRuntimeLock` race through a directory of claims.  One `Action` is one
  // file-system call (or one decision between two calls) of one contender, so a run interleaves any
  // number of contenders at every `await`.  `List` is the snapshot taken by `readdir`; each entry of
  // the snapshot is then probed by calls of its own.  A process may die between any two calls, and its
  // process id may be reused.
  import opened CodeUnits

  type Name = Text

  /** What the lock file records; a claim's name starts with the same `pid`. */
  datatype Identity = Identity(instance: Text, pid: nat)

  datatype LockFile = Absent | Malformed | Record(id: Identity)

  datatype Claim = Claim(name: Name, ticket: Option<nat>)

  /** How far `readRuntimeClaims` has got with one directory entry. */
  datatype Progress =
    | Idle
    | Alive(entry: Name)                     // its process exists
    | NoTicket(entry: Name)                  // reading its ticket answered ENOENT
    | Dead(entry: Name, ticketGone: bool)    // its process is gone, reclamation has begun

  datatype Scan = Scan(todo: set<Name>, probe: Progress, claims: seq<Claim>)

  /** What a contender with a published ticket is doing. */
  datatype Stage =
    | Waiting                  // about to list the directory
    | Watching(scan: Scan)
    | Elected                  // about to read the lock file
    | Cleared                  // lock absent or stale, about to write it
    | Holding
    | Releasing                // release read its own record, about to delete it
    | Unlocked                 // done with the lock file, after a release or a failure: about to remove its claim
    | Dropped                  // its ticket is deleted, its claim directory remains

  datatype Phase =
    | Entered                  // claim directory made, no ticket: "choosing"
    | Choosing(scan: Scan)
    | Queued(ticket: nat, stage: Stage)
    | Leaving                  // not elected, removing its claim
    | Gone

  datatype State = State(
    running: set<nat>,            // existing process ids
    crashed: set<Name>,           // contenders whose process died
    dirs: set<Name>,              // claim directories
    tickets: map<Name, nat>,      // published ticket files
    lock: LockFile,
    phases: map<Name, Phase>,
    who: map<Name, Identity>,
    issued: map<Name, nat>,       // history: every ticket ever published
    acquired: set<Name>,          // history: every contender that became the holder
    writer: Option<Name>)         // history: who wrote the lock file last

  /** The calls that examine one entry of a directory snapshot. */
  datatype ProbeCall =
    | CheckPid(entry: Name)
    | ReadTicket
    | StatEntry
    | ReclaimTicket
    | ReclaimDir

  /** One call of one contender. */
  datatype Call =
    | List
    | Probe(call: ProbeCall)
    | Rescan             // a transient sharing violation restarts the scan
    | Publish
    | Judge
    | ReadLock
    | WriteLock
    | WriteThenFail      // the lock was replaced but the call still failed
    | BeginRelease
    | RemoveLock
    | DropTicket
    | DropDir
    | Fault              // an error or an expired deadline

  datatype Action =
    | Spawn(pid: nat)
    | Crash(pid: nat)
    | Enter(n: Name, id: Identity)
    | By(n: Name, call: Call)

  // ---------------------------------------------------------------- the code's decisions

  /** The election order of `(ticket, name)` pairs. */
  predicate Before(t: nat, n: Name, u: nat, m: Name) {
    t < u || (t == u && Less(n, m))
  }

  function MaxTicket(claims: seq<Claim>): (t: nat)
    ensures forall i :: 0 <= i < |claims| && claims[i].ticket.Some? ==> claims[i].ticket.value <= t
  {
    if claims == [] then 0 else
      var rest := MaxTicket(claims[1..]);
      assert forall i :: 1 <= i < |claims| ==> claims[i] == claims[1..][i - 1];
      match claims[0].ticket
      case None => rest
      case Some(t) => if t < rest then rest else t
  }

  predicate Loses(claims: seq<Claim>, n: Name, t: nat) {
    exists i :: 0 <= i < |claims| && claims[i].name != n && claims[i].ticket.Some?
                && Before(claims[i].ticket.value, claims[i].name, t, n)
  }

  predicate SeesChooser(claims: seq<Claim>, n: Name) {
    exists i :: 0 <= i < |claims| && claims[i].name != n && claims[i].ticket.None?
  }

  // ---------------------------------------------------------------- phases

  /** Past the election, claim not yet removed. */
  predicate PastElection(p: Phase) {
    p.Queued? && !p.stage.Waiting? && !p.stage.Watching?
  }

  predicate IsDropped(p: Phase) { p.Queued? && p.stage.Dropped? }

  predicate HasScan(p: Phase) { p.Choosing? || (p.Queued? && p.stage.Watching?) }

  function ScanOf(p: Phase): Scan
    requires HasScan(p)
  {
    if p.Choosing? then p.scan else p.stage.scan
  }

  function WithScan(p: Phase, scan: Scan): Phase {
    if p.Queued? then Queued(p.ticket, Watching(scan)) else Choosing(scan)
  }

  predicate Live(s: State, n: Name) { n in s.phases && n !in s.crashed }

  predicate At(s: State, n: Name) { Live(s, n) && n in s.who }

  function Goto(s: State, n: Name, p: Phase): State { s.(phases := s.phases[n := p]) }

  // ---------------------------------------------------------------- steps

  predicate ProbeReady(s: State, scan: Scan, call: ProbeCall) {
    match call
    case CheckPid(m) => scan.probe.Idle? && m in scan.todo && m in s.who
    case ReadTicket => scan.probe.Alive?
    case StatEntry => scan.probe.NoTicket?
    case ReclaimTicket => scan.probe.Dead? && !scan.probe.ticketGone
    case ReclaimDir => scan.probe.Dead? && scan.probe.ticketGone
  }

  /** The scan is through with entry `m` and reports `found` for it. */
  function Through(scan: Scan, m: Name, found: seq<Claim>): Scan {
    Scan(scan.todo - {m}, Idle, scan.claims + found)
  }

  /** `readRuntimeClaims`, one call further. */
  function Examine(s: State, scan: Scan, call: ProbeCall): Scan
    requires ProbeReady(s, scan, call)
  {
    match call
    case CheckPid(m) => scan.(probe := if s.who[m].pid in s.running then Alive(m) else Dead(m, false))
    case ReadTicket =>
      var m := scan.probe.entry;
      if m in s.tickets then Through(scan, m, [Claim(m, Some(s.tickets[m]))]) else scan.(probe := NoTicket(m))
    case StatEntry =>
      var m := scan.probe.entry;
      Through(scan, m, if m in s.dirs then [Claim(m, None)] else [])
    case ReclaimTicket => scan.(probe := Dead(scan.probe.entry, true))
    case ReclaimDir => Through(scan, scan.probe.entry, [])
  }

  predicate Ready(s: State, n: Name, call: Call)
    requires n in s.phases
  {
    var p := s.phases[n];
    match call
    case List => p.Entered? || (p.Queued? && p.stage.Waiting?)
    case Probe(probe) => HasScan(p) && ProbeReady(s, ScanOf(p), probe)
    case Rescan => HasScan(p)
    case Publish => p.Choosing? && p.scan.todo == {} && 1 + MaxTicket(p.scan.claims) <= MAX_SAFE_INTEGER
    case Judge => p.Queued? && p.stage.Watching? && p.stage.scan.todo == {}
    case ReadLock => p.Queued? && p.stage.Elected?
    case WriteLock => p.Queued? && p.stage.Cleared?
    case WriteThenFail => p.Queued? && p.stage.Cleared?
    case BeginRelease => p.Queued? && p.stage.Holding?
    case RemoveLock => p.Queued? && p.stage.Releasing?
    case DropTicket => p.Leaving? || (p.Queued? && p.stage.Unlocked?)
    case DropDir => (p.Leaving? && n !in s.tickets) || IsDropped(p)
    case Fault => !p.Leaving? && !p.Gone? && !(p.Queued? && p.stage.Unlocked?) && !IsDropped(p)
  }

  predicate Enabled(s: State, a: Action) {
    match a
    case Spawn(pid) => pid !in s.running
    case Crash(pid) => pid in s.running
    case Enter(n, id) => n !in s.phases && n !in s.who && id.pid in s.running
    case By(n, call) => At(s, n) && Ready(s, n, call)
  }

  /** The caller's phase after its call. */
  function After(s: State, n: Name, call: Call): Phase
    requires At(s, n) && Ready(s, n, call)
  {
    var p := s.phases[n];
    match call
    case List => WithScan(p, Scan(s.dirs, Idle, []))
    case Probe(probe) => WithScan(p, Examine(s, ScanOf(p), probe))
    case Rescan => if p.Queued? then Queued(p.ticket, Waiting) else Entered
    case Publish => Queued(1 + MaxTicket(p.scan.claims), Waiting)
    case Judge =>
      if Loses(p.stage.scan.claims, n, p.ticket) then Leaving
      else Queued(p.ticket, if SeesChooser(p.stage.scan.claims, n) then Waiting else Elected)
    case ReadLock =>
      var stale := s.lock.Absent? || (s.lock.Record? && s.lock.id.pid !in s.running);
      Queued(p.ticket, if stale then Cleared else Unlocked)
    case WriteLock => Queued(p.ticket, Holding)
    case WriteThenFail => Queued(p.ticket, Unlocked)
    case BeginRelease => Queued(p.ticket, if s.lock == Record(s.who[n]) then Releasing else Unlocked)
    case RemoveLock => Queued(p.ticket, Unlocked)
    case DropTicket => if p.Queued? then Queued(p.ticket, Dropped) else Leaving
    case DropDir => Gone
    case Fault => if PastElection(p) then Queued(p.ticket, Unlocked) else Leaving
  }

  function Act(s: State, n: Name, call: Call): State
    requires At(s, n) && Ready(s, n, call)
  {
    var s' := Goto(s, n, After(s, n, call));
    match call
    case Probe(probe) =>
      var entry := if probe.CheckPid? then probe.entry else ScanOf(s.phases[n]).probe.entry;
      s'.(tickets := if probe.ReclaimTicket? then s.tickets - {entry} else s.tickets,
          dirs := if probe.ReclaimDir? then s.dirs - {entry} else s.dirs)
    case Publish =>
      var t := s'.phases[n].ticket;
      s'.(tickets := s.tickets[n := t], issued := s.issued[n := t])
    case WriteLock => s'.(lock := Record(s.who[n]), writer := Some(n), acquired := s.acquired + {n})
    case WriteThenFail => s'.(lock := Record(s.who[n]), writer := Some(n))
    case RemoveLock => s'.(lock := Absent, writer := None)
    case DropTicket => s'.(tickets := s.tickets - {n})
    case DropDir => s'.(dirs := s.dirs - {n})
    case List => s'
    case Rescan => s'
    case Judge => s'
    case ReadLock => s'
    case BeginRelease => s'
    case Fault => s'
  }

  function Next(s: State, a: Action): State
    requires Enabled(s, a)
  {
    match a
    case Spawn(pid) => s.(running := s.running + {pid})
    case Crash(pid) =>
      s.(running := s.running - {pid},
         crashed := s.crashed + set n | n in s.phases && n in s.who && s.who[n].pid == pid)
    case Enter(n, id) => Goto(s, n, Entered).(who := s.who[n := id], dirs := s.dirs + {n})
    case By(n, call) => Act(s, n, call)
  }

  /** No contender has started; the lock file may be anything an earlier incarnation left. */
  predicate Init(s: State) {
    && s.crashed == {} && s.dirs == {} && s.tickets == map[] && s.phases == map[] && s.who == map[]
    && s.issued == map[] && s.acquired == {} && s.writer == None
  }

  /** `actions` drive the system through `states`. */
  ghost predicate Steps(states: seq<State>, actions: seq<Action>) {
    && |states| == |actions| + 1
    && forall i :: 0 <= i < |actions| ==>
         Enabled(states[i], actions[i]) && states[i + 1] == Next(states[i], actions[i])
  }

  ghost predicate Run(states: seq<State>, actions: seq<Action>) {
    Steps(states, actions) && Init(states[0])
  }

  // ---------------------------------------------------------------- the invariant

  predicate ScanOk(s: State, scan: Scan) {
    && scan.todo <= s.phases.Keys
    && (!scan.probe.Idle? ==> scan.probe.entry in scan.todo)
    && (scan.probe.Dead? ==> scan.probe.entry in s.crashed)
  }

  /** What one live contender's phase says about the directory. */
  predicate Placed(s: State, n: Name)
    requires n in s.phases
  {
    var p := s.phases[n];
    && (p.Entered? || p.Choosing? ==> n in s.dirs && n !in s.tickets)
    && (p.Queued? ==> n in s.dirs && (n in s.tickets <==> !IsDropped(p)) && (n in s.tickets ==> s.tickets[n] == p.ticket))
    && (HasScan(p) ==> ScanOk(s, ScanOf(p)))
  }

  /** Claims and tickets belong to contenders, and every contender has an identity. */
  predicate Known(s: State) {
    && s.phases.Keys == s.who.Keys
    && s.crashed <= s.phases.Keys && s.dirs <= s.phases.Keys && s.tickets.Keys <= s.phases.Keys
  }

  ghost predicate Frame(s: State) {
    && Known(s)
    && forall n :: Live(s, n) ==> s.who[n].pid in s.running && Placed(s, n)
  }

  /** Every ticket the scan has reported for `c` is behind ticket `t` of `d`. */
  predicate InFront(scan: Scan, t: nat, d: Name, c: Name) {
    c !in scan.todo
    && forall i :: 0 <= i < |scan.claims| && scan.claims[i].name == c ==>
         scan.claims[i].ticket.Some? && Before(t, d, scan.claims[i].ticket.value, c)
  }

  /** `d` can no longer be stopped by `c`: its scan is through with `c`, or it is elected. */
  predicate Passed(p: Phase, d: Name, c: Name) {
    p.Queued? && !p.stage.Waiting? && (p.stage.Watching? ==> InFront(p.stage.scan, p.ticket, d, c))
  }

  /** The choosing scan will still read ticket `t` of `d`, or has read one at least as large. */
  predicate WillCount(scan: Scan, d: Name, t: nat) {
    || (d in scan.todo && scan.probe != NoTicket(d))
    || exists i :: 0 <= i < |scan.claims| && scan.claims[i].ticket.Some? && t <= scan.claims[i].ticket.value
  }

  /** A contender in phase `q` is behind ticket `t` of `d`, or bound to choose a ticket behind it. */
  predicate Behind(q: Phase, c: Name, t: nat, d: Name) {
    && (q.Choosing? ==> WillCount(q.scan, d, t))
    && (q.Queued? ==> Before(t, d, q.ticket, c))
  }

  /** Whoever has passed `c` is in front of it.  Nobody passes a claim without a ticket; and a contender
      that has dropped its own has nothing left that `c` could count. */
  predicate Ordered(p: Phase, d: Name, q: Phase, c: Name) {
    Passed(p, d, c) ==> !IsDropped(q) && (!IsDropped(p) ==> Behind(q, c, p.ticket, d))
  }

  ghost predicate AllOrdered(s: State) {
    forall d, c :: Live(s, d) && Live(s, c) && d != c ==> Ordered(s.phases[d], d, s.phases[c], c)
  }

  predicate Holds(p: Phase) { p.Queued? && (p.stage.Holding? || p.stage.Releasing?) }

  predicate LockOk(s: State, n: Name)
    requires n in s.phases && n in s.who
  {
    Holds(s.phases[n]) ==>
      s.lock == Record(s.who[n]) && s.writer == Some(n)
  }

  ghost predicate Inv(s: State) {
    && Frame(s)
    && AllOrdered(s)
    && forall n :: Live(s, n) ==> LockOk(s, n)
  }

  // ---------------------------------------------------------------- every step keeps it

  lemma FrameKeptForOthers(s: State, m: Name, call: Call, n: Name)
    requires Frame(s) && At(s, m) && Ready(s, m, call) && Live(s, n) && m != n
    ensures Placed(Act(s, m, call), n)
  {
    assert Placed(s, n) && Placed(s, m);
  }

  /** A scan finds dead only who has crashed. */
  lemma ExamineOk(s: State, scan: Scan, call: ProbeCall)
    requires Frame(s) && ScanOk(s, scan) && ProbeReady(s, scan, call)
    ensures ScanOk(s, Examine(s, scan, call))
  {
    if call.CheckPid? {
      assert Live(s, call.entry) ==> s.who[call.entry].pid in s.running;
    }
  }

  lemma FrameKeptByCaller(s: State, n: Name, call: Call)
    requires Frame(s) && At(s, n) && Ready(s, n, call)
    ensures Placed(Act(s, n, call), n)
  {
    assert Placed(s, n);
    if call.Probe? {
      ExamineOk(s, ScanOf(s.phases[n]), call.call);
    }
  }

  lemma CallTouchesOwn(s: State, n: Name, call: Call)
    requires At(s, n) && Ready(s, n, call)
    ensures var s' := Act(s, n, call);
      && s'.phases.Keys == s.phases.Keys && s'.who == s.who && s'.crashed == s.crashed
      && s'.dirs <= s.dirs && s'.tickets.Keys <= s.tickets.Keys + {n}
  {
  }

  lemma KnownKept(s: State, a: Action)
    requires Known(s) && Enabled(s, a)
    ensures Known(Next(s, a))
  {
    if a.By? {
      CallTouchesOwn(s, a.n, a.call);
    }
  }

  lemma FrameKept(s: State, a: Action)
    requires Frame(s) && Enabled(s, a)
    ensures Frame(Next(s, a))
  {
    KnownKept(s, a);
    var s' := Next(s, a);
    forall n | Live(s', n)
      ensures n in s'.who && s'.who[n].pid in s'.running && Placed(s', n)
    {
      if !a.By? {
        assert Live(s, n) ==> Placed(s, n);
      } else if a.n != n {
        FrameKeptForOthers(s, a.n, a.call, n);
      } else {
        FrameKeptByCaller(s, n, a.call);
      }
    }
  }

  /** A verdict of "elected" passes every contender at once. */
  lemma JudgePasses(scan: Scan, t: nat, d: Name, c: Name)
    requires scan.todo == {} && d != c && !Loses(scan.claims, d, t) && !SeesChooser(scan.claims, d)
    ensures InFront(scan, t, d, c)
  {
    LessIsTotal(c, d);
  }

  /** Examining the entry of a contender passes it only in front of its ticket. */
  lemma ProbePasses(s: State, d: Name, c: Name, call: ProbeCall)
    requires Frame(s) && At(s, d) && Live(s, c) && d != c
    requires s.phases[d].Queued? && s.phases[d].stage.Watching?
    requires ProbeReady(s, s.phases[d].stage.scan, call)
    requires InFront(Examine(s, s.phases[d].stage.scan, call), s.phases[d].ticket, d, c)
    ensures InFront(s.phases[d].stage.scan, s.phases[d].ticket, d, c)
            || (s.phases[c].Queued? && !IsDropped(s.phases[c]) && Before(s.phases[d].ticket, d, s.phases[c].ticket, c))
            || !(s.phases[c].Choosing? || s.phases[c].Queued?)
  {
    assert Placed(s, d) && Placed(s, c);
    var scan := s.phases[d].stage.scan;
    var after := Examine(s, scan, call);
    assert forall i :: 0 <= i < |scan.claims| ==> after.claims[i] == scan.claims[i];
    if !call.CheckPid? && scan.probe.entry == c && |after.claims| > |scan.claims| {
      assert after.claims[|scan.claims|].name == c;
    }
  }

  /** `d` moves: it may pass `c` only in front of it. */
  lemma OrderKeptByFront(s: State, d: Name, c: Name, call: Call)
    requires Frame(s) && At(s, d) && Ready(s, d, call) && Live(s, c) && d != c
    requires Ordered(s.phases[d], d, s.phases[c], c)
    ensures Ordered(After(s, d, call), d, s.phases[c], c)
  {
    assert Placed(s, d) && Placed(s, c);
    var p, p' := s.phases[d], After(s, d, call);
    if Passed(p', d, c) {
      if call.Probe? {
        ProbePasses(s, d, c, call.call);
      } else if call.Judge? {
        JudgePasses(p.stage.scan, p.ticket, d, c);
      }
    }
  }

  /** A choosing scan that examines an entry keeps its promise to count the ticket of `d`. */
  lemma CountKept(s: State, d: Name, c: Name, call: ProbeCall)
    requires Frame(s) && Live(s, c) && s.phases[c].Choosing? && ProbeReady(s, s.phases[c].scan, call)
    requires Live(s, d) && d != c && s.phases[d].Queued? && !IsDropped(s.phases[d])
    requires WillCount(s.phases[c].scan, d, s.phases[d].ticket)
    ensures WillCount(Examine(s, s.phases[c].scan, call), d, s.phases[d].ticket)
  {
    assert Placed(s, d) && Placed(s, c);
    var scan := s.phases[c].scan;
    var after := Examine(s, scan, call);
    assert forall i :: 0 <= i < |scan.claims| ==> after.claims[i] == scan.claims[i];
    if call.ReadTicket? && scan.probe.entry == d {
      assert after.claims[|scan.claims|] == Claim(d, Some(s.tickets[d]));
    }
  }

  /** `c` moves: it counts the ticket of whoever has passed it, and drops its own when nobody has. */
  lemma OrderKeptByBack(s: State, d: Name, c: Name, call: Call)
    requires Frame(s) && At(s, c) && Ready(s, c, call) && Live(s, d) && d != c
    requires Ordered(s.phases[d], d, s.phases[c], c) && Ordered(s.phases[c], c, s.phases[d], d)
    ensures Ordered(s.phases[d], d, After(s, c, call), c)
  {
    assert Placed(s, d) && Placed(s, c);
    LessIsTotal(c, d);
    if Passed(s.phases[d], d, c) && !IsDropped(s.phases[d]) && s.phases[c].Choosing? && call.Probe? {
      CountKept(s, d, c, call.call);
    }
  }

  lemma OrderKept(s: State, a: Action)
    requires Frame(s) && AllOrdered(s) && Enabled(s, a)
    ensures AllOrdered(Next(s, a))
  {
    var s' := Next(s, a);
    forall d, c | Live(s', d) && Live(s', c) && d != c
      ensures Ordered(s'.phases[d], d, s'.phases[c], c)
    {
      if a.By? {
        assert s'.phases == s.phases[a.n := After(s, a.n, a.call)];
        if a.n == d {
          OrderKeptByFront(s, d, c, a.call);
        } else if a.n == c {
          assert Ordered(s.phases[d], d, s.phases[c], c) && Ordered(s.phases[c], c, s.phases[d], d);
          OrderKeptByBack(s, d, c, a.call);
        }
      }
    }
  }

  /** Two live contenders cannot both be past the election. */
  lemma ElectedAlone(s: State, c: Name, d: Name)
    requires Frame(s) && AllOrdered(s)
    requires Live(s, c) && Live(s, d) && PastElection(s.phases[c]) && PastElection(s.phases[d])
    ensures c == d
  {
    if c != d {
      assert Ordered(s.phases[d], d, s.phases[c], c) && Ordered(s.phases[c], c, s.phases[d], d);
      LessIsTotal(c, d);
    }
  }

  // ---------------------------------------------------------------- the lock file

  predicate TouchesLock(call: Call) { call.WriteLock? || call.WriteThenFail? || call.RemoveLock? }

  /** Only an elected contender touches the lock file. */
  lemma TouchesWhenElected(s: State, m: Name, call: Call)
    requires At(s, m) && Ready(s, m, call)
    ensures if TouchesLock(call) then PastElection(s.phases[m])
            else Act(s, m, call).lock == s.lock && Act(s, m, call).writer == s.writer
  {
  }

  lemma LockKeptByCaller(s: State, n: Name, call: Call)
    requires At(s, n) && Ready(s, n, call) && LockOk(s, n)
    ensures LockOk(Act(s, n, call), n)
  {
  }

  lemma LockKept(s: State, m: Name, call: Call, n: Name)
    requires Inv(s) && At(s, m) && Ready(s, m, call) && At(s, n)
    ensures LockOk(Act(s, m, call), n)
  {
    assert LockOk(s, n);
    if m == n {
      LockKeptByCaller(s, n, call);
    } else {
      TouchesWhenElected(s, m, call);
      if Holds(s.phases[n]) && PastElection(s.phases[m]) {
        ElectedAlone(s, m, n);
      }
    }
  }

  lemma InvKept(s: State, a: Action)
    requires Inv(s) && Enabled(s, a)
    ensures Inv(Next(s, a))
  {
    FrameKept(s, a);
    OrderKept(s, a);
    forall n | Live(Next(s, a), n)
      ensures LockOk(Next(s, a), n)
    {
      if a.By? {
        LockKept(s, a.n, a.call, n);
      } else if Live(s, n) {
        assert LockOk(s, n);
      }
    }
  }

  lemma {:induction false} InvAlongRun(states: seq<State>, actions: seq<Action>, k: nat)
    requires Run(states, actions) && k < |states|
    ensures Inv(states[k])
  {
    if k > 0 {
      InvAlongRun(states, actions, k - 1);
      assert states[k - 1 + 1] == Next(states[k - 1], actions[k - 1]);
      InvKept(states[k - 1], actions[k - 1]);
    }
  }

  /** Mutual exclusion: in every state of every run, at most one live contender is past the election and
      has not yet removed its claim directory. */
  lemma MutualExclusion(states: seq<State>, actions: seq<Action>, k: nat, c: Name, d: Name)
    requires Run(states, actions) && k < |states|
    requires Live(states[k], c) && PastElection(states[k].phases[c])
    requires Live(states[k], d) && PastElection(states[k].phases[d])
    ensures c == d
  {
    InvAlongRun(states, actions, k);
    ElectedAlone(states[k], c, d);
  }

  /** A live holder's own record is the lock file's content until its release deletes it. */
  lemma HolderOwnsLock(states: seq<State>, actions: seq<Action>, k: nat, n: Name)
    requires Run(states, actions) && k < |states| && Live(states[k], n)
    requires Holds(states[k].phases[n])
    ensures n in states[k].who && states[k].lock == Record(states[k].who[n]) && states[k].writer == Some(n)
  {
    InvAlongRun(states, actions, k);
    assert LockOk(states[k], n);
  }

  /** A release deletes the record its own contender wrote last, and nobody else is past the
      election when it does. */
  lemma ReleaseRemovesOwnRecord(states: seq<State>, actions: seq<Action>, k: nat)
    requires Run(states, actions) && k < |actions| && actions[k].By? && actions[k].call.RemoveLock?
    ensures states[k].writer == Some(actions[k].n)
    ensures forall m :: Live(states[k], m) && m != actions[k].n ==> !PastElection(states[k].phases[m])
  {
    InvAlongRun(states, actions, k);
    var s, n := states[k], actions[k].n;
    assert Enabled(s, actions[k]) && LockOk(s, n);
    forall m | Live(s, m) && m != n
      ensures !PastElection(s.phases[m])
    {
      if PastElection(s.phases[m]) {
        ElectedAlone(s, n, m);
      }
    }
  }

  /** Reclamation deletes only claims of contenders whose process died, even when the process id
      has been reused since the scanner checked it. */
  lemma ReclaimsOnlyTheDead(states: seq<State>, actions: seq<Action>, k: nat, n: Name)
    requires Run(states, actions) && k < |actions| && Live(states[k], n)
    requires (n in states[k].dirs && n !in states[k + 1].dirs)
             || (n in states[k].tickets && n !in states[k + 1].tickets)
    ensures actions[k] == By(n, DropDir) || actions[k] == By(n, DropTicket)
  {
    InvAlongRun(states, actions, k);
    var s, a := states[k], actions[k];
    assert Enabled(s, a) && states[k + 1] == Next(s, a);
    assert a.By? ==> Placed(s, a.n);
  }

  // ---------------------------------------------------------------- whose record is replaced

  /** Nothing that a live process may own. */
  predicate Stale(s: State) { s.lock.Absent? || (s.lock.Record? && s.lock.id.pid !in s.running) }

  predicate IsCleared(s: State, n: Name) { At(s, n) && s.phases[n].Queued? && s.phases[n].stage.Cleared? }

  /** While a contender is past the election, nobody else touches the lock file. */
  lemma OthersKeepLock(s: State, a: Action, n: Name)
    requires Inv(s) && Enabled(s, a) && At(s, n) && PastElection(s.phases[n])
    requires a.By? ==> a.n != n
    ensures Next(s, a).lock == s.lock
  {
    if a.By? {
      TouchesWhenElected(s, a.n, a.call);
      if TouchesLock(a.call) {
        ElectedAlone(s, a.n, n);
      }
    }
  }

  /** A contender becomes ready to write the lock file by reading it stale, and stays so while nobody
      touches it. */
  lemma ClearedStep(s: State, a: Action, n: Name)
    requires Inv(s) && Enabled(s, a) && IsCleared(Next(s, a), n)
    ensures At(s, n) && PastElection(s.phases[n]) && Next(s, a).lock == s.lock
    ensures IsCleared(s, n) || Stale(s)
  {
    if a.By? && a.n == n {
      assert Next(s, a).phases[n] == After(s, n, a.call);
    } else {
      OthersKeepLock(s, a, n);
    }
  }

  lemma StepOfRun(states: seq<State>, actions: seq<Action>, k: nat)
    requires Run(states, actions) && k < |states|
    ensures k == 0 ==> Init(states[0])
    ensures k > 0 ==> Enabled(states[k - 1], actions[k - 1]) && states[k] == Next(states[k - 1], actions[k - 1])
  {
    assert k > 0 ==> Enabled(states[k - 1], actions[k - 1]) && states[k - 1 + 1] == Next(states[k - 1], actions[k - 1]);
  }

  /** Whoever is about to write the lock file has seen it stale since its election, and nobody has
      touched it in between. */
  lemma {:induction false} ClearedSince(states: seq<State>, actions: seq<Action>, k: nat, n: Name) returns (i: nat)
    requires Run(states, actions) && k < |states| && IsCleared(states[k], n)
    ensures i < k && At(states[i], n) && Stale(states[i]) && states[i].lock == states[k].lock
    ensures forall j :: i <= j <= k ==> n in states[j].phases && PastElection(states[j].phases[n])
  {
    hide Inv, Next, Enabled;
    StepOfRun(states, actions, k);
    InvAlongRun(states, actions, k - 1);
    ClearedStep(states[k - 1], actions[k - 1], n);
    i := k - 1;
    if IsCleared(states[k - 1], n) {
      i := ClearedSince(states, actions, k - 1, n);
    }
  }

  predicate Writes(a: Action, n: Name) { a == By(n, WriteLock) || a == By(n, WriteThenFail) }

  /** Only a stale record is replaced: a contender that writes the lock file has, since its election, seen
      the very content it replaces absent or left by a process that did not exist. */
  lemma ReplacesOnlyStale(states: seq<State>, actions: seq<Action>, k: nat, n: Name) returns (i: nat)
    requires Run(states, actions) && k < |actions| && Writes(actions[k], n)
    ensures i < k && n in states[i].phases && PastElection(states[i].phases[n])
    ensures states[i].lock == states[k].lock
    ensures states[i].lock == Absent || exists id :: states[i].lock == Record(id) && id.pid !in states[i].running
    ensures forall j :: i <= j <= k ==> n in states[j].phases && PastElection(states[j].phases[n])
  {
    assert Enabled(states[k], actions[k]);
    i := ClearedSince(states, actions, k, n);
  }

  /** A record whose process exists from a contender's election on is not overwritten by it. */
  lemma LiveRecordIsSafe(states: seq<State>, actions: seq<Action>, e: nat, k: nat, n: Name, id: Identity)
    requires Run(states, actions) && e <= k < |actions|
    requires e > 0 ==> n !in states[e - 1].phases || !PastElection(states[e - 1].phases[n])
    requires forall i :: e <= i <= k ==> states[i].lock == Record(id) && id.pid in states[i].running
    ensures !Writes(actions[k], n)
  {
    if Writes(actions[k], n) {
      var i := ReplacesOnlyStale(states, actions, k, n);
      assert false;
    }
  }

  lemma MalformedKept(states: seq<State>, actions: seq<Action>, k: nat)
    requires Run(states, actions) && k < |actions| && states[k].lock.Malformed?
    ensures states[k + 1].lock.Malformed?
  {
    var s, a := states[k], actions[k];
    assert Enabled(s, a) && states[k + 1] == Next(s, a);
    InvAlongRun(states, actions, k);
    assert forall n :: Live(s, n) ==> !Holds(s.phases[n]) by {
      forall n | Live(s, n)
        ensures LockOk(s, n)
      {
      }
    }
    if a.By? && Writes(a, a.n) {
      var i := ReplacesOnlyStale(states, actions, k, a.n);
      assert false;
    }
  }

  /** A malformed lock file is never replaced or removed by anybody. */
  lemma {:induction false} MalformedStays(states: seq<State>, actions: seq<Action>, i: nat, k: nat)
    requires Run(states, actions) && i <= k < |states| && states[i].lock.Malformed?
    ensures states[k].lock.Malformed?
  {
    if i < k {
      MalformedStays(states, actions, i, k - 1);
      MalformedKept(states, actions, k - 1);
    }
  }

  // ---------------------------------------------------------------- somebody wins

  /** No crash, no fault and no expired deadline. */
  predicate Untroubled(a: Action) {
    !a.Crash? && (a.By? ==> !a.call.Fault? && !a.call.WriteThenFail?)
  }

  predicate Beaten(s: State, n: Name) {
    n in s.issued && exists m :: m in s.issued && Before(s.issued[m], m, s.issued[n], n)
  }

  /** Every ticket a scan has reported was issued. */
  predicate ScanTrue(s: State, scan: Scan) {
    forall i :: 0 <= i < |scan.claims| && scan.claims[i].ticket.Some? ==>
      scan.claims[i].name in s.issued && scan.claims[i].ticket.value == s.issued[scan.claims[i].name]
  }

  predicate Honest(s: State, n: Name)
    requires n in s.phases
  {
    var p := s.phases[n];
    && (HasScan(p) ==> ScanTrue(s, ScanOf(p)))
    && (p.Queued? ==> n in s.issued && s.issued[n] == p.ticket)
    && (p.Leaving? || p.Gone? ==> s.acquired != {} || Beaten(s, n))
    && (p.Queued? && (Holds(p) || p.stage.Unlocked? || p.stage.Dropped?) ==> s.acquired != {})
    && (p.Entered? || p.Choosing? ==> n !in s.issued)
  }

  /** What a run without trouble that starts without a lock file keeps. */
  ghost predicate Fair(s: State) {
    && s.issued.Keys <= s.phases.Keys
    && (forall m :: m in s.tickets ==> m in s.issued && s.issued[m] == s.tickets[m])
    && (s.lock != Absent ==> s.acquired != {})
    && forall n :: n in s.phases ==> Honest(s, n)
  }

  lemma BeatenForever(s: State, a: Action, n: Name)
    requires Fair(s) && Enabled(s, a) && Beaten(s, n)
    ensures Beaten(Next(s, a), n)
  {
    var m :| m in s.issued && Before(s.issued[m], m, s.issued[n], n);
    if a.By? && a.call.Publish? {
      assert Honest(s, a.n);
    }
    assert m in Next(s, a).issued;
  }

  lemma HonestStays(s: State, a: Action, n: Name)
    requires Fair(s) && Enabled(s, a) && Untroubled(a) && n in s.phases
    requires a.Spawn? || a.n != n
    ensures Honest(Next(s, a), n)
  {
    assert Honest(s, n);
    if a.By? && a.call.Publish? {
      assert Honest(s, a.n);
    }
    if Beaten(s, n) {
      BeatenForever(s, a, n);
    }
  }

  lemma ProbeIsTrue(s: State, scan: Scan, call: ProbeCall)
    requires Fair(s) && ProbeReady(s, scan, call) && ScanTrue(s, scan)
    ensures ScanTrue(s, Examine(s, scan, call))
  {
    var after := Examine(s, scan, call);
    assert forall i :: 0 <= i < |scan.claims| ==> after.claims[i] == scan.claims[i];
  }

  lemma LosersAreBeaten(s: State, scan: Scan, t: nat, n: Name)
    requires ScanTrue(s, scan) && n in s.issued && s.issued[n] == t && Loses(scan.claims, n, t)
    ensures Beaten(s, n)
  {
    var i :| 0 <= i < |scan.claims| && scan.claims[i].name != n && scan.claims[i].ticket.Some?
             && Before(scan.claims[i].ticket.value, scan.claims[i].name, t, n);
    assert scan.claims[i].name in s.issued;
  }

  lemma HonestByCaller(s: State, n: Name, call: Call)
    requires Fair(s) && At(s, n) && Ready(s, n, call) && Untroubled(By(n, call))
    ensures Honest(Act(s, n, call), n)
  {
    assert Honest(s, n);
    if call.Probe? {
      ProbeIsTrue(s, ScanOf(s.phases[n]), call.call);
    } else if call.Judge? && Loses(s.phases[n].stage.scan.claims, n, s.phases[n].ticket) {
      LosersAreBeaten(s, s.phases[n].stage.scan, s.phases[n].ticket, n);
    }
    if Beaten(s, n) {
      BeatenForever(s, By(n, call), n);
    }
  }

  lemma FairKept(s: State, a: Action)
    requires Fair(s) && Enabled(s, a) && Untroubled(a)
    ensures Fair(Next(s, a))
  {
    var s' := Next(s, a);
    if a.By? && a.call.Publish? {
      assert Honest(s, a.n);
    }
    forall n | n in s'.phases
      ensures Honest(s', n)
    {
      if a.Spawn? || a.n != n {
        HonestStays(s, a, n);
      } else if a.By? {
        HonestByCaller(s, n, a.call);
      }
    }
  }

  /** A finite set of issued tickets has a first one. */
  lemma {:induction false} FirstTicket(issued: map<Name, nat>, names: set<Name>) returns (first: Name)
    requires names != {} && names <= issued.Keys
    ensures first in names
    ensures forall m :: m in names ==> !Before(issued[m], m, issued[first], first)
  {
    first :| first in names;
    LessIsTotal(first, first);
    if names != {first} {
      var rest := FirstTicket(issued, names - {first});
      LessIsTotal(first, rest);
      if Before(issued[rest], rest, issued[first], first) {
        first := rest;
        LessIsTotal(first, first);
      } else {
        forall m | m in names
          ensures !Before(issued[m], m, issued[first], first)
        {
          if m != first && Before(issued[m], m, issued[first], first) {
            LessIsTotal(m, first);
            LessIsTotal(m, rest);
            if issued[m] == issued[first] && issued[first] == issued[rest] {
              LessIsTransitive(m, first, rest);
            }
          }
        }
      }
    }
  }

  lemma {:induction false} FairAlongRun(states: seq<State>, actions: seq<Action>, k: nat)
    requires Run(states, actions) && k < |states| && states[0].lock == Absent
    requires forall i :: 0 <= i < |actions| ==> Untroubled(actions[i])
    ensures Fair(states[k])
  {
    if k > 0 {
      FairAlongRun(states, actions, k - 1);
      assert states[k - 1 + 1] == Next(states[k - 1], actions[k - 1]);
      FairKept(states[k - 1], actions[k - 1]);
    }
  }

  /** Losers give up instead of waiting, yet not everybody can lose: when all contenders of an
      untroubled run from an empty directory are gone, one of them has held the lock. */
  lemma SomebodyWins(states: seq<State>, actions: seq<Action>, k: nat)
    requires Run(states, actions) && k < |states| && states[0].lock == Absent
    requires forall i :: 0 <= i < |actions| ==> Untroubled(actions[i])
    requires states[k].phases.Keys != {}
    requires forall n :: n in states[k].phases ==> states[k].phases[n].Gone?
    ensures states[k].acquired != {}
  {
    FairAlongRun(states, actions, k);
    var s := states[k];
    var n :| n in s.phases;
    assert Honest(s, n);
    if s.issued.Keys != {} {
      var first := FirstTicket(s.issued, s.issued.Keys);
      assert Honest(s, first) && !Beaten(s, first);
    }
  }

  // ---------------------------------------------------------------- an uncontended call succeeds

  lemma Extend(states: seq<State>, actions: seq<Action>, a: Action) returns (states': seq<State>, actions': seq<Action>)
    requires Steps(states, actions) && Enabled(states[|actions|], a)
    ensures Steps(states', actions') && actions' == actions + [a]
    ensures states' == states + [Next(states[|actions|], a)]
  {
    states', actions' := states + [Next(states[|actions|], a)], actions + [a];
  }

  /** The claim directory a contender has just made is the one entry its choosing scan lists. */
  lemma UncontendedLists(s: State, n: Name, id: Identity) returns (states: seq<State>, actions: seq<Action>)
    requires s.dirs == {} && n !in s.phases && n !in s.who && n !in s.crashed && id.pid in s.running
    ensures Steps(states, actions) && states[0] == s
    ensures states[|actions|] == s.(dirs := {n}, who := s.who[n := id],
                                    phases := s.phases[n := Choosing(Scan({n}, Idle, []))])
  {
    states, actions := Extend([s], [], Enter(n, id));
    assert states[|actions|].dirs == {n};
    states, actions := Extend(states, actions, By(n, List));
  }

  /** Its own entry has no ticket yet, so the choosing scan reports a chooser: itself. */
  lemma UncontendedScans(s: State, n: Name, before: seq<State>, past: seq<Action>)
    returns (states: seq<State>, actions: seq<Action>)
    requires Steps(before, past) && before[|past|] == s
    requires At(s, n) && n in s.dirs && n !in s.tickets && s.who[n].pid in s.running
    requires s.phases[n] == Choosing(Scan({n}, Idle, []))
    ensures Steps(states, actions) && states[0] == before[0]
    ensures states[|actions|] == Goto(s, n, Choosing(Scan({}, Idle, [Claim(n, None)])))
  {
    states, actions := Extend(before, past, By(n, Probe(CheckPid(n))));
    states, actions := Extend(states, actions, By(n, Probe(ReadTicket)));
    assert {n} - {n} == {} && [] + [Claim(n, None)] == [Claim(n, None)];
    states, actions := Extend(states, actions, By(n, Probe(StatEntry)));
  }

  lemma UncontendedPublishes(s: State, n: Name, id: Identity) returns (states: seq<State>, actions: seq<Action>)
    requires s.dirs == {} && n !in s.phases && n !in s.who && n !in s.crashed && n !in s.tickets
    requires id.pid in s.running
    ensures Steps(states, actions) && states[0] == s
    ensures states[|actions|] == s.(dirs := {n}, who := s.who[n := id], phases := s.phases[n := Queued(1, Waiting)],
                                    tickets := s.tickets[n := 1], issued := s.issued[n := 1])
  {
    states, actions := UncontendedLists(s, n, id);
    states, actions := UncontendedScans(states[|actions|], n, states, actions);
    states, actions := Extend(states, actions, By(n, Publish));
  }

  lemma UncontendedIsElected(s: State, n: Name, before: seq<State>, past: seq<Action>)
    returns (states: seq<State>, actions: seq<Action>)
    requires Steps(before, past) && before[|past|] == s
    requires At(s, n) && s.dirs == {n} && s.who[n].pid in s.running
    requires s.phases[n] == Queued(1, Waiting) && n in s.tickets && s.tickets[n] == 1
    ensures Steps(states, actions) && states[0] == before[0]
    ensures states[|actions|] == Goto(s, n, Queued(1, Elected))
  {
    states, actions := Extend(before, past, By(n, List));
    states, actions := Extend(states, actions, By(n, Probe(CheckPid(n))));
    assert {n} - {n} == {} && [] + [Claim(n, Some(1))] == [Claim(n, Some(1))];
    states, actions := Extend(states, actions, By(n, Probe(ReadTicket)));
    assert states[|actions|].phases[n] == Queued(1, Watching(Scan({}, Idle, [Claim(n, Some(1))])));
    states, actions := Extend(states, actions, By(n, Judge));
  }

  /** With no claim in the directory and no live lock, a contender can take the lock with ticket 1. */
  lemma UncontendedAcquires(s: State, n: Name, id: Identity) returns (states: seq<State>, actions: seq<Action>)
    requires s.dirs == {} && n !in s.phases && n !in s.who && n !in s.crashed && n !in s.tickets
    requires id.pid in s.running
    requires s.lock.Absent? || (s.lock.Record? && s.lock.id.pid !in s.running)
    ensures Steps(states, actions) && states[0] == s
    ensures states[|actions|] ==
            s.(dirs := {n}, who := s.who[n := id], phases := s.phases[n := Queued(1, Holding)],
               tickets := s.tickets[n := 1], issued := s.issued[n := 1],
               lock := Record(id), writer := Some(n), acquired := s.acquired + {n})
  {
    states, actions := UncontendedPublishes(s, n, id);
    states, actions := UncontendedIsElected(states[|actions|], n, states, actions);
    states, actions := Extend(states, actions, By(n, ReadLock));
    states, actions := Extend(states, actions, By(n, WriteLock));
  }

  /** A release that meets no fault deletes the record, the ticket and the claim. */
  lemma ReleaseUndoesAcquire(s: State, n: Name) returns (states: seq<State>, actions: seq<Action>)
    requires At(s, n) && s.phases[n].Queued? && s.phases[n].stage.Holding? && s.lock == Record(s.who[n])
    ensures Steps(states, actions) && states[0] == s
    ensures var end := states[|actions|];
      end == s.(lock := Absent, writer := None, dirs := s.dirs - {n}, tickets := s.tickets - {n},
                phases := s.phases[n := Gone])
  {
    states, actions := Extend([s], [], By(n, BeginRelease));
    states, actions := Extend(states, actions, By(n, RemoveLock));
    states, actions := Extend(states, actions, By(n, DropTicket));
    states, actions := Extend(states, actions, By(n, DropDir));
  }

  // ---------------------------------------------------------------- what an undisturbed scan decides

  /** A claim whose process exists. */
  predicate Counts(s: State, m: Name) { m in s.dirs && m in s.who && s.who[m].pid in s.running }

  function TicketOf(s: State, m: Name): Option<nat> { if m in s.tickets then Some(s.tickets[m]) else None }

  /** The claims whose process is gone. */
  function DeadClaims(s: State, names: set<Name>): set<Name> { set m | m in names && m in s.who && s.who[m].pid !in s.running }

  /** Of the entries it is through with, the scan has reported exactly those that count, with their tickets. */
  ghost predicate Reports(s: State, scan: Scan) {
    && (forall i :: 0 <= i < |scan.claims| ==>
         Counts(s, scan.claims[i].name) && scan.claims[i].ticket == TicketOf(s, scan.claims[i].name))
    && forall m :: Counts(s, m) && m !in scan.todo ==> exists i :: 0 <= i < |scan.claims| && scan.claims[i].name == m
  }

  ghost predicate Scanning(s: State, n: Name) {
    At(s, n) && HasScan(s.phases[n])
    && var scan := ScanOf(s.phases[n]);
      scan.probe.Idle? && scan.todo <= s.dirs <= s.who.Keys && Reports(s, scan)
  }

  /** All calls are the contender's own. */
  ghost predicate Solo(actions: seq<Action>, n: Name) { forall i :: 0 <= i < |actions| ==> actions[i].By? && actions[i].n == n }

  /** From `s` on, only the dead claims among `names` were removed, and the scan of `n` went on. */
  ghost predicate Swept(s: State, end: State, n: Name, names: set<Name>)
    requires n in s.phases && n in end.phases && HasScan(end.phases[n])
  {
    var dead := DeadClaims(s, names);
    end == Goto(s, n, WithScan(s.phases[n], ScanOf(end.phases[n]))).(dirs := s.dirs - dead, tickets := s.tickets - dead)
  }

  lemma ScanLive(s: State, n: Name, m: Name, before: seq<State>, past: seq<Action>) returns (states: seq<State>, actions: seq<Action>)
    requires Steps(before, past) && before[|past|] == s && Solo(past, n)
    requires Scanning(s, n) && m in ScanOf(s.phases[n]).todo && s.who[m].pid in s.running
    ensures Steps(states, actions) && states[0] == before[0] && Solo(actions, n)
    ensures var scan := ScanOf(s.phases[n]);
      states[|actions|] == Goto(s, n, WithScan(s.phases[n], Through(scan, m, [Claim(m, TicketOf(s, m))])))
  {
    hide Steps, Reports;
    states, actions := Extend(before, past, By(n, Probe(CheckPid(m))));
    states, actions := Extend(states, actions, By(n, Probe(ReadTicket)));
    if m !in s.tickets {
      states, actions := Extend(states, actions, By(n, Probe(StatEntry)));
    }
  }

  lemma ScanDead(s: State, n: Name, m: Name, before: seq<State>, past: seq<Action>) returns (states: seq<State>, actions: seq<Action>)
    requires Steps(before, past) && before[|past|] == s && Solo(past, n)
    requires Scanning(s, n) && m in ScanOf(s.phases[n]).todo && s.who[m].pid !in s.running
    ensures Steps(states, actions) && states[0] == before[0] && Solo(actions, n)
    ensures var scan := ScanOf(s.phases[n]);
      states[|actions|] == Goto(s, n, WithScan(s.phases[n], Through(scan, m, []))).(dirs := s.dirs - {m}, tickets := s.tickets - {m})
  {
    hide Steps, Reports;
    states, actions := Extend(before, past, By(n, Probe(CheckPid(m))));
    states, actions := Extend(states, actions, By(n, Probe(ReclaimTicket)));
    states, actions := Extend(states, actions, By(n, Probe(ReclaimDir)));
  }

  lemma ReportsOneMore(s: State, scan: Scan, m: Name)
    requires Reports(s, scan) && m in scan.todo && Counts(s, m)
    ensures Reports(s, Through(scan, m, [Claim(m, TicketOf(s, m))]))
  {
    var after := Through(scan, m, [Claim(m, TicketOf(s, m))]);
    assert forall i :: 0 <= i < |scan.claims| ==> after.claims[i] == scan.claims[i];
    assert after.claims[|scan.claims|] == Claim(m, TicketOf(s, m));
    forall k | Counts(s, k) && k !in after.todo
      ensures exists i :: 0 <= i < |after.claims| && after.claims[i].name == k
    {
      if k != m {
        var i :| 0 <= i < |scan.claims| && scan.claims[i].name == k;
        assert after.claims[i].name == k;
      } else {
        assert after.claims[|scan.claims|].name == k;
      }
    }
  }

  lemma ReportsWithoutDead(s: State, scan: Scan, m: Name, s': State)
    requires Reports(s, scan) && m in scan.todo && !Counts(s, m)
    requires s'.dirs == s.dirs - {m} && s'.tickets == s.tickets - {m} && s'.who == s.who && s'.running == s.running
    ensures Reports(s', Through(scan, m, []))
  {
    assert scan.claims + [] == scan.claims;
    assert forall k :: Counts(s', k) <==> Counts(s, k);
  }

  lemma ScanEntry(s: State, n: Name, m: Name, before: seq<State>, past: seq<Action>) returns (states: seq<State>, actions: seq<Action>)
    requires Steps(before, past) && before[|past|] == s && Solo(past, n)
    requires Scanning(s, n) && m in ScanOf(s.phases[n]).todo
    ensures Steps(states, actions) && states[0] == before[0] && Solo(actions, n)
    ensures Scanning(states[|actions|], n) && Swept(s, states[|actions|], n, {m})
    ensures ScanOf(states[|actions|].phases[n]).todo == ScanOf(s.phases[n]).todo - {m}
  {
    var scan := ScanOf(s.phases[n]);
    if s.who[m].pid in s.running {
      states, actions := ScanLive(s, n, m, before, past);
      ReportsOneMore(s, scan, m);
      assert Reports(states[|actions|], Through(scan, m, [Claim(m, TicketOf(s, m))])) by {
        assert forall k :: Counts(states[|actions|], k) <==> Counts(s, k);
      }
      assert DeadClaims(s, {m}) == {};
    } else {
      states, actions := ScanDead(s, n, m, before, past);
      ReportsWithoutDead(s, scan, m, states[|actions|]);
      assert DeadClaims(s, {m}) == {m};
    }
  }

  lemma SweptTwice(s: State, mid: State, end: State, n: Name, m: Name, names: set<Name>)
    requires n in s.phases && n in mid.phases && n in end.phases
    requires HasScan(s.phases[n]) && HasScan(mid.phases[n]) && HasScan(end.phases[n])
    requires m in names && Swept(s, mid, n, {m}) && Swept(mid, end, n, names - {m})
    ensures Swept(s, end, n, names)
  {
    assert DeadClaims(s, names) == DeadClaims(s, {m}) + DeadClaims(mid, names - {m});
  }

  lemma {:induction false} ScanRest(s: State, n: Name, before: seq<State>, past: seq<Action>)
    returns (states: seq<State>, actions: seq<Action>)
    requires Steps(before, past) && before[|past|] == s && Solo(past, n) && Scanning(s, n)
    ensures Steps(states, actions) && states[0] == before[0] && Solo(actions, n)
    ensures Scanning(states[|actions|], n) && ScanOf(states[|actions|].phases[n]).todo == {}
    ensures Swept(s, states[|actions|], n, ScanOf(s.phases[n]).todo)
    decreases |ScanOf(s.phases[n]).todo|
  {
    states, actions := before, past;
    var todo := ScanOf(s.phases[n]).todo;
    if todo != {} {
      var m :| m in todo;
      states, actions := ScanEntry(s, n, m, before, past);
      var mid := states[|actions|];
      states, actions := ScanRest(mid, n, states, actions);
      SweptTwice(s, mid, states[|actions|], n, m, todo);
    }
  }

  /** The claims that a scan leaves: those whose process exists. */
  function Cleaned(s: State): State {
    s.(dirs := s.dirs - DeadClaims(s, s.dirs), tickets := s.tickets - DeadClaims(s, s.dirs))
  }

  /** One undisturbed scan, from its `readdir` on. */
  lemma ScanAlone(s: State, n: Name) returns (states: seq<State>, actions: seq<Action>)
    requires Frame(s) && At(s, n) && (s.phases[n].Entered? || (s.phases[n].Queued? && s.phases[n].stage.Waiting?))
    ensures Steps(states, actions) && states[0] == s && Solo(actions, n)
    ensures var end := states[|actions|];
      && At(end, n) && HasScan(end.phases[n]) && ScanOf(end.phases[n]).todo == {} && Reports(s, ScanOf(end.phases[n]))
      && end == Goto(Cleaned(s), n, WithScan(s.phases[n], ScanOf(end.phases[n])))
  {
    states, actions := Extend([s], [], By(n, List));
    var listed := states[1];
    states, actions := ScanRest(listed, n, states, actions);
    var end := states[|actions|];
    assert DeadClaims(listed, s.dirs) == DeadClaims(s, s.dirs);
    assert forall k :: Counts(end, k) <==> Counts(s, k);
    assert forall k :: Counts(s, k) ==> TicketOf(end, k) == TicketOf(s, k);
  }

  /** Somebody whose process exists has a smaller ticket, or the same and a smaller name. */
  ghost predicate InFrontOf(s: State, n: Name, t: nat) {
    exists m :: m != n && Counts(s, m) && m in s.tickets
                && (s.tickets[m] < t || (s.tickets[m] == t && Less(m, n)))
  }

  /** Somebody else whose process exists has no ticket yet. */
  ghost predicate ChooserLeft(s: State, n: Name) { exists m :: m != n && Counts(s, m) && m !in s.tickets }

  lemma ReportDecides(s: State, scan: Scan, n: Name, t: nat)
    requires Reports(s, scan) && scan.todo == {}
    ensures Loses(scan.claims, n, t) <==> InFrontOf(s, n, t)
    ensures SeesChooser(scan.claims, n) <==> ChooserLeft(s, n)
  {
    if InFrontOf(s, n, t) {
      var m :| m != n && Counts(s, m) && m in s.tickets && (s.tickets[m] < t || (s.tickets[m] == t && Less(m, n)));
      var i :| 0 <= i < |scan.claims| && scan.claims[i].name == m;
    }
    if ChooserLeft(s, n) {
      var m :| m != n && Counts(s, m) && m !in s.tickets;
      var i :| 0 <= i < |scan.claims| && scan.claims[i].name == m;
    }
  }

  /** An undisturbed round of a waiting contender decides by what is in the directory: it gives up iff
      somebody is in front, waits iff nobody is but somebody is still choosing, and is elected otherwise; and
      it has removed exactly the claims whose process is gone. */
  lemma RoundDecides(s: State, n: Name) returns (states: seq<State>, actions: seq<Action>)
    requires Frame(s) && At(s, n) && s.phases[n].Queued? && s.phases[n].stage.Waiting?
    ensures Steps(states, actions) && states[0] == s && Solo(actions, n)
    ensures var t := s.phases[n].ticket;
      states[|actions|] == Goto(Cleaned(s), n,
        if InFrontOf(s, n, t) then Leaving else Queued(t, if ChooserLeft(s, n) then Waiting else Elected))
  {
    states, actions := ScanAlone(s, n);
    ReportDecides(s, ScanOf(states[|actions|].phases[n]), n, s.phases[n].ticket);
    states, actions := Extend(states, actions, By(n, Judge));
  }

  lemma {:induction false} MaxTicketFound(claims: seq<Claim>)
    ensures MaxTicket(claims) > 0 ==> exists i :: 0 <= i < |claims| && claims[i].ticket == Some(MaxTicket(claims))
  {
    if claims != [] {
      MaxTicketFound(claims[1..]);
      assert forall i :: 1 <= i < |claims| ==> claims[i] == claims[1..][i - 1];
    }
  }

  predicate IsGreatest(s: State, greatest: nat) {
    && (forall m :: m in s.dirs && Counts(s, m) && m in s.tickets ==> s.tickets[m] <= greatest)
    && (greatest > 0 ==> exists m :: m in s.dirs && Counts(s, m) && m in s.tickets && s.tickets[m] == greatest)
  }

  lemma ReportsGreatest(s: State, scan: Scan, greatest: nat)
    requires Reports(s, scan) && scan.todo == {} && IsGreatest(s, greatest)
    ensures MaxTicket(scan.claims) == greatest
  {
    MaxTicketFound(scan.claims);
    if greatest > 0 {
      var m :| m in s.dirs && Counts(s, m) && m in s.tickets && s.tickets[m] == greatest;
      var i :| 0 <= i < |scan.claims| && scan.claims[i].name == m;
    }
  }

  /** An undisturbed choosing scan publishes the ticket after the greatest one there is. */
  lemma ChoosesNext(s: State, n: Name, greatest: nat) returns (states: seq<State>, actions: seq<Action>)
    requires Frame(s) && At(s, n) && s.phases[n].Entered? && greatest < MAX_SAFE_INTEGER && IsGreatest(s, greatest)
    ensures Steps(states, actions) && states[0] == s && Solo(actions, n)
    ensures var t := greatest + 1;
      states[|actions|] == Goto(Cleaned(s), n, Queued(t, Waiting)).(tickets := Cleaned(s).tickets[n := t], issued := s.issued[n := t])
  {
    hide Frame, Reports, IsGreatest;
    states, actions := ScanAlone(s, n);
    ReportsGreatest(s, ScanOf(states[|actions|].phases[n]), greatest);
    states, actions := Extend(states, actions, By(n, Publish));
  }

  // ---------------------------------------------------------------- tickets have no gaps

  predicate ScansIssued(s: State, n: Name)
    requires n in s.phases
  {
    HasScan(s.phases[n]) ==> ScanTicketsIssued(s, ScanOf(s.phases[n]))
  }

  predicate ScanTicketsIssued(s: State, scan: Scan) {
    forall i :: 0 <= i < |scan.claims| && scan.claims[i].ticket.Some? ==> scan.claims[i].ticket.value in s.issued.Values
  }

  /** Every ticket ever issued is 1 or follows another. */
  predicate Gapless(s: State) {
    forall t :: t in s.issued.Values ==> t >= 1 && (t > 1 ==> t - 1 in s.issued.Values)
  }

  ghost predicate Issuing(s: State) {
    && Gapless(s)
    && s.tickets.Values <= s.issued.Values && s.issued.Keys <= s.phases.Keys
    && forall n :: n in s.phases ==>
         ScansIssued(s, n) && (s.phases[n].Entered? || s.phases[n].Choosing? ==> n !in s.issued)
  }

  lemma IssuedByProbe(s: State, scan: Scan, call: ProbeCall)
    requires ProbeReady(s, scan, call) && s.tickets.Values <= s.issued.Values && ScanTicketsIssued(s, scan)
    ensures ScanTicketsIssued(s, Examine(s, scan, call))
  {
    var after := Examine(s, scan, call);
    assert forall i :: 0 <= i < |scan.claims| ==> after.claims[i] == scan.claims[i];
    assert forall m :: m in s.tickets ==> s.tickets[m] in s.tickets.Values;
  }

  lemma IssuedGrows(issued: map<Name, nat>, n: Name, t: nat)
    requires n !in issued
    ensures issued[n := t].Values == issued.Values + {t}
  {
    forall x | x in issued.Values
      ensures x in issued[n := t].Values
    {
      var m :| m in issued && issued[m] == x;
      assert issued[n := t][m] == x;
    }
    assert issued[n := t][n] == t;
  }

  /** A published ticket follows one that was issued, or is the first. */
  lemma PublishFollows(s: State, n: Name)
    requires Issuing(s) && At(s, n) && Ready(s, n, Publish)
    ensures Gapless(Act(s, n, Publish)) && n !in s.issued
  {
    var claims := s.phases[n].scan.claims;
    assert ScansIssued(s, n);
    MaxTicketFound(claims);
    IssuedGrows(s.issued, n, 1 + MaxTicket(claims));
  }

  lemma IssuedNeverShrinks(s: State, a: Action)
    requires Issuing(s) && Enabled(s, a)
    ensures s.issued.Values <= Next(s, a).issued.Values
  {
    if a.By? && a.call.Publish? {
      PublishFollows(s, a.n);
      IssuedGrows(s.issued, a.n, Act(s, a.n, Publish).issued[a.n]);
    }
  }

  lemma IssuingByCaller(s: State, n: Name, call: Call)
    requires Issuing(s) && At(s, n) && Ready(s, n, call)
    ensures ScansIssued(Act(s, n, call), n)
  {
    IssuedNeverShrinks(s, By(n, call));
    assert ScansIssued(s, n);
    if call.Probe? {
      IssuedByProbe(s, ScanOf(s.phases[n]), call.call);
    }
  }

  lemma IssuingKept(s: State, a: Action)
    requires Issuing(s) && Enabled(s, a)
    ensures Issuing(Next(s, a))
  {
    var s' := Next(s, a);
    IssuedNeverShrinks(s, a);
    if a.By? && a.call.Publish? {
      PublishFollows(s, a.n);
    }
    forall x | x in s'.tickets.Values
      ensures x in s'.issued.Values
    {
      var m :| m in s'.tickets && s'.tickets[m] == x;
      assert m in s.tickets ==> s.tickets[m] in s.tickets.Values;
      assert m in s'.issued ==> s'.issued[m] in s'.issued.Values;
    }
    forall n | n in s'.phases
      ensures ScansIssued(s', n)
    {
      if a.By? && a.n == n {
        IssuingByCaller(s, n, a.call);
      } else {
        assert n in s.phases ==> ScansIssued(s, n);
      }
    }
  }

  /** In every run, with scans that are not atomic, crashes and reclamation, the tickets issued are exactly
      1, 2, ..., up to some number. */
  lemma {:induction false} TicketsHaveNoGaps(states: seq<State>, actions: seq<Action>, k: nat)
    requires Run(states, actions) && k < |states|
    ensures Issuing(states[k])
    ensures forall t, u :: t in states[k].issued.Values && 1 <= u <= t ==> u in states[k].issued.Values
  {
    if k > 0 {
      TicketsHaveNoGaps(states, actions, k - 1);
      assert states[k - 1 + 1] == Next(states[k - 1], actions[k - 1]);
      IssuingKept(states[k - 1], actions[k - 1]);
    }
    forall t, u | t in states[k].issued.Values && 1 <= u <= t
      ensures u in states[k].issued.Values
    {
      AllBelow(states[k], t, u);
    }
  }

  lemma {:induction false} AllBelow(s: State, t: nat, u: nat)
    requires Gapless(s) && t in s.issued.Values && 1 <= u <= t
    ensures u in s.issued.Values
    decreases t
  {
    if u < t {
      AllBelow(s, t - 1, u);
    }
  }

  // ---------------------------------------------------------------- one undisturbed scan

  function NamesOf(claims: seq<Claim>): set<Name> { set c | c in claims :: c.name }

  lemma NamesOfAppend(claims: seq<Claim>, c: Claim)
    ensures NamesOf(claims + [c]) == NamesOf(claims) + {c.name}
  {
    forall n | n in NamesOf(claims) + {c.name}
      ensures n in NamesOf(claims + [c])
    {
      if n == c.name {
        assert c in claims + [c];
      } else {
        var d :| d in claims && d.name == n;
        assert d in claims + [c];
      }
    }
  }

  /** No name twice, and each claim with the ticket its directory holds. */
  predicate TrueReport(claims: seq<Claim>, tickets: map<Name, int>) {
    && (forall i, j :: 0 <= i < j < |claims| ==> claims[i].name != claims[j].name)
    && forall c :: c in claims ==>
         if c.name in tickets then tickets[c.name] >= 0 && c.ticket == Some(tickets[c.name]) else c.ticket == None
  }

  /** The claims directory as `readRuntimeClaims` finds it; `pidOf` is the process id a well-formed
      name starts with, and names outside it are malformed. */
  class ClaimsDirectory {
    var dirs: set<Name>
    var tickets: map<Name, int>

    ghost predicate Reclaimable(n: Name, pidOf: map<Name, nat>, running: set<nat>) {
      n in pidOf && pidOf[n] !in running
    }

    predicate Readable(n: Name)
      reads this
    {
      n in tickets ==> 1 <= tickets[n] <= MAX_SAFE_INTEGER
    }

    /** Reports every claim of a live process with its ticket, deletes every other claim, and fails
        iff it meets a malformed name or a live claim with an unusable ticket. */
    method ReadRuntimeClaims(pidOf: map<Name, nat>, running: set<nat>) returns (claims: Option<seq<Claim>>)
      modifies this
      ensures claims.Some? ==>
        && dirs == (set n | n in old(dirs) && n in pidOf && pidOf[n] in running)
        && old(dirs) <= pidOf.Keys
        && NamesOf(claims.value) == dirs && TrueReport(claims.value, old(tickets))
      ensures claims.None? <==>
        exists n :: n in old(dirs) && (n !in pidOf || (pidOf[n] in running && !old(Readable(n))))
      ensures forall n :: n in old(dirs) && n !in dirs ==> Reclaimable(n, pidOf, running)
      ensures forall n :: n in old(tickets) && !Reclaimable(n, pidOf, running) ==>
        n in tickets && tickets[n] == old(tickets)[n]
    {
      var todo := dirs;
      var found: seq<Claim> := [];
      while todo != {}
        invariant todo <= old(dirs) && old(dirs) - todo <= pidOf.Keys
        invariant dirs == todo + (set n | n in old(dirs) - todo && n in pidOf && pidOf[n] in running)
        invariant NamesOf(found) == dirs - todo && TrueReport(found, old(tickets))
        invariant forall n :: n in dirs - todo ==> old(Readable(n))
        invariant tickets.Keys <= old(tickets).Keys
        invariant forall n :: n in old(tickets) && (n in todo || !Reclaimable(n, pidOf, running)) ==>
          n in tickets && tickets[n] == old(tickets)[n]
        decreases todo
      {
        var name :| name in todo;
        todo := todo - {name};
        if name !in pidOf {
          return None;
        }
        if pidOf[name] !in running {
          tickets := tickets - {name};
          dirs := dirs - {name};
        } else if name in tickets {
          if !(1 <= tickets[name] <= MAX_SAFE_INTEGER) {
            assert !old(Readable(name));
            return None;
          }
          NamesOfAppend(found, Claim(name, Some(tickets[name])));
          found := found + [Claim(name, Some(tickets[name]))];
        } else {
          NamesOfAppend(found, Claim(name, None));
          found := found + [Claim(name, None)];
        }
      }
      claims := Some(found);
    }
  }
}
