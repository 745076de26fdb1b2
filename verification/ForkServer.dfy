/** The fork server protocol: the fuzzer's run_target with its timer, the fork server
    in the target, and the child it forks, as a step system over all interleavings. */
module ForkServer {
  import opened Common

  /** Where the fuzzer stands in one call of run_target. */
  datatype FuzzerAt = Clear | Request | ReadPid | Arm | ReadStatus | Forget | Disarm | Examine

  /** Where the fork server stands in its loop; Gone is _exit or being killed. */
  datatype ServerAt = ReadRequest | Reap | Fork | WritePid | Wait | Relay | Gone

  datatype Life = Running | Stopped(reported: bool) | Zombie
  /** A child that is not reaped yet: whether it has called its loop function and the last
      call let it into the body, the function's counter, the bodies begun, and how often the
      counter has wrapped around. */
  datatype Child = Child(life: Life, entered: bool, inBody: bool, left: nat, bodies: nat, wraps: nat)

  datatype Message = Pid(pid: int) | Status(stopped: bool)

  /** The counter has 32 bits. */
  const WORD := 0x1_0000_0000

  datatype Config = Config(persistent: bool, maxCnt: nat)

  predicate ConfigOk(cfg: Config) { 0 < cfg.maxCnt < WORD }

  datatype State = State(
    // fuzzer
    fuzzer: FuzzerAt, childPid: int, timedOut: bool, prevTimedOut: bool, lastStopped: bool, armed: bool,
    // pipes
    ctl: seq<bool>, st: seq<Message>,
    // fork server
    server: ServerAt, wasKilled: bool, srvPid: int, childStopped: bool,
    // processes
    kids: map<int, Child>, used: set<int>)

  datatype Step =
    | FuzzerStep
    | Alarm
    | ServerStep
    | ServerFork(pid: int)
    | ChildEnter(pid: int)
    | ChildLoop(pid: int)
    | ChildExit(pid: int)

  function Init(): State {
    State(Clear, -1, false, false, false, false, [], [], ReadRequest, false, 0, false, map[], {})
  }

  function SetLife(kids: map<int, Child>, pid: int, life: Life): map<int, Child>
    requires pid in kids
  {
    kids[pid := kids[pid].(life := life)]
  }

  /** SIGKILL ends any child that is not dead yet, running or stopped. */
  function Kill(kids: map<int, Child>, pid: int): map<int, Child> {
    if pid in kids then SetLife(kids, pid, Zombie) else kids
  }

  /** The fuzzer's next step; None when it waits for a message. */
  function FuzzerNext(s: State): Option<State> {
    match s.fuzzer
    case Clear => Some(s.(timedOut := false, fuzzer := Request))
    case Request => Some(s.(ctl := s.ctl + [s.prevTimedOut], fuzzer := ReadPid))
    case ReadPid =>
      if s.st != [] && s.st[0].Pid? then Some(s.(childPid := s.st[0].pid, st := s.st[1..], fuzzer := Arm)) else None
    case Arm => Some(s.(armed := true, fuzzer := ReadStatus))
    case ReadStatus =>
      if s.st != [] && s.st[0].Status? then Some(s.(lastStopped := s.st[0].stopped, st := s.st[1..], fuzzer := Forget)) else None
    case Forget => Some(s.(childPid := if s.lastStopped then s.childPid else 0, fuzzer := Disarm))
    case Disarm => Some(s.(armed := false, fuzzer := Examine))
    case Examine => Some(s.(prevTimedOut := s.timedOut, fuzzer := Clear))
  }

  /** The timer goes off and its handler runs, at any point while it is armed. */
  function AlarmNext(s: State): Option<State> {
    if !s.armed then None
    else if s.childPid > 0 then Some(s.(armed := false, timedOut := true, kids := Kill(s.kids, s.childPid)))
    else if s.childPid == -1 then Some(s.(armed := false, timedOut := true, server := Gone))
    else Some(s.(armed := false))
  }

  /** The fork server's next step other than fork; None when it waits. */
  function ServerNext(cfg: Config, s: State): Option<State> {
    match s.server
    case ReadRequest =>
      if s.ctl != [] then Some(s.(wasKilled := s.ctl[0], ctl := s.ctl[1..], server := Reap)) else None
    case Reap =>
      if !(s.childStopped && s.wasKilled) then Some(s.(server := Fork))
      else if s.srvPid !in s.kids then Some(s.(childStopped := false, server := Gone))
      else if s.kids[s.srvPid].life.Zombie? then
        Some(s.(childStopped := false, kids := s.kids - {s.srvPid}, server := Fork))
      else None
    case Fork =>
      if !s.childStopped then None
      else Some(s.(childStopped := false, kids := Resume(s.kids, s.srvPid), server := WritePid))
    case WritePid => Some(s.(st := s.st + [Pid(s.srvPid)], server := Wait))
    case Wait =>
      if s.srvPid !in s.kids then Some(s.(server := Gone))
      else if s.kids[s.srvPid].life.Zombie? then Some(s.(kids := s.kids - {s.srvPid}, server := Relay))
      else if cfg.persistent && s.kids[s.srvPid].life == Stopped(false) then
        Some(s.(childStopped := true, kids := SetLife(s.kids, s.srvPid, Stopped(true)), server := Relay))
      else None
    case Relay => Some(s.(st := s.st + [Status(s.childStopped)], server := ReadRequest))
    case Gone => None
  }

  /** SIGCONT: a stopped child goes on with the next body of its loop; a dead one does not. */
  function Resume(kids: map<int, Child>, pid: int): map<int, Child> {
    if pid in kids && kids[pid].life.Stopped? then
      kids[pid := kids[pid].(life := Running, inBody := true, bodies := kids[pid].bodies + 1)]
    else kids
  }

  function ForkNext(s: State, pid: int): Option<State> {
    if s.server == Fork && !s.childStopped && pid > 0 && pid !in s.used then
      Some(s.(srvPid := pid, used := s.used + {pid}, kids := s.kids[pid := Child(Running, false, false, 0, 0, 0)], server := WritePid))
    else None
  }

  /** The child's own steps: the first call of the loop function, any later call, and exit.
      A later call counts down; it stops the child unless the counter comes out as zero.
      Nothing keeps a child from calling again after that, and the counter then wraps. */
  function ChildAfter(cfg: Config, c: Child, step: Step): Option<Child> {
    match step
    case ChildEnter(_) =>
      if c.entered then None else Some(c.(entered := true, inBody := true, left := cfg.maxCnt, bodies := 1))
    case ChildLoop(_) =>
      if !c.entered then None else Some(if cfg.persistent then CountDown(c) else c.(inBody := false))
    case ChildExit(_) => Some(c.(life := Zombie))
    case _ => None
  }

  function ChildNext(cfg: Config, s: State, pid: int, step: Step): Option<State> {
    if pid !in s.kids || !s.kids[pid].life.Running? then None
    else
      match ChildAfter(cfg, s.kids[pid], step)
      case Some(c) => Some(s.(kids := s.kids[pid := c]))
      case None => None
  }

  function CountDown(c: Child): Child {
    if c.left == 0 then c.(inBody := false, left := WORD - 1, wraps := c.wraps + 1, life := Stopped(false))
    else if c.left == 1 then c.(inBody := false, left := 0)
    else c.(inBody := false, left := c.left - 1, life := Stopped(false))
  }

  function Next(cfg: Config, s: State, step: Step): Option<State> {
    match step
    case FuzzerStep => FuzzerNext(s)
    case Alarm => AlarmNext(s)
    case ServerStep => ServerNext(cfg, s)
    case ServerFork(pid) => ForkNext(s, pid)
    case ChildEnter(pid) => ChildNext(cfg, s, pid, step)
    case ChildLoop(pid) => ChildNext(cfg, s, pid, step)
    case ChildExit(pid) => ChildNext(cfg, s, pid, step)
  }

  // ----- the invariant

  /** Between runs there is at most the stopped child, which only the timer may have killed. */
  ghost predicate AtRest(s: State, killed: bool) {
    if s.childStopped then
      && s.kids.Keys == {s.srvPid}
      && s.kids[s.srvPid].life == (if killed then Zombie else Stopped(true))
    else s.kids == map[]
  }

  ghost predicate OneKid(s: State) { s.kids.Keys == {s.srvPid} && !s.childStopped }

  /** A persistent child's bodies and its counter add up to what it was allowed, and to one
      round of the counter more each time it wrapped. */
  ghost predicate LoopOk(cfg: Config, c: Child) {
    && (!c.entered ==> c.bodies == 0 && c.wraps == 0 && !c.inBody)
    && (c.life.Stopped? ==> cfg.persistent && c.entered && !c.inBody && c.left > 0)
    && (c.inBody ==> c.left > 0)
    && (c.entered && cfg.persistent ==>
          c.left < WORD && c.bodies + c.left == cfg.maxCnt + c.wraps * (WORD - 1) + (if c.inBody then 1 else 0))
    && (c.entered && cfg.persistent && !c.inBody && c.left > 0 ==> !c.life.Running?)
    && (!cfg.persistent ==> c.bodies <= 1 && c.wraps == 0)
  }

  /** What holds of the pipes, the child and the timer at each pair of places. */
  ghost predicate Inv(cfg: Config, s: State) {
    && s.srvPid in s.used + {0} && (forall p :: p in s.used ==> p > 0)
    && (forall p :: p in s.kids ==> p in s.used && LoopOk(cfg, s.kids[p]))
    && (match s.fuzzer
        case Clear => Quiet(s) && !s.armed && AtRest(s, s.prevTimedOut) && Remembered(s)
        case Request => Quiet(s) && !s.armed && !s.timedOut && AtRest(s, s.prevTimedOut) && Remembered(s)
        case ReadPid => !s.armed && !s.timedOut && Serving(s)
        case Arm => s.childPid == s.srvPid > 0 && !s.armed && !s.timedOut && Finishing(s, false)
        case ReadStatus => s.childPid == s.srvPid > 0 && (s.armed || s.timedOut) && Finishing(s, s.timedOut)
        case Forget => Quiet(s) && s.childPid == s.srvPid > 0 && s.lastStopped == s.childStopped && AtRest(s, s.timedOut)
        case Disarm => Quiet(s) && AtRest(s, s.timedOut) && Remembered(s) && s.childPid >= 0
        case Examine => Quiet(s) && !s.armed && AtRest(s, s.timedOut) && Remembered(s))
  }

  /** Both pipes are empty and the server waits for a request. */
  ghost predicate Quiet(s: State) { s.ctl == [] && s.st == [] && s.server == ReadRequest }

  /** The fuzzer remembers a pid exactly while there is a stopped child. */
  ghost predicate Remembered(s: State) {
    if s.childStopped then s.childPid == s.srvPid > 0 else s.childPid <= 0
  }

  /** The request is on its way or being served; the fuzzer waits for the pid. */
  ghost predicate Serving(s: State) {
    match s.server
    case ReadRequest => (|s.ctl| == 1 && s.st == [] && AtRest(s, s.ctl[0]))
                        || (s.ctl == [] && s.srvPid > 0 && s.st == [Pid(s.srvPid), Status(s.childStopped)] && AtRest(s, false))
    case Reap => s.ctl == [] && s.st == [] && AtRest(s, s.wasKilled)
    case Fork => s.ctl == [] && s.st == [] && AtRest(s, false)
    case WritePid => s.ctl == [] && s.st == [] && s.srvPid > 0 && OneKid(s)
    case Wait => s.ctl == [] && s.st == [Pid(s.srvPid)] && s.srvPid > 0 && OneKid(s)
    case Relay => s.ctl == [] && s.st == [Pid(s.srvPid)] && s.srvPid > 0 && AtRest(s, false)
    case Gone => false
  }

  /** The fuzzer has the pid; the child runs, or its status is on its way. */
  ghost predicate Finishing(s: State, killed: bool) {
    match s.server
    case Wait => s.ctl == [] && s.st == [] && OneKid(s) && (killed ==> s.kids[s.srvPid].life.Zombie?)
    case Relay => s.ctl == [] && s.st == [] && AtRest(s, killed)
    case ReadRequest => s.ctl == [] && s.st == [Status(s.childStopped)] && AtRest(s, killed)
    case _ => false
  }

  lemma InitInv(cfg: Config)
    ensures Inv(cfg, Init())
  {
  }

  lemma SendsKeepInv(cfg: Config, s: State)
    requires Inv(cfg, s) && FuzzerNext(s).Some? && s.fuzzer in {Clear, Request, Arm, Forget, Disarm, Examine}
    ensures Inv(cfg, FuzzerNext(s).value)
  {
  }

  lemma ReadsKeepInv(cfg: Config, s: State)
    requires Inv(cfg, s) && FuzzerNext(s).Some? && s.fuzzer in {ReadPid, ReadStatus}
    ensures Inv(cfg, FuzzerNext(s).value)
  {
  }

  lemma FuzzerKeepsInv(cfg: Config, s: State)
    requires Inv(cfg, s) && FuzzerNext(s).Some?
    ensures Inv(cfg, FuzzerNext(s).value)
  {
    if s.fuzzer in {ReadPid, ReadStatus} { ReadsKeepInv(cfg, s); } else { SendsKeepInv(cfg, s); }
  }

  lemma AlarmKeepsInv(cfg: Config, s: State)
    requires Inv(cfg, s) && AlarmNext(s).Some?
    ensures Inv(cfg, AlarmNext(s).value)
  {
  }

  lemma RequestsKeepInv(cfg: Config, s: State)
    requires ConfigOk(cfg) && Inv(cfg, s) && ServerNext(cfg, s).Some? && s.server in {ReadRequest, Reap, Fork}
    ensures Inv(cfg, ServerNext(cfg, s).value)
  {
  }

  lemma RepliesKeepInv(cfg: Config, s: State)
    requires ConfigOk(cfg) && Inv(cfg, s) && ServerNext(cfg, s).Some? && s.server in {WritePid, Wait, Relay, Gone}
    ensures Inv(cfg, ServerNext(cfg, s).value)
  {
  }

  lemma ServerKeepsInv(cfg: Config, s: State)
    requires ConfigOk(cfg) && Inv(cfg, s) && ServerNext(cfg, s).Some?
    ensures Inv(cfg, ServerNext(cfg, s).value)
  {
    if s.server in {ReadRequest, Reap, Fork} { RequestsKeepInv(cfg, s); } else { RepliesKeepInv(cfg, s); }
  }

  lemma ForkKeepsInv(cfg: Config, s: State, pid: int)
    requires Inv(cfg, s) && ForkNext(s, pid).Some?
    ensures Inv(cfg, ForkNext(s, pid).value)
  {
  }

  /** What a running child does to itself. */
  ghost predicate Changes(cfg: Config, c: Child, d: Child) {
    c.life.Running? && LoopOk(cfg, d) && d.life != Stopped(true)
  }

  lemma ChildChangeKeepsInv(cfg: Config, s: State, pid: int, d: Child)
    requires Inv(cfg, s) && pid in s.kids && Changes(cfg, s.kids[pid], d)
    ensures Inv(cfg, s.(kids := s.kids[pid := d]))
  {
    assert s.kids[pid := d].Keys == s.kids.Keys;
  }

  lemma ChildStepOk(cfg: Config, c: Child, step: Step)
    requires ConfigOk(cfg) && LoopOk(cfg, c) && c.life.Running? && ChildAfter(cfg, c, step).Some?
    ensures Changes(cfg, c, ChildAfter(cfg, c, step).value)
  {
  }

  lemma ChildKeepsInv(cfg: Config, s: State, pid: int, step: Step)
    requires ConfigOk(cfg) && Inv(cfg, s) && ChildNext(cfg, s, pid, step).Some?
    ensures Inv(cfg, ChildNext(cfg, s, pid, step).value)
  {
    ChildStepOk(cfg, s.kids[pid], step);
    ChildChangeKeepsInv(cfg, s, pid, ChildAfter(cfg, s.kids[pid], step).value);
  }

  // ----- runs

  ghost predicate IsRun(cfg: Config, run: seq<State>) {
    && |run| > 0 && run[0] == Init()
    && forall i :: 0 <= i < |run| - 1 ==> CanStep(cfg, run[i], run[i + 1])
  }

  ghost predicate CanStep(cfg: Config, s: State, t: State) {
    exists step :: Next(cfg, s, step) == Some(t)
  }

  lemma NextKeepsInv(cfg: Config, s: State, step: Step)
    requires ConfigOk(cfg) && Inv(cfg, s) && Next(cfg, s, step).Some?
    ensures Inv(cfg, Next(cfg, s, step).value)
  {
    match step
    case FuzzerStep => FuzzerKeepsInv(cfg, s);
    case Alarm => AlarmKeepsInv(cfg, s);
    case ServerStep => ServerKeepsInv(cfg, s);
    case ServerFork(pid) => ForkKeepsInv(cfg, s, pid);
    case ChildEnter(pid) => ChildKeepsInv(cfg, s, pid, step);
    case ChildLoop(pid) => ChildKeepsInv(cfg, s, pid, step);
    case ChildExit(pid) => ChildKeepsInv(cfg, s, pid, step);
  }

  lemma {:induction false} RunsKeepInv(cfg: Config, run: seq<State>, i: nat)
    requires ConfigOk(cfg) && IsRun(cfg, run) && i < |run|
    ensures Inv(cfg, run[i])
  {
    if i == 0 {
      InitInv(cfg);
    } else {
      RunsKeepInv(cfg, run, i - 1);
      assert CanStep(cfg, run[i - 1], run[i - 1 + 1]);
      var step :| Next(cfg, run[i - 1], step) == Some(run[i]);
      NextKeepsInv(cfg, run[i - 1], step);
    }
  }

  ghost predicate ChildRunning(s: State) {
    exists p :: p in s.kids && s.kids[p].life.Running?
  }

  /** At every point of every run, under every interleaving with the timer: */
  ghost predicate Safe(cfg: Config, s: State) {
    // no two children at once, not even a dead one that is not reaped
    && (forall p, q :: p in s.kids && q in s.kids ==> p == q)
    // no child runs while the fuzzer clears or reads the bitmap
    && (s.fuzzer in {Clear, Request, Forget, Disarm, Examine} ==> !ChildRunning(s))
    // SIGCONT goes to a stopped child, never to a killed one
    && (s.server == Fork && s.childStopped ==> s.srvPid in s.kids && s.kids[s.srvPid].life.Stopped?)
    // before a fork every child, and so a killed stopped one, has been reaped
    && (s.server == Fork && !s.childStopped ==> s.kids == map[])
    // the server never fails to find its child, and the timer never hits the server
    && s.server != Gone && (s.armed ==> s.childPid != -1)
    // the two sides never wait for each other
    && !(s.fuzzer in {ReadPid, ReadStatus} && s.st == [] && s.server == ReadRequest && s.ctl == [])
    // a child that has not called its loop again after the end runs its body at most maxCnt times
    && (forall p :: p in s.kids && s.kids[p].wraps == 0 ==> s.kids[p].bodies <= cfg.maxCnt)
  }

  lemma InvIsSafe(cfg: Config, s: State)
    requires ConfigOk(cfg) && Inv(cfg, s)
    ensures Safe(cfg, s)
  {
    assert s.kids.Keys <= {s.srvPid};
  }

  lemma AllRunsSafe(cfg: Config, run: seq<State>, i: nat)
    requires ConfigOk(cfg) && IsRun(cfg, run) && i < |run|
    ensures Safe(cfg, run[i])
  {
    RunsKeepInv(cfg, run, i);
    InvIsSafe(cfg, run[i]);
  }

  // ----- the body bound, exactly

  /** The child calls its loop function although the last call has ended the loop. */
  ghost predicate CallsAgain(cfg: Config, s: State, step: Step) {
    && step.ChildLoop? && cfg.persistent && step.pid in s.kids
    && s.kids[step.pid].life.Running? && s.kids[step.pid].entered && !s.kids[step.pid].inBody
  }

  /** The counter wraps at such calls and at no other step. */
  lemma WrapsAtCallsAgain(cfg: Config, run: seq<State>, i: nat, step: Step, p: int)
    requires ConfigOk(cfg) && IsRun(cfg, run) && i < |run| && Next(cfg, run[i], step).Some?
    requires p in run[i].kids && p in Next(cfg, run[i], step).value.kids
    ensures Next(cfg, run[i], step).value.kids[p].wraps ==
              run[i].kids[p].wraps + (if CallsAgain(cfg, run[i], step) && step.pid == p then 1 else 0)
  {
    RunsKeepInv(cfg, run, i);
    if step.ChildLoop? && step.pid == p {
      assert LoopOk(cfg, run[i].kids[p]);
    } else {
      OthersKeepWraps(cfg, run[i], step, p);
    }
  }

  lemma OthersKeepWraps(cfg: Config, s: State, step: Step, p: int)
    requires Next(cfg, s, step).Some? && p in s.kids && p in Next(cfg, s, step).value.kids
    requires !(step.ChildLoop? && step.pid == p) && p in s.used
    ensures Next(cfg, s, step).value.kids[p].wraps == s.kids[p].wraps
  {
    hide ServerNext, AlarmNext;
    match step
    case FuzzerStep => assert FuzzerNext(s).value.kids == s.kids;
    case ServerStep => ServerKeepsWraps(cfg, s, p);
    case Alarm => AlarmKeepsWraps(s, p);
    case ServerFork(_) =>
    case _ => assert ChildNext(cfg, s, step.pid, step).Some?;
  }

  lemma AlarmKeepsWraps(s: State, p: int)
    requires AlarmNext(s).Some? && p in s.kids && p in AlarmNext(s).value.kids
    ensures AlarmNext(s).value.kids[p].wraps == s.kids[p].wraps
  {
    assert AlarmNext(s).value.kids == s.kids || AlarmNext(s).value.kids == Kill(s.kids, s.childPid);
  }

  lemma ServerKeepsWraps(cfg: Config, s: State, p: int)
    requires ServerNext(cfg, s).Some? && p in s.kids && p in ServerNext(cfg, s).value.kids
    ensures ServerNext(cfg, s).value.kids[p].wraps == s.kids[p].wraps
  {
    hide ServerNext;
    ServerKids(cfg, s);
  }

  /** All that the server does to its child: reap it, wake it up, or take note that it stopped. */
  ghost predicate Attended(s: State, kids: map<int, Child>) {
    || kids == s.kids || kids == s.kids - {s.srvPid} || kids == Resume(s.kids, s.srvPid)
    || (s.srvPid in s.kids && kids == SetLife(s.kids, s.srvPid, Stopped(true)))
  }

  lemma ServerKids(cfg: Config, s: State)
    requires ServerNext(cfg, s).Some?
    ensures Attended(s, ServerNext(cfg, s).value.kids)
  {
    match s.server
    case Reap => ReapKids(cfg, s);
    case Fork => assert ServerNext(cfg, s).value.kids == Resume(s.kids, s.srvPid);
    case Wait => WaitKids(cfg, s);
    case ReadRequest => assert ServerNext(cfg, s).value.kids == s.kids;
    case WritePid => assert ServerNext(cfg, s).value.kids == s.kids;
    case Relay => assert ServerNext(cfg, s).value.kids == s.kids;
    case Gone =>
  }

  lemma ReapKids(cfg: Config, s: State)
    requires ServerNext(cfg, s).Some? && s.server == Reap
    ensures Attended(s, ServerNext(cfg, s).value.kids)
  {
  }

  lemma WaitKids(cfg: Config, s: State)
    requires ServerNext(cfg, s).Some? && s.server == Wait
    ensures Attended(s, ServerNext(cfg, s).value.kids)
  {
    hide Resume;
    var kids := ServerNext(cfg, s).value.kids;
    if s.srvPid in s.kids && s.kids[s.srvPid].life.Zombie? {
      assert kids == s.kids - {s.srvPid};
    } else if s.srvPid in s.kids {
      assert kids == SetLife(s.kids, s.srvPid, Stopped(true));
    }
  }

  /** A running child has kept within maxCnt bodies exactly if it has made no such call. */
  lemma BodiesBoundedExactly(cfg: Config, run: seq<State>, i: nat, p: int)
    requires ConfigOk(cfg) && IsRun(cfg, run) && i < |run| && p in run[i].kids && run[i].kids[p].life.Running?
    ensures run[i].kids[p].bodies <= cfg.maxCnt <==> run[i].kids[p].wraps == 0
  {
    RunsKeepInv(cfg, run, i);
    assert LoopOk(cfg, run[i].kids[p]);
  }

  lemma Onward(cfg: Config, run: seq<State>, step: Step) returns (longer: seq<State>)
    requires IsRun(cfg, run) && Next(cfg, run[|run| - 1], step).Some?
    ensures IsRun(cfg, longer) && longer[|longer| - 1] == Next(cfg, run[|run| - 1], step).value
  {
    longer := run + [Next(cfg, run[|run| - 1], step).value];
    forall i | 0 <= i < |longer| - 1 ensures CanStep(cfg, longer[i], longer[i + 1]) {
      if i < |run| - 1 {
        assert CanStep(cfg, run[i], run[i + 1]);
      } else {
        assert Next(cfg, longer[i], step) == Some(longer[i + 1]);
      }
    }
  }

  /** The first call of run_target, in which the child runs its one body, is told that the
      loop is over, and calls the loop function again. */
  lemma FirstCall() returns (run: seq<State>)
    ensures IsRun(Config(true, 1), run)
    ensures run[|run| - 1] == State(Clear, 1, false, false, true, false, [], [], ReadRequest, false, 1, true,
                                    map[1 := Child(Stopped(true), true, false, 4294967295, 1, 1)], {1})
  {
    var cfg := Config(true, 1);
    run := [Init()];
    run := Onward(cfg, run, FuzzerStep);
    run := Onward(cfg, run, FuzzerStep);
    run := Onward(cfg, run, ServerStep);
    run := Onward(cfg, run, ServerStep);
    run := Onward(cfg, run, ServerFork(1));
    run := Onward(cfg, run, ChildEnter(1));
    run := Onward(cfg, run, ChildLoop(1));
    run := Onward(cfg, run, ChildLoop(1));
    assert run[|run| - 1] == State(ReadPid, -1, false, false, false, false, [], [], WritePid, false, 1, false,
                                   map[1 := Child(Stopped(false), true, false, WORD - 1, 1, 1)], {1});
    run := Onward(cfg, run, ServerStep);
    run := Onward(cfg, run, ServerStep);
    run := Onward(cfg, run, ServerStep);
    assert run[|run| - 1] == State(ReadPid, -1, false, false, false, false, [], [Pid(1), Status(true)], ReadRequest, false, 1, true,
                                   map[1 := Child(Stopped(true), true, false, 4294967295, 1, 1)], {1});
    run := Onward(cfg, run, FuzzerStep);
    run := Onward(cfg, run, FuzzerStep);
    run := Onward(cfg, run, FuzzerStep);
    run := Onward(cfg, run, FuzzerStep);
    run := Onward(cfg, run, FuzzerStep);
    run := Onward(cfg, run, FuzzerStep);
  }

  /** So a child that was allowed one body can run two. */
  lemma SecondBody() returns (run: seq<State>)
    ensures ConfigOk(Config(true, 1)) && IsRun(Config(true, 1), run) && 1 in run[|run| - 1].kids
    ensures run[|run| - 1].kids[1].bodies == 2 && run[|run| - 1].kids[1].life.Running?
  {
    var cfg := Config(true, 1);
    run := FirstCall();
    run := Onward(cfg, run, FuzzerStep);
    run := Onward(cfg, run, FuzzerStep);
    run := Onward(cfg, run, ServerStep);
    run := Onward(cfg, run, ServerStep);
    run := Onward(cfg, run, ServerStep);
  }

  // ----- progress

  /** Some step of the fuzzer or the server can be taken; or the fuzzer waits for the
      end of a child that is not dead, with the timer armed. */
  ghost predicate CanGoOn(cfg: Config, s: State) {
    || FuzzerNext(s).Some?
    || ServerNext(cfg, s).Some?
    || (s.server == Fork && !s.childStopped)
    || (s.fuzzer == ReadStatus && s.armed && s.server == Wait && s.srvPid in s.kids && s.childPid == s.srvPid)
  }

  lemma {:induction false} NeverStuck(cfg: Config, run: seq<State>, i: nat)
    requires ConfigOk(cfg) && IsRun(cfg, run) && i < |run|
    ensures CanGoOn(cfg, run[i])
    ensures AlarmNext(run[i]).Some? && run[i].fuzzer == ReadStatus && run[i].server == Wait ==>
              ServerNext(cfg, AlarmNext(run[i]).value).Some?
  {
    RunsKeepInv(cfg, run, i);
  }

  lemma FreshPid(s: State) returns (pid: int)
    requires s.server == Fork && !s.childStopped
    ensures ForkNext(s, pid).Some?
  {
    pid := Above(s.used);
  }

  lemma {:induction false} Above(used: set<int>) returns (pid: int)
    ensures pid > 0
    ensures forall p :: p in used ==> p < pid
    decreases used
  {
    if p :| p in used {
      var q := Above(used - {p});
      pid := if p < q then q else p + 1;
      forall r | r in used ensures r < pid {
        assert r == p || r in used - {p};
      }
    } else {
      pid := 1;
    }
  }

  /** How many steps the two sides and the timer have left in the present call of run_target. */
  function StepsLeft(s: State): nat {
    FuzzerLeft(s.fuzzer) + ServerLeft(s) + (if s.armed || s.fuzzer in {Clear, Request, ReadPid, Arm} then 1 else 0)
  }

  function FuzzerLeft(f: FuzzerAt): nat {
    match f
    case Clear => 7
    case Request => 6
    case ReadPid => 5
    case Arm => 4
    case ReadStatus => 3
    case Forget => 2
    case Disarm => 1
    case Examine => 0
  }

  function ServerLeft(s: State): nat {
    match s.server
    case ReadRequest => if s.fuzzer in {Clear, Request} || s.ctl != [] then 6 else 0
    case Reap => 5
    case Fork => 4
    case WritePid => 3
    case Wait => 2
    case Relay => 1
    case Gone => 0
  }

  ghost predicate IsChildStep(step: Step) { step.ChildEnter? || step.ChildLoop? || step.ChildExit? }

  /** Every step of the fuzzer, the server or the timer brings the call of run_target nearer
      to its end, and the child's steps do not put it off: a call takes at most 14 steps
      besides the child's own. */
  lemma CallsEnd(cfg: Config, run: seq<State>, i: nat, step: Step)
    requires ConfigOk(cfg) && IsRun(cfg, run) && i < |run| && Next(cfg, run[i], step).Some?
    ensures StepsLeft(run[i]) <= 14
    ensures var t := Next(cfg, run[i], step).value;
            if IsChildStep(step) then StepsLeft(t) == StepsLeft(run[i])
            else if run[i].fuzzer == Examine && step == FuzzerStep then t.fuzzer == Clear
            else StepsLeft(t) < StepsLeft(run[i])
  {
    RunsKeepInv(cfg, run, i);
    CallNearsEnd(cfg, run[i], step);
  }

  lemma CallNearsEnd(cfg: Config, s: State, step: Step)
    requires ConfigOk(cfg) && Inv(cfg, s) && Next(cfg, s, step).Some?
    ensures StepsLeft(s) <= 14
    ensures var t := Next(cfg, s, step).value;
            if IsChildStep(step) then StepsLeft(t) == StepsLeft(s)
            else if s.fuzzer == Examine && step == FuzzerStep then t.fuzzer == Clear
            else StepsLeft(t) < StepsLeft(s)
  {
    match step
    case FuzzerStep => FuzzerNearsEnd(cfg, s);
    case Alarm => AlarmNearsEnd(cfg, s);
    case ServerStep => ServerNearsEnd(cfg, s);
    case ServerFork(pid) => ForkNearsEnd(cfg, s, pid);
    case _ => ChildKeepsCall(cfg, s, step.pid, step);
    FewSteps(cfg, s);
  }

  lemma FewSteps(cfg: Config, s: State)
    requires Inv(cfg, s)
    ensures StepsLeft(s) <= 14
  {
  }

  lemma FuzzerNearsEnd(cfg: Config, s: State)
    requires Inv(cfg, s) && FuzzerNext(s).Some?
    ensures if s.fuzzer == Examine then FuzzerNext(s).value.fuzzer == Clear else StepsLeft(FuzzerNext(s).value) < StepsLeft(s)
  {
  }

  lemma AlarmNearsEnd(cfg: Config, s: State)
    requires Inv(cfg, s) && AlarmNext(s).Some?
    ensures StepsLeft(AlarmNext(s).value) < StepsLeft(s)
  {
  }

  lemma ForkNearsEnd(cfg: Config, s: State, pid: int)
    requires Inv(cfg, s) && ForkNext(s, pid).Some?
    ensures StepsLeft(ForkNext(s, pid).value) < StepsLeft(s)
  {
  }

  lemma ChildKeepsCall(cfg: Config, s: State, pid: int, step: Step)
    requires ChildNext(cfg, s, pid, step).Some?
    ensures StepsLeft(ChildNext(cfg, s, pid, step).value) == StepsLeft(s)
  {
  }

  lemma ServerNearsEnd(cfg: Config, s: State)
    requires Inv(cfg, s) && ServerNext(cfg, s).Some?
    ensures StepsLeft(ServerNext(cfg, s).value) < StepsLeft(s)
  {
    if s.server in {ReadRequest, Reap, Fork} { RequestNearsEnd(cfg, s); } else { ReplyNearsEnd(cfg, s); }
  }

  lemma RequestNearsEnd(cfg: Config, s: State)
    requires Inv(cfg, s) && ServerNext(cfg, s).Some? && s.server in {ReadRequest, Reap, Fork}
    ensures StepsLeft(ServerNext(cfg, s).value) < StepsLeft(s)
  {
  }

  lemma ReplyNearsEnd(cfg: Config, s: State)
    requires Inv(cfg, s) && ServerNext(cfg, s).Some? && s.server in {WritePid, Wait, Relay, Gone}
    ensures StepsLeft(ServerNext(cfg, s).value) < StepsLeft(s)
  {
  }
}
