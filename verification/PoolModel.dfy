/**
 * The bounded preprocessing pool as a state machine: any number of request threads running
 * `PreprocessRunner.run`, closers running `close`, and the child processes, interleaved step by
 * step (docreader/preprocess.py, docreader/preprocess_worker.py). Channels are byte streams: sends
 * and receives move any positive number of bytes at a time.
 */
module PoolModel {
  import opened Basics
  import opened Framing

  datatype Response = Response(status: string, image: Text)

  /** The service returns the worker to the pool after this response. */
  predicate Reusable(r: Response) {
    r.status !in ["memory_limit", "failed"]
  }

  /** The child leaves its loop after this response. */
  predicate ChildStops(r: Response) {
    r.status in ["memory_limit", "failed"]
  }

  const READY: Text := [0x72, 0x65, 0x61, 0x64, 0x79]

  /** Pool size and the response codec. */
  datatype Env = Env(maxWorkers: nat, serialize: Response -> Text, parse: Text -> Option<Response>)

  /** Parsing gives back what was serialized. */
  ghost predicate Faithful(env: Env) {
    forall r :: env.parse(env.serialize(r)) == Some(r)
  }

  /** The bytes on the wire for a message; messages that do not fit are never sent. */
  function Framed(message: Text): Text {
    if Fits(message) then Frame(message) else []
  }

  // ---- State ----

  /** Where a child is in its main loop; `rest` is what it still has to write of a frame. */
  datatype Child =
    | Booting(rest: Text)
    | Polling
    | Reading(got: Text)
    | Sending(rest: Text, exits: bool)
    | Gone

  /**
   * A process ever started, with its two channel directions. `slot` is the pool slot it was
   * started for, `log` every image it processed with the response it computed.
   */
  datatype Proc = Proc(slot: nat, ready: bool, stopped: bool, exited: bool, child: Child,
                       toChild: Text, toParent: Text, log: seq<(Text, Response)>)

  /** An entry of the idle queue; the number only names the entry. */
  datatype Slot = Slot(id: nat, worker: Option<nat>)

  datatype Outcome =
    | Fallback(status: string)
    | FromChild(worker: nat, index: nat, response: Response)

  /** Where a thread that has acquired a slot is in `run`. */
  datatype Phase =
    | Took
    | Replacing
    | Forgetting
    | Starting
    | Spawning
    | AwaitReady(got: Text)
    | SendingImage(rest: Text, base: nat)
    | AwaitResponse(got: Text, base: nat)
    | Finishing(reusable: bool, outcome: Outcome)
    | Stopping(outcome: Outcome)
    | Removing(outcome: Outcome)
    | Returning(outcome: Outcome)
    | Putting(outcome: Outcome)

  datatype At =
    | Asked
    | Admitted
    | Holding(slot: Slot, phase: Phase)
    | Answered(outcome: Outcome)

  datatype CloseAt =
    | CloseCalled
    | Flagged
    | Sweeping(todo: set<nat>, failed: set<nat>)
    | Unlisting(worker: nat, todo: set<nat>, failed: set<nat>)
    | Swept(failed: set<nat>)

  datatype Thread =
    | Request(image: Text, at: At)
    | Closer(closeAt: CloseAt)

  /** `lost` and `dropped` name the slots given up for unreapable workers and after closing. */
  datatype State = State(idle: seq<Slot>, closed: bool, lock: Option<nat>, workers: set<nat>, procs: seq<Proc>,
                         threads: seq<Thread>, lost: set<nat>, dropped: set<nat>)

  ghost predicate Initial(env: Env, s: State) {
    && |s.idle| == env.maxWorkers && (forall i :: 0 <= i < |s.idle| ==> s.idle[i] == Slot(i, None))
    && !s.closed && s.lock == None && s.workers == {} && s.procs == [] && s.lost == {} && s.dropped == {}
    && (forall t :: 0 <= t < |s.threads| ==>
          s.threads[t] == Closer(CloseCalled) || (s.threads[t].Request? && s.threads[t].at == Asked))
  }

  // ---- Steps of a child ----

  datatype ChildStep =
    | WriteReady(n: nat)
    | Booted
    | Begin
    | Read(n: nat)
    | Compute(response: Response)
    | Respond(n: nat)
    | Responded
    | Leave
    | Exit

  /** Some bytes the receiver asks for next are there. */
  predicate CanTake(got: Text, available: Text, n: nat) {
    Receiving(got).NeedMore? && 1 <= n <= Receiving(got).count && n <= |available|
  }

  predicate ChildEnabled(p: Proc, step: ChildStep) {
    match step
    case WriteReady(n) => p.child.Booting? && 1 <= n <= |p.child.rest|
    case Booted => p.child == Booting([])
    case Begin => p.child == Polling && p.toChild != []
    case Read(n) => p.child.Reading? && CanTake(p.child.got, p.toChild, n)
    case Compute(_) => p.child.Reading? && Receiving(p.child.got).Complete?
    case Respond(n) => p.child.Sending? && 1 <= n <= |p.child.rest|
    case Responded => p.child.Sending? && p.child.rest == []
    case Leave => true
    case Exit => p.child == Gone
  }

  /** The child's main loop; it may leave it at any time: idle timeout, closed channel, error, kill. */
  function ChildNext(env: Env, p: Proc, step: ChildStep): Proc
    requires ChildEnabled(p, step)
  {
    match step
    case WriteReady(n) => p.(child := Booting(p.child.rest[n..]), toParent := p.toParent + p.child.rest[..n])
    case Booted => p.(child := Polling)
    case Begin => p.(child := Reading([]))
    case Read(n) => p.(child := Reading(p.child.got + p.toChild[..n]), toChild := p.toChild[n..])
    case Compute(r) =>
      var answer := if Fits(env.serialize(r)) then Sending(Frame(env.serialize(r)), ChildStops(r)) else Gone;
      p.(child := answer, log := p.log + [(Receiving(p.child.got).message, r)])
    case Respond(n) => p.(child := Sending(p.child.rest[n..], p.child.exits),
                          toParent := p.toParent + p.child.rest[..n])
    case Responded => p.(child := if p.child.exits then Gone else Polling)
    case Leave => p.(child := Gone)
    case Exit => p.(exited := true)
  }

  /** stop() returned: the process is dead and reaped and its connection closed. */
  function Stop(p: Proc): Proc {
    p.(stopped := true, exited := true, child := Gone)
  }

  // ---- Steps of a request thread with its worker ----

  datatype TalkStep =
    | LookAlive
    | TakeReady(n: nat)
    | ReadyDone
    | SendSome(n: nat)
    | SendDone
    | TakeResponse(n: nat)
    | ResponseDone
    | StopSucceeds

  /** What follows a transfer needs its last check to pass, so the pool is not closed then. */
  predicate TalkEnabled(closed: bool, phase: Phase, p: Proc, step: TalkStep) {
    match step
    case LookAlive => phase.Took?
    case TakeReady(n) => phase.AwaitReady? && CanTake(phase.got, p.toParent, n)
    case ReadyDone => phase.AwaitReady? && Receiving(phase.got).Complete? && !closed
    case SendSome(n) => phase.SendingImage? && 1 <= n <= |phase.rest|
    case SendDone => phase.SendingImage? && phase.rest == [] && !closed
    case TakeResponse(n) => phase.AwaitResponse? && CanTake(phase.got, p.toParent, n)
    case ResponseDone => phase.AwaitResponse? && Receiving(phase.got).Complete? && !closed
    case StopSucceeds => phase.Replacing? || phase.Stopping?
  }

  function TalkPhase(env: Env, image: Text, w: nat, phase: Phase, p: Proc, step: TalkStep): Phase
    requires TalkEnabled(false, phase, p, step)
  {
    match step
    case LookAlive =>
      if p.exited then Replacing
      else if !p.ready then AwaitReady([])
      else SendingImage(Framed(image), |p.log|)
    case TakeReady(n) => AwaitReady(phase.got + p.toParent[..n])
    case ReadyDone =>
      if Receiving(phase.got).message == READY then SendingImage(Framed(image), |p.log|)
      else Finishing(false, Fallback("worker_failed"))
    case SendSome(n) => SendingImage(phase.rest[n..], phase.base)
    case SendDone => AwaitResponse([], phase.base)
    case TakeResponse(n) => AwaitResponse(phase.got + p.toParent[..n], phase.base)
    case ResponseDone =>
      (match env.parse(Receiving(phase.got).message)
       case None => Finishing(false, Fallback("worker_failed"))
       case Some(r) => Finishing(Reusable(r), FromChild(w, phase.base, r)))
    case StopSucceeds => if phase.Replacing? then Forgetting else Removing(phase.outcome)
  }

  function TalkProc(phase: Phase, p: Proc, step: TalkStep): Proc
    requires TalkEnabled(false, phase, p, step)
  {
    match step
    case LookAlive => p
    case TakeReady(n) => p.(toParent := p.toParent[n..])
    case ReadyDone => if Receiving(phase.got).message == READY then p.(ready := true) else p
    case SendSome(n) => p.(toChild := p.toChild + phase.rest[..n])
    case SendDone => p
    case TakeResponse(n) => p.(toParent := p.toParent[n..])
    case ResponseDone => p
    case StopSucceeds => Stop(p)
  }

  // ---- Steps of a request thread with the pool ----

  datatype RunStep =
    | Admit(allowed: bool)
    | Take
    | FindEmpty
    | LockToStart
    | Spawn(ok: bool)
    | GiveUp(status: string)
    | StopFails
    | Forget
    | Finish
    | Return
    | Put

  datatype CloseStep =
    | Flag
    | Snapshot
    | StopSwept(w: nat, ok: bool)
    | Unlist
    | CloseDone

  datatype Action =
    | Work(w: nat, child: ChildStep)
    | Talk(t: nat, talk: TalkStep)
    | Run(t: nat, run: RunStep)
    | Close(t: nat, close: CloseStep)

  predicate IsRequest(s: State, t: nat) {
    t < |s.threads| && s.threads[t].Request?
  }

  predicate Holds(s: State, t: nat) {
    IsRequest(s, t) && s.threads[t].at.Holding?
  }

  function SlotOf(s: State, t: nat): Slot
    requires Holds(s, t)
  {
    s.threads[t].at.slot
  }

  function PhaseOf(s: State, t: nat): Phase
    requires Holds(s, t)
  {
    s.threads[t].at.phase
  }

  /** The thread's slot holds worker w. */
  predicate HoldsWorker(s: State, t: nat, w: nat) {
    Holds(s, t) && SlotOf(s, t).worker == Some(w) && w < |s.procs|
  }

  predicate IsCloser(s: State, t: nat) {
    t < |s.threads| && s.threads[t].Closer?
  }

  predicate RunEnabled(env: Env, s: State, t: nat, step: RunStep) {
    match step
    case Admit(_) => IsRequest(s, t) && s.threads[t].at == Asked
    case Take => IsRequest(s, t) && s.threads[t].at == Admitted
    case FindEmpty => Holds(s, t) && PhaseOf(s, t) == Took && SlotOf(s, t).worker == None
    case LockToStart => Holds(s, t) && PhaseOf(s, t) == Starting && s.lock == None
    case Spawn(_) => Holds(s, t) && PhaseOf(s, t) == Spawning
    case GiveUp(_) =>
      && Holds(s, t)
      && (PhaseOf(s, t).Starting? || PhaseOf(s, t).AwaitReady? || PhaseOf(s, t).SendingImage?
          || PhaseOf(s, t).AwaitResponse?)
    case StopFails => Holds(s, t) && (PhaseOf(s, t).Replacing? || PhaseOf(s, t).Stopping?)
    case Forget =>
      && Holds(s, t) && (PhaseOf(s, t).Forgetting? || PhaseOf(s, t).Removing?)
      && s.lock == None && SlotOf(s, t).worker.Some?
    case Finish => Holds(s, t) && PhaseOf(s, t).Finishing?
    case Return => Holds(s, t) && PhaseOf(s, t).Returning?
    case Put => Holds(s, t) && PhaseOf(s, t).Putting? && |s.idle| < env.maxWorkers
  }

  predicate CloseEnabled(s: State, t: nat, step: CloseStep) {
    IsCloser(s, t) &&
    var at := s.threads[t].closeAt;
    match step
    case Flag => at == CloseCalled
    case Snapshot => at == Flagged && s.lock == None
    case StopSwept(w, _) => at.Sweeping? && w in at.todo && w < |s.procs|
    case Unlist => at.Unlisting? && s.lock == None
    case CloseDone => at.Sweeping? && at.todo == {}
  }

  predicate Enabled(env: Env, s: State, a: Action) {
    match a
    case Work(w, step) => w < |s.procs| && ChildEnabled(s.procs[w], step)
    case Talk(t, step) =>
      Holds(s, t) && SlotOf(s, t).worker.Some? && HoldsWorker(s, t, SlotOf(s, t).worker.value)
      && TalkEnabled(s.closed, PhaseOf(s, t), s.procs[SlotOf(s, t).worker.value], step)
    case Run(t, step) => RunEnabled(env, s, t, step)
    case Close(t, step) => CloseEnabled(s, t, step)
  }

  function SetAt(s: State, t: nat, at: At): State
    requires IsRequest(s, t)
  {
    s.(threads := s.threads[t := Request(s.threads[t].image, at)])
  }

  function SetPhase(s: State, t: nat, phase: Phase): State
    requires Holds(s, t)
  {
    SetAt(s, t, Holding(SlotOf(s, t), phase))
  }

  function SetProc(s: State, w: nat, p: Proc): State
    requires w < |s.procs|
  {
    s.(procs := s.procs[w := p])
  }

  function SetCloser(s: State, t: nat, at: CloseAt): State
    requires IsCloser(s, t)
  {
    s.(threads := s.threads[t := Closer(at)])
  }

  function NewProc(slot: nat): Proc {
    Proc(slot, false, false, false, Booting(Framed(READY)), [], [], [])
  }

  /** What a request answers once stopping its worker has failed. */
  function AfterStopFails(phase: Phase): Outcome {
    if phase.Stopping? then phase.outcome else Fallback("worker_failed")
  }

  function RunNext(env: Env, s: State, t: nat, step: RunStep): State
    requires RunEnabled(env, s, t, step)
  {
    match step
    case Admit(allowed) =>
      SetAt(s, t, if s.closed || !allowed then Answered(Fallback("cancelled"))
                  else if !Fits(s.threads[t].image) then Answered(Fallback("image_too_large"))
                  else Admitted)
    case Take =>
      if s.idle == [] then SetAt(s, t, Answered(Fallback("busy")))
      else SetAt(s, t, Holding(s.idle[|s.idle| - 1], Took)).(idle := s.idle[..|s.idle| - 1])
    case FindEmpty => SetPhase(s, t, Starting)
    case LockToStart =>
      if s.closed then SetPhase(s, t, Finishing(false, Fallback("cancelled")))
      else SetPhase(s, t, Spawning).(lock := Some(t))
    case Spawn(ok) =>
      if ok then
        var w, id := |s.procs|, SlotOf(s, t).id;
        SetAt(s, t, Holding(Slot(id, Some(w)), AwaitReady([])))
        .(lock := None, procs := s.procs + [NewProc(id)], workers := s.workers + {w})
      else SetPhase(s, t, Finishing(false, Fallback("worker_failed"))).(lock := None)
    case GiveUp(status) => SetPhase(s, t, Finishing(false, Fallback(status)))
    case StopFails =>
      SetAt(s, t, Answered(AfterStopFails(PhaseOf(s, t)))).(lost := s.lost + {SlotOf(s, t).id})
    case Forget =>
      var phase := if PhaseOf(s, t).Forgetting? then Starting else Returning(PhaseOf(s, t).outcome);
      SetAt(s, t, Holding(Slot(SlotOf(s, t).id, None), phase)).(workers := s.workers - {SlotOf(s, t).worker.value})
    case Finish =>
      var phase := PhaseOf(s, t);
      SetPhase(s, t, if (!phase.reusable || s.closed) && SlotOf(s, t).worker.Some? then Stopping(phase.outcome)
                     else Returning(phase.outcome))
    case Return =>
      if s.closed then SetAt(s, t, Answered(PhaseOf(s, t).outcome)).(dropped := s.dropped + {SlotOf(s, t).id})
      else SetPhase(s, t, Putting(PhaseOf(s, t).outcome))
    case Put => SetAt(s, t, Answered(PhaseOf(s, t).outcome)).(idle := s.idle + [SlotOf(s, t)])
  }

  function CloseNext(s: State, t: nat, step: CloseStep): State
    requires CloseEnabled(s, t, step)
  {
    var at := s.threads[t].closeAt;
    match step
    case Flag => SetCloser(s, t, Flagged).(closed := true)
    case Snapshot => SetCloser(s, t, Sweeping(s.workers, {}))
    case StopSwept(w, ok) =>
      if ok then SetProc(SetCloser(s, t, Unlisting(w, at.todo - {w}, at.failed)), w, Stop(s.procs[w]))
      else SetCloser(s, t, Sweeping(at.todo - {w}, at.failed + {w}))
    case Unlist => SetCloser(s, t, Sweeping(at.todo, at.failed)).(workers := s.workers - {at.worker})
    case CloseDone => SetCloser(s, t, Swept(at.failed))
  }

  function TalkNext(env: Env, s: State, t: nat, w: nat, step: TalkStep): State
    requires HoldsWorker(s, t, w) && TalkEnabled(false, PhaseOf(s, t), s.procs[w], step)
  {
    SetProc(SetPhase(s, t, TalkPhase(env, s.threads[t].image, w, PhaseOf(s, t), s.procs[w], step)),
            w, TalkProc(PhaseOf(s, t), s.procs[w], step))
  }

  /** The state after an enabled step. */
  function Apply(env: Env, s: State, a: Action): State
    requires Enabled(env, s, a)
  {
    match a
    case Work(w, step) => SetProc(s, w, ChildNext(env, s.procs[w], step))
    case Talk(t, step) => TalkNext(env, s, t, SlotOf(s, t).worker.value, step)
    case Run(t, step) => RunNext(env, s, t, step)
    case Close(t, step) => CloseNext(s, t, step)
  }

  // ---- Runs ----

  /** These steps lead from s to s', each enabled in its turn. */
  predicate Runs(env: Env, s: State, steps: seq<Action>, s': State)
    decreases |steps|
  {
    if steps == [] then s == s'
    else Enabled(env, s, steps[0]) && Runs(env, Apply(env, s, steps[0]), steps[1..], s')
  }

  /** s can be reached from an initial state. */
  ghost predicate Reachable(env: Env, s: State) {
    exists s0, steps :: Initial(env, s0) && Runs(env, s0, steps, s)
  }
}
