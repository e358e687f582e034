/**
 The concurrent group fan-out: main spawns workers, hands batches over an unbuffered
 channel, closes it and waits; every worker makes its store calls one at a time. A schedule
 is a sequence of step labels, so a statement about all schedules covers every interleaving.
 Presence is read when a worker reaches a recipient, and may answer anything.
*/
module Fanout {
  import opened Recipients
  import opened Delivery

  const GROUP_WORKER_COUNT := 20
  const BATCH_SIZE := 64

  function WorkerCount(batches: nat): (n: nat)
    ensures 1 <= n <= 20
    ensures n < 20 ==> n == batches || (batches == 0 && n == 1)
    ensures n == 20 ==> batches >= 20
  {
    var workers := if batches < GROUP_WORKER_COUNT then batches else GROUP_WORKER_COUNT;
    if workers < 1 then 1 else workers
  }

  /** One call of groupFanout: its arguments and the store it starts from. */
  datatype Call = Call(recipients: seq<string>, message: Message, init: Store) {
    function Jobs(): seq<seq<string>> { Batches(recipients, BATCH_SIZE) }
    function Workers(): nat { WorkerCount(|Jobs()|) }
    predicate HasUser(b: nat, i: nat) { b < |Jobs()| && i < |Jobs()[b]| }
    function User(b: nat, i: nat): string requires HasUser(b, i) { Jobs()[b][i] }
  }

  datatype Pc = Checking | Acting(online: bool, done: nat)
  datatype Worker = Idle | Busy(job: nat, pos: nat, pc: Pc) | Exited
  datatype Main = Running | Waiting | Returned

  /** `observed` and `log` are histories: presence answers read, store calls made. */
  datatype State = State(
    main: Main, next: nat, closed: bool, wg: int, workers: seq<Worker>,
    store: Store, observed: map<string, bool>, log: seq<Op>)

  datatype Step =
    | Spawn                        // wg.Add(1); go worker()
    | Send(w: nat)                 // jobs <- b, received by worker w
    | Close                        // close(jobs)
    | Check(w: nat, online: bool)  // worker w reads presence
    | Act(w: nat)                  // worker w makes its next store call
    | Drain(w: nat)                // worker w has finished its batch
    | Exit(w: nat)                 // range over the closed channel ends; wg.Done()
    | Return                       // wg.Wait() returns

  function Start(c: Call): State {
    State(Running, 0, false, 0, [], c.init, map[], [])
  }

  // ---------------------------------------------------------------- the steps

  predicate AtUser(c: Call, s: State, w: nat) {
    w < |s.workers| && s.workers[w].Busy? && c.HasUser(s.workers[w].job, s.workers[w].pos)
  }

  function UserAt(c: Call, s: State, w: nat): string
    requires AtUser(c, s, w)
  {
    c.User(s.workers[w].job, s.workers[w].pos)
  }

  predicate Enabled(c: Call, s: State, step: Step) {
    match step
    case Spawn => s.main.Running? && |s.workers| < c.Workers()
    case Send(w) => s.main.Running? && |s.workers| == c.Workers() && s.next < |c.Jobs()|
                    && w < |s.workers| && s.workers[w].Idle?
    case Close => s.main.Running? && |s.workers| == c.Workers() && s.next == |c.Jobs()|
    case Check(w, _) => AtUser(c, s, w) && s.workers[w].pc.Checking?
    case Act(w) => AtUser(c, s, w) && s.workers[w].pc.Acting?
                   && s.workers[w].pc.done < |DeliverOps(c.message, UserAt(c, s, w), s.workers[w].pc.online)|
    case Drain(w) => w < |s.workers| && s.workers[w].Busy? && s.workers[w].pc.Checking?
                     && s.workers[w].job < |c.Jobs()| && s.workers[w].pos == |c.Jobs()[s.workers[w].job]|
    case Exit(w) => w < |s.workers| && s.workers[w].Idle? && s.closed
    case Return => s.main.Waiting? && s.wg == 0
  }

  function Do(c: Call, s: State, step: Step): State
    requires Enabled(c, s, step)
  {
    match step
    case Spawn => s.(wg := s.wg + 1, workers := s.workers + [Idle])
    case Send(w) => s.(next := s.next + 1, workers := s.workers[w := Busy(s.next, 0, Checking)])
    case Close => s.(closed := true, main := Waiting)
    case Check(w, online) =>
      s.(workers := s.workers[w := s.workers[w].(pc := Acting(online, 0))],
         observed := s.observed[UserAt(c, s, w) := online])
    case Act(w) =>
      var Busy(job, pos, Acting(online, done)) := s.workers[w];
      var ops := DeliverOps(c.message, UserAt(c, s, w), online);
      s.(store := Apply(s.store, ops[done]), log := s.log + [ops[done]],
         workers := s.workers[w := if done + 1 == |ops| then Busy(job, pos + 1, Checking)
                                   else Busy(job, pos, Acting(online, done + 1))])
    case Drain(w) => s.(workers := s.workers[w := Idle])
    case Exit(w) => s.(wg := s.wg - 1, workers := s.workers[w := Exited])
    case Return => s.(main := Returned)
  }

  predicate Valid(c: Call, steps: seq<Step>)
    decreases |steps|, 0
  {
    steps == [] ||
    (Valid(c, steps[..|steps| - 1]) && Enabled(c, Run(c, steps[..|steps| - 1]), steps[|steps| - 1]))
  }

  function Run(c: Call, steps: seq<Step>): State
    requires Valid(c, steps)
    decreases |steps|, 1
  {
    if steps == [] then Start(c)
    else Do(c, Run(c, steps[..|steps| - 1]), steps[|steps| - 1])
  }

  // ---------------------------------------------------------------- the invariant

  function Alive(workers: seq<Worker>): (n: nat)
    ensures n == 0 <==> forall w :: 0 <= w < |workers| ==> workers[w].Exited?
  {
    if workers == [] then 0
    else Alive(workers[..|workers| - 1]) + if workers[|workers| - 1].Exited? then 0 else 1
  }

  predicate GoodWorker(c: Call, s: State, w: nat)
    requires w < |s.workers|
  {
    match s.workers[w]
    case Idle => true
    case Exited => s.closed
    case Busy(job, pos, pc) =>
      && job < s.next && job < |c.Jobs()| && pos <= |c.Jobs()[job]|
      && (pc.Acting? ==>
            && pos < |c.Jobs()[job]|
            && pc.done < |DeliverOps(c.message, c.User(job, pos), pc.online)|
            && c.User(job, pos) in s.observed && s.observed[c.User(job, pos)] == pc.online)
  }

  ghost predicate Shape(c: Call, s: State) {
    && s.next <= |c.Jobs()| && |s.workers| <= c.Workers()
    && (s.next > 0 ==> |s.workers| == c.Workers())
    && (if s.main.Running? then !s.closed else s.closed && s.next == |c.Jobs()| && |s.workers| == c.Workers())
    && s.wg == Alive(s.workers)
    && (s.main.Returned? ==> s.wg == 0)
    && (forall w :: 0 <= w < |s.workers| ==> GoodWorker(c, s, w))
    && (forall v, w :: 0 <= v < w < |s.workers| && s.workers[v].Busy? && s.workers[w].Busy?
                       ==> s.workers[v].job != s.workers[w].job)
    && (forall u :: u in s.observed ==> u in c.recipients)
  }

  predicate Untouched(s: State, user: string) {
    user !in s.observed && Project(s.log, user) == []
  }

  predicate Handled(c: Call, s: State, user: string) {
    user in s.observed && Project(s.log, user) == DeliverOps(c.message, user, s.observed[user])
  }

  /** What worker w, which holds the batch of the i-th recipient, has done for that recipient. */
  predicate HeldProgress(c: Call, s: State, w: nat, i: nat)
    requires w < |s.workers| && s.workers[w].Busy? && GoodWorker(c, s, w) && c.HasUser(s.workers[w].job, i)
  {
    var Busy(job, pos, pc) := s.workers[w];
    var user := c.User(job, i);
    if i < pos then Handled(c, s, user)
    else if i == pos && pc.Acting? then
      Project(s.log, user) == DeliverOps(c.message, user, pc.online)[..pc.done]
    else Untouched(s, user)
  }

  predicate Held(s: State, b: nat) {
    exists w :: 0 <= w < |s.workers| && s.workers[w].Busy? && s.workers[w].job == b
  }

  /** Every recipient is unsent, in one worker's hands, or handled. */
  ghost predicate Progress(c: Call, s: State, b: nat, i: nat)
    requires Shape(c, s) && c.HasUser(b, i)
  {
    && (b >= s.next ==> Untouched(s, c.User(b, i)))
    && (forall w :: 0 <= w < |s.workers| && s.workers[w].Busy? && s.workers[w].job == b ==> HeldProgress(c, s, w, i))
    && (b < s.next && !Held(s, b) ==> Handled(c, s, c.User(b, i)))
  }

  ghost predicate Inv(c: Call, s: State) {
    && Shape(c, s)
    && (forall b: nat, i: nat :: c.HasUser(b, i) ==> Progress(c, s, b, i))
    && (forall u :: u !in c.recipients ==> Project(s.log, u) == [])
    && s.store == ApplyAll(c.init, s.log)
  }

  // ---------------------------------------------------------------- preservation

  lemma {:induction false} AliveUpdate(workers: seq<Worker>, w: nat, x: Worker)
    requires w < |workers|
    ensures Alive(workers[w := x]) ==
            Alive(workers) - (if workers[w].Exited? then 0 else 1) + (if x.Exited? then 0 else 1)
  {
    var n := |workers| - 1;
    if w < n {
      AliveUpdate(workers[..n], w, x);
      assert workers[w := x][..n] == workers[..n][w := x];
    } else {
      assert workers[w := x][..n] == workers[..n];
    }
  }

  lemma JobUser(c: Call, b: nat, i: nat)
    requires c.HasUser(b, i)
    ensures c.User(b, i) in c.recipients
  {
    BatchesExact(c.recipients, BATCH_SIZE);
    InFlatten(c.Jobs(), b, i);
  }

  lemma AliveSpawn(workers: seq<Worker>)
    ensures Alive(workers + [Idle]) == Alive(workers) + 1
  {
    assert (workers + [Idle])[..|workers|] == workers;
  }

  /** Different positions hold different recipients. */
  lemma UsersDiffer(c: Call, b: nat, i: nat, b': nat, i': nat)
    requires NoDuplicates(c.recipients)
    requires c.HasUser(b, i) && c.HasUser(b', i') && (b != b' || i != i')
    ensures c.User(b, i) != c.User(b', i')
  {
    BatchesExact(c.recipients, BATCH_SIZE);
    if c.User(b, i) == c.User(b', i') {
      PartsDisjoint(c.Jobs(), b, i, b', i');
    }
  }

  lemma GoodWorkerStep(c: Call, s: State, step: Step, w: nat)
    requires NoDuplicates(c.recipients) && Shape(c, s) && Enabled(c, s, step)
    requires w < |Do(c, s, step).workers|
    ensures GoodWorker(c, Do(c, s, step), w)
  {
    hide Batches, Apply, WorkerCount, Alive, NoDuplicates;
    assert w < |s.workers| ==> GoodWorker(c, s, w);
    if step.Check? && step.w != w && s.workers[w].Busy? && s.workers[w].pc.Acting? {
      UsersDiffer(c, s.workers[step.w].job, s.workers[step.w].pos, s.workers[w].job, s.workers[w].pos);
    }
  }

  /** The wait-group counter follows the live workers. */
  lemma CounterStep(c: Call, s: State, step: Step)
    requires s.wg == Alive(s.workers) && Enabled(c, s, step)
    ensures Do(c, s, step).wg == Alive(Do(c, s, step).workers)
  {
    hide DeliverOps, Batches, Apply, Alive;
    var t := Do(c, s, step);
    match step {
      case Spawn => AliveSpawn(s.workers);
      case Send(w) => AliveUpdate(s.workers, w, t.workers[w]);
      case Check(w, _) => AliveUpdate(s.workers, w, t.workers[w]);
      case Act(w) => AliveUpdate(s.workers, w, t.workers[w]);
      case Drain(w) => AliveUpdate(s.workers, w, t.workers[w]);
      case Exit(w) => AliveUpdate(s.workers, w, t.workers[w]);
      case Close =>
      case Return =>
    }
  }

  lemma ShapeStep(c: Call, s: State, step: Step)
    requires NoDuplicates(c.recipients) && Shape(c, s) && Enabled(c, s, step)
    ensures Shape(c, Do(c, s, step))
  {
    hide DeliverOps, Batches, Apply, NoDuplicates, GoodWorker, WorkerCount;
    var t := Do(c, s, step);
    CounterStep(c, s, step);
    forall w | 0 <= w < |t.workers| ensures GoodWorker(c, t, w) { GoodWorkerStep(c, s, step, w); }
    WorkerJobs(c, s, step);
    if step.Check? { JobUser(c, s.workers[step.w].job, s.workers[step.w].pos); }
    if step.Exit? { assert !s.main.Running?; }
    if s.main.Returned? { AllExitedStays(c, s, step); }
  }

  lemma AllExitedStays(c: Call, s: State, step: Step)
    requires Shape(c, s) && s.main.Returned?
    ensures !Enabled(c, s, step)
  {
  }

  /** Jobs in hand stay pairwise different: the only new one was not sent before. */
  lemma WorkerJobs(c: Call, s: State, step: Step)
    requires Shape(c, s) && Enabled(c, s, step)
    ensures var ws := Do(c, s, step).workers;
            forall v, w :: 0 <= v < w < |ws| && ws[v].Busy? && ws[w].Busy? ==> ws[v].job != ws[w].job
  {
    hide DeliverOps, Batches, Apply, WorkerCount, Alive;
    var ws := Do(c, s, step).workers;
    forall v, w | 0 <= v < w < |ws| && ws[v].Busy? && ws[w].Busy? ensures ws[v].job != ws[w].job {
      assert v < |s.workers| ==> GoodWorker(c, s, v);
      assert w < |s.workers| ==> GoodWorker(c, s, w);
    }
  }

  /** A step at another recipient changes nothing known about this one. */
  lemma OtherUser(c: Call, s: State, step: Step, user: string)
    requires Enabled(c, s, step)
    requires step.Check? || step.Act? ==> UserAt(c, s, step.w) != user
    ensures var t := Do(c, s, step);
            && Project(t.log, user) == Project(s.log, user)
            && (user in t.observed <==> user in s.observed)
            && (user in s.observed ==> t.observed[user] == s.observed[user])
  {
    if step.Act? {
      var k := s.workers[step.w].pc;
      var ops := DeliverOps(c.message, UserAt(c, s, step.w), k.online);
      ProjectSnoc(s.log, ops[k.done], user);
    }
  }

  /** The acting worker's own recipient moves one call further, and ends up handled. */
  lemma OwnUser(c: Call, s: State, step: Step)
    requires Shape(c, s) && Enabled(c, s, step) && step.Act?
    requires HeldProgress(c, s, step.w, s.workers[step.w].pos)
    ensures var t := Do(c, s, step);
            var user, pc := UserAt(c, s, step.w), s.workers[step.w].pc;
            var ops := DeliverOps(c.message, user, pc.online);
            && user in t.observed && t.observed[user] == pc.online
            && Project(t.log, user) == ops[..pc.done + 1]
            && (t.workers[step.w].pc.Checking? ==> Handled(c, t, user))
  {
    hide Batches, WorkerCount, Alive;
    assert GoodWorker(c, s, step.w);
    var user, pc := UserAt(c, s, step.w), s.workers[step.w].pc;
    var ops := DeliverOps(c.message, user, pc.online);
    ProjectSnoc(s.log, ops[pc.done], user);
    assert ops[..pc.done] + [ops[pc.done]] == ops[..pc.done + 1];
    if pc.done + 1 == |ops| { assert ops[..pc.done + 1] == ops; }
  }

  lemma HeldByOther(c: Call, s: State, step: Step, w: nat, i: nat)
    requires NoDuplicates(c.recipients) && Shape(c, s) && Enabled(c, s, step)
    requires w < |s.workers| && s.workers[w].Busy? && Do(c, s, step).workers[w] == s.workers[w]
    requires GoodWorker(c, s, w) && c.HasUser(s.workers[w].job, i) && HeldProgress(c, s, w, i)
    requires GoodWorker(c, Do(c, s, step), w)
    ensures HeldProgress(c, Do(c, s, step), w, i)
  {
    hide Batches, WorkerCount, Alive, NoDuplicates, DeliverOps;
    var job := s.workers[w].job;
    if step.Check? || step.Act? {
      assert GoodWorker(c, s, step.w);
      UsersDiffer(c, job, i, s.workers[step.w].job, s.workers[step.w].pos);
    }
    OtherUser(c, s, step, c.User(job, i));
  }

  /** The worker that takes a Check or Act step keeps its batch's records straight. */
  lemma HeldByActor(c: Call, s: State, step: Step, i: nat)
    requires NoDuplicates(c.recipients) && Shape(c, s) && Enabled(c, s, step) && (step.Check? || step.Act?)
    requires Shape(c, Do(c, s, step))
    requires c.HasUser(s.workers[step.w].job, i)
    requires GoodWorker(c, s, step.w) && HeldProgress(c, s, step.w, i)
    requires GoodWorker(c, Do(c, s, step), step.w)
    ensures HeldProgress(c, Do(c, s, step), step.w, i)
  {
    hide Batches, WorkerCount, Alive, NoDuplicates, DeliverOps;
    var Busy(job, pos, pc) := s.workers[step.w];
    if i != pos {
      UsersDiffer(c, job, i, job, pos);
      OtherUser(c, s, step, c.User(job, i));
    } else if step.Act? {
      OwnUser(c, s, step);
    } else {
      assert Untouched(s, c.User(job, i));
      assert DeliverOps(c.message, c.User(job, i), step.online)[..0] == [];
    }
  }

  lemma HeldStep(c: Call, s: State, step: Step, w: nat, b: nat, i: nat)
    requires NoDuplicates(c.recipients) && Shape(c, s) && Enabled(c, s, step) && Shape(c, Do(c, s, step))
    requires c.HasUser(b, i) && Progress(c, s, b, i)
    requires w < |Do(c, s, step).workers|
    requires Do(c, s, step).workers[w].Busy? && Do(c, s, step).workers[w].job == b
    ensures GoodWorker(c, Do(c, s, step), w)
    ensures HeldProgress(c, Do(c, s, step), w, i)
  {
    hide Batches, WorkerCount, Alive, NoDuplicates, DeliverOps, GoodWorker;
    var t := Do(c, s, step);
    assert GoodWorker(c, t, w);
    if w < |s.workers| { assert GoodWorker(c, s, w); }
    if step.Send? && step.w == w {
      assert Untouched(s, c.User(b, i));
    } else if (step.Check? || step.Act?) && step.w == w {
      HeldByActor(c, s, step, i);
    } else {
      HeldByOther(c, s, step, w, i);
    }
  }

  lemma UnsentStep(c: Call, s: State, step: Step, b: nat, i: nat)
    requires NoDuplicates(c.recipients) && Shape(c, s) && Enabled(c, s, step)
    requires c.HasUser(b, i) && Progress(c, s, b, i) && b >= Do(c, s, step).next
    ensures Untouched(Do(c, s, step), c.User(b, i))
  {
    hide Batches, WorkerCount, Alive, NoDuplicates, DeliverOps;
    if step.Check? || step.Act? {
      assert GoodWorker(c, s, step.w);
      UsersDiffer(c, b, i, s.workers[step.w].job, s.workers[step.w].pos);
    }
    OtherUser(c, s, step, c.User(b, i));
  }

  lemma LetGoStep(c: Call, s: State, step: Step, b: nat, i: nat)
    requires NoDuplicates(c.recipients) && Shape(c, s) && Enabled(c, s, step)
    requires c.HasUser(b, i) && Progress(c, s, b, i)
    requires b < Do(c, s, step).next && !Held(Do(c, s, step), b)
    ensures Handled(c, Do(c, s, step), c.User(b, i))
  {
    hide Batches, WorkerCount, Alive, NoDuplicates, DeliverOps;
    var t := Do(c, s, step);
    if step.Send? { assert t.workers[step.w].job == s.next; }
    if Held(s, b) {
      var w :| 0 <= w < |s.workers| && s.workers[w].Busy? && s.workers[w].job == b;
      assert t.workers[w] == s.workers[w] ==> Held(t, b);
      assert step == Drain(w);
      assert HeldProgress(c, s, w, i);
    } else if step.Check? || step.Act? {
      assert t.workers[step.w].job == s.workers[step.w].job != b;
      UsersDiffer(c, b, i, s.workers[step.w].job, s.workers[step.w].pos);
    }
    OtherUser(c, s, step, c.User(b, i));
  }

  lemma InvStep(c: Call, s: State, step: Step)
    requires NoDuplicates(c.recipients) && Inv(c, s) && Enabled(c, s, step)
    ensures Inv(c, Do(c, s, step))
  {
    hide Batches, WorkerCount, Alive, NoDuplicates, DeliverOps, GoodWorker, HeldProgress, Shape;
    var t := Do(c, s, step);
    ShapeStep(c, s, step);
    forall b: nat, i: nat | c.HasUser(b, i) ensures Progress(c, t, b, i) {
      assert Progress(c, s, b, i);
      if b >= t.next { UnsentStep(c, s, step, b, i); }
      forall w | 0 <= w < |t.workers| && t.workers[w].Busy? && t.workers[w].job == b
        ensures GoodWorker(c, t, w) && HeldProgress(c, t, w, i)
      {
        HeldStep(c, s, step, w, b, i);
      }
      if b < t.next && !Held(t, b) { LetGoStep(c, s, step, b, i); }
    }
    forall u | u !in c.recipients ensures Project(t.log, u) == [] {
      if step.Check? || step.Act? { JobUser(c, s.workers[step.w].job, s.workers[step.w].pos); }
      OtherUser(c, s, step, u);
    }
    if step.Act? { assert t.log[..|t.log| - 1] == s.log; }
  }

  /** Every interleaving keeps the invariant. */
  lemma {:induction false} RunInvariant(c: Call, steps: seq<Step>)
    requires NoDuplicates(c.recipients) && Valid(c, steps)
    ensures Inv(c, Run(c, steps))
  {
    if steps == [] {
      forall b: nat, i: nat | c.HasUser(b, i) ensures Progress(c, Start(c), b, i) {}
    } else {
      RunInvariant(c, steps[..|steps| - 1]);
      InvStep(c, Run(c, steps[..|steps| - 1]), steps[|steps| - 1]);
    }
  }

  // ---------------------------------------------------------------- refinement

  function OnlineIn(observed: map<string, bool>): set<string> {
    set u | u in observed && observed[u]
  }

  lemma ReturnedMeansHandled(c: Call, s: State, user: string)
    requires NoDuplicates(c.recipients) && Inv(c, s) && s.main.Returned? && user in c.recipients
    ensures Handled(c, s, user)
  {
    hide Batches, NoDuplicates, WorkerCount, DeliverOps, GoodWorker, HeldProgress;
    BatchesExact(c.recipients, BATCH_SIZE);
    var b, i := FlattenMember(c.Jobs(), user);
    assert Progress(c, s, b, i);
    assert forall w :: 0 <= w < |s.workers| ==> s.workers[w].Exited?;
  }

  /**
   When wg.Wait returns, every offline list, publish log and status row is what the serial
   loop would have left, each recipient's presence having been read exactly once.
   */
  lemma FanoutRefinesSerial(c: Call, steps: seq<Step>)
    requires NoDuplicates(c.recipients) && Valid(c, steps) && Run(c, steps).main.Returned?
    ensures var end := Run(c, steps);
            && end.store == DeliverAll(c.init, c.recipients, c.message, OnlineIn(end.observed))
            && (forall u :: u in end.observed <==> u in c.recipients)
  {
    hide DeliverOps, Project, Batches, Shape, Progress, NoDuplicates;
    RunInvariant(c, steps);
    var end := Run(c, steps);
    var online := OnlineIn(end.observed);
    var serial := SerialOps(c.recipients, c.message, online);
    forall u ensures Project(end.log, u) == Project(serial, u) {
      SerialProjection(c.recipients, c.message, online, u);
      if u in c.recipients { ReturnedMeansHandled(c, end, u); }
    }
    forall u | u in c.recipients ensures u in end.observed { ReturnedMeansHandled(c, end, u); }
    ObservedAreRecipients(c, end);
    InterleavingIrrelevant(c.init, end.log, serial);
    SerialIsDeliverAll(c.init, c.recipients, c.message, online);
  }

  lemma ObservedAreRecipients(c: Call, s: State)
    requires Shape(c, s)
    ensures forall u :: u in s.observed ==> u in c.recipients
  {
  }

  /** A schedule whose presence reads all agree with one set of online users. */
  predicate Agrees(c: Call, steps: seq<Step>, online: set<string>)
    requires Valid(c, steps)
  {
    steps == [] ||
    var n := |steps| - 1;
    && Agrees(c, steps[..n], online)
    && (steps[n].Check? ==> (steps[n].online <==> UserAt(c, Run(c, steps[..n]), steps[n].w) in online))
  }

  lemma {:induction false} AgreesObserved(c: Call, steps: seq<Step>, online: set<string>)
    requires Valid(c, steps) && Agrees(c, steps, online)
    ensures var seen := Run(c, steps).observed;
            forall u :: u in seen ==> (seen[u] <==> u in online)
  {
    if steps != [] { AgreesObserved(c, steps[..|steps| - 1], online); }
  }

  /** With presence fixed for the fan-out, the result is the serial one and no schedule matters. */
  lemma FixedPresence(c: Call, steps: seq<Step>, online: set<string>)
    requires NoDuplicates(c.recipients) && Valid(c, steps) && Run(c, steps).main.Returned?
    requires Agrees(c, steps, online)
    ensures Run(c, steps).store == DeliverAll(c.init, c.recipients, c.message, online)
  {
    hide Valid, Run, Agrees, NoDuplicates, Batches, DeliverAll;
    FanoutRefinesSerial(c, steps);
    AgreesObserved(c, steps, online);
    DeliverAllPresence(c.init, c.recipients, c.message, OnlineIn(Run(c, steps).observed), online);
  }

  /** The fan-out hands over batches of 64, only the last of them possibly shorter. */
  lemma JobsExact(c: Call)
    ensures Flatten(c.Jobs()) == c.recipients
    ensures forall b :: 0 <= b < |c.Jobs()| ==> 1 <= |c.Jobs()[b]| <= 64
    ensures forall b :: 0 <= b < |c.Jobs()| - 1 ==> |c.Jobs()[b]| == 64
  {
    BatchesExact(c.recipients, BATCH_SIZE);
  }

  /** Some of the calls that deliver the message to the user, from the first on. */
  ghost predicate PartDelivered(c: Call, log: seq<Op>, user: string) {
    var m := c.message;
    var payload := Payload(m.id, m.sender, user, m.body, m.createdAt);
    || Project(log, user) == []
    || Project(log, user) == [Publish(user, payload)]
    || Project(log, user) == [Publish(user, payload), Upsert(user, m.id, Delivered)]
    || Project(log, user) == [Push(user, payload)]
  }

  lemma PrefixDelivered(c: Call, log: seq<Op>, user: string, online: bool, k: nat)
    requires k <= |DeliverOps(c.message, user, online)| && Project(log, user) == DeliverOps(c.message, user, online)[..k]
    ensures PartDelivered(c, log, user)
  {
    hide Project;
  }

  lemma HeldDelivered(c: Call, s: State, w: nat, i: nat)
    requires w < |s.workers| && s.workers[w].Busy? && GoodWorker(c, s, w) && c.HasUser(s.workers[w].job, i)
    requires HeldProgress(c, s, w, i)
    ensures PartDelivered(c, s.log, c.User(s.workers[w].job, i))
  {
    hide Project, Batches, PartDelivered, DeliverOps;
    var user, pc := c.User(s.workers[w].job, i), s.workers[w].pc;
    if i == s.workers[w].pos && pc.Acting? {
      PrefixDelivered(c, s.log, user, pc.online, pc.done);
    } else if i < s.workers[w].pos {
      HandledDelivered(c, s, user);
    } else {
      NothingDelivered(c, s.log, user);
    }
  }

  lemma HandledDelivered(c: Call, s: State, user: string)
    requires Handled(c, s, user)
    ensures PartDelivered(c, s.log, user)
  {
    var ops := DeliverOps(c.message, user, s.observed[user]);
    assert ops[..|ops|] == ops;
    PrefixDelivered(c, s.log, user, s.observed[user], |ops|);
  }

  lemma NothingDelivered(c: Call, log: seq<Op>, user: string)
    requires Project(log, user) == []
    ensures PartDelivered(c, log, user)
  {
    hide Project;
  }

  /**
   At every moment of every schedule, what has been done for a user is a beginning of one delivery
   of the message: a "delivered" row never comes before the publish, and nothing is done twice.
   */
  lemma NeverTwice(c: Call, steps: seq<Step>, user: string)
    requires NoDuplicates(c.recipients) && Valid(c, steps)
    ensures PartDelivered(c, Run(c, steps).log, user)
  {
    hide Valid, Run, Batches, NoDuplicates, WorkerCount, DeliverOps, PartDelivered, Project, GoodWorker, HeldProgress, Alive;
    RunInvariant(c, steps);
    var s := Run(c, steps);
    if user in c.recipients {
      BatchesExact(c.recipients, BATCH_SIZE);
      var b, i := FlattenMember(c.Jobs(), user);
      assert Progress(c, s, b, i);
      if w :| 0 <= w < |s.workers| && s.workers[w].Busy? && s.workers[w].job == b {
        HeldDelivered(c, s, w, i);
      } else if b < s.next {
        HandledDelivered(c, s, user);
      } else {
        NothingDelivered(c, s.log, user);
      }
    } else {
      NothingDelivered(c, s.log, user);
    }
  }

  // ---------------------------------------------------------------- no panic, no deadlock, termination

  /** No send on or second close of the closed channel, and the counter never goes negative. */
  lemma NoPanic(c: Call, steps: seq<Step>, step: Step)
    requires NoDuplicates(c.recipients) && Valid(c, steps) && Enabled(c, Run(c, steps), step)
    ensures step.Send? || step.Close? ==> !Run(c, steps).closed
    ensures step.Exit? ==> Run(c, steps).wg >= 1
  {
    hide Valid, Run, Batches, NoDuplicates, GoodWorker, DeliverOps, WorkerCount;
    RunInvariant(c, steps);
    if step.Exit? { assert Alive(Run(c, steps).workers) != 0; }
  }

  /** No worker waits for another: a busy one can make its next move, an idle one can be given a batch or be let go. */
  lemma WorkerMoves(c: Call, s: State, w: nat)
    requires Shape(c, s) && w < |s.workers|
    ensures s.workers[w].Busy? && s.workers[w].pc.Acting? ==> Enabled(c, s, Act(w))
    ensures s.workers[w].Busy? && s.workers[w].pc.Checking? ==>
              || Enabled(c, s, Drain(w))
              || (AtUser(c, s, w) && Enabled(c, s, Check(w, true)) && Enabled(c, s, Check(w, false)))
    ensures s.workers[w].Idle? && s.main.Running? && |s.workers| == c.Workers() && s.next < |c.Jobs()| ==> Enabled(c, s, Send(w))
    ensures s.workers[w].Idle? && s.closed ==> Enabled(c, s, Exit(w))
  {
    hide Batches, WorkerCount;
    assert GoodWorker(c, s, w);
  }

  /** Unless main has returned, somebody can move, whatever the presence reads answer. */
  lemma NeverStuck(c: Call, s: State, online: set<string>) returns (step: Step)
    requires Shape(c, s) && !s.main.Returned?
    ensures Enabled(c, s, step)
    ensures step.Check? ==> (step.online <==> UserAt(c, s, step.w) in online)
  {
    hide Batches, WorkerCount;
    if w :| 0 <= w < |s.workers| && s.workers[w].Busy? {
      assert GoodWorker(c, s, w);
      step := if s.workers[w].pc.Acting? then Act(w)
              else if s.workers[w].pos == |c.Jobs()[s.workers[w].job]| then Drain(w)
              else Check(w, UserAt(c, s, w) in online);
    } else if s.main.Running? {
      if |s.workers| < c.Workers() {
        step := Spawn;
      } else {
        WorkerCountPositive(c);
        assert GoodWorker(c, s, 0);
        step := if s.next < |c.Jobs()| then Send(0) else Close;
      }
    } else if w :| 0 <= w < |s.workers| && s.workers[w].Idle? {
      step := Exit(w);
    } else {
      step := Return;
    }
  }

  lemma WorkerCountPositive(c: Call)
    ensures c.Workers() >= 1
  {
  }

  /** A bound on the steps one worker still has to take for the batch in its hands. */
  function WorkerRank(c: Call, x: Worker): nat {
    match x
    case Exited => 0
    case Idle => 1
    case Busy(job, pos, pc) =>
      var left := if job < |c.Jobs()| && pos <= |c.Jobs()[job]| then |c.Jobs()[job]| - pos else 0;
      2 + if pc.Acting? && 3 * left > 1 + pc.done then 3 * left - 1 - pc.done else 3 * left
  }

  function WorkersRank(c: Call, workers: seq<Worker>): nat {
    if workers == [] then 0
    else WorkersRank(c, workers[..|workers| - 1]) + WorkerRank(c, workers[|workers| - 1])
  }

  function UnsentRank(jobs: seq<seq<string>>): nat {
    if jobs == [] then 0 else 3 * |jobs[0]| + 2 + UnsentRank(jobs[1..])
  }

  /** Unsent batches, unfinished recipients, live and unspawned workers, and main. */
  function Rank(c: Call, s: State): int {
    (match s.main case Running => 2 case Waiting => 1 case Returned => 0)
    + 2 * (c.Workers() - |s.workers|)
    + (if s.next <= |c.Jobs()| then UnsentRank(c.Jobs()[s.next..]) else 0)
    + WorkersRank(c, s.workers)
  }

  lemma {:induction false} WorkersRankUpdate(c: Call, workers: seq<Worker>, w: nat, x: Worker)
    requires w < |workers|
    ensures WorkersRank(c, workers[w := x]) == WorkersRank(c, workers) - WorkerRank(c, workers[w]) + WorkerRank(c, x)
  {
    hide WorkerRank;
    var n := |workers| - 1;
    if w < n {
      WorkersRankUpdate(c, workers[..n], w, x);
      assert workers[w := x][..n] == workers[..n][w := x];
    } else {
      assert workers[w := x][..n] == workers[..n];
    }
  }

  /** Every step brings the end strictly nearer. */
  lemma RankDecreases(c: Call, s: State, step: Step)
    requires Shape(c, s) && Enabled(c, s, step)
    ensures 0 <= Rank(c, Do(c, s, step)) < Rank(c, s)
  {
    hide Batches, WorkerCount, WorkersRank, Alive;
    var t := Do(c, s, step);
    match step {
      case Spawn => SpawnRank(c, s.workers);
      case Send(w) =>
        WorkersRankUpdate(c, s.workers, w, t.workers[w]);
        assert c.Jobs()[s.next..][1..] == c.Jobs()[t.next..];
      case Check(w, _) => WorkersRankUpdate(c, s.workers, w, t.workers[w]);
      case Act(w) => assert GoodWorker(c, s, w); WorkersRankUpdate(c, s.workers, w, t.workers[w]);
      case Drain(w) => WorkersRankUpdate(c, s.workers, w, t.workers[w]);
      case Exit(w) => WorkersRankUpdate(c, s.workers, w, t.workers[w]);
      case Close =>
      case Return =>
    }
  }

  lemma SpawnRank(c: Call, workers: seq<Worker>)
    ensures WorkersRank(c, workers + [Idle]) == WorkersRank(c, workers) + 1
  {
    assert (workers + [Idle])[..|workers|] == workers;
  }

  lemma {:induction false} UnsentRankTotal(jobs: seq<seq<string>>)
    ensures UnsentRank(jobs) == 3 * |Flatten(jobs)| + 2 * |jobs|
  {
    if jobs != [] { UnsentRankTotal(jobs[1..]); }
  }

  lemma {:induction false} RunRank(c: Call, steps: seq<Step>)
    requires NoDuplicates(c.recipients) && Valid(c, steps)
    ensures Rank(c, Run(c, steps)) >= 0
    ensures |steps| + Rank(c, Run(c, steps)) <= 3 * |c.recipients| + 2 * |c.Jobs()| + 2 * c.Workers() + 2
  {
    hide Batches, WorkerCount, NoDuplicates;
    if steps == [] {
      UnsentRankTotal(c.Jobs());
      BatchesExact(c.recipients, BATCH_SIZE);
      assert c.Jobs()[0..] == c.Jobs();
    } else {
      hide Rank;
      var n := |steps| - 1;
      RunRank(c, steps[..n]);
      RunInvariant(c, steps[..n]);
      RankDecreases(c, Run(c, steps[..n]), steps[n]);
    }
  }

  /** No schedule is longer than this bound. */
  lemma Terminates(c: Call, steps: seq<Step>)
    requires NoDuplicates(c.recipients) && Valid(c, steps)
    ensures |steps| <= 3 * |c.recipients| + 2 * |c.Jobs()| + 2 * c.Workers() + 2
  {
    hide Rank, Valid;
    RunRank(c, steps);
  }

  lemma Extend(c: Call, steps: seq<Step>, step: Step)
    requires Valid(c, steps) && Enabled(c, Run(c, steps), step)
    ensures Valid(c, steps + [step]) && Run(c, steps + [step]) == Do(c, Run(c, steps), step)
  {
    assert (steps + [step])[..|steps|] == steps;
  }

  lemma ExtendAgrees(c: Call, steps: seq<Step>, step: Step, online: set<string>)
    requires Valid(c, steps + [step]) && Valid(c, steps) && Agrees(c, steps, online) && Enabled(c, Run(c, steps), step)
    requires step.Check? ==> (step.online <==> UserAt(c, Run(c, steps), step.w) in online)
    ensures Agrees(c, steps + [step], online)
  {
    hide Enabled, Do;
    assert (steps + [step])[..|steps|] == steps;
  }

  /** Every partial schedule can be completed, for whatever presence its reads have agreed with. */
  lemma {:induction false} Completes(c: Call, steps: seq<Step>, online: set<string>) returns (more: seq<Step>)
    requires NoDuplicates(c.recipients) && Valid(c, steps) && Agrees(c, steps, online)
    ensures Valid(c, steps + more) && Run(c, steps + more).main.Returned? && Agrees(c, steps + more, online)
    decreases Rank(c, Run(c, steps))
  {
    hide Rank, Batches, WorkerCount, NoDuplicates, Enabled, Do, Run, Valid, Shape, Progress, Agrees;
    RunInvariant(c, steps);
    RunRank(c, steps);
    var s := Run(c, steps);
    if s.main.Returned? {
      more := [];
      assert steps + [] == steps;
    } else {
      var step := NeverStuck(c, s, online);
      RankDecreases(c, s, step);
      Extend(c, steps, step);
      ExtendAgrees(c, steps, step, online);
      var rest := Completes(c, steps + [step], online);
      more := [step] + rest;
      assert steps + more == steps + [step] + rest;
    }
  }

  /** For every set of online users there is a fan-out that finds exactly them online, and it does what the serial loop does. */
  lemma EveryPresenceOccurs(c: Call, online: set<string>) returns (steps: seq<Step>)
    requires NoDuplicates(c.recipients)
    ensures Valid(c, steps) && Run(c, steps).main.Returned? && Agrees(c, steps, online)
    ensures Run(c, steps).store == DeliverAll(c.init, c.recipients, c.message, online)
  {
    assert Valid(c, []) && Agrees(c, [], online);
    hide *;
    steps := Completes(c, [], online);
    assert [] + steps == steps;
    FixedPresence(c, steps, online);
  }

  /** A schedule is maximal exactly when main has returned. */
  lemma MaximalMeansReturned(c: Call, steps: seq<Step>)
    requires NoDuplicates(c.recipients) && Valid(c, steps)
    ensures (forall step :: !Enabled(c, Run(c, steps), step)) <==> Run(c, steps).main.Returned?
  {
    hide Rank, Batches, WorkerCount, NoDuplicates, Run, Valid, Shape, Progress;
    RunInvariant(c, steps);
    var s := Run(c, steps);
    if s.main.Returned? {
      forall step ensures !Enabled(c, s, step) { AllExitedStays(c, s, step); }
    } else {
      var step := NeverStuck(c, s, {});
    }
  }

  /** The batches that workers took, in order: each send's receiver holds the batch it was given. */
  function Taken(c: Call, steps: seq<Step>): seq<nat>
    requires Valid(c, steps)
  {
    if steps == [] then []
    else
      var n := |steps| - 1;
      Taken(c, steps[..n]) + if steps[n].Send? then [Run(c, steps).workers[steps[n].w].job] else []
  }

  lemma NextBatch(c: Call, s: State, step: Step)
    requires Enabled(c, s, step)
    ensures Do(c, s, step).next == s.next + if step.Send? then 1 else 0
    ensures step.Send? ==> step.w < |s.workers| && Do(c, s, step).workers[step.w] == Busy(s.next, 0, Checking)
  {
    hide Batches, WorkerCount, DeliverOps, Apply;
  }

  /** Batches are taken in order and each once; once the channel is closed, all of them have been. */
  lemma {:induction false} EachBatchOnce(c: Call, steps: seq<Step>)
    requires NoDuplicates(c.recipients) && Valid(c, steps)
    ensures var taken := Taken(c, steps);
            && |taken| == Run(c, steps).next <= |c.Jobs()|
            && (forall k :: 0 <= k < |taken| ==> taken[k] == k)
            && (!Run(c, steps).main.Running? ==> |taken| == |c.Jobs()|)
  {
    hide Batches, WorkerCount, NoDuplicates, Enabled, Do, GoodWorker, Progress;
    RunInvariant(c, steps);
    if steps != [] {
      var n := |steps| - 1;
      EachBatchOnce(c, steps[..n]);
      NextBatch(c, Run(c, steps[..n]), steps[n]);
    }
  }
}
