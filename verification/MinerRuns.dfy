/** Every interleaving of orders to the miner and of its workers (src/node/miner.cpp). */
module MinerRuns {
  import opened Types
  import opened Blocks
  import opened Positional
  import opened Miner

  /** Where a worker is in its loop; between `Found` and `Delivering` lies the locked part of callHandlerAndDrop. */
  datatype Phase = Waiting | Polling | Trying | Found(candidate: Block) | Delivering(granted: Block) | Stopped

  /** `readAt` records which publication was read last; the program does not keep it. */
  datatype Worker = Worker(phase: Phase, lastVersion: Uint64, data: CommonData, nonce: Uint64, readAt: nat)

  /** A block handed to the handler: read as publication `readAt`, it dropped publication `at`. */
  datatype Grant = Grant(block: Block, readAt: nat, at: nat)

  datatype System = System(log: seq<CommonData>, workers: seq<Worker>, grants: seq<Grant>, delivered: seq<Block>)

  datatype Step =
    | Publish(order: Order)
    | Read(i: nat, seed: Uint64)
    | Poll(i: nat)
    | Try(i: nat)
    | Offer(i: nat)
    | Deliver(i: nat)

  // ---------- the steps ----------

  function Initial(n: nat): System {
    System([NOTHING], seq(n, _ => Worker(Waiting, 0, NOTHING, 0, 0)), [], [])
  }

  function AfterRead(log: seq<CommonData>, seed: Uint64): Worker
    requires |log| > 0
  {
    var phase := match Latest(log).task
      case NONE => Waiting
      case DROP_JOB => Waiting
      case EXIT => Stopped
      case FIND_NONCE => Polling;
    Worker(phase, VersionOf(log), Latest(log), seed, |log| - 1)
  }

  function AfterPoll(log: seq<CommonData>, w: Worker): Worker
    requires |log| > 0
  {
    w.(phase := if VersionOf(log) == w.lastVersion then Trying else Waiting)
  }

  function AfterTry(sha: Block -> Hash, w: Worker): Worker
    requires w.data.block.Some? && w.data.complexity.Some?
  {
    var b := Sealed(sha, w.data.block.value, w.nonce);
    w.(data := w.data.(block := Some(w.data.block.value.(nonce := w.nonce))),
    nonce := (w.nonce + 1) % VERSIONS,
    phase := if LexLess(b.hash, w.data.complexity.value.comparer) then Found(b) else Polling)
  }

  predicate Enabled(s: System, step: Step) {
    |s.log| > 0 &&
    match step
    case Publish(_) => true
    case Read(i, _) => i < |s.workers| && s.workers[i].phase.Waiting? && VersionOf(s.log) != s.workers[i].lastVersion
    case Poll(i) => i < |s.workers| && s.workers[i].phase.Polling?
    case Try(i) =>
      && i < |s.workers| && s.workers[i].phase.Trying?
      && s.workers[i].data.block.Some? && s.workers[i].data.complexity.Some?
    case Offer(i) => i < |s.workers| && s.workers[i].phase.Found?
    case Deliver(i) => i < |s.workers| && s.workers[i].phase.Delivering?
  }

  /** A step that is not enabled changes nothing. */
  function Next(sha: Block -> Hash, s: System, step: Step): System {
    if !Enabled(s, step) then s else
    match step
    case Publish(order) => s.(log := s.log + [order.Data()])
    case Read(i, seed) => s.(workers := s.workers[i := AfterRead(s.log, seed)])
    case Poll(i) => s.(workers := s.workers[i := AfterPoll(s.log, s.workers[i])])
    case Try(i) => s.(workers := s.workers[i := AfterTry(sha, s.workers[i])])
    case Offer(i) =>
      var w := s.workers[i];
      if Latest(s.log).task == FIND_NONCE then
        s.(log := AfterOffer(s.log),
        workers := s.workers[i := w.(phase := Delivering(w.phase.candidate))],
        grants := s.grants + [Grant(w.phase.candidate, w.readAt, |s.log| - 1)])
      else
        s.(workers := s.workers[i := w.(phase := Polling)])
    case Deliver(i) =>
      var w := s.workers[i];
      s.(workers := s.workers[i := w.(phase := Polling)], delivered := s.delivered + [w.phase.granted])
  }

  function Play(sha: Block -> Hash, s: System, steps: seq<Step>): System {
    if steps == [] then s else Next(sha, Play(sha, s, steps[..|steps| - 1]), steps[|steps| - 1])
  }

  lemma {:induction false} PlayOn(sha: Block -> Hash, s: System, steps: seq<Step>, more: seq<Step>)
    ensures Play(sha, s, steps + more) == Play(sha, Play(sha, s, steps), more)
  {
    hide Next;
    if more == [] {
      assert steps + more == steps;
    } else {
      var all := steps + more;
      assert all[..|all| - 1] == steps + more[..|more| - 1] && all[|all| - 1] == more[|more| - 1];
      PlayOn(sha, s, steps, more[..|more| - 1]);
    }
  }

  // ---------- what every run keeps ----------

  predicate SameJob(a: Option<Block>, b: Option<Block>) {
    (a.None? && b.None?) || (a.Some? && b.Some? && a.value == b.value.(nonce := a.value.nonce))
  }

  /** `b` is the published job with some nonce, and its hash is below the published complexity. */
  predicate Answers(sha: Block -> Hash, data: CommonData, b: Block) {
    && data.task == FIND_NONCE && data.block.Some? && data.complexity.Some?
    && b == Sealed(sha, data.block.value, b.nonce)
    && LexLess(b.hash, data.complexity.value.comparer)
  }

  predicate EntryOk(log: seq<CommonData>, k: nat)
    requires k < |log|
  {
    && (log[k].task == FIND_NONCE <==> log[k].block.Some?)
    && (log[k].task == FIND_NONCE <==> log[k].complexity.Some?)
    && (log[k].task == DROP_JOB ==> k > 0 && log[k - 1].task == FIND_NONCE)
  }

  predicate LogOk(log: seq<CommonData>) {
    |log| > 0 && log[0] == NOTHING && forall k :: 0 <= k < |log| ==> EntryOk(log, k)
  }

  predicate WorkerOk(sha: Block -> Hash, log: seq<CommonData>, w: Worker) {
    && w.readAt < |log|
    && w.lastVersion == w.readAt % VERSIONS
    && w.data.task == log[w.readAt].task && w.data.complexity == log[w.readAt].complexity
    && SameJob(w.data.block, log[w.readAt].block)
    && match w.phase
       case Waiting => w.data.task != EXIT
       case Polling => w.data.task == FIND_NONCE
       case Trying => w.data.task == FIND_NONCE
       case Found(b) => w.data.task == FIND_NONCE && Answers(sha, log[w.readAt], b)
       case Delivering(b) => w.data.task == FIND_NONCE && Answers(sha, log[w.readAt], b)
       case Stopped => w.data.task == EXIT
  }

  predicate GrantOk(sha: Block -> Hash, log: seq<CommonData>, g: Grant) {
    && g.readAt <= g.at && g.at + 1 < |log|
    && Answers(sha, log[g.readAt], g.block)
    && log[g.at].task == FIND_NONCE && log[g.at + 1] == DROPPED
  }

  function Drops(log: seq<CommonData>): nat {
    if log == [] then 0 else Drops(log[..|log| - 1]) + if log[|log| - 1].task == DROP_JOB then 1 else 0
  }

  function Finds(log: seq<CommonData>): nat {
    if log == [] then 0 else Finds(log[..|log| - 1]) + if log[|log| - 1].task == FIND_NONCE then 1 else 0
  }

  function Held(w: Worker): multiset<Block> {
    if w.phase.Delivering? then multiset{w.phase.granted} else multiset{}
  }

  /** The blocks granted to workers that have not called the handler yet. */
  function InFlight(workers: seq<Worker>): multiset<Block> {
    if workers == [] then multiset{} else InFlight(workers[..|workers| - 1]) + Held(workers[|workers| - 1])
  }

  function Granted(grants: seq<Grant>): multiset<Block> {
    if grants == [] then multiset{} else Granted(grants[..|grants| - 1]) + multiset{grants[|grants| - 1].block}
  }

  predicate WorkersOk(sha: Block -> Hash, log: seq<CommonData>, workers: seq<Worker>) {
    forall i :: 0 <= i < |workers| ==> WorkerOk(sha, log, workers[i])
  }

  /** Each grant drops a later publication than the one before. */
  predicate GrantsOk(sha: Block -> Hash, log: seq<CommonData>, grants: seq<Grant>) {
    && (forall i :: 0 <= i < |grants| ==> GrantOk(sha, log, grants[i]))
    && (forall i, j :: 0 <= i < j < |grants| ==> grants[i].at < grants[j].at)
  }

  predicate Inv(sha: Block -> Hash, s: System) {
    && LogOk(s.log)
    && WorkersOk(sha, s.log, s.workers)
    && GrantsOk(sha, s.log, s.grants)
    && |s.grants| == Drops(s.log)
    && multiset(s.delivered) + InFlight(s.workers) == Granted(s.grants)
  }

  lemma {:induction false} InFlightUpdate(ws: seq<Worker>, i: nat, w: Worker)
    requires i < |ws|
    ensures InFlight(ws[i := w]) + Held(ws[i]) == InFlight(ws) + Held(w)
  {
    hide Held;
    var n := |ws| - 1;
    assert InFlight(ws) == InFlight(ws[..n]) + Held(ws[n]);
    assert InFlight(ws[i := w]) == InFlight(ws[i := w][..n]) + Held(ws[i := w][n]);
    if i == n {
      assert ws[i := w][..n] == ws[..n];
    } else {
      InFlightUpdate(ws[..n], i, w);
      assert ws[i := w][..n] == ws[..n][i := w];
      assert InFlight(ws[i := w]) + Held(ws[i]) == InFlight(ws[..n][i := w]) + Held(ws[i]) + Held(ws[n]);
      assert InFlight(ws) + Held(w) == InFlight(ws[..n]) + Held(w) + Held(ws[n]);
    }
  }

  lemma {:induction false} NothingInFlight(ws: seq<Worker>)
    requires forall i :: 0 <= i < |ws| ==> !ws[i].phase.Delivering?
    ensures InFlight(ws) == multiset{}
  {
    if ws == [] {
    } else {
      NothingInFlight(ws[..|ws| - 1]);
    }
  }

  lemma {:induction false} InitialInv(sha: Block -> Hash, n: nat)
    ensures Inv(sha, Initial(n))
  {
    var s := Initial(n);
    NothingInFlight(s.workers);
    assert s.log[..0] == [];
    assert Drops(s.log) == Drops(s.log[..0]);
    assert EntryOk(s.log, 0);
    assert Granted(s.grants) == multiset{} && multiset(s.delivered) == multiset{};
  }

  lemma {:induction false} Appended(sha: Block -> Hash, log: seq<CommonData>, d: CommonData)
    requires LogOk(log)
    requires (d.task == FIND_NONCE <==> d.block.Some?) && (d.task == FIND_NONCE <==> d.complexity.Some?)
    requires d.task == DROP_JOB ==> Latest(log).task == FIND_NONCE
    ensures LogOk(log + [d])
    ensures forall ws :: WorkersOk(sha, log, ws) ==> WorkersOk(sha, log + [d], ws)
    ensures forall gs :: GrantsOk(sha, log, gs) ==> GrantsOk(sha, log + [d], gs)
    ensures Drops(log + [d]) == Drops(log) + if d.task == DROP_JOB then 1 else 0
    ensures Finds(log + [d]) == Finds(log) + if d.task == FIND_NONCE then 1 else 0
  {
    hide Answers, SameJob;
    var l := log + [d];
    assert l[..|log|] == log;
    forall k | 0 <= k < |l| ensures EntryOk(l, k) {
      if k < |log| { assert EntryOk(log, k); }
    }
    forall ws | WorkersOk(sha, log, ws) ensures WorkersOk(sha, l, ws) {
      forall i | 0 <= i < |ws| ensures WorkerOk(sha, l, ws[i]) { assert WorkerOk(sha, log, ws[i]); }
    }
    forall gs | GrantsOk(sha, log, gs) ensures GrantsOk(sha, l, gs) {
      forall i | 0 <= i < |gs| ensures GrantOk(sha, l, gs[i]) { assert GrantOk(sha, log, gs[i]); }
    }
  }

  lemma {:induction false} WorkerReplaced(sha: Block -> Hash, log: seq<CommonData>, ws: seq<Worker>, i: nat, w: Worker)
    requires i < |ws| && WorkersOk(sha, log, ws) && WorkerOk(sha, log, w)
    ensures WorkersOk(sha, log, ws[i := w])
  {
    hide WorkerOk;
  }

  /** A step that changes one worker and neither the log nor the grants. */
  lemma {:induction false} WorkerMoves(sha: Block -> Hash, s: System, i: nat, w: Worker)
    requires Inv(sha, s) && i < |s.workers| && WorkerOk(sha, s.log, w)
    requires !s.workers[i].phase.Delivering? && !w.phase.Delivering?
    ensures Inv(sha, s.(workers := s.workers[i := w]))
  {
    hide WorkerOk, GrantsOk, LogOk, Drops, InFlight, WorkersOk;
    WorkerReplaced(sha, s.log, s.workers, i, w);
    InFlightUpdate(s.workers, i, w);
    SumUnchanged(InFlight(s.workers[i := w]), InFlight(s.workers));
  }

  lemma {:induction false} SumUnchanged(a: multiset<Block>, b: multiset<Block>)
    requires a + multiset{} == b + multiset{}
    ensures a == b
  {
    assert a + multiset{} == a && b + multiset{} == b;
  }

  lemma {:induction false} ReadKeeps(sha: Block -> Hash, log: seq<CommonData>, seed: Uint64)
    requires LogOk(log)
    ensures WorkerOk(sha, log, AfterRead(log, seed))
  {
    var w := AfterRead(log, seed);
    assert SameJob(w.data.block, log[w.readAt].block) by {
      if w.data.block.Some? { assert w.data.block.value == w.data.block.value.(nonce := w.data.block.value.nonce); }
    }
    hide SameJob;
    assert Latest(log).task == FIND_NONCE ==> w.phase == Polling;
    assert Latest(log).task == EXIT ==> w.phase == Stopped;
    assert Latest(log).task == NONE || Latest(log).task == DROP_JOB ==> w.phase == Waiting;
  }

  lemma {:induction false} TryKeeps(sha: Block -> Hash, log: seq<CommonData>, w: Worker)
    requires LogOk(log) && WorkerOk(sha, log, w) && w.phase.Trying?
    ensures w.data.block.Some? && w.data.complexity.Some?
    ensures WorkerOk(sha, log, AfterTry(sha, w))
  {
    hide LexLess;
    assert EntryOk(log, w.readAt);
    assert Sealed(sha, w.data.block.value, w.nonce) == Sealed(sha, log[w.readAt].block.value, w.nonce);
  }

  lemma {:induction false} PublishKeeps(sha: Block -> Hash, s: System, order: Order)
    requires Inv(sha, s)
    ensures Inv(sha, Next(sha, s, Publish(order)))
    ensures Finds(s.log + [order.Data()]) == Finds(s.log) + if order.FindNonce? then 1 else 0
  {
    Appended(sha, s.log, order.Data());
    hide WorkersOk, GrantsOk, LogOk, Drops, Finds, InFlight, Granted;
  }

  lemma {:induction false} GrantAdded(sha: Block -> Hash, log: seq<CommonData>, grants: seq<Grant>, g: Grant)
    requires GrantsOk(sha, log, grants) && |log| > 0 && g.at == |log| - 1 && GrantOk(sha, log + [DROPPED], g)
    requires GrantsOk(sha, log + [DROPPED], grants)
    ensures GrantsOk(sha, log + [DROPPED], grants + [g])
    ensures Granted(grants + [g]) == Granted(grants) + multiset{g.block}
  {
    assert (grants + [g])[..|grants|] == grants;
    forall k | 0 <= k < |grants| ensures grants[k].at < g.at {
      assert GrantOk(sha, log, grants[k]);
    }
    hide GrantOk;
  }

  lemma {:induction false} GrantKeeps(sha: Block -> Hash, s: System, i: nat)
    requires Inv(sha, s) && Enabled(s, Offer(i)) && Latest(s.log).task == FIND_NONCE
    ensures Inv(sha, Next(sha, s, Offer(i)))
    ensures Finds(s.log + [DROPPED]) == Finds(s.log)
  {
    hide WorkerOk, GrantOk, LogOk, Drops, Finds, InFlight, Granted, GrantsOk;
    var w := s.workers[i];
    var g := Grant(w.phase.candidate, w.readAt, |s.log| - 1);
    var granted := w.(phase := Delivering(w.phase.candidate));
    assert Next(sha, s, Offer(i)) == System(s.log + [DROPPED], s.workers[i := granted], s.grants + [g], s.delivered);
    assert WorkerOk(sha, s.log, w);
    hide Next, Enabled, WorkersOk;
    GrantStands(sha, s.log, w);
    WorkerReplaced(sha, s.log, s.workers, i, granted);
    Appended(sha, s.log, DROPPED);
    GrantAdded(sha, s.log, s.grants, g);
    InFlightUpdate(s.workers, i, granted);
    assert InFlight(s.workers[i := granted]) == InFlight(s.workers) + multiset{g.block};
  }

  lemma {:induction false} GrantStands(sha: Block -> Hash, log: seq<CommonData>, w: Worker)
    requires |log| > 0 && WorkerOk(sha, log, w) && w.phase.Found? && Latest(log).task == FIND_NONCE
    ensures WorkerOk(sha, log, w.(phase := Delivering(w.phase.candidate)))
    ensures GrantOk(sha, log + [DROPPED], Grant(w.phase.candidate, w.readAt, |log| - 1))
  {
    hide Answers, SameJob;
    assert (log + [DROPPED])[w.readAt] == log[w.readAt];
  }

  lemma {:induction false} DeliverKeeps(sha: Block -> Hash, s: System, i: nat)
    requires Inv(sha, s) && Enabled(s, Deliver(i))
    ensures Inv(sha, Next(sha, s, Deliver(i)))
  {
    hide Answers, SameJob, LogOk, Drops, InFlight, Granted, GrantsOk;
    var w := s.workers[i];
    var after := w.(phase := Polling);
    assert WorkerOk(sha, s.log, after) by { assert WorkerOk(sha, s.log, w); }
    hide WorkerOk, WorkersOk;
    WorkerReplaced(sha, s.log, s.workers, i, after);
    InFlightUpdate(s.workers, i, after);
    assert InFlight(s.workers[i := after]) + multiset{w.phase.granted} == InFlight(s.workers);
    assert multiset(s.delivered + [w.phase.granted]) == multiset(s.delivered) + multiset{w.phase.granted};
  }

  lemma {:induction false} Disabled(sha: Block -> Hash, s: System, step: Step)
    requires Inv(sha, s) && !Enabled(s, step)
    ensures Next(sha, s, step) == s && !step.Publish?
  {
    hide WorkersOk, GrantsOk, Drops, InFlight, Granted;
  }

  lemma {:induction false} PublishStep(sha: Block -> Hash, s: System, order: Order)
    requires Inv(sha, s)
    ensures Inv(sha, Next(sha, s, Publish(order)))
    ensures Finds(Next(sha, s, Publish(order)).log) == Finds(s.log) + if order.FindNonce? then 1 else 0
  {
    PublishKeeps(sha, s, order);
    hide WorkersOk, GrantsOk, LogOk, Drops, Finds, InFlight, Granted;
  }

  lemma {:induction false} ReadStep(sha: Block -> Hash, s: System, i: nat, seed: Uint64)
    requires Inv(sha, s) && Enabled(s, Read(i, seed))
    ensures Inv(sha, Next(sha, s, Read(i, seed))) && Next(sha, s, Read(i, seed)).log == s.log
  {
    hide WorkerOk, GrantsOk, LogOk, Drops, InFlight, Granted;
    ReadKeeps(sha, s.log, seed);
    hide WorkersOk;
    WorkerMoves(sha, s, i, AfterRead(s.log, seed));
  }

  lemma {:induction false} PollStep(sha: Block -> Hash, s: System, i: nat)
    requires Inv(sha, s) && Enabled(s, Poll(i))
    ensures Inv(sha, Next(sha, s, Poll(i))) && Next(sha, s, Poll(i)).log == s.log
  {
    hide GrantsOk, LogOk, Drops, InFlight, Granted;
    assert WorkerOk(sha, s.log, s.workers[i]);
    hide WorkersOk;
    WorkerMoves(sha, s, i, AfterPoll(s.log, s.workers[i]));
  }

  lemma {:induction false} TryStep(sha: Block -> Hash, s: System, i: nat)
    requires Inv(sha, s) && Enabled(s, Try(i))
    ensures Inv(sha, Next(sha, s, Try(i))) && Next(sha, s, Try(i)).log == s.log
  {
    hide WorkerOk, GrantsOk, LogOk, Drops, InFlight, Granted;
    assert WorkerOk(sha, s.log, s.workers[i]);
    hide WorkersOk;
    TryKeeps(sha, s.log, s.workers[i]);
    WorkerMoves(sha, s, i, AfterTry(sha, s.workers[i]));
  }

  lemma {:induction false} OfferStep(sha: Block -> Hash, s: System, i: nat)
    requires Inv(sha, s) && Enabled(s, Offer(i))
    ensures Inv(sha, Next(sha, s, Offer(i))) && Finds(Next(sha, s, Offer(i)).log) == Finds(s.log)
  {
    hide GrantsOk, LogOk, Drops, InFlight, Granted, Finds;
    assert WorkerOk(sha, s.log, s.workers[i]);
    hide WorkersOk;
    if Latest(s.log).task == FIND_NONCE {
      GrantKeeps(sha, s, i);
    } else {
      WorkerMoves(sha, s, i, s.workers[i].(phase := Polling));
    }
  }

  lemma {:induction false} DeliverStep(sha: Block -> Hash, s: System, i: nat)
    requires Inv(sha, s) && Enabled(s, Deliver(i))
    ensures Inv(sha, Next(sha, s, Deliver(i))) && Next(sha, s, Deliver(i)).log == s.log
  {
    hide Inv;
    DeliverKeeps(sha, s, i);
  }

  lemma {:induction false} NextKeeps(sha: Block -> Hash, s: System, step: Step)
    requires Inv(sha, s)
    ensures Inv(sha, Next(sha, s, step))
    ensures Finds(Next(sha, s, step).log) == Finds(s.log) + if step.Publish? && step.order.FindNonce? then 1 else 0
  {
    hide Next, Inv, Enabled, Finds;
    if Enabled(s, step) {
      match step
      case Publish(order) => PublishStep(sha, s, order);
      case Read(i, seed) => ReadStep(sha, s, i, seed);
      case Poll(i) => PollStep(sha, s, i);
      case Try(i) => TryStep(sha, s, i);
      case Offer(i) => OfferStep(sha, s, i);
      case Deliver(i) => DeliverStep(sha, s, i);
    } else {
      Disabled(sha, s, step);
    }
  }

  /** How often findNonce was called. */
  function Jobs(steps: seq<Step>): nat {
    if steps == [] then 0 else
      var last := steps[|steps| - 1];
      Jobs(steps[..|steps| - 1]) + if last.Publish? && last.order.FindNonce? then 1 else 0
  }

  lemma {:induction false} EveryRun(sha: Block -> Hash, n: nat, steps: seq<Step>)
    ensures Inv(sha, Play(sha, Initial(n), steps)) && Finds(Play(sha, Initial(n), steps).log) == Jobs(steps)
  {
    if steps == [] {
      InitialInv(sha, n);
      assert Finds([NOTHING]) == Finds([NOTHING][..0]);
    } else {
      EveryRun(sha, n, steps[..|steps| - 1]);
      hide Next, Inv, Finds;
      NextKeeps(sha, Play(sha, Initial(n), steps[..|steps| - 1]), steps[|steps| - 1]);
    }
  }

  // ---------- what follows for every run ----------

  /** A worker's version and its job were published together. */
  lemma {:induction false} ReadTogether(sha: Block -> Hash, n: nat, steps: seq<Step>, i: nat)
    requires i < |Play(sha, Initial(n), steps).workers|
    ensures var s, w := Play(sha, Initial(n), steps), Play(sha, Initial(n), steps).workers[i];
            exists k :: 0 <= k < |s.log| && w.lastVersion == VersionOf(s.log[..k + 1]) && w.data.task == s.log[k].task
                        && w.data.complexity == s.log[k].complexity && SameJob(w.data.block, s.log[k].block)
  {
    EveryRun(sha, n, steps);
    hide Play, SameJob;
    var s := Play(sha, Initial(n), steps);
    assert WorkerOk(sha, s.log, s.workers[i]);
    var k := s.workers[i].readAt;
    assert |s.log[..k + 1]| == k + 1;
  }

  lemma {:induction false} DropsFollowFinds(log: seq<CommonData>)
    requires LogOk(log)
    ensures Drops(log) + (if Latest(log).task == FIND_NONCE then 1 else 0) <= Finds(log)
    decreases |log|
  {
    var n := |log| - 1;
    assert EntryOk(log, n);
    if n == 0 {
      assert log[..0] == [];
    } else {
      var before := log[..n];
      forall k | 0 <= k < n ensures EntryOk(before, k) { assert EntryOk(log, k); }
      DropsFollowFinds(before);
    }
  }

  lemma {:induction false} GrantedCount(grants: seq<Grant>)
    ensures |Granted(grants)| == |grants|
  {
    if grants == [] {
    } else {
      GrantedCount(grants[..|grants| - 1]);
    }
  }

  /** The handler is called at most once for each findNonce, and not yet for a job still standing. */
  lemma {:induction false} CallsBounded(sha: Block -> Hash, n: nat, steps: seq<Step>)
    ensures var s := Play(sha, Initial(n), steps);
            && |s.log| > 0
            && |s.delivered| + |InFlight(s.workers)| == |s.grants|
            && |s.grants| + (if Latest(s.log).task == FIND_NONCE then 1 else 0) <= Jobs(steps)
  {
    EveryRun(sha, n, steps);
    hide Play, WorkerOk, GrantOk, InFlight, Drops, Finds, EntryOk;
    var s := Play(sha, Initial(n), steps);
    DropsFollowFinds(s.log);
    GrantedCount(s.grants);
    assert |multiset(s.delivered) + InFlight(s.workers)| == |s.delivered| + |InFlight(s.workers)|;
  }

  predicate ValidOrder(step: Step) {
    step.Publish? && step.order.FindNonce? ==>
        Value(256, step.order.complexity.comparer) == step.order.complexity.densed
  }

  lemma {:induction false} LogValid(sha: Block -> Hash, n: nat, steps: seq<Step>)
    requires forall j :: 0 <= j < |steps| ==> ValidOrder(steps[j])
    ensures forall k :: 0 <= k < |Play(sha, Initial(n), steps).log| ==>
              var c := Play(sha, Initial(n), steps).log[k].complexity;
              c.Some? ==> Value(256, c.value.comparer) == c.value.densed
  {
    hide Value;
    if steps == [] {
    } else {
      LogValid(sha, n, steps[..|steps| - 1]);
    }
  }

  lemma {:induction false} GrantedFrom(grants: seq<Grant>, b: Block)
    requires b in Granted(grants)
    ensures exists g :: 0 <= g < |grants| && grants[g].block == b
  {
    var n := |grants| - 1;
    if grants[n].block == b {
    } else {
      GrantedFrom(grants[..n], b);
    }
  }

  /**
   A delivered block is a published job with a nonce, below the complexity published with it: on the
   chain the job was made for it meets the threshold `checkBlock` asks for.
   */
  lemma {:induction false} DeliveredMeets(sha: Block -> Hash, n: nat, steps: seq<Step>, b: Block)
    requires forall j :: 0 <= j < |steps| ==> ValidOrder(steps[j])
    requires b in Play(sha, Initial(n), steps).delivered
    ensures var log := Play(sha, Initial(n), steps).log;
            exists k :: 0 <= k < |log| && Answers(sha, log[k], b) && Value(256, b.hash) < log[k].complexity.value.densed
  {
    hide Play, Inv, Finds, Value, LexLess, Answers;
    EveryRun(sha, n, steps);
    LogValid(sha, n, steps);
    var s := Play(sha, Initial(n), steps);
    var k := DeliveredAnswers(sha, s, b);
    AnswerMeets(sha, s.log[k], b);
  }

  lemma {:induction false} DeliveredAnswers(sha: Block -> Hash, s: System, b: Block) returns (k: nat)
    requires Inv(sha, s) && b in s.delivered
    ensures k < |s.log| && Answers(sha, s.log[k], b)
  {
    hide WorkersOk, LogOk, Drops, InFlight, Granted, Answers;
    assert b in multiset(s.delivered);
    assert b in Granted(s.grants);
    GrantedFrom(s.grants, b);
    var g :| 0 <= g < |s.grants| && s.grants[g].block == b;
    assert GrantOk(sha, s.log, s.grants[g]);
    k := s.grants[g].readAt;
  }

  lemma {:induction false} AnswerMeets(sha: Block -> Hash, data: CommonData, b: Block)
    requires Answers(sha, data, b)
    requires data.complexity.Some? ==> Value(256, data.complexity.value.comparer) == data.complexity.value.densed
    ensures data.complexity.Some? && Value(256, b.hash) < data.complexity.value.densed
  {
    hide Value, LexLess;
    LexLessIsNumeric(256, b.hash, data.complexity.value.comparer);
  }

  /** Once EXIT is the last publication, nothing more is granted, whatever the workers do. */
  lemma {:induction false} NothingAfterExit(sha: Block -> Hash, s: System, more: seq<Step>)
    requires |s.log| > 0 && Latest(s.log).task == EXIT
    requires forall j :: 0 <= j < |more| ==> !more[j].Publish?
    ensures Play(sha, s, more).log == s.log && Play(sha, s, more).grants == s.grants
  {
    if more == [] {
    } else {
      NothingAfterExit(sha, s, more[..|more| - 1]);
    }
  }

  // ---------- what the orders do ----------

  /**
   In every run: `findNonce` publishes the job, `dropJob` nothing to do and `stop` the end; a worker that reads
   next starts on the job, goes back to waiting or stops.
   */
  lemma {:induction false} OrderPublished(sha: Block -> Hash, n: nat, before: seq<Step>, order: Order, i: nat,
                                          seed: Uint64)
    ensures var log, ordered := Play(sha, Initial(n), before).log, before + [Publish(order)];
            var s, next := Play(sha, Initial(n), ordered), Play(sha, Initial(n), ordered + [Read(i, seed)]);
            && s.log == log + [match order
                               case FindNonce(block, complexity) =>
                                 CommonData(FIND_NONCE, Some(block), Some(complexity))
                               case DropJob => CommonData(NONE, None, None)
                               case Stop => CommonData(EXIT, None, None)]
            && (Enabled(s, Read(i, seed)) ==>
                && i < |next.workers|
                && next.workers[i].data == s.log[|log|] && next.workers[i].nonce == seed
                && next.workers[i].phase == match order { case FindNonce(_, _) => Polling
                                                          case DropJob => Waiting
                                                          case Stop => Stopped })
  {
    var ordered := before + [Publish(order)];
    EveryRun(sha, n, before);
    assert ordered[..|ordered| - 1] == before && ordered[|ordered| - 1] == Publish(order);
    var whole := ordered + [Read(i, seed)];
    assert whole[..|whole| - 1] == ordered && whole[|whole| - 1] == Read(i, seed);
  }

  /** EXIT was never published and no worker has stopped. */
  predicate NoEnd(s: System) {
    && (forall k :: 0 <= k < |s.log| ==> s.log[k].task != EXIT)
    && (forall i :: 0 <= i < |s.workers| ==> s.workers[i].phase != Stopped)
  }

  /** Only `stop` ends anything: without it EXIT is never published and no worker stops. */
  lemma {:induction false} NoStopNoEnd(sha: Block -> Hash, n: nat, steps: seq<Step>)
    requires forall j :: 0 <= j < |steps| ==> steps[j] != Publish(Stop)
    ensures NoEnd(Play(sha, Initial(n), steps))
  {
    if steps == [] {
    } else {
      hide Next, NoEnd;
      NoStopNoEnd(sha, n, steps[..|steps| - 1]);
      NoEndStep(sha, Play(sha, Initial(n), steps[..|steps| - 1]), steps[|steps| - 1]);
    }
  }

  lemma {:induction false} NoEndStep(sha: Block -> Hash, s: System, step: Step)
    requires step != Publish(Stop) && NoEnd(s)
    ensures NoEnd(Next(sha, s, step))
  {
    hide Sealed, LexLess;
    if Enabled(s, step) {
      match step
      case Publish(order) => assert order.Data().task != EXIT;
      case Read(i, seed) => assert Latest(s.log).task != EXIT && AfterRead(s.log, seed).phase != Stopped;
      case _ =>
    }
  }

  /** In every run, once `stop` was called and no order follows, nothing is published or granted any more. */
  lemma {:induction false} NothingAfterStop(sha: Block -> Hash, n: nat, before: seq<Step>, more: seq<Step>)
    requires forall j :: 0 <= j < |more| ==> !more[j].Publish?
    ensures var s, after := Play(sha, Initial(n), before), Play(sha, Initial(n), before + [Publish(Stop)] + more);
            after.log == s.log + [CommonData(EXIT, None, None)] && after.grants == s.grants
  {
    var stopped := before + [Publish(Stop)];
    assert stopped[..|stopped| - 1] == before && stopped[|stopped| - 1] == Publish(Stop);
    OrderPublished(sha, n, before, Stop, 0, 0);
    EveryRun(sha, n, before);
    assert Play(sha, Initial(n), stopped).grants == Play(sha, Initial(n), before).grants;
    hide Play, Inv;
    PlayOn(sha, Initial(n), stopped, more);
    NothingAfterExit(sha, Play(sha, Initial(n), stopped), more);
  }

  // ---------- the inner loop ----------

  /** What the loads of the version by one worker returned during a run, and the blocks it found. */
  datatype Trace = Trace(loads: seq<Uint64>, found: seq<Block>)

  function Noted(sha: Block -> Hash, s: System, i: nat, t: Trace, step: Step): Trace {
    if !Enabled(s, step) then t
    else if step == Poll(i) then t.(loads := t.loads + [VersionOf(s.log)])
    else if step == Try(i) then
      var w := AfterTry(sha, s.workers[i]);
      if w.phase.Found? then t.(found := t.found + [w.phase.candidate]) else t
    else t
  }

  function Traced(sha: Block -> Hash, s: System, i: nat, steps: seq<Step>): Trace {
    if steps == [] then Trace([], []) else
      var front := steps[..|steps| - 1];
      Noted(sha, Play(sha, s, front), i, Traced(sha, s, i, front), steps[|steps| - 1])
  }

  predicate HasJob(w: Worker) {
    w.data.block.Some? && w.data.complexity.Some?
  }

  /** How many nonces were tried: an attempt follows each load but one that ended the loop or came just now. */
  function Tried(phase: Phase, loads: seq<Uint64>): (n: int) {
    if phase.Trying? || phase.Waiting? then |loads| - 1 else |loads|
  }

  /** The worker has worked on its job since it was `w`: every load but a last, failed one returned its version. */
  ghost predicate Searched(sha: Block -> Hash, w: Worker, now: Worker, t: Trace)
    requires HasJob(w)
  {
    var n := Tried(now.phase, t.loads);
    && n >= 0 && !now.phase.Stopped?
    && now.lastVersion == w.lastVersion && now.data.complexity == w.data.complexity
        && SameJob(now.data.block, w.data.block)
    && (forall k :: 0 <= k < n ==> t.loads[k] == w.lastVersion)
    && (now.phase.Trying? ==> t.loads[n] == w.lastVersion)
    && (now.phase.Waiting? ==> t.loads[n] != w.lastVersion)
    && now.nonce == NonceAfter(w.nonce, n)
    && t.found == Candidates(sha, w.data.block.value, w.data.complexity.value.comparer, w.nonce, n)
  }

  lemma {:induction false} SearchedStep(sha: Block -> Hash, w: Worker, s: System, i: nat, t: Trace, step: Step)
    requires HasJob(w) && i < |s.workers| && |s.log| > 0 && Searched(sha, w, s.workers[i], t)
    requires !(step.Read? && step.i == i)
    ensures |Next(sha, s, step).workers| == |s.workers| && |Next(sha, s, step).log| > 0
    ensures Searched(sha, w, Next(sha, s, step).workers[i], Noted(sha, s, i, t, step))
  {
    hide LexLess, Sealed, NonceAfter, Candidates;
    if Enabled(s, step) && step == Try(i) {
      SearchedTry(sha, w, s.workers[i], t);
    } else if Enabled(s, step) && step == Poll(i) {
    } else {
      assert Noted(sha, s, i, t, step) == t;
    }
  }

  lemma {:induction false} SearchedTry(sha: Block -> Hash, w: Worker, now: Worker, t: Trace)
    requires HasJob(w) && HasJob(now) && now.phase.Trying? && Searched(sha, w, now, t)
    ensures var after := AfterTry(sha, now);
            Searched(sha, w, after, if after.phase.Found? then t.(found := t.found + [after.phase.candidate]) else t)
  {
    hide LexLess;
    var n := Tried(now.phase, t.loads);
    NextNonce(w.nonce, n);
    assert Sealed(sha, now.data.block.value, now.nonce) == Sealed(sha, w.data.block.value, NonceAfter(w.nonce, n));
    hide Sealed, NonceAfter;
  }

  /**
   Between two reads a worker is one call of `Search`: from any interleaving, the blocks it found are the
   candidates for the nonces it tried.
   */
  lemma {:induction false} WorkerSearches(sha: Block -> Hash, s: System, i: nat, steps: seq<Step>)
    requires |s.log| > 0 && i < |s.workers| && s.workers[i].phase == Polling && HasJob(s.workers[i])
    requires forall j :: 0 <= j < |steps| ==> !(steps[j].Read? && steps[j].i == i)
    ensures var after := Play(sha, s, steps);
            && |after.workers| == |s.workers| && |after.log| > 0
            && Searched(sha, s.workers[i], after.workers[i], Traced(sha, s, i, steps))
  {
    if steps == [] {
      assert NonceAfter(s.workers[i].nonce, 0) == s.workers[i].nonce;
      assert SameJob(s.workers[i].data.block, s.workers[i].data.block) by { SameJobAsItself(s.workers[i].data.block); }
    } else {
      var front := steps[..|steps| - 1];
      WorkerSearches(sha, s, i, front);
      hide Next, Noted, Searched;
      SearchedStep(sha, s.workers[i], Play(sha, s, front), i, Traced(sha, s, i, front), steps[|steps| - 1]);
    }
  }

  lemma {:induction false} SameJobAsItself(job: Option<Block>)
    ensures SameJob(job, job)
  {
    if job.Some? { assert job.value == job.value.(nonce := job.value.nonce); }
  }

  /** When it has left the loop, they are exactly what `Search` returns for the loads it made. */
  lemma {:induction false} LoopIsSearch(sha: Block -> Hash, s: System, i: nat, steps: seq<Step>)
    requires |s.log| > 0 && i < |s.workers| && s.workers[i].phase == Polling && HasJob(s.workers[i])
    requires forall j :: 0 <= j < |steps| ==> !(steps[j].Read? && steps[j].i == i)
    ensures var after, t, w := Play(sha, s, steps), Traced(sha, s, i, steps), s.workers[i];
            |after.workers| == |s.workers| &&
            (after.workers[i].phase == Waiting ==>
             t.found == Candidates(sha, w.data.block.value, w.data.complexity.value.comparer, w.nonce,
                                   Unchanged(w.lastVersion, t.loads)))
  {
    WorkerSearches(sha, s, i, steps);
    hide Play, Traced, Candidates;
    var after, t := Play(sha, s, steps), Traced(sha, s, i, steps);
    if after.workers[i].phase == Waiting {
      UnchangedAt(s.workers[i].lastVersion, t.loads, |t.loads| - 1);
    }
  }

  lemma {:induction false} JobRead(sha: Block -> Hash, n: nat, before: seq<Step>, i: nat, seed: Uint64)
    requires Enabled(Play(sha, Initial(n), before), Read(i, seed))
    requires Latest(Play(sha, Initial(n), before).log).task == FIND_NONCE
    ensures var s, next := Play(sha, Initial(n), before), Play(sha, Initial(n), before + [Read(i, seed)]);
            && next.log == s.log && i < |next.workers| && next.workers[i] == AfterRead(s.log, seed)
            && next.workers[i].phase == Polling && HasJob(next.workers[i])
  {
    var steps := before + [Read(i, seed)];
    assert steps[..|steps| - 1] == before && steps[|steps| - 1] == Read(i, seed);
    EveryRun(sha, n, before);
    var s := Play(sha, Initial(n), before);
    assert EntryOk(s.log, |s.log| - 1);
    hide Inv;
  }

  /**
   In every run: what a worker found since it read a job are the candidates for the nonces it tried, from its
   seed on; and once it has left the loop, for as many nonces as its loads returned the version it read.
   */
  lemma {:induction false} RunSearches(sha: Block -> Hash, n: nat, before: seq<Step>, i: nat, seed: Uint64,
                                       more: seq<Step>)
    requires Enabled(Play(sha, Initial(n), before), Read(i, seed))
    requires Latest(Play(sha, Initial(n), before).log).task == FIND_NONCE
    requires forall j :: 0 <= j < |more| ==> !(more[j].Read? && more[j].i == i)
    ensures var log, start := Play(sha, Initial(n), before).log, Play(sha, Initial(n), before + [Read(i, seed)]);
            var job, t := Latest(log), Traced(sha, start, i, more);
            var after := Play(sha, Initial(n), before + [Read(i, seed)] + more);
            && i < |after.workers| && HasJob(AfterRead(log, seed))
            && Searched(sha, AfterRead(log, seed), after.workers[i], t)
            && (after.workers[i].phase == Waiting ==>
                t.found == Candidates(sha, job.block.value, job.complexity.value.comparer, seed,
                                      Unchanged(VersionOf(log), t.loads)))
  {
    JobRead(sha, n, before, i, seed);
    hide Enabled, Play, Traced, Candidates, Searched, Unchanged;
    var start := Play(sha, Initial(n), before + [Read(i, seed)]);
    PlayOn(sha, Initial(n), before + [Read(i, seed)], more);
    WorkerSearches(sha, start, i, more);
    LoopIsSearch(sha, start, i, more);
  }

  // ---------- stopping ----------

  /** A bound on the steps a worker still takes once EXIT is published. */
  function StepsLeft(w: Worker): nat {
    match w.phase
    case Stopped => 0
    case Waiting => 1
    case Polling => 2
    case Found(_) => 3
    case Delivering(_) => 3
    case Trying => 4
  }

  predicate Closer(before: seq<Worker>, after: seq<Worker>, i: nat) {
    |after| == |before| > i && StepsLeft(after[i]) < StepsLeft(before[i])
  }

  function StepOf(w: Worker, i: nat, seed: Uint64): Step {
    match w.phase
    case Waiting => Read(i, seed)
    case Polling => Poll(i)
    case Trying => Try(i)
    case Found(_) => Offer(i)
    case Delivering(_) => Deliver(i)
    case Stopped => Publish(DropJob)
  }

  /** A waiting worker sleeps through exactly the publications that are a multiple of 2^64 ahead of it. */
  lemma {:induction false} WakesIff(sha: Block -> Hash, s: System, i: nat, seed: Uint64)
    requires Inv(sha, s) && i < |s.workers| && s.workers[i].phase.Waiting?
    ensures Enabled(s, Read(i, seed)) <==> (|s.log| - 1 - s.workers[i].readAt) % VERSIONS != 0
  {
    var w := s.workers[i];
    assert WorkerOk(sha, s.log, w);
    var (a, b) := (|s.log| - 1, w.readAt);
    assert a == a / VERSIONS * VERSIONS + a % VERSIONS && b == b / VERSIONS * VERSIONS + b % VERSIONS;
    var d := a - b;
    if a % VERSIONS == b % VERSIONS {
      assert d == (a / VERSIONS - b / VERSIONS) * VERSIONS;
      EuclidUnique(VERSIONS, d / VERSIONS, d % VERSIONS, a / VERSIONS - b / VERSIONS, 0);
    } else if d % VERSIONS == 0 {
      assert a == (b / VERSIONS + d / VERSIONS) * VERSIONS + b % VERSIONS;
      EuclidUnique(VERSIONS, a / VERSIONS, a % VERSIONS, b / VERSIONS + d / VERSIONS, b % VERSIONS);
    }
  }

  /** After EXIT every worker that has not stopped can take its step, and each step brings it closer. */
  lemma {:induction false} WorkersStop(sha: Block -> Hash, s: System, i: nat, seed: Uint64)
    requires Inv(sha, s) && i < |s.workers| && Latest(s.log).task == EXIT && |s.log| <= VERSIONS
    requires !s.workers[i].phase.Stopped?
    ensures Enabled(s, StepOf(s.workers[i], i, seed))
    ensures Closer(s.workers, Next(sha, s, StepOf(s.workers[i], i, seed)).workers, i)
  {
    hide Answers, LexLess, Sealed;
    var w := s.workers[i];
    assert WorkerOk(sha, s.log, w);
    assert w.data.task == FIND_NONCE ==> EntryOk(s.log, w.readAt);
    assert w.readAt != |s.log| - 1;
    assert w.readAt % VERSIONS == w.readAt && VersionOf(s.log) == |s.log| - 1;
    var step := StepOf(w, i, seed);
    assert Enabled(s, step);
    hide Enabled, WorkerOk;
    match w.phase
    case Waiting => assert Next(sha, s, step).workers[i] == AfterRead(s.log, seed);
    case Polling => assert Next(sha, s, step).workers[i] == AfterPoll(s.log, w);
    case Trying => assert Next(sha, s, step).workers[i] == AfterTry(sha, w);
    case Found(_) => assert Next(sha, s, step).workers[i] == w.(phase := Polling);
    case Delivering(_) => assert Next(sha, s, step).workers[i] == w.(phase := Polling);
  }

  function TotalLeft(workers: seq<Worker>): nat {
    if workers == [] then 0 else TotalLeft(workers[..|workers| - 1]) + StepsLeft(workers[|workers| - 1])
  }

  lemma {:induction false} TotalLeftUpdate(ws: seq<Worker>, i: nat, w: Worker)
    requires i < |ws|
    ensures TotalLeft(ws[i := w]) + StepsLeft(ws[i]) == TotalLeft(ws) + StepsLeft(w)
  {
    hide StepsLeft;
    var n := |ws| - 1;
    if i == n {
      assert ws[i := w][..n] == ws[..n];
    } else {
      TotalLeftUpdate(ws[..n], i, w);
      assert ws[i := w][..n] == ws[..n][i := w];
    }
  }

  lemma {:induction false} TotalLeftBound(ws: seq<Worker>)
    ensures TotalLeft(ws) <= 4 * |ws|
  {
    if ws == [] {
    } else {
      TotalLeftBound(ws[..|ws| - 1]);
    }
  }

  /** How many steps of a run were enabled. */
  function Taken(sha: Block -> Hash, s: System, steps: seq<Step>): nat {
    if steps == [] then 0 else
      var front := steps[..|steps| - 1];
      Taken(sha, s, front) + if Enabled(Play(sha, s, front), steps[|steps| - 1]) then 1 else 0
  }

  /** Every enabled step but a publication is the next step of some worker. */
  lemma {:induction false} EnabledStep(s: System, step: Step) returns (i: nat, seed: Uint64)
    requires Enabled(s, step) && !step.Publish?
    ensures i == step.i && i < |s.workers| && !s.workers[i].phase.Stopped? && step == StepOf(s.workers[i], i, seed)
  {
    i := step.i;
    seed := if step.Read? then step.seed else 0;
  }

  lemma {:induction false} OthersStay(sha: Block -> Hash, s: System, step: Step)
    requires Enabled(s, step) && !step.Publish?
    ensures |Next(sha, s, step).workers| == |s.workers| > step.i
    ensures Next(sha, s, step).workers == s.workers[step.i := Next(sha, s, step).workers[step.i]]
  {
    hide AfterRead, AfterPoll, AfterTry;
  }

  lemma {:induction false} StepTaken(sha: Block -> Hash, s: System, step: Step)
    requires Inv(sha, s) && Latest(s.log).task == EXIT && |s.log| <= VERSIONS && Enabled(s, step) && !step.Publish?
    ensures TotalLeft(Next(sha, s, step).workers) < TotalLeft(s.workers)
  {
    var i, seed := EnabledStep(s, step);
    hide Inv, Enabled, Next, StepsLeft, TotalLeft, StepOf;
    WorkersStop(sha, s, i, seed);
    OthersStay(sha, s, step);
    TotalLeftUpdate(s.workers, i, Next(sha, s, step).workers[i]);
  }

  /** All workers have stopped. */
  predicate AtRest(s: System) {
    forall i :: 0 <= i < |s.workers| ==> s.workers[i].phase.Stopped?
  }

  lemma {:induction false} AtRestIff(sha: Block -> Hash, s: System)
    requires Inv(sha, s) && Latest(s.log).task == EXIT && |s.log| <= VERSIONS
    ensures AtRest(s) <==> forall step :: Enabled(s, step) ==> step.Publish?
  {
    hide Inv;
    if i :| 0 <= i < |s.workers| && !s.workers[i].phase.Stopped? {
      WorkersStop(sha, s, i, 0);
      assert !StepOf(s.workers[i], i, 0).Publish?;
    } else {
      forall step | Enabled(s, step) ensures step.Publish? {}
    }
  }

  /** Every step taken after EXIT is one less to take. */
  lemma {:induction false} EachStepCounts(sha: Block -> Hash, s: System, more: seq<Step>)
    requires Inv(sha, s) && Latest(s.log).task == EXIT && |s.log| <= VERSIONS
    requires forall j :: 0 <= j < |more| ==> !more[j].Publish?
    ensures Inv(sha, Play(sha, s, more)) && Play(sha, s, more).log == s.log
    ensures Taken(sha, s, more) + TotalLeft(Play(sha, s, more).workers) <= TotalLeft(s.workers)
  {
    assert |s.log| > 0;
    hide Inv, Next, Enabled, TotalLeft;
    if more == [] {
    } else {
      var front, last := more[..|more| - 1], more[|more| - 1];
      EachStepCounts(sha, s, front);
      NothingAfterExit(sha, s, more);
      NextKeeps(sha, Play(sha, s, front), last);
      if Enabled(Play(sha, s, front), last) {
        StepTaken(sha, Play(sha, s, front), last);
      } else {
        Disabled(sha, Play(sha, s, front), last);
      }
    }
  }

  lemma {:induction false} WorkersRemain(sha: Block -> Hash, n: nat, steps: seq<Step>)
    ensures |Play(sha, Initial(n), steps).workers| == n
  {
    if steps == [] {
    } else {
      WorkersRemain(sha, n, steps[..|steps| - 1]);
    }
  }

  /**
   In every run, once `stop` was called and no order follows, the workers take at most four steps each, in
   whatever order and with whatever pauses, and when none can move all have stopped.
   */
  lemma {:induction false} AllStop(sha: Block -> Hash, n: nat, before: seq<Step>, more: seq<Step>)
    requires |Play(sha, Initial(n), before).log| < VERSIONS
    requires forall j :: 0 <= j < |more| ==> !more[j].Publish?
    ensures var stopped := before + [Publish(Stop)];
            var after := Play(sha, Initial(n), stopped + more);
            && Taken(sha, Play(sha, Initial(n), stopped), more) + TotalLeft(after.workers) <= 4 * n
            && ((forall i :: 0 <= i < |after.workers| ==> after.workers[i].phase.Stopped?) <==>
                forall step :: Enabled(after, step) ==> step.Publish?)
  {
    hide Inv, Enabled, Play, Taken, TotalLeft;
    var stopped := before + [Publish(Stop)];
    EveryRun(sha, n, stopped);
    OrderPublished(sha, n, before, Stop, 0, 0);
    var s := Play(sha, Initial(n), stopped);
    PlayOn(sha, Initial(n), stopped, more);
    EachStepCounts(sha, s, more);
    WorkersRemain(sha, n, stopped);
    TotalLeftBound(s.workers);
    AtRestIff(sha, Play(sha, s, more));
  }

  // ---------- stale candidates ----------

  /** The two jobs are one up to the nonce. */
  predicate SameTemplate(a: Block, b: Block) {
    Bare(a).(nonce := b.nonce) == Bare(b)
  }

  lemma {:induction false} SealedSame(sha: Block -> Hash, a: Block, b: Block, nonce: Uint64)
    ensures Sealed(sha, a, nonce) == Sealed(sha, b, nonce) <==> SameTemplate(a, b)
  {
    if SameTemplate(a, b) {
      assert Bare(a.(nonce := nonce)) == Bare(b.(nonce := nonce));
    } else {
      assert Bare(Sealed(sha, a, nonce)) != Bare(Sealed(sha, b, nonce));
    }
  }

  /**
   A block granted against job `at` answers that job exactly when the job it was found for differs from it
   in no more than the nonce and the hash meets the later complexity; a worker that reads the version the
   grant drops is always in that case.
   */
  lemma {:induction false} GrantAnswersIff(sha: Block -> Hash, s: System, j: nat)
    requires Inv(sha, s) && j < |s.grants|
    ensures var g := s.grants[j];
            && g.readAt <= g.at < |s.log|
            && (Answers(sha, s.log[g.at], g.block) <==>
                var found, standing := s.log[g.readAt], s.log[g.at];
                && found.block.Some? && standing.block.Some? && standing.complexity.Some?
                && SameTemplate(found.block.value, standing.block.value)
                && LexLess(g.block.hash, standing.complexity.value.comparer))
            && (g.readAt == g.at ==> Answers(sha, s.log[g.at], g.block))
  {
    var g := s.grants[j];
    assert GrantOk(sha, s.log, g);
    assert EntryOk(s.log, g.at);
    hide LexLess, Sealed, SameTemplate, EntryOk;
    if s.log[g.at].block.Some? {
      SealedSame(sha, s.log[g.readAt].block.value, s.log[g.at].block.value, g.block.nonce);
    }
  }

  function StaleSteps(a: Order, b: Order, seed: Uint64): seq<Step> {
    [Publish(a), Read(0, seed), Poll(0), Try(0), Publish(b), Offer(0), Deliver(0)]
  }

  /** A worker that finds its block just after a new job came in delivers the old block and drops the new job. */
  lemma {:induction false} StaleGrant(sha: Block -> Hash, a: Order, b: Order, seed: Uint64)
    requires a.FindNonce? && b.FindNonce? && a.block.prevHash != b.block.prevHash
    requires LexLess(Sealed(sha, a.block, seed).hash, a.complexity.comparer)
    ensures var s := Play(sha, Initial(1), StaleSteps(a, b, seed));
            && s.delivered == [Sealed(sha, a.block, seed)]
            && s.log == [NOTHING, a.Data(), b.Data(), DROPPED]
            && !Answers(sha, b.Data(), s.delivered[0])
            && Jobs(StaleSteps(a, b, seed)) == 2
  {
    hide LexLess;
    var steps := StaleSteps(a, b, seed);
    var found := Sealed(sha, a.block, seed);
    var log := [NOTHING, a.Data()];
    var read := Worker(Polling, 1, a.Data(), seed, 1);
    var tried := AfterTry(sha, read);
    forall k | 0 < k <= |steps| ensures steps[..k][..k - 1] == steps[..k - 1] && steps[..k][k - 1] == steps[k - 1] {}
    assert Play(sha, Initial(1), steps[..0]) == Initial(1);
    assert Play(sha, Initial(1), steps[..1]) == System(log, Initial(1).workers, [], []);
    assert AfterRead(log, seed) == read;
    assert Play(sha, Initial(1), steps[..2]) == System(log, [read], [], []);
    assert Play(sha, Initial(1), steps[..3]) == System(log, [read.(phase := Trying)], [], []);
    assert Play(sha, Initial(1), steps[..4]) == System(log, [tried], [], []);
    assert tried.phase == Found(found);
    assert Play(sha, Initial(1), steps[..5]) == System(log + [b.Data()], [tried], [], []);
    var granted := System(log + [b.Data(), DROPPED], [tried.(phase := Delivering(found))], [Grant(found, 1, 2)], []);
    assert Play(sha, Initial(1), steps[..6]) == granted;
    assert steps[..7] == steps;
    assert Jobs(steps) == 2 by { StaleJobs(a, b, seed); }
  }

  lemma {:induction false} StaleJobs(a: Order, b: Order, seed: Uint64)
    requires a.FindNonce? && b.FindNonce?
    ensures Jobs(StaleSteps(a, b, seed)) == 2
  {
    var steps := StaleSteps(a, b, seed);
    forall k | 0 < k <= |steps| ensures steps[..k][..k - 1] == steps[..k - 1] && steps[..k][k - 1] == steps[k - 1] {}
    assert steps[..0] == [] && steps[..7] == steps;
    assert Jobs(steps[..1]) == 1;
    assert Jobs(steps[..2]) == 1;
    assert Jobs(steps[..3]) == 1;
    assert Jobs(steps[..4]) == 1;
    assert Jobs(steps[..5]) == 2;
    assert Jobs(steps[..6]) == 2;
  }
}
