/** The protocol that keeps the published views in step with the database: handlers that write
    and then trigger, a one-slot channel, a worker that cancels and restarts, and sync routines
    that serialise on a mutex. One action is one atomic step; any interleaving is a run. */
module SyncProtocol {
  import opened Prelude
  import opened Models
  import opened Views
  import ViewTheorems

  /** Contents of the two collections a sync reads. */
  datatype Db = Db(slices: seq<Raw<Slice>>, groups: seq<Raw<Group>>)

  /** A request: still running, waiting to send its trigger, or over. `last` is the newest
      database version it wrote (0 for none). */
  datatype Handler = Working(last: nat) | MustSend(last: nat) | Ended(last: nat, sent: bool)

  /** Where a sync routine is. sv and gv are the database versions it read. */
  datatype Pc =
    | Queued
    | Selecting
    | ReadingSlices
    | ReadingGroups(sv: nat)
    | Publishing(next: nat, sv: nat, gv: nat)
    | Done

  /** born: the database version current when the worker started the routine. */
  datatype Sync = Sync(pc: Pc, cancelled: bool, interval: nat, born: nat)

  /** The versions of slices and groups a field was last computed from. */
  datatype Tag = Tag(sv: nat, gv: nat)

  datatype State = State(
    history: seq<Db>,          // every committed content; the last one is current
    writers: seq<nat>,         // writers[v]: the handler that committed version v (v > 0)
    handlers: seq<Handler>,
    channel: nat,              // triggers in the one-slot buffer
    shutdown: bool,            // the server context is done
    stopped: bool,             // the worker has returned
    current: Option<nat>,      // routine whose cancel function the worker holds
    syncs: seq<Sync>,
    lock: Option<nat>,
    config: Config,
    tags: seq<Tag>)

  datatype Action =
    | Begin
    | Write(h: nat, db: Db)
    | Return(h: nat, watched: bool, verb: string, status: int)
    | Send(h: nat)
    | Shutdown
    | WorkerStop
    | WorkerReceive
    | Lock(g: nat)
    | GiveUp(g: nat)
    | TimerFires(g: nat)
    | SlicesRead(g: nat)
    | SlicesFail(g: nat)
    | GroupsRead(g: nat)
    | GroupsFail(g: nat)
    | Publish(g: nat, config: Config)

  predicate IsWritingMethod(verb: string) { verb in {"POST", "PUT", "DELETE", "PATCH"} }

  predicate IsStatusSuccess(status: int) { 200 <= status < 300 }

  function Now(s: State): nat { if s.history == [] then 0 else |s.history| - 1 }

  function SlicesAt(s: State, v: nat): seq<Slice>
    requires v < |s.history|
  {
    DecodeSlices(s.history[v].slices)
  }

  function GroupsAt(s: State, v: nat): map<string, Group>
    requires v < |s.history|
  {
    DecodeGroups(s.history[v].groups)
  }

  /** The server starts after one synchronisation that no request can disturb. */
  ghost predicate Init(s: State) {
    && |s.history| == 1 && s.writers == [0] && s.handlers == [] && s.channel == 0
    && !s.shutdown && !s.stopped && s.current == None && s.syncs == [] && s.lock == None
    && s.tags == seq(FIELDS, _ => Tag(0, 0))
    && IsProjection(SlicesAt(s, 0), GroupsAt(s, 0), s.config)
  }

  function AtPc(s: State, g: nat, pc: Pc): State
    requires g < |s.syncs|
  {
    s.(syncs := s.syncs[g := s.syncs[g].(pc := pc)])
  }

  function Cancelled(syncs: seq<Sync>, g: Option<nat>): seq<Sync>
    requires g.Some? ==> g.value < |syncs|
  {
    if g.None? then syncs else syncs[g.value := syncs[g.value].(cancelled := true)]
  }

  /** Steps of requests. A writing request on a watched route that answers 2xx must send. */
  ghost predicate HandlerStep(s: State, a: Action, t: State) {
    match a
    case Begin => t == s.(handlers := s.handlers + [Working(0)])
    case Write(h, db) =>
      && h < |s.handlers| && s.handlers[h].Working?
      && t == s.(history := s.history + [db], writers := s.writers + [h],
                 handlers := s.handlers[h := Working(|s.history|)])
    case Return(h, watched, verb, status) =>
      && h < |s.handlers| && s.handlers[h].Working?
      && t == s.(handlers := s.handlers[h :=
             if watched && IsWritingMethod(verb) && IsStatusSuccess(status)
             then MustSend(s.handlers[h].last) else Ended(s.handlers[h].last, false)])
    case Send(h) =>
      && h < |s.handlers| && s.handlers[h].MustSend? && s.channel == 0
      && t == s.(channel := 1, handlers := s.handlers[h := Ended(s.handlers[h].last, true)])
    case _ => false
  }

  /** Steps of the worker, and the end of the server context. */
  ghost predicate WorkerStep(s: State, a: Action, t: State) {
    && (s.current.Some? ==> s.current.value < |s.syncs|)
    && match a
       case Shutdown => t == s.(shutdown := true)
       case WorkerStop =>
         s.shutdown && !s.stopped && t == s.(stopped := true, syncs := Cancelled(s.syncs, s.current))
       case WorkerReceive =>
         && !s.stopped && s.channel == 1
         && t == s.(channel := 0, current := Some(|s.syncs|),
                    syncs := Cancelled(s.syncs, s.current) + [Sync(Queued, false, 0, Now(s))])
       case _ => false
  }

  /** Steps of sync routine g. With the context cancelled and the timer fired, select may take
      either branch. */
  ghost predicate SyncStep(s: State, a: Action, g: nat, t: State) {
    && g < |s.syncs|
    && var me := s.syncs[g];
       match a
       case Lock(_) => me.pc.Queued? && s.lock == None && t == AtPc(s, g, Selecting).(lock := Some(g))
       case GiveUp(_) => me.pc.Selecting? && me.cancelled && t == AtPc(s, g, Done).(lock := None)
       case TimerFires(_) => me.pc.Selecting? && t == AtPc(s, g, ReadingSlices)
       case SlicesRead(_) => me.pc.ReadingSlices? && t == AtPc(s, g, ReadingGroups(Now(s)))
       case SlicesFail(_) => me.pc.ReadingSlices? && t == Retry(s, g)
       case GroupsRead(_) => me.pc.ReadingGroups? && t == AtPc(s, g, Publishing(0, me.pc.sv, Now(s)))
       case GroupsFail(_) => me.pc.ReadingGroups? && t == Retry(s, g)
       case Publish(_, c) => me.pc.Publishing? && PublishStep(s, g, c, t)
       case _ => false
  }

  /** A failed read: wait three seconds and select again. */
  function Retry(s: State, g: nat): State
    requires g < |s.syncs|
  {
    s.(syncs := s.syncs[g := s.syncs[g].(pc := Selecting, interval := 3)])
  }

  /** Assigns the next field; after the last one the routine returns and unlocks. */
  ghost predicate PublishStep(s: State, g: nat, c: Config, t: State)
    requires g < |s.syncs| && s.syncs[g].pc.Publishing?
  {
    var p := s.syncs[g].pc;
    && p.next < FIELDS == |s.tags| && p.sv < |s.history| && p.gv < |s.history|
    && OnlyFieldChanges(p.next, s.config, c)
    && FieldIs(p.next, SlicesAt(s, p.sv), GroupsAt(s, p.gv), c)
    && t == AtPc(s, g, if p.next + 1 == FIELDS then Done else p.(next := p.next + 1)).(
              config := c, tags := s.tags[p.next := Tag(p.sv, p.gv)],
              lock := if p.next + 1 == FIELDS then None else s.lock)
  }

  ghost predicate Next(s: State, a: Action, t: State) {
    match a
    case Begin | Write(_, _) | Return(_, _, _, _) | Send(_) => HandlerStep(s, a, t)
    case Shutdown | WorkerStop | WorkerReceive => WorkerStep(s, a, t)
    case Lock(g) => SyncStep(s, a, g, t)
    case GiveUp(g) => SyncStep(s, a, g, t)
    case TimerFires(g) => SyncStep(s, a, g, t)
    case SlicesRead(g) => SyncStep(s, a, g, t)
    case SlicesFail(g) => SyncStep(s, a, g, t)
    case GroupsRead(g) => SyncStep(s, a, g, t)
    case GroupsFail(g) => SyncStep(s, a, g, t)
    case Publish(g, _) => SyncStep(s, a, g, t)
  }

  ghost predicate IsRun(run: seq<State>, actions: seq<Action>) {
    && |run| == |actions| + 1
    && Init(run[0])
    && forall i :: 0 <= i < |actions| ==> Next(run[i], actions[i], run[i + 1])
  }

  /** The last state of some run. */
  ghost predicate Reachable(s: State) {
    exists run, actions :: IsRun(run, actions) && run[|run| - 1] == s
  }

  // ---------- the invariant ----------

  predicate InCritical(pc: Pc) { !pc.Queued? && !pc.Done? }

  /** Versions are in range and every write is at most its handler's last one. */
  ghost predicate Versions(s: State) {
    && |s.history| >= 1 && |s.writers| == |s.history| && s.channel <= 1
    && (forall h :: 0 <= h < |s.handlers| ==> s.handlers[h].last < |s.history|)
    && (forall v :: 1 <= v < |s.writers| ==> s.writers[v] < |s.handlers| && v <= s.handlers[s.writers[v]].last)
  }

  /** The mutex: exactly the routine that holds it is between Lock and Unlock. */
  ghost predicate Mutex(s: State) {
    && (s.lock.Some? ==> s.lock.value < |s.syncs|)
    && forall g :: 0 <= g < |s.syncs| ==> (InCritical(s.syncs[g].pc) <==> s.lock == Some(g))
  }

  /** The worker holds the newest routine's cancel function, and that routine is cancelled only
      by the worker's own end. */
  ghost predicate NewestIsCurrent(s: State) {
    && (s.stopped ==> s.shutdown)
    && s.current == (if s.syncs == [] then None else Some(|s.syncs| - 1))
    && (!s.stopped && s.syncs != [] ==> !s.syncs[|s.syncs| - 1].cancelled)
  }

  /** Every field is a view of the versions its tag names. */
  ghost predicate TagsTellTheTruth(s: State) {
    && |s.tags| == FIELDS
    && forall k :: 0 <= k < FIELDS ==>
         && s.tags[k].sv <= s.tags[k].gv < |s.history|
         && FieldIs(k, SlicesAt(s, s.tags[k].sv), GroupsAt(s, s.tags[k].gv), s.config)
  }

  /** How far a routine's reads have gone relative to its birth and to what is published. */
  ghost predicate ReadsAreFresh(s: State, g: nat)
    requires g < |s.syncs|
  {
    var me := s.syncs[g];
    && me.born < |s.history|
    && match me.pc
       case ReadingGroups(sv) =>
         me.born <= sv < |s.history| && forall k :: 0 <= k < |s.tags| ==> s.tags[k].gv <= sv
       case Publishing(next, sv, gv) =>
         && next < FIELDS && me.born <= sv <= gv < |s.history|
         && (forall k :: 0 <= k < |s.tags| && k < next ==> s.tags[k] == Tag(sv, gv))
         && (forall k :: 0 <= k < |s.tags| && next <= k ==> s.tags[k].gv <= sv)
       case Done => !me.cancelled ==> forall k :: 0 <= k < |s.tags| ==> me.born <= s.tags[k].sv
       case _ => true
  }

  /** Unless a routine is publishing, all fields come from one pair of reads; while one is, the
      fields it has not reached do. */
  ghost predicate OnePair(s: State) {
    && |s.tags| == FIELDS
    && forall k, l :: Unreached(s) <= k < FIELDS && Unreached(s) <= l < FIELDS ==> s.tags[k] == s.tags[l]
  }

  /** The first field the routine holding the lock has not assigned yet; 0 if it is not publishing. */
  function Unreached(s: State): nat {
    if s.lock.Some? && s.lock.value < |s.syncs| && s.syncs[s.lock.value].pc.Publishing?
    then s.syncs[s.lock.value].pc.next else 0
  }

  /** A write whose trigger was sent is no newer than the newest routine, or the trigger is still
      in the channel. */
  ghost predicate TriggersCover(s: State) {
    forall h :: 0 <= h < |s.handlers| && s.handlers[h].Ended? && s.handlers[h].sent && s.channel == 0 ==>
      s.syncs != [] && s.handlers[h].last <= s.syncs[|s.syncs| - 1].born
  }

  ghost predicate Inv(s: State) {
    && Versions(s) && Mutex(s) && NewestIsCurrent(s) && TagsTellTheTruth(s) && OnePair(s) && TriggersCover(s)
    && forall g :: 0 <= g < |s.syncs| ==> ReadsAreFresh(s, g)
  }

  // ---------- what every run keeps ----------

  /** Routine g is between Lock and Unlock. */
  predicate Inside(s: State, g: nat) { g < |s.syncs| && InCritical(s.syncs[g].pc) }

  /** At most one routine is between Lock and Unlock. */
  lemma MutualExclusion(s: State, g: nat, f: nat)
    requires Reachable(s) && Inside(s, g) && Inside(s, f)
    ensures g == f && s.lock == Some(g)
  {
    ReachableInv(s);
  }

  /** While nobody holds the lock, all six views come from one read of the slices and one later
      or simultaneous read of the groups. */
  lemma UnlockedViewsAreOneSnapshot(s: State)
    requires Reachable(s) && s.lock == None
    ensures exists sv: nat, gv: nat :: sv <= gv < |s.history| && IsProjection(SlicesAt(s, sv), GroupsAt(s, gv), s.config)
  {
    ReachableInv(s);
    var t := s.tags[0];
    assert Unreached(s) == 0;
    forall k | 0 <= k < FIELDS ensures FieldIs(k, SlicesAt(s, t.sv), GroupsAt(s, t.gv), s.config) {
      assert s.tags[k] == t;
    }
  }

  ghost predicate NoOlder(s: State, t: State) {
    |s.tags| == |t.tags| && forall k :: 0 <= k < |s.tags| ==> s.tags[k].sv <= t.tags[k].sv && s.tags[k].gv <= t.tags[k].gv
  }

  lemma NextNoOlder(s: State, a: Action, t: State)
    requires Inv(s) && Next(s, a, t)
    ensures NoOlder(s, t)
  {
    if a.Publish? {
      assert ReadsAreFresh(s, a.g);
    }
  }

  lemma NoOlderTransitive(s: State, t: State, u: State)
    requires NoOlder(s, t) && NoOlder(t, u)
    ensures NoOlder(s, u)
  {
  }

  lemma NoOlderThanItself(s: State)
    ensures NoOlder(s, s)
  {
  }

  /** Whichever routine publishes, an older or a cancelled one included, no field ever goes back
      to an earlier version of the slices or of the groups. */
  lemma {:induction false} VersionsNeverGoBack(run: seq<State>, actions: seq<Action>, i: nat, j: nat)
    requires IsRun(run, actions) && i <= j < |run|
    ensures NoOlder(run[i], run[j])
    decreases j - i
  {
    hide NoOlder, Next, Init, Inv;
    NoOlderThanItself(run[i]);
    if i < j {
      VersionsNeverGoBack(run, actions, i, j - 1);
      RunInv(run, actions, j - 1);
      NextNoOlder(run[j - 1], actions[j - 1], run[j]);
      NoOlderTransitive(run[i], run[j - 1], run[j]);
    }
  }

  /** From Lock to any point at which the routine has not reached publication, in particular
      through any number of failed reads, no view changes. */
  lemma {:induction false} FailedReadsAreInvisible(run: seq<State>, actions: seq<Action>, i: nat, j: nat, g: nat)
    requires IsRun(run, actions) && i <= j < |run|
    requires forall m :: i <= m <= j ==> run[m].lock == Some(g) && g < |run[m].syncs| && !run[m].syncs[g].pc.Publishing?
    ensures run[j].config == run[i].config && run[j].tags == run[i].tags
    decreases j - i
  {
    hide Init, Next, Inv;
    if i < j {
      FailedReadsAreInvisible(run, actions, i, j - 1, g);
      RunInv(run, actions, j - 1);
      assert Next(run[j - 1], actions[j - 1], run[j]);
      OnlyTheHolderPublishes(run[j - 1], actions[j - 1], run[j], g);
    }
  }

  lemma OnlyTheHolderPublishes(s: State, a: Action, t: State, g: nat)
    requires Inv(s) && Next(s, a, t) && s.lock == Some(g) && g < |s.syncs| && !s.syncs[g].pc.Publishing?
    ensures t.config == s.config && t.tags == s.tags
  {
    hide TagsTellTheTruth, ReadsAreFresh, FieldIs, Versions, TriggersCover, OnePair, NewestIsCurrent, DecodeSlices, DecodeGroups;
  }

  /** The trigger of an answered request is still owed, or has been sent. */
  predicate Answered(s: State, h: nat) {
    h < |s.handlers| && (s.handlers[h].MustSend? || (s.handlers[h].Ended? && s.handlers[h].sent))
  }

  function Sent(hs: seq<Handler>): nat {
    if hs == [] then 0 else Sent(hs[..|hs| - 1]) + if hs[|hs| - 1].Ended? && hs[|hs| - 1].sent then 1 else 0
  }

  /** No trigger is lost and none is merged with another: every one sent has started its own
      routine, or is the one that waits in the channel. */
  lemma {:induction false} EveryTriggerStartsARoutine(run: seq<State>, actions: seq<Action>, i: nat)
    requires IsRun(run, actions) && i < |run|
    ensures Sent(run[i].handlers) == |run[i].syncs| + run[i].channel && run[i].channel <= 1
  {
    hide Next, IsProjection;
    if i > 0 {
      EveryTriggerStartsARoutine(run, actions, i - 1);
      assert Next(run[i - 1], actions[i - 1], run[i]);
      SentStep(run[i - 1], actions[i - 1], run[i]);
    }
  }

  /** The worker has cancelled every routine but the newest one, and when it returns that one too. */
  lemma {:induction false} OnlyTheNewestGoesOn(run: seq<State>, actions: seq<Action>, i: nat, g: nat)
    requires IsRun(run, actions) && i < |run| && g < |run[i].syncs|
    ensures run[i].syncs[g].cancelled <==> g + 1 < |run[i].syncs| || run[i].stopped
  {
    hide Next, Inv, IsProjection;
    if i > 0 {
      RunInv(run, actions, i - 1);
      assert Next(run[i - 1], actions[i - 1], run[i]);
      if g < |run[i - 1].syncs| { OnlyTheNewestGoesOn(run, actions, i - 1, g); }
      CancelStep(run[i - 1], actions[i - 1], run[i], g);
    }
  }

  /** Once the worker has returned no routine starts. */
  lemma {:induction false} StoppedWorkerStartsNothing(run: seq<State>, actions: seq<Action>, i: nat, j: nat)
    requires IsRun(run, actions) && i <= j < |run| && run[i].stopped
    ensures run[j].stopped && |run[j].syncs| == |run[i].syncs|
    decreases j
  {
    hide Init, FieldIs;
    if i < j {
      StoppedWorkerStartsNothing(run, actions, i, j - 1);
      assert Next(run[j - 1], actions[j - 1], run[j]);
    }
  }

  /** Routine g waits to start over, or has given up. */
  predicate StartsOver(s: State, g: nat) {
    g < |s.syncs| && s.syncs[g].interval == 3 && s.syncs[g].pc in {Selecting, ReadingSlices, Done}
  }

  /** After a failed read, of the slices or of the groups, a routine waits three seconds and reads
      both again: it does not come to the groups before it has read the slices. */
  lemma {:induction false} FailedReadStartsOver(run: seq<State>, actions: seq<Action>, i: nat, j: nat, g: nat)
    requires IsRun(run, actions) && i < j < |run| && actions[i] in {SlicesFail(g), GroupsFail(g)}
    requires forall k :: i < k < j ==> actions[k] != SlicesRead(g)
    ensures StartsOver(run[j], g)
    decreases j
  {
    hide Init, Next, StartsOver;
    assert Next(run[j - 1], actions[j - 1], run[j]);
    if i + 1 < j { FailedReadStartsOver(run, actions, i, j - 1, g); }
    StartsOverStep(run[j - 1], actions[j - 1], run[j], g);
  }

  /** Version v was committed by a request that answered a watched write with a 2xx status. */
  predicate Triggered(s: State, v: nat) {
    1 <= v < |s.writers| && Answered(s, s.writers[v])
  }

  /** No trigger is waiting, every routine has returned, and the server is not shutting down. */
  predicate Quiescent(s: State) {
    && s.channel == 0 && !s.shutdown
    && (forall h :: 0 <= h < |s.handlers| ==> !s.handlers[h].MustSend?)
    && (forall g :: 0 <= g < |s.syncs| ==> s.syncs[g].pc.Done?)
  }

  /** Once quiet, every view is at least as new as every write that triggered. */
  lemma QuietViewsAreFresh(s: State, v: nat, k: nat)
    requires Reachable(s) && Quiescent(s) && Triggered(s, v) && k < FIELDS
    ensures |s.tags| == FIELDS && v <= s.tags[k].sv <= s.tags[k].gv < |s.history|
  {
    ReachableInv(s);
    assert TriggersCover(s) && s.syncs != [];
    assert ReadsAreFresh(s, |s.syncs| - 1);
  }

  /** The newest version, if any was committed, was committed by a triggering request. */
  predicate NewestTriggered(s: State) { Now(s) == 0 || Triggered(s, Now(s)) }

  /** All six views are those of the current database. */
  ghost predicate UpToDate(s: State) {
    |s.history| >= 1 && IsProjection(SlicesAt(s, Now(s)), GroupsAt(s, Now(s)), s.config)
  }

  /** Convergence: in every interleaving, if the newest version was committed by a triggering
      request (or nothing was written), a quiet state publishes the projection of the current
      database in all six views. */
  lemma Convergence(s: State)
    requires Reachable(s) && Quiescent(s) && NewestTriggered(s)
    ensures UpToDate(s)
  {
    ReachableInv(s);
    forall k | 0 <= k < FIELDS ensures FieldIs(k, SlicesAt(s, Now(s)), GroupsAt(s, Now(s)), s.config) {
      if Now(s) != 0 { QuietViewsAreFresh(s, Now(s), k); }
      assert s.tags[k] == Tag(Now(s), Now(s));
    }
  }

  /** Answering a request leaves a trigger to be sent, for every version the request wrote, if and
      only if it came in on a watched route with a writing method and the answer is 2xx. */
  lemma ReturnTriggersIff(s: State, h: nat, watched: bool, verb: string, status: int, t: State)
    requires Next(s, Return(h, watched, verb, status), t)
    ensures h < |t.handlers| && t.history == s.history && t.writers == s.writers
    ensures t.handlers[h].MustSend? <==>
            watched && verb in {"POST", "PUT", "DELETE", "PATCH"} && status / 100 == 2
    ensures t.handlers[h].MustSend? || (t.handlers[h].Ended? && !t.handlers[h].sent)
    ensures forall v :: 1 <= v < |t.writers| && t.writers[v] == h ==> (Triggered(t, v) <==> t.handlers[h].MustSend?)
  {
  }

  /** The last write of a run is on view in its quiet last state, in all six fields, if its request
      came in on a watched route with a writing method and was answered 2xx. */
  lemma AnsweredWriteShows(run: seq<State>, actions: seq<Action>, h: nat, i: nat, db: Db, j: nat, verb: string, status: int)
    requires IsRun(run, actions) && Quiescent(run[|actions|])
    requires i < |actions| && actions[i] == Write(h, db) && forall k :: i < k < |actions| ==> !actions[k].Write?
    requires j < |actions| && actions[j] == Return(h, true, verb, status)
    requires verb in {"POST", "PUT", "DELETE", "PATCH"} && 200 <= status <= 299
    ensures IsProjection(DecodeSlices(db.slices), DecodeGroups(db.groups), run[|actions|].config)
  {
    hide Init, UpToDate, IsProjection, Next;
    var last := run[|actions|];
    assert Next(run[i], actions[i], run[i + 1]) && Next(run[j], actions[j], run[j + 1]);
    RunInv(run, actions, i);
    WrittenLast(run[i], h, db, run[i + 1]);
    LastWriteStays(run, actions, i + 1, |actions|);
    ReturnTriggersIff(run[j], h, true, verb, status, run[j + 1]);
    AnswerStays(run, actions, j + 1, |actions|, h);
    assert IsRun(run, actions) && run[|run| - 1] == last;
    Convergence(last);
    UpToDateShows(last, db);
  }

  /** Each condition is needed: a request that writes and misses one of them leaves a quiet state
      whose views still show the content before the write. */
  lemma UntriggeredWriteStaysUnseen(s0: State, db: Db, watched: bool, verb: string, status: int)
    returns (run: seq<State>, actions: seq<Action>)
    requires Init(s0) && !(watched && verb in {"POST", "PUT", "DELETE", "PATCH"} && 200 <= status <= 299)
    ensures IsRun(run, actions) && run[0] == s0 && actions == [Begin, Write(0, db), Return(0, watched, verb, status)]
    ensures var t := run[|run| - 1]; Quiescent(t) && Now(t) == 1 && t.history[1] == db && t.config == s0.config
  {
    var s1 := s0.(handlers := [Working(0)]);
    var s2 := s1.(history := s1.history + [db], writers := s1.writers + [0], handlers := [Working(1)]);
    var s3 := s2.(handlers := [Ended(1, false)]);
    assert s1.handlers[0 := Working(1)] == s2.handlers && s2.handlers[0 := Ended(1, false)] == s3.handlers;
    run := [s0, s1, s2, s3];
    actions := [Begin, Write(0, db), Return(0, watched, verb, status)];
    assert Next(s0, Begin, s1) && Next(s1, Write(0, db), s2) && Next(s2, Return(0, watched, verb, status), s3);
  }

  // ---------- every run can settle ----------

  /** Steps requests still owe: a return and perhaps a send. */
  function Owed(hs: seq<Handler>): nat {
    if hs == [] then 0 else Owed(hs[..|hs| - 1]) + OwedBy(hs[|hs| - 1])
  }

  function OwedBy(h: Handler): nat { if h.Working? then 2 else if h.MustSend? then 1 else 0 }

  /** Steps a routine still has to take when its reads succeed. */
  function Remaining(pc: Pc): nat {
    match pc
    case Queued => 12
    case Selecting => 11
    case ReadingSlices => 10
    case ReadingGroups(_) => 9
    case Publishing(next, _, _) => if next < FIELDS then 8 - next else 1
    case Done => 0
  }

  function Work(syncs: seq<Sync>): nat {
    if syncs == [] then 0 else Work(syncs[..|syncs| - 1]) + Remaining(syncs[|syncs| - 1].pc)
  }

  lemma {:induction false} WorkUpdate(syncs: seq<Sync>, g: nat, x: Sync)
    requires g < |syncs|
    ensures Work(syncs[g := x]) == Work(syncs) - Remaining(syncs[g].pc) + Remaining(x.pc)
  {
    var n := |syncs| - 1;
    if g == n {
      assert syncs[g := x][..n] == syncs[..n];
    } else {
      assert syncs[g := x][..n] == syncs[..n][g := x];
      WorkUpdate(syncs[..n], g, x);
    }
  }

  lemma {:induction false} OwedUpdate(hs: seq<Handler>, h: nat, x: Handler)
    requires h < |hs|
    ensures Owed(hs[h := x]) == Owed(hs) - OwedBy(hs[h]) + OwedBy(x)
  {
    var n := |hs| - 1;
    if h == n {
      assert hs[h := x][..n] == hs[..n];
    } else {
      assert hs[h := x][..n] == hs[..n][h := x];
      OwedUpdate(hs[..n], h, x);
    }
  }

  ghost predicate IsPath(path: seq<State>, actions: seq<Action>) {
    && |path| == |actions| + 1
    && forall i :: 0 <= i < |actions| ==> Next(path[i], actions[i], path[i + 1])
  }

  /** Steps that need no new request and no luck beyond reads that succeed. */
  predicate Internal(a: Action) {
    a.Send? || a.WorkerReceive? || a.Lock? || a.TimerFires? || a.SlicesRead? || a.GroupsRead? || a.Publish?
  }

  /** Every step but a new request, a write, the shutdown and a failed read. */
  predicate Settling(a: Action) { Internal(a) || a.Return? || a.GiveUp? }

  ghost predicate CanStep(s: State) {
    exists a, t :: Internal(a) && Next(s, a, t)
  }

  /** t has the content of s and every trigger of s, and is nearer to quiet. */
  ghost predicate Nearer(s: State, t: State) {
    && KeepsWrites(s, t)
    && (Owed(t.handlers) < Owed(s.handlers)
        || (t.handlers == s.handlers && t.channel < s.channel)
        || (t.handlers == s.handlers && t.channel == s.channel && Work(t.syncs) < Work(s.syncs)))
  }

  ghost predicate KeepsWrites(s: State, t: State) {
    && t.history == s.history && t.writers == s.writers && t.shutdown == s.shutdown
    && forall v :: Triggered(s, v) ==> Triggered(t, v)
  }

  lemma SettlingStepKeepsWrites(s: State, a: Action, t: State)
    requires Next(s, a, t) && Settling(a)
    ensures KeepsWrites(s, t)
  {
    hide FieldIs, OnlyFieldChanges, DecodeSlices, DecodeGroups;
  }

  /** Whoever takes it, a settling step commits nothing and brings the system nearer to quiet. */
  lemma SettlingStepIsNearer(s: State, a: Action, t: State)
    requires Next(s, a, t) && Settling(a)
    ensures Nearer(s, t)
  {
    hide KeepsWrites, FieldIs, OnlyFieldChanges, DecodeSlices, DecodeGroups;
    SettlingStepKeepsWrites(s, a, t);
    if a.Return? || a.Send? {
      OwedUpdate(s.handlers, a.h, t.handlers[a.h]);
    } else if !a.WorkerReceive? {
      RoutineStepIsNearer(s, a, a.g, t);
    }
  }

  lemma RoutineStepIsNearer(s: State, a: Action, g: nat, t: State)
    requires SyncStep(s, a, g, t) && !a.SlicesFail? && !a.GroupsFail?
    ensures t.handlers == s.handlers && t.channel == s.channel && Work(t.syncs) < Work(s.syncs)
  {
    hide FieldIs, OnlyFieldChanges, DecodeSlices, DecodeGroups;
    WorkUpdate(s.syncs, g, t.syncs[g]);
  }

  /** The routine that holds the lock can always take its next step. */
  lemma HolderCanStep(s: State, g: nat)
    requires Inv(s) && s.lock == Some(g)
    ensures CanStep(s)
  {
    hide TagsTellTheTruth, FieldIs, NewestIsCurrent, TriggersCover, DecodeSlices, DecodeGroups, OnlyFieldChanges;
    var p := s.syncs[g].pc;
    assert ReadsAreFresh(s, g) && InCritical(p);
    match p
    case Selecting => assert Next(s, TimerFires(g), AtPc(s, g, ReadingSlices));
    case ReadingSlices => assert Next(s, SlicesRead(g), AtPc(s, g, ReadingGroups(Now(s))));
    case ReadingGroups(sv) => assert Next(s, GroupsRead(g), AtPc(s, g, Publishing(0, sv, Now(s))));
    case Publishing(next, sv, gv) =>
      var c := ViewTheorems.FieldExists(next, SlicesAt(s, sv), GroupsAt(s, gv), s.config);
      var last := next + 1 == FIELDS;
      var t := AtPc(s, g, if last then Done else p.(next := next + 1)).(
        config := c, tags := s.tags[next := Tag(sv, gv)], lock := if last then None else s.lock);
      assert Next(s, Publish(g, c), t);
  }

  /** No deadlock: unless everything is quiet, some internal step can be taken. A full channel
      never blocks for good, because the worker does not take the mutex. */
  lemma SomeProgress(s: State)
    requires Reachable(s) && !s.shutdown && !Quiescent(s)
    ensures CanStep(s)
  {
    hide TagsTellTheTruth, FieldIs, TriggersCover, OnePair, ReadsAreFresh, Reachable;
    ReachableInv(s);
    if s.lock.Some? {
      HolderCanStep(s, s.lock.value);
    } else if g :| 0 <= g < |s.syncs| && s.syncs[g].pc.Queued? {
      assert Next(s, Lock(g), AtPc(s, g, Selecting).(lock := Some(g)));
    } else if s.channel == 1 {
      assert Next(s, WorkerReceive, s.(channel := 0, current := Some(|s.syncs|),
                                       syncs := Cancelled(s.syncs, s.current) + [Sync(Queued, false, 0, Now(s))]));
    } else {
      var h :| 0 <= h < |s.handlers| && s.handlers[h].MustSend?;
      assert Next(s, Send(h), s.(channel := 1, handlers := s.handlers[h := Ended(s.handlers[h].last, true)]));
    }
  }

  /** From every reachable state before shutdown the system can run on, without any new request,
      to a quiet state; if the newest version triggered, that state publishes its projection. */
  lemma {:induction false} EveryRunCanConverge(s: State) returns (path: seq<State>, actions: seq<Action>)
    requires Reachable(s) && !s.shutdown
    ensures IsPath(path, actions) && path[0] == s
    ensures forall i :: 0 <= i < |actions| ==> Internal(actions[i])
    ensures var t := path[|path| - 1]; Quiescent(t) && KeepsWrites(s, t) && (NewestTriggered(s) ==> UpToDate(t))
    decreases Owed(s.handlers), s.channel, Work(s.syncs)
  {
    hide Reachable, Next, UpToDate;
    if Quiescent(s) {
      path, actions := [s], [];
      if NewestTriggered(s) { Convergence(s); }
    } else {
      SomeProgress(s);
      var a, t :| Internal(a) && Next(s, a, t);
      SettlingStepIsNearer(s, a, t);
      NextReachable(s, a, t);
      var rest, acts := EveryRunCanConverge(t);
      path, actions := [s] + rest, [a] + acts;
      forall i | 0 <= i < |actions| ensures Next(path[i], actions[i], path[i + 1]) && Internal(actions[i]) {
        if i > 0 { assert Next(rest[i - 1], acts[i - 1], rest[i]); }
      }
    }
  }

  /** The other side of UntriggeredWriteStaysUnseen: from every initial state there is a run in which
      a request writes, is answered so that it triggers, and is on view in the quiet last state. */
  lemma AnsweredWriteCanShow(s0: State, db: Db, verb: string, status: int) returns (run: seq<State>, actions: seq<Action>)
    requires Init(s0) && verb in {"POST", "PUT", "DELETE", "PATCH"} && 200 <= status <= 299
    ensures IsRun(run, actions) && run[0] == s0 && [Begin, Write(0, db), Return(0, true, verb, status)] <= actions
    ensures forall i :: 3 <= i < |actions| ==> Internal(actions[i])
    ensures Quiescent(run[|actions|]) && IsProjection(DecodeSlices(db.slices), DecodeGroups(db.groups), run[|actions|].config)
  {
    hide Init, Reachable, IsProjection;
    var s, first := WriteAndAnswer(s0, db, verb, status);
    var start := [Begin, Write(0, db), Return(0, true, verb, status)];
    assert IsRun(first, start) && first[|first| - 1] == s;
    assert Reachable(s) by { EndIsReachable(first, start); }
    var path, acts := EveryRunCanConverge(s);
    run, actions := first[..3] + path, start + acts;
    forall i | 0 <= i < |actions| ensures Next(run[i], actions[i], run[i + 1]) {
      if i < 3 {
        assert Next(first[i], start[i], first[i + 1]);
        assert run[i + 1] == first[i + 1];
      } else {
        assert Next(path[i - 3], acts[i - 3], path[i - 2]);
      }
    }
    UpToDateShows(run[|actions|], db);
  }

  // ---------- every fair schedule does settle ----------

  /** One step of a schedule; None is a moment at which nobody runs. */
  ghost predicate Moves(s: State, a: Option<Action>, t: State) {
    if a.None? then t == s else Next(s, a.value, t)
  }

  /** An infinite interleaving. */
  ghost predicate IsSchedule(run: nat -> State, act: nat -> Option<Action>) {
    Init(run(0)) && forall i: nat {:trigger act(i)} :: Moves(run(i), act(i), run(i + 1))
  }

  /** From n on no new request, no write, no shutdown and no failed read. */
  ghost predicate SettlesFrom(act: nat -> Option<Action>, n: nat) {
    forall i: nat :: n <= i && act(i).Some? ==> Settling(act(i).value)
  }

  /** From n on, while an internal step can be taken somebody takes some step sooner or later. */
  ghost predicate Fair(run: nat -> State, act: nat -> Option<Action>, n: nat) {
    forall i: nat :: n <= i && CanStep(run(i)) ==> exists j: nat :: i <= j && act(j).Some?
  }

  ghost predicate NobodyRuns(act: nat -> Option<Action>, n: nat, k: nat) {
    forall i: nat :: n <= i < k ==> act(i).None?
  }

  /** At m everything is quiet, and nothing changes any more. */
  ghost predicate RestsFrom(run: nat -> State, m: nat) {
    Quiescent(run(m)) && forall k: nat :: m <= k ==> run(k) == run(m)
  }

  /** Every schedule that is fair to internal steps and has finitely many requests, writes and
      failed reads comes to rest, with all content committed so far; if the newest version
      triggered, the views at rest, and for ever, are those of that content. */
  lemma {:induction false} EveryFairScheduleConverges(run: nat -> State, act: nat -> Option<Action>, n: nat) returns (m: nat)
    requires IsSchedule(run, act) && !run(n).shutdown && SettlesFrom(act, n) && Fair(run, act, n)
    ensures n <= m && RestsFrom(run, m) && KeepsWrites(run(n), run(m))
    ensures NewestTriggered(run(m)) ==> UpToDate(run(m))
    decreases Owed(run(n).handlers), run(n).channel, Work(run(n).syncs)
  {
    hide Reachable, Next, UpToDate;
    ScheduleReaches(run, act, n);
    if j: nat :| n <= j && act(j).Some? {
      var k := FirstStep(act, n, j);
      NothingChanges(run, act, n, k);
      assert Moves(run(k), act(k), run(k + 1));
      SettlingStepIsNearer(run(k), act(k).value, run(k + 1));
      m := EveryFairScheduleConverges(run, act, k + 1);
    } else {
      m := n;
      forall k: nat | n <= k ensures run(k) == run(n) { NothingChanges(run, act, n, k); }
      if !Quiescent(run(n)) { SomeProgress(run(n)); }
      if NewestTriggered(run(n)) { Convergence(run(n)); }
    }
  }

  lemma {:induction false} ScheduleReaches(run: nat -> State, act: nat -> Option<Action>, i: nat)
    requires IsSchedule(run, act)
    ensures Reachable(run(i))
  {
    hide Next, Init;
    if i == 0 {
      assert IsRun([run(0)], []);
    } else {
      ScheduleReaches(run, act, i - 1);
      assert Moves(run(i - 1), act(i - 1), run(i));
      if act(i - 1).Some? { NextReachable(run(i - 1), act(i - 1).value, run(i)); }
    }
  }

  lemma {:induction false} NothingChanges(run: nat -> State, act: nat -> Option<Action>, n: nat, k: nat)
    requires IsSchedule(run, act) && n <= k && NobodyRuns(act, n, k)
    ensures run(k) == run(n)
    decreases k
  {
    if n < k {
      NothingChanges(run, act, n, k - 1);
      assert Moves(run(k - 1), act(k - 1), run(k));
    }
  }

  /** The first step taken at or after n. */
  lemma {:induction false} FirstStep(act: nat -> Option<Action>, n: nat, j: nat) returns (k: nat)
    requires n <= j && act(j).Some?
    ensures n <= k && act(k).Some? && NobodyRuns(act, n, k)
    decreases j - n
  {
    if act(n).Some? { k := n; } else { k := FirstStep(act, n + 1, j); }
  }

  lemma WrittenLast(s: State, h: nat, db: Db, t: State)
    requires Next(s, Write(h, db), t)
    ensures t.history == s.history + [db] && t.writers == s.writers + [h]
  {
  }

  lemma UpToDateShows(s: State, db: Db)
    requires UpToDate(s) && s.history != [] && s.history[|s.history| - 1] == db
    ensures IsProjection(DecodeSlices(db.slices), DecodeGroups(db.groups), s.config)
  {
  }

  lemma {:induction false} SentUpdate(hs: seq<Handler>, h: nat, x: Handler)
    requires h < |hs| && !(hs[h].Ended? && hs[h].sent)
    ensures Sent(hs[h := x]) == Sent(hs) + if x.Ended? && x.sent then 1 else 0
  {
    var n := |hs| - 1;
    if h == n {
      assert hs[h := x][..n] == hs[..n];
    } else {
      assert hs[h := x][..n] == hs[..n][h := x];
      SentUpdate(hs[..n], h, x);
    }
  }

  lemma CancelStep(s: State, a: Action, t: State, g: nat)
    requires Inv(s) && Next(s, a, t) && g < |t.syncs|
    requires g < |s.syncs| ==> (s.syncs[g].cancelled <==> g + 1 < |s.syncs| || s.stopped)
    ensures t.syncs[g].cancelled <==> g + 1 < |t.syncs| || t.stopped
  {
    hide TagsTellTheTruth, ReadsAreFresh, FieldIs, Versions, TriggersCover, OnePair, Mutex, OnlyFieldChanges, DecodeSlices, DecodeGroups;
  }

  lemma StartsOverStep(s: State, a: Action, t: State, g: nat)
    requires Next(s, a, t)
    ensures a in {SlicesFail(g), GroupsFail(g)} ==> StartsOver(t, g)
    ensures StartsOver(s, g) && a != SlicesRead(g) ==> StartsOver(t, g)
  {
    hide FieldIs, OnlyFieldChanges, DecodeSlices, DecodeGroups;
  }

  lemma PublishingSendsNothing(s: State, g: nat, c: Config, t: State)
    requires SyncStep(s, Publish(g, c), g, t)
    ensures t.handlers == s.handlers && t.channel == s.channel && |t.syncs| == |s.syncs|
  {
    hide FieldIs, OnlyFieldChanges, DecodeSlices, DecodeGroups;
  }

  lemma SentStep(s: State, a: Action, t: State)
    requires Next(s, a, t) && Sent(s.handlers) == |s.syncs| + s.channel && s.channel <= 1
    ensures Sent(t.handlers) == |t.syncs| + t.channel && t.channel <= 1
  {
    hide PublishStep, FieldIs, OnlyFieldChanges, DecodeSlices, DecodeGroups;
    if a.Publish? {
      PublishingSendsNothing(s, a.g, a.config, t);
    } else if a.Begin? {
      assert t.handlers[..|s.handlers|] == s.handlers;
    } else if a.Write? || a.Return? || a.Send? {
      SentUpdate(s.handlers, a.h, t.handlers[a.h]);
    }
  }

  lemma {:induction false} LastWriteStays(run: seq<State>, actions: seq<Action>, i: nat, j: nat)
    requires IsRun(run, actions) && i <= j < |run| && forall k :: i <= k < j ==> !actions[k].Write?
    ensures run[j].history == run[i].history && run[j].writers == run[i].writers
    decreases j
  {
    hide Init, Next;
    if i < j {
      LastWriteStays(run, actions, i, j - 1);
      assert Next(run[j - 1], actions[j - 1], run[j]);
      OnlyWritesWrite(run[j - 1], actions[j - 1], run[j]);
    }
  }

  lemma OnlyWritesWrite(s: State, a: Action, t: State)
    requires Next(s, a, t) && !a.Write?
    ensures t.history == s.history && t.writers == s.writers
  {
    hide FieldIs, OnlyFieldChanges, DecodeSlices, DecodeGroups;
  }

  lemma {:induction false} AnswerStays(run: seq<State>, actions: seq<Action>, i: nat, j: nat, h: nat)
    requires IsRun(run, actions) && i <= j < |run| && Answered(run[i], h)
    ensures Answered(run[j], h)
    decreases j
  {
    hide Init, Next, Answered;
    if i < j {
      AnswerStays(run, actions, i, j - 1, h);
      assert Next(run[j - 1], actions[j - 1], run[j]);
      AnswerStep(run[j - 1], actions[j - 1], run[j], h);
    }
  }

  lemma AnswerStep(s: State, a: Action, t: State, h: nat)
    requires Next(s, a, t) && Answered(s, h)
    ensures Answered(t, h)
  {
    hide FieldIs, OnlyFieldChanges, DecodeSlices, DecodeGroups;
  }

  // ---------- every step keeps the invariant ----------

  lemma InitInv(s: State)
    requires Init(s)
    ensures Inv(s)
  {
  }

  lemma TruthFrame(s: State, t: State)
    requires TagsTellTheTruth(s)
    requires t.tags == s.tags && t.config == s.config
    requires |s.history| <= |t.history| && t.history[..|s.history|] == s.history
    ensures TagsTellTheTruth(t)
  {
    forall k | 0 <= k < FIELDS
      ensures t.tags[k].sv <= t.tags[k].gv < |t.history|
      ensures FieldIs(k, SlicesAt(t, t.tags[k].sv), GroupsAt(t, t.tags[k].gv), t.config)
    {
      assert t.history[s.tags[k].sv] == s.history[s.tags[k].sv] && t.history[s.tags[k].gv] == s.history[s.tags[k].gv];
      assert FieldIs(k, SlicesAt(s, s.tags[k].sv), GroupsAt(s, s.tags[k].gv), s.config);
    }
  }

  lemma FreshFrame(s: State, t: State, g: nat)
    requires g < |s.syncs| && ReadsAreFresh(s, g)
    requires g < |t.syncs| && t.syncs[g] in {s.syncs[g], s.syncs[g].(cancelled := true)}
    requires t.tags == s.tags && |s.history| <= |t.history|
    ensures ReadsAreFresh(t, g)
  {
  }

  lemma HandlerStepBookkeeping(s: State, a: Action, t: State)
    requires Inv(s) && HandlerStep(s, a, t)
    ensures Versions(t) && TriggersCover(t)
  {
  }

  lemma HandlerStepInv(s: State, a: Action, t: State)
    requires Inv(s) && HandlerStep(s, a, t)
    ensures Inv(t)
  {
    HandlerStepBookkeeping(s, a, t);
    TruthFrame(s, t);
    forall g | 0 <= g < |t.syncs| ensures ReadsAreFresh(t, g) { FreshFrame(s, t, g); }
  }

  lemma WorkerStepStructure(s: State, a: Action, t: State)
    requires Inv(s) && WorkerStep(s, a, t)
    ensures Versions(t) && Mutex(t) && NewestIsCurrent(t) && Unreached(t) == Unreached(s)
  {
  }

  lemma WorkerStepInv(s: State, a: Action, t: State)
    requires Inv(s) && WorkerStep(s, a, t)
    ensures Inv(t)
  {
    WorkerStepStructure(s, a, t);
    TruthFrame(s, t);
    forall g | 0 <= g < |t.syncs| ensures ReadsAreFresh(t, g) {
      if g < |s.syncs| { FreshFrame(s, t, g); }
    }
  }

  lemma OwnStepStructure(s: State, a: Action, g: nat, t: State)
    requires Inv(s) && SyncStep(s, a, g, t) && !a.Publish?
    ensures Versions(t) && Mutex(t) && NewestIsCurrent(t) && TriggersCover(t)
    ensures OnePair(t)
  {
    hide TagsTellTheTruth, ReadsAreFresh, PublishStep;
  }

  lemma OwnStepInv(s: State, a: Action, g: nat, t: State)
    requires Inv(s) && SyncStep(s, a, g, t) && !a.Publish?
    ensures Inv(t)
  {
    OwnStepStructure(s, a, g, t);
    TruthFrame(s, t);
    forall f | 0 <= f < |t.syncs| ensures ReadsAreFresh(t, f) {
      if f != g { FreshFrame(s, t, f); } else { assert ReadsAreFresh(s, g); }
    }
  }

  lemma OtherFieldsStay(j: nat, k: nat, slices: seq<Slice>, groups: map<string, Group>, c: Config, d: Config)
    requires j < FIELDS && k < FIELDS && j != k && OnlyFieldChanges(j, c, d) && FieldIs(k, slices, groups, c)
    ensures FieldIs(k, slices, groups, d)
  {
  }

  lemma PublishKeepsTruth(s: State, g: nat, c: Config, t: State)
    requires Inv(s) && SyncStep(s, Publish(g, c), g, t)
    ensures TagsTellTheTruth(t)
  {
    assert ReadsAreFresh(s, g);
    var p := s.syncs[g].pc;
    forall k | 0 <= k < FIELDS
      ensures t.tags[k].sv <= t.tags[k].gv < |t.history|
      ensures FieldIs(k, SlicesAt(t, t.tags[k].sv), GroupsAt(t, t.tags[k].gv), t.config)
    {
      if k != p.next {
        OtherFieldsStay(p.next, k, SlicesAt(s, s.tags[k].sv), GroupsAt(s, s.tags[k].gv), s.config, c);
      }
    }
  }

  lemma PublishStructure(s: State, g: nat, c: Config, t: State)
    requires Inv(s) && SyncStep(s, Publish(g, c), g, t)
    ensures Versions(t) && Mutex(t) && NewestIsCurrent(t) && TriggersCover(t) && OnePair(t)
  {
    hide TagsTellTheTruth, FieldIs, OnlyFieldChanges, DecodeSlices, DecodeGroups;
    assert ReadsAreFresh(s, g);
  }

  lemma PublishInv(s: State, g: nat, c: Config, t: State)
    requires Inv(s) && SyncStep(s, Publish(g, c), g, t)
    ensures Inv(t)
  {
    hide FieldIs, OnlyFieldChanges, DecodeSlices, DecodeGroups, Versions, OnePair, TriggersCover, NewestIsCurrent;
    PublishKeepsTruth(s, g, c, t);
    PublishStructure(s, g, c, t);
    forall f | 0 <= f < |t.syncs| ensures ReadsAreFresh(t, f) {
      assert ReadsAreFresh(s, f) && ReadsAreFresh(s, g);
      assert f != g ==> !InCritical(s.syncs[f].pc);
      assert s.tags[s.syncs[g].pc.next].sv <= s.tags[s.syncs[g].pc.next].gv <= s.syncs[g].pc.sv;
    }
  }

  lemma NextInv(s: State, a: Action, t: State)
    requires Inv(s) && Next(s, a, t)
    ensures Inv(t)
  {
    match a
    case Begin | Write(_, _) | Return(_, _, _, _) | Send(_) => HandlerStepInv(s, a, t);
    case Shutdown | WorkerStop | WorkerReceive => WorkerStepInv(s, a, t);
    case Publish(g, c) => PublishInv(s, g, c, t);
    case Lock(g) => OwnStepInv(s, a, g, t);
    case GiveUp(g) => OwnStepInv(s, a, g, t);
    case TimerFires(g) => OwnStepInv(s, a, g, t);
    case SlicesRead(g) => OwnStepInv(s, a, g, t);
    case SlicesFail(g) => OwnStepInv(s, a, g, t);
    case GroupsRead(g) => OwnStepInv(s, a, g, t);
    case GroupsFail(g) => OwnStepInv(s, a, g, t);
  }

  lemma {:induction false} RunInv(run: seq<State>, actions: seq<Action>, i: nat)
    requires IsRun(run, actions) && i < |run|
    ensures Inv(run[i])
  {
    if i == 0 {
      InitInv(run[0]);
    } else {
      RunInv(run, actions, i - 1);
      NextInv(run[i - 1], actions[i - 1], run[i]);
    }
  }

  lemma ReachableInv(s: State)
    requires Reachable(s)
    ensures Inv(s)
  {
    var run, actions :| IsRun(run, actions) && run[|run| - 1] == s;
    RunInv(run, actions, |run| - 1);
  }

  lemma EndIsReachable(run: seq<State>, actions: seq<Action>)
    requires IsRun(run, actions)
    ensures Reachable(run[|run| - 1])
  {
  }

  /** One request that writes and answers. */
  lemma WriteAndAnswer(s0: State, db: Db, verb: string, status: int) returns (s: State, run: seq<State>)
    requires Init(s0) && verb in {"POST", "PUT", "DELETE", "PATCH"} && 200 <= status <= 299
    ensures IsRun(run, [Begin, Write(0, db), Return(0, true, verb, status)]) && run[0] == s0 && run[3] == s
    ensures !s.shutdown && NewestTriggered(s) && |s.history| == 2 && s.history[1] == db
  {
    hide IsProjection;
    var s1 := s0.(handlers := [Working(0)]);
    var s2 := s1.(history := s1.history + [db], writers := s1.writers + [0], handlers := [Working(1)]);
    s := s2.(handlers := [MustSend(1)]);
    assert s1.handlers[0 := Working(1)] == s2.handlers && s2.handlers[0 := MustSend(1)] == s.handlers;
    run := [s0, s1, s2, s];
    assert Next(s0, Begin, s1) && Next(s1, Write(0, db), s2) && Next(s2, Return(0, true, verb, status), s);
  }

  lemma NextReachable(s: State, a: Action, t: State)
    requires Reachable(s) && Next(s, a, t)
    ensures Reachable(t)
  {
    hide Init, Next;
    var run, actions :| IsRun(run, actions) && run[|run| - 1] == s;
    var longer, more := run + [t], actions + [a];
    forall i | 0 <= i < |more| ensures Next(longer[i], more[i], longer[i + 1]) {
      if i < |actions| { assert Next(run[i], actions[i], run[i + 1]); }
    }
    assert IsRun(longer, more);
  }
}
