/** Many clients run the services' retry loop (read, compute, save under the etag read) on one
    key of the Redis store. Every step of a client may interleave with every step of another. */
module OptimisticUpdate {
  import opened Functions

  const MAX_RETRIES: nat := 5

  /** `update` is the pure middle of a loop: the new value, or None when there is nothing to change.
      `empty` is what an absent key is read as. */
  datatype Service<!V, !O> = Service(update: (V, O) -> Option<V>, empty: V)

  datatype Cell<V> = Cell(value: V, etag: nat)

  /** Where a client is in its loop. `born` is the version at which the call began, `seen` the
      version read, `watched` the version under which WATCH was issued. */
  datatype Client<V, O> =
    | Idle
    | Ready(op: O, tries: nat, born: nat)
    | Computed(op: O, tries: nat, born: nat, data: V, etag: Option<nat>, seen: nat)
    | Watched(op: O, tries: nat, born: nat, data: V, watched: nat)
    | Rejected(op: O)
    | GaveUp(op: O, born: nat, died: nat)

  datatype Entry<O> = Entry(client: nat, op: O)

  /** `version` counts the writes to the key, `used` the etags ever given out, `log` the calls that
      took effect, in order, and `done` the calls each client saw succeed. */
  datatype State<V, O> = State(cell: Option<Cell<V>>, version: nat, used: set<nat>, clients: seq<Client<V, O>>,
                               log: seq<Entry<O>>, done: seq<seq<O>>)

  datatype Step<O> = Begin(c: nat, op: O) | Read(c: nat) | Watch(c: nat) | Exec(c: nat, etag: nat) | Overwrite(c: nat, etag: nat)

  // ----- The steps

  function Moved<V, O>(s: State<V, O>, c: nat, to: Client<V, O>): State<V, O>
    requires c < |s.clients|
  {
    s.(clients := s.clients[c := to])
  }

  /** The call of client `c` returns without error. */
  function Finished<V, O>(s: State<V, O>, c: nat, op: O): State<V, O>
    requires c < |s.clients| == |s.done|
  {
    s.(clients := s.clients[c := Idle], log := s.log + [Entry(c, op)], done := s.done[c := s.done[c] + [op]])
  }

  function Written<V, O>(s: State<V, O>, data: V, etag: nat): State<V, O> {
    s.(cell := Some(Cell(data, etag)), version := s.version + 1, used := s.used + {etag})
  }

  /** A concurrency error: the loop goes round again until its attempts are spent. */
  function Retried<V, O>(s: State<V, O>, c: nat, op: O, tries: nat, born: nat): State<V, O>
    requires c < |s.clients|
  {
    Moved(s, c, if tries + 1 < MAX_RETRIES then Ready(op, tries + 1, born) else GaveUp(op, born, s.version))
  }

  function Current<V, O>(m: Service<V, O>, s: State<V, O>): V {
    if s.cell.Some? then s.cell.value.value else m.empty
  }

  /** What a step does; None when the client is not there to take it, or its etag is not new. */
  function Do<V, O>(m: Service<V, O>, s: State<V, O>, step: Step<O>): Option<State<V, O>> {
    if |s.done| != |s.clients| || step.c >= |s.clients| then None
    else
      var c, client := step.c, s.clients[step.c];
      match step
      case Begin(_, op) =>
        if client.Idle? || client.Rejected? || client.GaveUp? then Some(Moved(s, c, Ready(op, 0, s.version))) else None
      case Read(_) =>
        if !client.Ready? then None
        else
          (match m.update(Current(m, s), client.op)
           case None => Some(Finished(s, c, client.op))
           case Some(data) =>
             var etag := if s.cell.Some? then Some(s.cell.value.etag) else None;
             Some(Moved(s, c, Computed(client.op, client.tries, client.born, data, etag, s.version))))
      case Watch(_) =>
        if !client.Computed? || client.etag.None? then None
        else if s.cell.None? then Some(Moved(s, c, Rejected(client.op)))
        else if s.cell.value.etag != client.etag.value then Some(Retried(s, c, client.op, client.tries, client.born))
        else Some(Moved(s, c, Watched(client.op, client.tries, client.born, client.data, s.version)))
      case Exec(_, etag) =>
        if !client.Watched? || etag in s.used then None
        else if s.version != client.watched then Some(Retried(s, c, client.op, client.tries, client.born))
        else Some(Finished(Written(s, client.data, etag), c, client.op))
      case Overwrite(_, etag) =>
        if !client.Computed? || client.etag.Some? || etag in s.used then None
        else Some(Finished(Written(s, client.data, etag), c, client.op))
  }

  /** The state after a run, if every step of it could be taken. */
  function After<V, O>(m: Service<V, O>, s: State<V, O>, steps: seq<Step<O>>): Option<State<V, O>> {
    if steps == [] then Some(s)
    else
      match After(m, s, steps[..|steps| - 1])
      case None => None
      case Some(t) => Do(m, t, steps[|steps| - 1])
  }

  function Initial<V, O>(cell: Option<Cell<V>>, clients: nat): State<V, O> {
    State(cell, 0, if cell.Some? then {cell.value.etag} else {}, seq(clients, _ => Idle), [], seq(clients, _ => []))
  }

  // ----- The sequential meaning

  function Performed<V, O>(m: Service<V, O>, v: V, op: O): V {
    match m.update(v, op) case None => v case Some(w) => w
  }

  /** The operations one after another on one value. */
  function Fold<V, O>(m: Service<V, O>, start: V, log: seq<Entry<O>>): V {
    if log == [] then start else Performed(m, Fold(m, start, log[..|log| - 1]), log[|log| - 1].op)
  }

  /** The operations of the log, in order. */
  function Ops<O>(log: seq<Entry<O>>): seq<O> {
    if log == [] then [] else Ops(log[..|log| - 1]) + [log[|log| - 1].op]
  }

  /** What one client put into the log. */
  function Of<O>(log: seq<Entry<O>>, c: nat): seq<O> {
    if log == [] then []
    else
      var front, last := Of(log[..|log| - 1], c), log[|log| - 1];
      if last.client == c then front + [last.op] else front
  }

  // ----- The invariant

  /** A client holding the current etag, or watching the current version, holds the outcome of
      its operation on the current value; and every failed attempt was overtaken by a write. */
  ghost predicate ClientOk<V, O>(m: Service<V, O>, cell: Option<Cell<V>>, version: nat, used: set<nat>, client: Client<V, O>) {
    match client
    case Idle => true
    case Rejected(_) => true
    case Ready(_, tries, born) => tries < MAX_RETRIES && born + tries <= version
    case Computed(op, tries, born, data, etag, seen) =>
      && tries < MAX_RETRIES && born + tries <= seen <= version
      && (match etag
          case None => m.update(m.empty, op) == Some(data)
          case Some(e) =>
            && e in used && cell.Some? && (seen == version <==> e == cell.value.etag)
            && (seen == version ==> m.update(cell.value.value, op) == Some(data)))
    case Watched(op, tries, born, data, watched) =>
      && tries < MAX_RETRIES && born + tries <= watched <= version && cell.Some?
      && (watched == version ==> m.update(cell.value.value, op) == Some(data))
    case GaveUp(_, born, died) => born + MAX_RETRIES <= died <= version
  }

  ghost predicate ClientsOk<V, O>(m: Service<V, O>, s: State<V, O>) {
    forall c | 0 <= c < |s.clients| :: ClientOk(m, s.cell, s.version, s.used, s.clients[c])
  }

  ghost predicate Accounted<V, O>(s: State<V, O>) {
    && |s.done| == |s.clients|
    && (forall c | 0 <= c < |s.clients| :: s.done[c] == Of(s.log, c))
    && (forall i | 0 <= i < |s.log| :: s.log[i].client < |s.clients|)
  }

  /** What every step keeps, a blind save included. */
  ghost predicate Consistent<V, O>(m: Service<V, O>, s: State<V, O>) {
    Accounted(s) && ClientsOk(m, s) && (s.cell.Some? ==> s.cell.value.etag in s.used)
  }

  ghost predicate Invariant<V, O>(m: Service<V, O>, start: V, s: State<V, O>) {
    Consistent(m, s) && Current(m, s) == Fold(m, start, s.log)
  }

  lemma FinishedAccounted<V, O>(s: State<V, O>, c: nat, op: O)
    requires Accounted(s) && c < |s.clients|
    ensures Accounted(Finished(s, c, op))
  {
    var t := Finished(s, c, op);
    assert t.log[..|t.log| - 1] == s.log;
  }

  lemma FoldLast<V, O>(m: Service<V, O>, start: V, log: seq<Entry<O>>, e: Entry<O>)
    ensures Fold(m, start, log + [e]) == Performed(m, Fold(m, start, log), e.op)
  {
    assert (log + [e])[..|log|] == log;
  }

  /** After a write under a new etag no client holds the current etag or version any more. */
  lemma WriteKeepsClients<V, O>(m: Service<V, O>, s: State<V, O>, data: V, etag: nat)
    requires ClientsOk(m, s) && etag !in s.used
    ensures ClientsOk(m, Written(s, data, etag))
  {
    var t := Written(s, data, etag);
    forall c | 0 <= c < |t.clients|
      ensures ClientOk(m, t.cell, t.version, t.used, t.clients[c])
    {
      assert ClientOk(m, s.cell, s.version, s.used, s.clients[c]);
    }
  }

  lemma MoveKeepsClients<V, O>(m: Service<V, O>, s: State<V, O>, c: nat, to: Client<V, O>)
    requires ClientsOk(m, s) && c < |s.clients| && ClientOk(m, s.cell, s.version, s.used, to)
    ensures ClientsOk(m, Moved(s, c, to))
  {
    hide ClientOk;
  }

  /** A step that writes does so on the value it was computed from, or on an absent key. */
  predicate Guarded<V, O>(s: State<V, O>, step: Step<O>) {
    step.Overwrite? ==> s.cell.None?
  }

  /** The write of the step gives on the current value what was computed from the one read. */
  ghost predicate SameOutcome<V, O>(m: Service<V, O>, s: State<V, O>, step: Step<O>) {
    step.Overwrite? && step.c < |s.clients| && s.clients[step.c].Computed? ==>
      Performed(m, Current(m, s), s.clients[step.c].op) == s.clients[step.c].data
  }

  lemma MoveConsistent<V, O>(m: Service<V, O>, s: State<V, O>, c: nat, to: Client<V, O>)
    requires Consistent(m, s) && c < |s.clients| && ClientOk(m, s.cell, s.version, s.used, to)
    ensures Consistent(m, Moved(s, c, to))
  {
    hide ClientOk;
    MoveKeepsClients(m, s, c, to);
  }

  lemma FinishConsistent<V, O>(m: Service<V, O>, s: State<V, O>, c: nat, op: O)
    requires Consistent(m, s) && c < |s.clients|
    ensures Consistent(m, Finished(s, c, op))
  {
    FinishedAccounted(s, c, op);
    MoveKeepsClients(m, s, c, Idle);
    hide ClientsOk, Accounted;
    ClientsAlone(m, Moved(s, c, Idle), Finished(s, c, op));
  }

  lemma ClientsAlone<V, O>(m: Service<V, O>, s: State<V, O>, t: State<V, O>)
    requires ClientsOk(m, s) && s.clients == t.clients && s.cell == t.cell && s.version == t.version && s.used == t.used
    ensures ClientsOk(m, t)
  {
    hide ClientOk;
  }

  lemma WriteConsistent<V, O>(m: Service<V, O>, s: State<V, O>, c: nat, op: O, data: V, etag: nat)
    requires Consistent(m, s) && c < |s.clients| && etag !in s.used
    ensures Consistent(m, Finished(Written(s, data, etag), c, op))
  {
    WriteKeepsClients(m, s, data, etag);
    FinishConsistent(m, Written(s, data, etag), c, op);
  }

  /** Every step, blind saves included, keeps what is known of the clients and of the log. */
  lemma StepConsistent<V, O>(m: Service<V, O>, s: State<V, O>, step: Step<O>)
    requires Consistent(m, s) && Do(m, s, step).Some?
    ensures Consistent(m, Do(m, s, step).value)
  {
    hide Accounted;
    var c, client := step.c, s.clients[step.c];
    assert ClientOk(m, s.cell, s.version, s.used, client);
    hide ClientsOk;
    match step
    case Begin(_, op) => MoveConsistent(m, s, c, Ready(op, 0, s.version));
    case Read(_) =>
      if m.update(Current(m, s), client.op).None? {
        FinishConsistent(m, s, c, client.op);
      } else {
        MoveConsistent(m, s, c, Do(m, s, step).value.clients[c]);
      }
    case Watch(_) => MoveConsistent(m, s, c, Do(m, s, step).value.clients[c]);
    case Exec(_, etag) =>
      if s.version != client.watched {
        MoveConsistent(m, s, c, Do(m, s, step).value.clients[c]);
      } else {
        WriteConsistent(m, s, c, client.op, client.data, etag);
      }
    case Overwrite(_, etag) => WriteConsistent(m, s, c, client.op, client.data, etag);
  }

  /** From a state that is the fold of its log, a step leads to such a state exactly when its write
      gives on the current value what was computed from the one read. */
  lemma StepFolds<V, O>(m: Service<V, O>, start: V, s: State<V, O>, step: Step<O>)
    requires Invariant(m, start, s) && Do(m, s, step).Some?
    ensures var t := Do(m, s, step).value; Current(m, t) == Fold(m, start, t.log) <==> SameOutcome(m, s, step)
  {
    var c, client := step.c, s.clients[step.c];
    assert ClientOk(m, s.cell, s.version, s.used, client);
    hide Accounted, ClientsOk, Fold;
    if !step.Begin? {
      FoldLast(m, start, s.log, Entry(c, client.op));
    }
  }

  lemma GuardedIsSame<V, O>(m: Service<V, O>, s: State<V, O>, step: Step<O>)
    requires Consistent(m, s) && Guarded(s, step) && Do(m, s, step).Some?
    ensures SameOutcome(m, s, step)
  {
    assert ClientOk(m, s.cell, s.version, s.used, s.clients[step.c]);
  }

  /** Every guarded step keeps the invariant. */
  lemma StepKeeps<V, O>(m: Service<V, O>, start: V, s: State<V, O>, step: Step<O>)
    requires Invariant(m, start, s) && Guarded(s, step) && Do(m, s, step).Some?
    ensures Invariant(m, start, Do(m, s, step).value)
  {
    hide Consistent, Fold, Guarded, SameOutcome, Do;
    StepConsistent(m, s, step);
    GuardedIsSame(m, s, step);
    StepFolds(m, start, s, step);
  }

  // ----- Whole runs

  /** No write of the run is blind: an unconditional save happens only while the key is absent. */
  ghost predicate GuardedRun<V, O>(m: Service<V, O>, s: State<V, O>, steps: seq<Step<O>>) {
    forall i | 0 <= i < |steps| :: After(m, s, steps[..i]).Some? ==> Guarded(After(m, s, steps[..i]).value, steps[i])
  }

  lemma InitialHolds<V, O>(m: Service<V, O>, cell: Option<Cell<V>>, clients: nat)
    ensures Invariant(m, if cell.Some? then cell.value.value else m.empty, Initial(cell, clients))
  {
  }

  lemma {:induction false} RunKeeps<V, O>(m: Service<V, O>, start: V, s: State<V, O>, steps: seq<Step<O>>)
    requires Invariant(m, start, s) && GuardedRun(m, s, steps) && After(m, s, steps).Some?
    ensures Invariant(m, start, After(m, s, steps).value)
    decreases |steps|
  {
    if steps != [] {
      hide Invariant, Do, Guarded;
      var front, last := steps[..|steps| - 1], steps[|steps| - 1];
      assert After(m, s, front).Some?;
      assert forall i | 0 <= i < |front| :: front[..i] == steps[..i] && front[i] == steps[i];
      RunKeeps(m, start, s, front);
      StepKeeps(m, start, After(m, s, front).value, last);
    }
  }

  /** The key exists and every client in mid-save holds an etag. */
  ghost predicate Present<V, O>(s: State<V, O>) {
    s.cell.Some? && forall c | 0 <= c < |s.clients| && s.clients[c].Computed? :: s.clients[c].etag.Some?
  }

  lemma StepPresent<V, O>(m: Service<V, O>, s: State<V, O>, step: Step<O>)
    requires Present(s) && Do(m, s, step).Some?
    ensures Guarded(s, step) && Present(Do(m, s, step).value)
  {
  }

  lemma {:induction false} RunPresent<V, O>(m: Service<V, O>, s: State<V, O>, steps: seq<Step<O>>)
    requires Present(s) && After(m, s, steps).Some?
    ensures Present(After(m, s, steps).value) && GuardedRun(m, s, steps)
    decreases |steps|
  {
    if steps != [] {
      hide Present, Do, Guarded, GuardedRun;
      var front, last := steps[..|steps| - 1], steps[|steps| - 1];
      RunPresent(m, s, front);
      StepPresent(m, After(m, s, front).value, last);
      GuardedLonger(m, s, steps);
    } else {
      NothingGuarded(m, s);
    }
  }

  lemma NothingGuarded<V, O>(m: Service<V, O>, s: State<V, O>)
    ensures GuardedRun(m, s, [])
  {
  }

  lemma GuardedLonger<V, O>(m: Service<V, O>, s: State<V, O>, steps: seq<Step<O>>)
    requires steps != [] && GuardedRun(m, s, steps[..|steps| - 1]) && After(m, s, steps[..|steps| - 1]).Some?
    requires Guarded(After(m, s, steps[..|steps| - 1]).value, steps[|steps| - 1])
    ensures GuardedRun(m, s, steps)
  {
    hide After, Guarded;
    var front := steps[..|steps| - 1];
    forall i | 0 <= i < |steps| && After(m, s, steps[..i]).Some?
      ensures Guarded(After(m, s, steps[..i]).value, steps[i])
    {
      if i < |front| {
        assert front[..i] == steps[..i] && front[i] == steps[i];
      }
    }
  }

  /** No lost update: on a key that exists, every run of any number of clients leaves the fold of
      the calls that took effect, and each successful call took effect exactly once, in the order
      its client made it. */
  lemma NoLostUpdate<V, O>(m: Service<V, O>, cell: Cell<V>, clients: nat, steps: seq<Step<O>>)
    requires After(m, Initial(Some(cell), clients), steps).Some?
    ensures var s := After(m, Initial(Some(cell), clients), steps).value;
            && s.cell.Some? && s.cell.value.value == Fold(m, cell.value, s.log)
            && |s.done| == clients && (forall c | 0 <= c < clients :: s.done[c] == Of(s.log, c))
            && (forall i | 0 <= i < |s.log| :: s.log[i].client < clients)
  {
    var s0 := Initial<V, O>(Some(cell), clients);
    InitialHolds(m, Some(cell), clients);
    assert Present(s0);
    RunPresent(m, s0, steps);
    RunKeeps(m, cell.value, s0, steps);
    RunClients(m, s0, steps);
  }

  lemma {:induction false} RunClients<V, O>(m: Service<V, O>, s: State<V, O>, steps: seq<Step<O>>)
    requires After(m, s, steps).Some?
    ensures |After(m, s, steps).value.clients| == |s.clients|
    decreases |steps|
  {
    if steps != [] {
      RunClients(m, s, steps[..|steps| - 1]);
    }
  }

  /** Started on an absent key the same holds as long as no unconditional save meets an existing key. */
  lemma NoLostUpdateFromAbsent<V, O>(m: Service<V, O>, clients: nat, steps: seq<Step<O>>)
    requires GuardedRun(m, Initial(None, clients), steps) && After(m, Initial(None, clients), steps).Some?
    ensures var s := After(m, Initial(None, clients), steps).value;
            Current(m, s) == Fold(m, m.empty, s.log) && Accounted(s)
  {
    hide Accounted, Fold, GuardedRun;
    InitialHolds(m, None, clients);
    RunKeeps(m, m.empty, Initial(None, clients), steps);
  }

  /** After the first `i` steps the value is the fold of the calls that took effect. */
  ghost predicate FoldAt<V, O>(m: Service<V, O>, start: V, s: State<V, O>, steps: seq<Step<O>>, i: nat)
    requires i <= |steps|
  {
    var t := After(m, s, steps[..i]);
    t.Some? ==> Current(m, t.value) == Fold(m, start, t.value.log)
  }

  ghost predicate SameAt<V, O>(m: Service<V, O>, s: State<V, O>, steps: seq<Step<O>>, i: nat)
    requires i < |steps|
  {
    var t := After(m, s, steps[..i]);
    t.Some? ==> SameOutcome(m, t.value, steps[i])
  }

  /** The value is the fold of the calls that took effect all along the run. */
  ghost predicate NothingLost<V, O>(m: Service<V, O>, start: V, s: State<V, O>, steps: seq<Step<O>>) {
    forall i | 0 <= i <= |steps| :: FoldAt(m, start, s, steps, i)
  }

  /** Every unconditional save of the run gives on the value it overwrites what was computed from
      the one read. */
  ghost predicate SameOutcomes<V, O>(m: Service<V, O>, s: State<V, O>, steps: seq<Step<O>>) {
    forall i | 0 <= i < |steps| :: SameAt(m, s, steps, i)
  }

  /** Exactly when a run loses an update, guarded or not. */
  lemma {:induction false} NothingLostIff<V, O>(m: Service<V, O>, start: V, s: State<V, O>, steps: seq<Step<O>>)
    requires Invariant(m, start, s) && After(m, s, steps).Some?
    ensures Consistent(m, After(m, s, steps).value)
    ensures NothingLost(m, start, s, steps) <==> SameOutcomes(m, s, steps)
    decreases |steps|
  {
    if steps == [] {
      assert steps[..0] == [];
    } else {
      var front, last := steps[..|steps| - 1], steps[|steps| - 1];
      NothingLostIff(m, start, s, front);
      hide Consistent, Fold, SameOutcome, Do, Current, FoldAt, SameAt, NothingLost, SameOutcomes;
      StepConsistent(m, After(m, s, front).value, last);
      OneStepMore(m, start, s, steps);
      LastFolds(m, start, s, steps);
    }
  }

  lemma OneStepMore<V, O>(m: Service<V, O>, start: V, s: State<V, O>, steps: seq<Step<O>>)
    requires steps != []
    ensures NothingLost(m, start, s, steps) <==> NothingLost(m, start, s, steps[..|steps| - 1]) && FoldAt(m, start, s, steps, |steps|)
    ensures NothingLost(m, start, s, steps[..|steps| - 1]) ==> FoldAt(m, start, s, steps, |steps| - 1)
    ensures SameOutcomes(m, s, steps) <==> SameOutcomes(m, s, steps[..|steps| - 1]) && SameAt(m, s, steps, |steps| - 1)
  {
    var front := steps[..|steps| - 1];
    hide FoldAt, SameAt;
    forall i | 0 <= i < |steps|
      ensures FoldAt(m, start, s, steps, i) <==> FoldAt(m, start, s, front, i)
      ensures i < |front| ==> (SameAt(m, s, steps, i) <==> SameAt(m, s, front, i))
    {
      PrefixesAgree(m, start, s, steps, i);
    }
    assert NothingLost(m, start, s, front) <==> forall i | 0 <= i < |steps| :: FoldAt(m, start, s, steps, i);
    assert SameOutcomes(m, s, front) <==> forall i | 0 <= i < |front| :: SameAt(m, s, steps, i);
  }

  lemma PrefixesAgree<V, O>(m: Service<V, O>, start: V, s: State<V, O>, steps: seq<Step<O>>, i: nat)
    requires i < |steps|
    ensures FoldAt(m, start, s, steps, i) <==> FoldAt(m, start, s, steps[..|steps| - 1], i)
    ensures i < |steps| - 1 ==> (SameAt(m, s, steps, i) <==> SameAt(m, s, steps[..|steps| - 1], i))
  {
    hide After, SameOutcome, Fold, Current;
    assert steps[..|steps| - 1][..i] == steps[..i];
  }

  lemma LastFolds<V, O>(m: Service<V, O>, start: V, s: State<V, O>, steps: seq<Step<O>>)
    requires steps != [] && After(m, s, steps).Some? && After(m, s, steps[..|steps| - 1]).Some?
    requires Consistent(m, After(m, s, steps[..|steps| - 1]).value)
    ensures FoldAt(m, start, s, steps, |steps| - 1) ==>
              (FoldAt(m, start, s, steps, |steps|) <==> SameAt(m, s, steps, |steps| - 1))
  {
    hide Consistent, Fold, SameOutcome, Do, Current;
    assert steps[..|steps|] == steps;
    var t := After(m, s, steps[..|steps| - 1]).value;
    if FoldAt(m, start, s, steps, |steps| - 1) {
      StepFolds(m, start, t, steps[|steps| - 1]);
    }
  }

  // ----- Runs as effects

  /** A call that took effect: on the value it met, or, saved blindly, on the absent one it had read. */
  datatype Effect<O> = Effect(op: O, blind: bool)

  function Affected<V, O>(m: Service<V, O>, v: V, e: Effect<O>): V {
    Performed(m, if e.blind then m.empty else v, e.op)
  }

  function AffectedBy<V, O>(m: Service<V, O>, start: V, es: seq<Effect<O>>): V {
    if es == [] then start else Affected(m, AffectedBy(m, start, es[..|es| - 1]), es[|es| - 1])
  }

  /** The effect of one step, if the step ends a call that took effect. */
  function StepEffects<V, O>(m: Service<V, O>, s: State<V, O>, step: Step<O>): seq<Effect<O>> {
    match Do(m, s, step)
    case None => []
    case Some(t) => if |t.log| > |s.log| then [Effect(t.log[|s.log|].op, step.Overwrite?)] else []
  }

  function Effects<V, O>(m: Service<V, O>, s: State<V, O>, steps: seq<Step<O>>): seq<Effect<O>> {
    if steps == [] then []
    else
      var front := steps[..|steps| - 1];
      match After(m, s, front)
      case None => []
      case Some(t) => Effects(m, s, front) + StepEffects(m, t, steps[|steps| - 1])
  }

  function OpsOf<O>(es: seq<Effect<O>>): seq<O> {
    if es == [] then [] else OpsOf(es[..|es| - 1]) + [es[|es| - 1].op]
  }

  lemma AffectedLast<V, O>(m: Service<V, O>, start: V, es: seq<Effect<O>>, e: Effect<O>)
    ensures AffectedBy(m, start, es + [e]) == Affected(m, AffectedBy(m, start, es), e)
    ensures OpsOf(es + [e]) == OpsOf(es) + [e.op]
  {
    assert (es + [e])[..|es|] == es;
  }

  lemma StepIsEffects<V, O>(m: Service<V, O>, s: State<V, O>, step: Step<O>)
    requires Consistent(m, s) && Do(m, s, step).Some?
    ensures var t := Do(m, s, step).value; var es := StepEffects(m, s, step);
            || (es == [] && Current(m, t) == Current(m, s) && t.log == s.log)
            || (|es| == 1 && Current(m, t) == Affected(m, Current(m, s), es[0]) && t.log == s.log + [Entry(step.c, es[0].op)])
  {
    assert ClientOk(m, s.cell, s.version, s.used, s.clients[step.c]);
    hide ClientsOk, Accounted;
  }

  lemma AtMostOne<V, O>(m: Service<V, O>, s: State<V, O>, step: Step<O>)
    ensures |StepEffects(m, s, step)| <= 1
  {
    hide Do;
  }

  lemma OpsLast<O>(log: seq<Entry<O>>, e: Entry<O>)
    ensures Ops(log + [e]) == Ops(log) + [e.op]
  {
    assert (log + [e])[..|log|] == log;
  }

  /** What any run leaves, from an existing key or from an absent one: the effects of the calls that
      succeeded, in the order they took effect, the blind ones on the absent value. */
  lemma {:induction false} RunIsEffects<V, O>(m: Service<V, O>, cell: Option<Cell<V>>, clients: nat, steps: seq<Step<O>>)
    requires After(m, Initial(cell, clients), steps).Some?
    ensures var s0 := Initial<V, O>(cell, clients); var s := After(m, s0, steps).value; var es := Effects(m, s0, steps);
            Consistent(m, s) && Current(m, s) == AffectedBy(m, Current(m, s0), es) && Ops(s.log) == OpsOf(es)
    decreases |steps|
  {
    var s0 := Initial<V, O>(cell, clients);
    if steps == [] {
      InitialHolds(m, cell, clients);
    } else {
      hide *;
      var front, last := steps[..|steps| - 1], steps[|steps| - 1];
      LastStep(m, s0, steps);
      RunIsEffects(m, cell, clients, front);
      var t := After(m, s0, front).value;
      StepConsistent(m, t, last);
      StepIsEffects(m, t, last);
      var es := StepEffects(m, t, last);
      if es == [] {
        assert Effects(m, s0, front) + es == Effects(m, s0, front);
      } else {
        assert es == [es[0]];
        AffectedLast(m, Current(m, s0), Effects(m, s0, front), es[0]);
        OpsLast(t.log, Entry(last.c, es[0].op));
      }
    }
  }

  lemma LastStep<V, O>(m: Service<V, O>, s: State<V, O>, steps: seq<Step<O>>)
    requires steps != [] && After(m, s, steps).Some?
    ensures var front, last := steps[..|steps| - 1], steps[|steps| - 1];
            && After(m, s, front).Some? && Do(m, After(m, s, front).value, last) == After(m, s, steps)
            && Effects(m, s, steps) == Effects(m, s, front) + StepEffects(m, After(m, s, front).value, last)
  {
    hide Do, StepEffects;
  }

  /** On an existing key nothing is saved blindly. */
  lemma {:induction false} PresentSeesAll<V, O>(m: Service<V, O>, s: State<V, O>, steps: seq<Step<O>>)
    requires Present(s) && After(m, s, steps).Some?
    ensures forall e | e in Effects(m, s, steps) :: !e.blind
    decreases |steps|
  {
    if steps != [] {
      var front, last := steps[..|steps| - 1], steps[|steps| - 1];
      PresentSeesAll(m, s, front);
      RunPresent(m, s, front);
      hide Present, StepEffects;
      PresentOverwrites(m, After(m, s, front).value, last);
    }
  }

  lemma PresentOverwrites<V, O>(m: Service<V, O>, s: State<V, O>, step: Step<O>)
    requires Present(s) && Do(m, s, step).Some?
    ensures forall e | e in StepEffects(m, s, step) :: !e.blind
  {
  }

  /** A call that gave up was overtaken by at least as many writes as it had attempts. */
  lemma GaveUpWasOvertaken<V, O>(m: Service<V, O>, cell: Cell<V>, clients: nat, steps: seq<Step<O>>, c: nat)
    requires After(m, Initial(Some(cell), clients), steps).Some?
    requires var s := After(m, Initial(Some(cell), clients), steps).value; c < |s.clients| && s.clients[c].GaveUp?
    ensures var s := After(m, Initial(Some(cell), clients), steps).value;
            s.clients[c].born + MAX_RETRIES <= s.clients[c].died <= s.version
  {
    hide Accounted, Fold;
    var s0 := Initial<V, O>(Some(cell), clients);
    InitialHolds(m, Some(cell), clients);
    assert Present(s0);
    RunPresent(m, s0, steps);
    RunKeeps(m, cell.value, s0, steps);
    var s := After(m, s0, steps).value;
    assert ClientOk(m, s.cell, s.version, s.used, s.clients[c]);
  }

  /** Left alone for one attempt, a client succeeds at it. */
  lemma UndisturbedSucceeds<V, O>(m: Service<V, O>, start: V, s: State<V, O>, c: nat, etag: nat)
    requires Invariant(m, start, s) && s.cell.Some? && c < |s.clients| && s.clients[c].Ready? && etag !in s.used
    ensures var op := s.clients[c].op;
            var steps := if m.update(Current(m, s), op).None? then [Read(c)] else [Read(c), Watch(c), Exec(c, etag)];
            && After(m, s, steps).Some?
            && After(m, s, steps).value.log == s.log + [Entry(c, op)]
            && Current(m, After(m, s, steps).value) == Performed(m, Current(m, s), op)
  {
    hide Fold, ClientsOk, Of;
    var op := s.clients[c].op;
    var r := Do(m, s, Read(c)).value;
    Extends(m, s, [], Read(c), s);
    assert [] + [Step<O>.Read(c)] == [Read(c)];
    if m.update(Current(m, s), op).Some? {
      var w := Do(m, r, Watch(c)).value;
      Extends(m, s, [Read(c)], Watch(c), r);
      Extends(m, s, [Read(c)] + [Watch(c)], Exec(c, etag), w);
      assert [Step<O>.Read(c)] + [Watch(c)] + [Exec(c, etag)] == [Read(c), Watch(c), Exec(c, etag)];
    }
  }

  // ----- The first write

  function RaceSteps<O>(a: O, b: O): seq<Step<O>> {
    [Begin(0, a), Begin(1, b), Read(0), Read(1), Overwrite(0, 1), Overwrite(1, 2)]
  }

  /** Two clients that both find the key absent: both calls succeed, but only the second is in the
      value, so nothing is lost exactly when it gives on the first what it gave on nothing. */
  lemma FirstWriteRace<V, O>(m: Service<V, O>, a: O, b: O, x: V, y: V)
    requires m.update(m.empty, a) == Some(x) && m.update(m.empty, b) == Some(y)
    ensures var end := After(m, Initial(None, 2), RaceSteps(a, b));
            && end.Some? && end.value.done == [[a], [b]] && end.value.log == [Entry(0, a), Entry(1, b)]
            && end.value.cell == Some(Cell(y, 2))
            && Effects(m, Initial(None, 2), RaceSteps(a, b)) == [Effect(a, true), Effect(b, true)]
            && (y == Fold(m, m.empty, end.value.log) <==> Performed(m, x, b) == y)
  {
    var s0 := Initial<V, O>(None, 2);
    var s1 := s0.(clients := [Ready(a, 0, 0), Idle]);
    var s2 := s0.(clients := [Ready(a, 0, 0), Ready(b, 0, 0)]);
    var s3 := s0.(clients := [Computed(a, 0, 0, x, None, 0), Ready(b, 0, 0)]);
    var s4 := s0.(clients := [Computed(a, 0, 0, x, None, 0), Computed(b, 0, 0, y, None, 0)]);
    var s5 := State(Some(Cell(x, 1)), 1, {1}, [Idle, Computed(b, 0, 0, y, None, 0)], [Entry(0, a)], [[a], []]);
    var s6 := State(Some(Cell(y, 2)), 2, {1, 2}, [Idle, Idle], [Entry(0, a), Entry(1, b)], [[a], [b]]);
    RaceOpens(m, a, b, x, y, s0, s1, s2, s3, s4);
    RaceCloses(m, a, b, x, y, s4, s5, s6);
    hide Do, After;
    RaceRun(m, s0, RaceSteps(a, b), [s0, s1, s2, s3, s4, s5, s6]);
    RaceEffects(m, a, b, [s0, s1, s2, s3, s4, s5, s6]);
    FoldLast(m, m.empty, [Entry(0, a)], Entry(1, b));
    FoldLast(m, m.empty, [], Entry(0, a));
    assert [] + [Entry(0, a)] == [Entry(0, a)] && [Entry(0, a)] + [Entry(1, b)] == s6.log;
  }

  lemma RaceOpens<V, O>(m: Service<V, O>, a: O, b: O, x: V, y: V, s0: State<V, O>, s1: State<V, O>, s2: State<V, O>,
                        s3: State<V, O>, s4: State<V, O>)
    requires m.update(m.empty, a) == Some(x) && m.update(m.empty, b) == Some(y) && s0 == Initial(None, 2)
    requires s1 == s0.(clients := [Ready(a, 0, 0), Idle])
    requires s2 == s0.(clients := [Ready(a, 0, 0), Ready(b, 0, 0)])
    requires s3 == s0.(clients := [Computed(a, 0, 0, x, None, 0), Ready(b, 0, 0)])
    requires s4 == s0.(clients := [Computed(a, 0, 0, x, None, 0), Computed(b, 0, 0, y, None, 0)])
    ensures Do(m, s0, Begin(0, a)) == Some(s1) && Do(m, s1, Begin(1, b)) == Some(s2)
    ensures Do(m, s2, Read(0)) == Some(s3) && Do(m, s3, Read(1)) == Some(s4)
  {
    assert s0.clients[0 := Ready(a, 0, 0)] == s1.clients && s1.clients[1 := Ready(b, 0, 0)] == s2.clients;
    assert s2.clients[0 := s3.clients[0]] == s3.clients && s3.clients[1 := s4.clients[1]] == s4.clients;
  }

  lemma RaceCloses<V, O>(m: Service<V, O>, a: O, b: O, x: V, y: V, s4: State<V, O>, s5: State<V, O>, s6: State<V, O>)
    requires s4 == Initial<V, O>(None, 2).(clients := [Computed(a, 0, 0, x, None, 0), Computed(b, 0, 0, y, None, 0)])
    requires s5 == State(Some(Cell(x, 1)), 1, {1}, [Idle, Computed(b, 0, 0, y, None, 0)], [Entry(0, a)], [[a], []])
    requires s6 == State(Some(Cell(y, 2)), 2, {1, 2}, [Idle, Idle], [Entry(0, a), Entry(1, b)], [[a], [b]])
    ensures Do(m, s4, Overwrite(0, 1)) == Some(s5) && Do(m, s5, Overwrite(1, 2)) == Some(s6)
  {
    assert s4.clients[0 := Idle] == s5.clients && s5.clients[1 := Idle] == s6.clients;
    assert [] + [a] == [a] && [] + [b] == [b];
    assert s4.done[0 := [a]] == s5.done && s5.done[1 := [b]] == s6.done;
    assert s4.log + [Entry(0, a)] == s5.log && s5.log + [Entry(1, b)] == s6.log;
    assert {} + {1} == s5.used && s5.used + {2} == s6.used;
  }

  /** A run checked state by state. */
  lemma {:induction false} RaceRun<V, O>(m: Service<V, O>, s: State<V, O>, steps: seq<Step<O>>, states: seq<State<V, O>>)
    requires |states| == |steps| + 1 && states[0] == s
    requires forall i | 0 <= i < |steps| :: Do(m, states[i], steps[i]) == Some(states[i + 1])
    ensures After(m, s, steps) == Some(states[|steps|])
    decreases |steps|
  {
    if steps != [] {
      var front := steps[..|steps| - 1];
      assert forall i | 0 <= i < |steps| :: states[..|steps|][i] == states[i];
      RaceRun(m, s, front, states[..|steps|]);
    }
  }

  function SaveSteps<O>(a: O): seq<Step<O>> {
    [Begin(0, a), Read(0), Overwrite(0, 1)]
  }

  /** One client alone on an absent key. */
  lemma FirstSave<V, O>(m: Service<V, O>, a: O, x: V)
    requires m.update(m.empty, a) == Some(x)
    ensures var s0 := Initial<V, O>(None, 1); var end := After(m, s0, SaveSteps(a));
            end.Some? && end.value.cell == Some(Cell(x, 1)) && Effects(m, s0, SaveSteps(a)) == [Effect(a, true)]
  {
    var s0 := Initial<V, O>(None, 1);
    var s1 := s0.(clients := [Ready(a, 0, 0)]);
    var s2 := s0.(clients := [Computed(a, 0, 0, x, None, 0)]);
    var s3 := State(Some(Cell(x, 1)), 1, {1}, [Idle], [Entry(0, a)], [[a]]);
    SaveSteadily(m, a, x, s0, s1, s2, s3);
    hide Do, After;
    var steps, states := SaveSteps(a), [s0, s1, s2, s3];
    RaceRun(m, s0, steps, states);
    QuietEffects(m, s0, steps[..2], states[..3]);
    EffectsNext(m, states, steps, 2);
    assert steps[..3] == steps;
  }

  lemma SaveSteadily<V, O>(m: Service<V, O>, a: O, x: V, s0: State<V, O>, s1: State<V, O>, s2: State<V, O>, s3: State<V, O>)
    requires m.update(m.empty, a) == Some(x) && s0 == Initial(None, 1)
    requires s1 == s0.(clients := [Ready(a, 0, 0)]) && s2 == s0.(clients := [Computed(a, 0, 0, x, None, 0)])
    requires s3 == State(Some(Cell(x, 1)), 1, {1}, [Idle], [Entry(0, a)], [[a]])
    ensures Do(m, s0, Begin(0, a)) == Some(s1) && Do(m, s1, Read(0)) == Some(s2) && Do(m, s2, Overwrite(0, 1)) == Some(s3)
  {
    assert s0.clients[0 := Ready(a, 0, 0)] == s1.clients && s1.clients[0 := s2.clients[0]] == s2.clients;
    assert s2.clients[0 := Idle] == s3.clients && s2.done[0] + [a] == [a] && s2.done[0 := [a]] == s3.done;
    assert s2.log + [Entry(0, a)] == s3.log && {} + {1} == s3.used;
  }

  lemma RaceEffects<V, O>(m: Service<V, O>, a: O, b: O, states: seq<State<V, O>>)
    requires |states| == 7 && forall i | 0 <= i < 6 :: Do(m, states[i], RaceSteps(a, b)[i]) == Some(states[i + 1])
    requires forall i | 0 <= i < 5 :: states[i].log == []
    requires states[5].log == [Entry(0, a)] && states[6].log == [Entry(0, a), Entry(1, b)]
    ensures Effects(m, states[0], RaceSteps(a, b)) == [Effect(a, true), Effect(b, true)]
  {
    hide Do, After;
    var steps := RaceSteps(a, b);
    QuietEffects(m, states[0], steps[..4], states[..5]);
    EffectsNext(m, states, steps, 4);
    EffectsNext(m, states, steps, 5);
    assert steps[..6] == steps;
  }

  lemma {:induction false} QuietEffects<V, O>(m: Service<V, O>, s: State<V, O>, steps: seq<Step<O>>, states: seq<State<V, O>>)
    requires |states| == |steps| + 1 && states[0] == s
    requires forall i | 0 <= i < |steps| :: Do(m, states[i], steps[i]) == Some(states[i + 1])
    requires forall i | 0 <= i < |states| :: states[i].log == []
    ensures Effects(m, s, steps) == []
    decreases |steps|
  {
    hide Do, After;
    if steps != [] {
      var n := |steps| - 1;
      assert forall i | 0 <= i < |steps| :: states[..|steps|][i] == states[i];
      RaceRun(m, s, steps[..n], states[..|steps|]);
      QuietEffects(m, s, steps[..n], states[..|steps|]);
      assert Do(m, states[n], steps[n]) == Some(states[n + 1]);
    }
  }

  lemma EffectsNext<V, O>(m: Service<V, O>, states: seq<State<V, O>>, steps: seq<Step<O>>, n: nat)
    requires n < |steps| && |states| == |steps| + 1
    requires forall i | 0 <= i < |steps| :: Do(m, states[i], steps[i]) == Some(states[i + 1])
    ensures Effects(m, states[0], steps[..n + 1]) == Effects(m, states[0], steps[..n]) + StepEffects(m, states[n], steps[n])
  {
    hide Do, After, StepEffects;
    assert steps[..n + 1][..n] == steps[..n];
    RaceRun(m, states[0], steps[..n], states[..n + 1]);
  }

  lemma Extends<V, O>(m: Service<V, O>, s: State<V, O>, front: seq<Step<O>>, last: Step<O>, t: State<V, O>)
    requires After(m, s, front) == Some(t)
    ensures After(m, s, front + [last]) == Do(m, t, last)
  {
    assert (front + [last])[..|front|] == front;
  }
}
