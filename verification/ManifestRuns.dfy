/** Runs of the manifest protocol. */
module ManifestRuns {

  // Any number of stores in any number of processes, their steps in any order, and what holds of every run.

  import opened ManifestProtocol
  import opened Options
  import opened TableSets

  datatype State = State(
    stores: map<Sid, Store>, procs: map<Pid, Proc>, persisted: Contents, files: Files, hist: seq<Contents>)

  ghost predicate Wired(st: State)
  {
    && |st.hist| > 0
    && forall sid :: sid in st.stores ==> st.stores[sid].proc in st.procs
  }

  ghost function ViewOf(st: State, sid: Sid): View
    requires sid in st.stores && st.stores[sid].proc in st.procs
  {
    View(st.stores[sid], st.procs[st.stores[sid].proc], st.persisted, st.files)
  }

  ghost predicate Steps(st: State, sid: Sid, step: Step, st': State)
  {
    && Wired(st)
    && sid in st.stores
    && Enabled(ViewOf(st, sid), step)
    && var v := Act(ViewOf(st, sid), sid, |st.hist| - 1, step);
       st' == State(st.stores[sid := v.s], st.procs[st.stores[sid].proc := v.p], v.persisted, v.files,
         st.hist + [v.persisted])
  }

  ghost predicate Inv(st: State)
  {
    && Wired(st)
    && WorldOk(st.persisted, st.files, st.hist)
    && (forall p :: p in st.procs ==> ProcInv(st.procs[p], st.persisted, st.files, st.hist))
    && (forall sid :: sid in st.stores ==>
          StoreInv(sid, st.stores[sid], st.procs[st.stores[sid].proc], st.persisted, st.files, |st.hist| - 1))
  }

  lemma StepKeepsInv(st: State, sid: Sid, step: Step, st': State)
    requires Inv(st) && Steps(st, sid, step, st')
    ensures Inv(st')
    ensures Reach(st.persisted.names) <= Reach(st'.persisted.names)
  {
    hide Enabled, Act, StoreInv, ProcInv, WorldOk, Reach;
    var v := ViewOf(st, sid);
    var v' := Act(v, sid, |st.hist| - 1, step);
    ActKeeps(v, sid, st.hist, step);
    forall p | p in st'.procs ensures ProcInv(st'.procs[p], st'.persisted, st'.files, st'.hist) {
      if p != v.s.proc {
        ProcGrown(View(v.s, st.procs[p], v.persisted, v.files), v', st.hist);
      }
    }
    forall o | o in st'.stores
      ensures st'.stores[o].proc in st'.procs
      ensures StoreInv(o, st'.stores[o], st'.procs[st'.stores[o].proc], st'.persisted, st'.files, |st'.hist| - 1)
    {
      if o != sid {
        var s := st.stores[o];
        if s.proc == v.s.proc {
          NeighbourKept(v, v', sid, o, s, |st.hist| - 1);
        } else {
          Distant(v, v', o, s, st.procs[s.proc], |st.hist| - 1);
        }
      }
    }
  }

  // ----- What the protocol promises -----

  /** Any durable manifest, no cache, and stores that have not yet looked at it. */
  ghost predicate Init(st: State)
  {
    && Wired(st)
    && WorldOk(st.persisted, st.files, st.hist)
    && (forall p :: p in st.procs ==> st.procs[p] == Proc(None, None, None, 0))
    && (forall sid :: sid in st.stores ==>
          st.stores[sid] == Store(st.stores[sid].proc, map[], [], [], NO_MANIFEST, Idle, {}))
  }

  datatype Event = Event(sid: Sid, step: Step)

  ghost predicate Run(states: seq<State>, events: seq<Event>)
  {
    && |states| == |events| + 1
    && Init(states[0])
    && forall i :: 0 <= i < |events| ==> Steps(states[i], events[i].sid, events[i].step, states[i + 1])
  }

  lemma {:induction false} RunKeepsInv(states: seq<State>, events: seq<Event>, j: nat)
    requires Run(states, events) && j < |states|
    ensures Inv(states[j])
  {
    hide Steps, Init, Inv;
    if j == 0 {
      InitInv(states[0]);
    } else {
      RunKeepsInv(states, events, j - 1);
      StepKeepsInv(states[j - 1], events[j - 1].sid, events[j - 1].step, states[j]);
    }
  }

  lemma InitInv(st: State)
    requires Init(st)
    ensures Inv(st)
  {
    assert Reach([]) == {};
  }

  /** The chunks reachable from the persisted manifest never shrink. */
  lemma {:induction false} ReachNeverShrinks(states: seq<State>, events: seq<Event>, i: nat, j: nat)
    requires Run(states, events) && i <= j < |states|
    ensures Reach(states[i].persisted.names) <= Reach(states[j].persisted.names)
  {
    hide Steps, Init, Inv, Reach;
    if i < j {
      ReachNeverShrinks(states, events, i, j - 1);
      RunKeepsInv(states, events, j - 1);
      StepKeepsInv(states[j - 1], events[j - 1].sid, events[j - 1].step, states[j]);
    }
  }

  lemma AcceptedGrows(st: State, sid: Sid, step: Step, st': State, o: Sid)
    requires Inv(st) && Steps(st, sid, step, st') && o in st.stores
    ensures o in st'.stores && st.stores[o].accepted <= st'.stores[o].accepted
    ensures sid == o && step.Put? ==> step.a in st'.stores[o].accepted
  {
    hide StoreInv, ProcInv, WorldOk, Reach, Compacts, Splits, Known, NonEmpty, Filter, Dedup, Written, Conjoined,
      MakeContents, Attempted;
    if step.Attempt? {
      var v := ViewOf(st, sid);
      AttemptAccepted(v, v.s.pc.current, v.s.pc.last, step.order, step.choice);
    }
  }

  lemma {:induction false} AcceptedStays(states: seq<State>, events: seq<Event>, i: nat, j: nat, sid: Sid)
    requires Run(states, events) && i <= j < |states| && sid in states[i].stores
    ensures sid in states[j].stores && states[i].stores[sid].accepted <= states[j].stores[sid].accepted
  {
    hide Steps, Init, Inv;
    if i < j {
      AcceptedStays(states, events, i, j - 1, sid);
      RunKeepsInv(states, events, j - 1);
      AcceptedGrows(states[j - 1], events[j - 1].sid, events[j - 1].step, states[j], sid);
    }
  }

  /** A chunk that a Put has accepted can be read with the same bytes from then on, whatever all the stores do. */
  lemma PutStaysReadable(states: seq<State>, events: seq<Event>, i: nat, j: nat)
    requires Run(states, events) && i < j < |states| && events[i].step.Put?
    ensures var sid, step := events[i].sid, events[i].step;
            && sid in states[j].stores
            && Get(states[j].stores[sid], states[j].files, step.a) == Some(step.data)
            && Has(states[j].stores[sid], states[j].files, step.a)
  {
    hide Steps, Inv, Get, Has, Reach, Init;
    var sid, step := events[i].sid, events[i].step;
    RunKeepsInv(states, events, i);
    PutIsOfStore(states[i], sid, step, states[i + 1]);
    AcceptedGrows(states[i], sid, step, states[i + 1], sid);
    AcceptedStays(states, events, i + 1, j, sid);
    RunKeepsInv(states, events, j);
    StoreFacts(states[j], sid);
    GetReads(states[j].stores[sid], states[j].files, step.a);
  }

  lemma PutIsOfStore(st: State, sid: Sid, step: Step, st': State)
    requires Steps(st, sid, step, st') && step.Put?
    ensures sid in st.stores && step.a == AddrOf(step.data)
  {
  }

  lemma StoreFacts(st: State, sid: Sid)
    requires Inv(st) && sid in st.stores
    ensures StoreOk(st.stores[sid], st.files) && FilesOk(st.files)
    ensures Reach(st.stores[sid].upstream.names) <= Reach(st.persisted.names)
    ensures st.stores[sid].accepted <=
              st.stores[sid].mt.Keys + Reach(st.stores[sid].novel) + Reach(st.stores[sid].tables)
  {
    hide Reach;
  }

  lemma SwapStep(st: State, sid: Sid, step: Step, st': State)
    requires Inv(st) && Steps(st, sid, step, st') && st'.persisted != st.persisted
    ensures step.SwapManifest? && st.stores[sid].pc.WantSwap?
    ensures var pc := st.stores[sid].pc;
            && st'.persisted == pc.next && st.persisted.lock == pc.lock
            && (pc.op.Commit? ==> st.persisted.root == pc.op.last && st'.persisted.root == pc.op.current)
            && (!pc.op.Commit? ==> st'.persisted.root == st.persisted.root)
  {
    hide ProcInv, Reach, Good, Compacts, Splits, Known, UpdateOk, StoreOk, FilesOk, FinishFetch, FinishUpdate,
      Attempted;
    var v := ViewOf(st, sid);
    if step.Attempt? {
      AttemptFrame(v, v.s.pc.current, v.s.pc.last, step.order, step.choice);
    } else if step.SwapManifest? {
      var pc := v.s.pc;
      if v.persisted.lock == pc.lock {
        SwapGrows(v.s, v.persisted, pc.lock, pc.next, pc.op, v.files);
      }
    }
  }

  /**
   * In every run the manifest changes only when a store swaps it. A commit then replaces a manifest whose root is the
   * expected one by one with the new root; conjoins and table additions keep the root.
   */
  lemma SwapIsLinear(states: seq<State>, events: seq<Event>, i: nat)
    requires Run(states, events) && i < |events| && states[i + 1].persisted != states[i].persisted
    ensures events[i].sid in states[i].stores && events[i].step.SwapManifest?
    ensures var pc := states[i].stores[events[i].sid].pc;
            && pc.WantSwap?
            && states[i + 1].persisted == pc.next && states[i].persisted.lock == pc.lock
            && (pc.op.Commit? ==>
                  states[i].persisted.root == pc.op.last && states[i + 1].persisted.root == pc.op.current)
            && (!pc.op.Commit? ==> states[i + 1].persisted.root == states[i].persisted.root)
  {
    hide Init, Inv, Enabled, Act;
    RunKeepsInv(states, events, i);
    assert Steps(states[i], events[i].sid, events[i].step, states[i + 1]);
    SwapStep(states[i], events[i].sid, events[i].step, states[i + 1]);
  }

  /** The manifest that ends a manifest update: the cached one if it rules the update out, else the swapped one. */
  function Answer(v: View, step: Step): Option<Contents>
  {
    if step.CheckUpdate? && v.s.pc.WantUpdate? && v.p.cache.Some? && v.p.cache.value.contents.lock != v.s.pc.lock
    then Some(v.p.cache.value.contents)
    else if step.CacheUpdated? && v.s.pc.Swapped? && v.p.flight.Some? then Some(v.p.flight.value.contents)
    else None
  }

  /** A commit reports success when the manifest it is answered with has the lock of the one it meant to write. */
  predicate Commits(v: View, step: Step)
  {
    && Answer(v, step).Some?
    && (v.s.pc.WantUpdate? || v.s.pc.Swapped?)
    && v.s.pc.op.Commit?
    && Answer(v, step).value.lock == v.s.pc.next.lock
  }

  lemma CommitStep(st: State, sid: Sid, step: Step, st': State)
    requires Inv(st) && Steps(st, sid, step, st') && Commits(ViewOf(st, sid), step)
    ensures st.stores[sid].accepted <= Reach(st'.persisted.names)
    ensures var s' := st'.stores[sid];
            s'.pc.Idle? && s'.mt == map[] && s'.novel == [] && s'.upstream.root == st.stores[sid].pc.op.current
    ensures exists m :: 0 <= m < |st.hist| && st.hist[m].root == st.stores[sid].pc.op.current
              && st.hist[m].lock == st.stores[sid].pc.next.lock
  {
    hide Reach, Compacts, Splits, Known, StoreOk, FilesOk, FinishFetch, Attempted, LockReach, LockRoot;
    var v := ViewOf(st, sid);
    var pc := v.s.pc;
    var c := Answer(v, step).value;
    CommitKeeps(v.s, pc.lock, pc.next, pc.op, v.files);
    LockDetermines(c, v.files);
    LockDetermines(pc.next, v.files);
    StepKeepsInv(st, sid, step, st');
    var e := if step.CheckUpdate? then v.p.cache.value else v.p.flight.value;
    assert st.hist[e.at] == c;
  }

  /** Event i is the step of a store with a process, as every event of a run is. */
  ghost predicate Reporting(states: seq<State>, events: seq<Event>, i: nat)
  {
    && Run(states, events) && i < |events|
    && events[i].sid in states[i].stores && states[i].stores[events[i].sid].proc in states[i].procs
  }

  lemma EventsReport(states: seq<State>, events: seq<Event>, i: nat)
    requires Run(states, events) && i < |events|
    ensures Reporting(states, events, i)
  {
    hide Enabled, Act, Init;
    assert Steps(states[i], events[i].sid, events[i].step, states[i + 1]);
  }

  /**
   * When a commit reports success, a manifest with its new root and lock has been persisted, nothing novel is left, and
   * every chunk the store ever accepted is in the persisted tables from then on.
   */
  lemma CommitIsDurable(states: seq<State>, events: seq<Event>, i: nat, j: nat)
    requires Reporting(states, events, i) && i < j < |states|
    requires Commits(ViewOf(states[i], events[i].sid), events[i].step)
    ensures var s := states[i].stores[events[i].sid];
            && s.accepted <= Reach(states[j].persisted.names)
            && exists m :: 0 <= m < |states[i].hist|
                           && states[i].hist[m].root == s.pc.op.current && states[i].hist[m].lock == s.pc.next.lock
    ensures events[i].sid in states[i + 1].stores
    ensures var s, s' := states[i].stores[events[i].sid], states[i + 1].stores[events[i].sid];
            s'.pc.Idle? && s'.mt == map[] && s'.novel == [] && s'.upstream.root == s.pc.op.current
  {
    hide Init, Inv, Enabled, Act, Reach, Answer;
    RunKeepsInv(states, events, i);
    assert Steps(states[i], events[i].sid, events[i].step, states[i + 1]);
    CommitStep(states[i], events[i].sid, events[i].step, states[i + 1]);
    ReachNeverShrinks(states, events, i + 1, j);
  }

  lemma UpdateStep(st: State, sid: Sid, step: Step, st': State)
    requires Inv(st) && Steps(st, sid, step, st') && Answer(ViewOf(st, sid), step).Some?
    requires var pc := st.stores[sid].pc; pc.op.Update? && Answer(ViewOf(st, sid), step).value.lock == pc.next.lock
    ensures Reach(st.stores[sid].pc.op.updates) <= Reach(st'.persisted.names)
  {
    hide Reach, Compacts, Splits, Known, StoreOk, FilesOk, FinishFetch, FinishUpdate, Attempted, LockReach, LockRoot;
    var v := ViewOf(st, sid);
    LockDetermines(Answer(v, step).value, v.files);
    LockDetermines(v.s.pc.next, v.files);
    ReachSub(v.s.pc.op.updates, v.s.pc.next.names);
    StepKeepsInv(st, sid, step, st');
  }

  /** When an UpdateManifest succeeds, the chunks of the tables it adds are in the persisted tables from then on. */
  lemma UpdateIsDurable(states: seq<State>, events: seq<Event>, i: nat, j: nat)
    requires Reporting(states, events, i) && i < j < |states|
    requires Answer(ViewOf(states[i], events[i].sid), events[i].step).Some?
    requires var pc := states[i].stores[events[i].sid].pc;
             pc.op.Update? && Answer(ViewOf(states[i], events[i].sid), events[i].step).value.lock == pc.next.lock
    ensures Reach(states[i].stores[events[i].sid].pc.op.updates) <= Reach(states[j].persisted.names)
  {
    hide Init, Inv, Enabled, Act, Reach;
    RunKeepsInv(states, events, i);
    assert Steps(states[i], events[i].sid, events[i].step, states[i + 1]);
    UpdateStep(states[i], events[i].sid, events[i].step, states[i + 1]);
    ReachNeverShrinks(states, events, i + 1, j);
  }

  /** The manifest a fetch delivers: a cached one younger than the fetch, or the one read. */
  function Delivered(v: View, step: Step): Option<Contents>
  {
    if step.LockFetch? && v.s.pc.WantFetch? && v.p.cache.Some? && v.p.cache.value.t > v.s.pc.entry
    then Some(v.p.cache.value.contents)
    else if step.CacheFetched? && v.s.pc.Fetched? && v.p.flight.Some? then Some(v.p.flight.value.contents)
    else None
  }

  lemma FetchStep(st: State, sid: Sid, step: Step, st': State)
    requires Inv(st) && Steps(st, sid, step, st') && Delivered(ViewOf(st, sid), step).Some?
    ensures exists m :: st.stores[sid].pc.entry <= m < |st.hist| && st.hist[m] == Delivered(ViewOf(st, sid), step).value
  {
    hide Reach, Compacts, Splits, Known, StoreOk, FilesOk, FinishFetch, FinishUpdate, Attempted, UpdateOk, Good;
    var v := ViewOf(st, sid);
    var e := if step.LockFetch? then v.p.cache.value else v.p.flight.value;
    assert st.hist[e.at] == e.contents;
  }

  predicate Fetching(pc: Pc)
  {
    pc.WantFetch? || pc.Reading? || pc.Fetched?
  }

  /** A step of a store that leaves it fetching either begins the fetch, now, or goes on with it. */
  lemma FetchingStep(st: State, sid: Sid, step: Step, st': State)
    requires Inv(st) && Steps(st, sid, step, st') && Fetching(st'.stores[sid].pc)
    ensures var pc, pc' := st.stores[sid].pc, st'.stores[sid].pc;
            pc'.entry == |st.hist| - 1 || (Fetching(pc) && pc'.entry == pc.entry)
  {
    hide Inv, Known, Compacts, Splits, Written, FinishFetch, FinishUpdate, Attempted;
    var v, now := ViewOf(st, sid), |st.hist| - 1;
    match step
    case LockFetch => if v.p.cache.Some? { FetchEnds(v.s, v.p.cache.value.contents, true, v.s.pc.op); }
    case CacheFetched(_) =>
      FetchEnds(v.s, v.p.flight.value.contents, v.p.flight.value.contents.lock.LockOf?, v.s.pc.op);
    case CheckUpdate =>
      if v.p.cache.Some? { UpdateEnds(v.s, v.p.cache.value.contents, v.s.pc.next, v.s.pc.op, now); }
    case CacheUpdated(_) => UpdateEnds(v.s, v.p.flight.value.contents, v.s.pc.next, v.s.pc.op, now);
    case Attempt(order, choice) => AttemptEnds(v, v.s.pc.current, v.s.pc.last, order, choice);
    case _ =>
  }

  lemma FetchEnds(s: Store, c: Contents, found: bool, op: Op)
    ensures var pc := FinishFetch(s, c, found, op).pc; Fetching(pc) ==> pc == s.pc
  {
  }

  lemma UpdateEnds(s: Store, c: Contents, next: Contents, op: Op, now: nat)
    ensures var pc := FinishUpdate(s, c, next, op, now).pc; Fetching(pc) ==> pc == s.pc || pc.entry == now
  {
  }

  lemma AttemptEnds(v: View, current: Root, last: Root, order: seq<Addr>, choice: Option<Choice>)
    ensures var pc := Attempted(v, current, last, order, choice).s.pc; Fetching(pc) ==> pc == v.s.pc
  {
    hide Written, Conjoined;
  }

  /** The event that began the fetch a store is in. */
  lemma {:induction false} FetchBegan(states: seq<State>, events: seq<Event>, i: nat, sid: Sid) returns (b: nat)
    requires Run(states, events) && i < |states| && sid in states[i].stores && Fetching(states[i].stores[sid].pc)
    ensures b < i && events[b].sid == sid && states[i].stores[sid].pc.entry == |states[b].hist| - 1
    ensures forall k :: b < k <= i ==> sid in states[k].stores && Fetching(states[k].stores[sid].pc)
  {
    hide Inv, Enabled, Act;
    assert Init(states[0]);
    RunKeepsInv(states, events, i - 1);
    var e := events[i - 1];
    assert Steps(states[i - 1], e.sid, e.step, states[i]);
    if e.sid == sid {
      FetchingStep(states[i - 1], sid, e.step, states[i]);
      if states[i].stores[sid].pc.entry == |states[i - 1].hist| - 1 {
        return i - 1;
      }
    }
    b := FetchBegan(states, events, i - 1, sid);
  }

  /** The history ends with the persisted manifests of the states of the run. */
  lemma {:induction false} HistoryIsRun(states: seq<State>, events: seq<Event>, j: nat)
    requires Run(states, events) && j < |states|
    ensures |states[0].hist| > 0 && |states[j].hist| == |states[0].hist| + j
    ensures forall k :: 0 <= k <= j ==> states[j].hist[|states[0].hist| - 1 + k] == states[k].persisted
  {
    hide Enabled, Act;
    if j > 0 {
      HistoryIsRun(states, events, j - 1);
      assert Steps(states[j - 1], events[j - 1].sid, events[j - 1].step, states[j]);
    }
  }

  /**
   * Fetch is linearizable: what it delivers was the persisted manifest in a state k between the state b in which it
   * began and the state i in which it returns.
   */
  lemma FetchIsFresh(states: seq<State>, events: seq<Event>, i: nat) returns (b: nat, k: nat)
    requires Reporting(states, events, i) && Delivered(ViewOf(states[i], events[i].sid), events[i].step).Some?
    ensures b <= k <= i && states[k].persisted == Delivered(ViewOf(states[i], events[i].sid), events[i].step).value
    ensures b < i && events[b].sid == events[i].sid
    ensures forall l :: b < l <= i ==> events[i].sid in states[l].stores && Fetching(states[l].stores[events[i].sid].pc)
  {
    hide Inv, Enabled, Act, Init;
    var sid := events[i].sid;
    RunKeepsInv(states, events, i);
    assert Steps(states[i], sid, events[i].step, states[i + 1]);
    FetchStep(states[i], sid, events[i].step, states[i + 1]);
    b := FetchBegan(states, events, i, sid);
    HistoryIsRun(states, events, i);
    HistoryIsRun(states, events, b);
    var m: nat :|
      && states[i].stores[sid].pc.entry <= m < |states[i].hist|
      && states[i].hist[m] == Delivered(ViewOf(states[i], sid), events[i].step).value;
    k := m - (|states[0].hist| - 1);
  }

  /** What a store is after a rebase that was delivered c. */
  ghost predicate Follows(s: Store, c: Contents)
  {
    s.pc.Idle? && s.upstream.lock == c.lock && s.upstream.root == c.root && Reach(s.tables) == Reach(c.names)
  }

  lemma RebaseStep(st: State, sid: Sid, step: Step, st': State)
    requires Inv(st) && Steps(st, sid, step, st') && Delivered(ViewOf(st, sid), step).Some?
    requires st.stores[sid].pc.op.Rebase?
    ensures var c := Delivered(ViewOf(st, sid), step).value;
            if c.lock.LockOf? then Follows(st'.stores[sid], c) else Reach(c.names) == {}
  {
    hide Reach, Compacts, Splits, Known, FilesOk, FinishUpdate, Attempted, UpdateOk, LockReach, LockRoot;
    var v := ViewOf(st, sid);
    var e := if step.LockFetch? then v.p.cache.value else v.p.flight.value;
    assert EntryOk(e, v.persisted, v.files, st.hist);
    LockDetermines(e.contents, v.files);
    LockDetermines(v.s.upstream, v.files);
    DedupReach(e.contents.names);
    assert Reach([]) == {} by { ReachNone(); }
    NothingLocked(e.contents, v.files);
  }

  lemma NothingLocked(c: Contents, files: Files)
    requires Good(c, files)
    ensures c.lock.NoLock? ==> Reach(c.names) == {}
  {
  }

  /**
   * A rebase follows the manifest: what it is delivered is what the store's lock, root and tables are afterwards, and
   * every chunk that was reachable from the persisted manifest when the rebase began, in state b, is read by the store.
   */
  lemma RebaseFollows(states: seq<State>, events: seq<Event>, i: nat) returns (b: nat)
    requires Reporting(states, events, i) && Delivered(ViewOf(states[i], events[i].sid), events[i].step).Some?
    requires states[i].stores[events[i].sid].pc.op.Rebase?
    ensures b < i && events[b].sid == events[i].sid && events[i].sid in states[i + 1].stores
    ensures var c := Delivered(ViewOf(states[i], events[i].sid), events[i].step).value;
            c.lock.LockOf? ==> Follows(states[i + 1].stores[events[i].sid], c)
    ensures forall l :: b < l <= i ==> events[i].sid in states[l].stores && Fetching(states[l].stores[events[i].sid].pc)
    ensures forall a :: a in Reach(states[b].persisted.names) ==>
              Get(states[i + 1].stores[events[i].sid], states[i + 1].files, a) == Some(a.data)
  {
    hide Inv, Enabled, Act, Init, Reach, Delivered, Get;
    var sid := events[i].sid;
    RunKeepsInv(states, events, i);
    RunKeepsInv(states, events, i + 1);
    assert Steps(states[i], sid, events[i].step, states[i + 1]);
    RebaseStep(states[i], sid, events[i].step, states[i + 1]);
    var k;
    b, k := FetchIsFresh(states, events, i);
    ReachNeverShrinks(states, events, b, k);
    StoreFacts(states[i + 1], sid);
    forall a | a in Reach(states[b].persisted.names)
      ensures Get(states[i + 1].stores[sid], states[i + 1].files, a) == Some(a.data)
    {
      GetReads(states[i + 1].stores[sid], states[i + 1].files, a);
    }
  }

  lemma CacheStep(st: State, sid: Sid, step: Step, st': State, p: Pid)
    requires Inv(st) && Steps(st, sid, step, st') && p in st.procs
    ensures p in st'.procs && st.procs[p].lastPut <= st'.procs[p].lastPut < |st'.hist|
    ensures st'.procs[p].cache.Some? ==> st'.procs[p].cache.value.contents == st'.hist[st'.procs[p].lastPut]
  {
    hide Reach, Compacts, Splits, Known, StoreOk, FilesOk, FinishFetch, FinishUpdate, Attempted, UpdateOk, Good,
      StoreInv;
    StepKeepsInv(st, sid, step, st');
    var v := ViewOf(st, sid);
    if step.Attempt? { AttemptFrame(v, v.s.pc.current, v.s.pc.last, step.order, step.choice); }
  }

  /** Over every run the cache of a process never goes back in the history of the manifest. */
  lemma {:induction false} CacheNeverGoesBack(states: seq<State>, events: seq<Event>, i: nat, j: nat, p: Pid)
    requires Run(states, events) && i <= j < |states| && p in states[i].procs
    ensures p in states[j].procs && states[i].procs[p].lastPut <= states[j].procs[p].lastPut < |states[j].hist|
    ensures states[j].procs[p].cache.Some? ==>
              states[j].procs[p].cache.value.contents == states[j].hist[states[j].procs[p].lastPut]
  {
    hide Steps, Init, Inv;
    if i < j {
      CacheNeverGoesBack(states, events, i, j - 1, p);
      RunKeepsInv(states, events, j - 1);
      CacheStep(states[j - 1], events[j - 1].sid, events[j - 1].step, states[j], p);
    } else {
      RunKeepsInv(states, events, j);
      CacheNow(states[j], p);
    }
  }

  lemma CacheNow(st: State, p: Pid)
    requires Inv(st) && p in st.procs
    ensures st.procs[p].lastPut < |st.hist|
    ensures st.procs[p].cache.Some? ==> st.procs[p].cache.value.contents == st.hist[st.procs[p].lastPut]
  {
    hide Reach, StoreInv, Good, FilesOk;
  }

  /** Nothing but its own cache write moves a store that has swapped the manifest. */
  lemma SwappedWaits(st: State, o: Sid, step: Step, st': State, sid: Sid)
    requires Inv(st) && Steps(st, o, step, st') && sid in st.stores && st.stores[sid].pc.Swapped?
    requires o == sid ==> step.Evict?
    ensures sid in st'.stores && st'.stores[sid] == st.stores[sid]
    ensures ViewOf(st', sid).p.flight == ViewOf(st, sid).p.flight
  {
    hide Reach, Compacts, Splits, Known, FilesOk, UpdateOk, Good, EntryOk, StoreOk, Enabled, Act;
    var v := ViewOf(st, o);
    if o == sid {
      EvictFrame(v, sid, |st.hist| - 1);
    } else {
      ActKeeps(v, o, st.hist, step);
    }
  }

  lemma {:induction false} SwappedWaitsLong(states: seq<State>, events: seq<Event>, i: nat, j: nat, sid: Sid)
    requires Run(states, events) && i <= j < |states| && sid in states[i].stores && states[i].stores[sid].pc.Swapped?
    requires forall k :: i <= k < j && events[k].sid == sid ==> events[k].step.Evict?
    requires states[i].stores[sid].proc in states[i].procs
    ensures sid in states[j].stores && states[j].stores[sid] == states[i].stores[sid]
    ensures states[j].stores[sid].proc in states[j].procs
    ensures ViewOf(states[j], sid).p.flight == ViewOf(states[i], sid).p.flight
  {
    hide Steps, Init, StoreInv, ProcInv, WorldOk;
    if i < j {
      SwappedWaitsLong(states, events, i, j - 1, sid);
      RunKeepsInv(states, events, j - 1);
      RunKeepsInv(states, events, j);
      SwappedWaits(states[j - 1], events[j - 1].sid, events[j - 1].step, states[j], sid);
    }
  }

  lemma SwapWins(st: State, sid: Sid, st': State)
    requires Inv(st) && Steps(st, sid, SwapManifest, st') && st'.persisted != st.persisted
    ensures sid in st.stores && st.stores[sid].pc.WantSwap?
    ensures sid in st'.stores && st'.stores[sid].proc in st'.procs
    ensures st'.stores[sid].pc == Swapped(st.stores[sid].pc.lock, st.stores[sid].pc.next, st.stores[sid].pc.op)
    ensures ViewOf(st', sid).p.flight.Some? && ViewOf(st', sid).p.flight.value.contents == st.stores[sid].pc.next
  {
    hide StoreInv, ProcInv, WorldOk;
  }

  /** A commit that has replaced the manifest reports success: reporting a failed commit means it wrote nothing. */
  lemma WonSwapIsReported(states: seq<State>, events: seq<Event>, i: nat, j: nat)
    requires Run(states, events) && i < j < |events| && events[j].sid == events[i].sid
    requires events[i].step.SwapManifest? && states[i + 1].persisted != states[i].persisted
    requires events[i].sid in states[i].stores && states[i].stores[events[i].sid].pc.WantSwap?
    requires states[i].stores[events[i].sid].pc.op.Commit?
    requires forall k :: i < k < j && events[k].sid == events[i].sid ==> events[k].step.Evict?
    ensures var sid := events[i].sid;
            && sid in states[j].stores && states[j].stores[sid].proc in states[j].procs
            && (events[j].step.Evict? || Commits(ViewOf(states[j], sid), events[j].step))
  {
    hide Init, StoreInv, ProcInv, WorldOk, Act, Inv;
    var sid := events[i].sid;
    RunKeepsInv(states, events, i);
    SwapWins(states[i], sid, states[i + 1]);
    SwappedWaitsLong(states, events, i + 1, j, sid);
    assert Steps(states[j], sid, events[j].step, states[j + 1]);
  }
}
