/** A store that is left alone. */
module ManifestProgress {

  // What an operation of the manifest protocol comes to when no other store takes a step meanwhile, however stale the
  // store and the manifest cache of its process are when it begins.

  import opened ManifestProtocol
  import opened ManifestRuns
  import opened Options
  import opened TableSets

  /** The steps of a store, one after the other, and the states they lead through. */
  ghost predicate Path(path: seq<State>, sid: Sid, steps: seq<Step>)
  {
    && |path| == |steps| + 1
    && Inv(path[|steps|])
    && sid in path[|steps|].stores && path[|steps|].stores[sid].proc in path[|steps|].procs
    && forall i :: 0 <= i < |steps| ==> Steps(path[i], sid, steps[i], path[i + 1])
  }

  /** A path that leads from a state to another one. */
  ghost predicate Leads(st: State, path: seq<State>, sid: Sid, steps: seq<Step>, st': State)
  {
    Path(path, sid, steps) && path[0] == st && path[|steps|] == st'
  }

  lemma NoStep(st: State, sid: Sid)
    requires Inv(st) && sid in st.stores
    ensures Leads(st, [st], sid, [], st)
  {
    hide StoreInv, ProcInv, WorldOk;
  }

  lemma Then(st: State, path: seq<State>, sid: Sid, steps: seq<Step>, mid: State, step: Step)
    returns (path': seq<State>, steps': seq<Step>, st': State)
    requires Leads(st, path, sid, steps, mid) && Enabled(ViewOf(mid, sid), step)
    ensures Leads(st, path', sid, steps', st') && steps' == steps + [step]
    ensures ViewOf(st', sid) == Act(ViewOf(mid, sid), sid, |mid.hist| - 1, step)
    ensures |st'.hist| == |mid.hist| + 1
  {
    hide Enabled, Act, StoreInv, ProcInv, WorldOk;
    var v := ViewOf(mid, sid);
    var v' := Act(v, sid, |mid.hist| - 1, step);
    ActKeeps(v, sid, mid.hist, step);
    st' := State(mid.stores[sid := v'.s], mid.procs[v.s.proc := v'.p], v'.persisted, v'.files,
                 mid.hist + [v'.persisted]);
    StepKeepsInv(mid, sid, step, st');
    path', steps' := path + [st'], steps + [step];
  }

  lemma Joins(st: State, path: seq<State>, sid: Sid, steps: seq<Step>, mid: State,
              path1: seq<State>, steps1: seq<Step>, st': State)
    returns (path': seq<State>, steps': seq<Step>)
    requires Leads(st, path, sid, steps, mid) && Leads(mid, path1, sid, steps1, st')
    ensures Leads(st, path', sid, steps', st') && steps' == steps + steps1
  {
    hide Steps, Inv;
    path', steps' := path + path1[1..], steps + steps1;
    forall i | 0 <= i < |steps'| ensures Steps(path'[i], sid, steps'[i], path'[i + 1]) {
      if i >= |steps| {
        assert Steps(path1[i - |steps|], sid, steps1[i - |steps|], path1[i - |steps| + 1]);
      }
    }
  }

  /** The manifest of a cache entry, if there is one. */
  ghost predicate Holds(e: Option<Entry>, c: Contents)
  {
    e.Some? ==> e.value.contents == c
  }

  /** From the intention to write a manifest to the end of the write. */
  lemma WriteAlone(st: State, sid: Sid, keep: bool) returns (path: seq<State>, steps: seq<Step>, st': State)
    requires Inv(st) && sid in st.stores && st.stores[sid].pc.WantUpdate?
    requires var v, lock := ViewOf(st, sid), st.stores[sid].pc.lock;
             && v.p.holder.None?
             && (v.p.cache.Some? ==> v.p.cache.value.contents.lock == lock)
             && (v.persisted.lock.NoLock? ==> lock.NoLock?)
    ensures Leads(st, path, sid, steps, st') && |steps| == 3
    ensures var v, v', pc := ViewOf(st, sid), ViewOf(st', sid), st.stores[sid].pc;
            var c := if v.persisted.lock == pc.lock then pc.next else v.persisted;
            && v'.persisted == c && v'.files == v.files
            && v'.s == FinishUpdate(v.s, c, pc.next, pc.op, |st.hist| + 1)
            && v'.p.holder.None? && Holds(v'.p.cache, c) && (v'.p.cache.Some? <==> keep)
  {
    hide Inv, Known, Compacts, Splits, Written, FinishFetch, FinishUpdate, Attempted;
    var st1, st2;
    assert !st.stores[sid].pc.op.Rebase? by { WriteIsNoRebase(st, sid); }
    NoStep(st, sid);
    path, steps, st1 := Then(st, [st], sid, [], st, CheckUpdate);
    path, steps, st2 := Then(st, path, sid, steps, st1, SwapManifest);
    path, steps, st' := Then(st, path, sid, steps, st2, CacheUpdated(keep));
    var v, v2, pc := ViewOf(st, sid), ViewOf(st2, sid), st.stores[sid].pc;
    EndsAlike(v.s, v2.s, v2.p.flight.value.contents, true, pc.next, pc.op, |st2.hist| - 1);
  }

  /** Where a store is does not matter to how an access ends. */
  lemma EndsAlike(s: Store, s': Store, c: Contents, found: bool, next: Contents, op: Op, now: nat)
    requires s' == s.(pc := s'.pc)
    ensures op.Rebase? || op.Update? ==> FinishFetch(s', c, found, op) == FinishFetch(s, c, found, op)
    ensures !op.Rebase? ==> FinishUpdate(s', c, next, op, now) == FinishUpdate(s, c, next, op, now)
  {
    hide NonEmpty, Dedup, MakeContents;
    assert Rebased(s', c) == Rebased(s, c).(pc := s'.pc);
  }

  lemma WriteIsNoRebase(st: State, sid: Sid)
    requires Inv(st) && sid in st.stores && (st.stores[sid].pc.WantUpdate? || st.stores[sid].pc.Swapped?)
    ensures !st.stores[sid].pc.op.Rebase?
  {
    hide Reach, Good, StoreOk, FilesOk, Known;
  }

  /** From the beginning of a fetch to its end: it delivers the persisted manifest, whatever is in the cache. */
  lemma FetchAlone(st: State, sid: Sid, begin: Step, keep: bool)
    returns (path: seq<State>, steps: seq<Step>, st': State)
    requires Inv(st) && sid in st.stores && ViewOf(st, sid).p.holder.None? && st.stores[sid].pc.Idle?
    requires begin.BeginRebase? || begin.BeginUpdate? || begin.BeginCommit?
    requires begin.BeginUpdate? ==> Known(st.files, begin.updates)
    requires begin.BeginCommit? ==>
               st.stores[sid].mt == map[] && st.stores[sid].novel == [] && begin.current == begin.last
    ensures Leads(st, path, sid, steps, st') && |steps| == 4 && steps[0] == begin
    ensures var v, v' := ViewOf(st, sid), ViewOf(st', sid);
            var op := if begin.BeginUpdate? then Update(begin.updates) else Rebase;
            && v'.persisted == v.persisted && v'.files == v.files
            && v'.s == FinishFetch(v.s, v.persisted, v.persisted.lock.LockOf?, op)
            && v'.p.holder.None? && Holds(v'.p.cache, v.persisted) && (v'.p.cache.Some? <==> keep)
  {
    hide Inv, Known, Compacts, Splits, Written, FinishFetch, FinishUpdate, Attempted;
    var st1, st2, st3;
    CacheIsOld(st, sid);
    NoStep(st, sid);
    path, steps, st1 := Then(st, [st], sid, [], st, begin);
    path, steps, st2 := Then(st, path, sid, steps, st1, LockFetch);
    path, steps, st3 := Then(st, path, sid, steps, st2, ReadManifest);
    path, steps, st' := Then(st, path, sid, steps, st3, CacheFetched(keep));
    var v, v3 := ViewOf(st, sid), ViewOf(st3, sid);
    EndsAlike(v.s, v3.s, v.persisted, v.persisted.lock.LockOf?, v.persisted, v3.s.pc.op, 0);
  }

  lemma CacheIsOld(st: State, sid: Sid)
    requires Inv(st) && sid in st.stores
    ensures var p := ViewOf(st, sid).p; p.cache.Some? ==> p.cache.value.t < |st.hist|
  {
    hide Reach, Good, StoreInv, FilesOk;
  }

  // ----- Rebase and table additions -----

  /** The store a rebase leaves behind: unchanged if the manifest is the one it follows, else following it. */
  ghost predicate RebasedOnto(s: Store, s': Store, c: Contents)
  {
    && s'.mt == s.mt && s'.accepted == s.accepted
    && if c.lock == s.upstream.lock || c.lock.NoLock? then s' == s
       else s'.pc.Idle? && s'.upstream == c && Reach(s'.tables) == Reach(c.names) && Reach(s'.novel) == Reach(s.novel)
  }

  /** A rebase ends after four steps on the persisted manifest; a commit with nothing to commit is a rebase. */
  lemma RebaseAlone(st: State, sid: Sid, begin: Step, keep: bool)
    returns (path: seq<State>, steps: seq<Step>, st': State)
    requires Inv(st) && sid in st.stores && ViewOf(st, sid).p.holder.None? && st.stores[sid].pc.Idle?
    requires
      || begin.BeginRebase?
      || (&& begin.BeginCommit? && begin.current == begin.last
          && st.stores[sid].mt == map[] && st.stores[sid].novel == [])
    ensures Leads(st, path, sid, steps, st') && |steps| == 4 && steps[0] == begin
    ensures st'.persisted == st.persisted && RebasedOnto(st.stores[sid], st'.stores[sid], st.persisted)
    ensures var p := ViewOf(st', sid).p;
            p.holder.None? && Holds(p.cache, st.persisted) && (p.cache.Some? <==> keep)
  {
    hide Inv, Reach, NonEmpty, Dedup;
    path, steps, st' := FetchAlone(st, sid, begin, keep);
    NonEmptyReach(st.stores[sid].novel);
    DedupReach(st.persisted.names);
  }

  /**
   * Adding tables ends after four steps if the persisted manifest has them all, and else after three more, with those
   * that were missing appended to the persisted manifest, which the store then follows.
   */
  lemma UpdateAlone(st: State, sid: Sid, updates: seq<Name>, keep: bool)
    returns (path: seq<State>, steps: seq<Step>, st': State)
    requires Inv(st) && sid in st.stores && ViewOf(st, sid).p.holder.None? && st.stores[sid].pc.Idle?
    requires Known(st.files, updates)
    ensures Leads(st, path, sid, steps, st') && ViewOf(st', sid).p.holder.None? && st'.stores[sid].pc.Idle?
    ensures var all := forall n :: n in updates ==> n in st.persisted.names;
            && (|steps| == if all then 4 else 7)
            && (all ==> st'.persisted == st.persisted && st'.stores[sid] == st.stores[sid])
            && (!all ==> st'.stores[sid].upstream == st'.persisted)
    ensures st'.persisted.root == st.persisted.root && st.persisted.names <= st'.persisted.names
    ensures forall n :: n in st'.persisted.names <==> n in st.persisted.names || n in updates
  {
    hide Inv, NonEmpty, Dedup;
    path, steps, st' := FetchAlone(st, sid, BeginUpdate(updates), keep);
    var missing := Filter(updates, n => n !in st.persisted.names);
    if missing != [] {
      assert missing[0] in missing;
      var mid, path1, steps1 := st', path, steps;
      path1, steps1, st' := WriteAlone(mid, sid, keep);
      path, steps := Joins(st, path, sid, steps, mid, path1, steps1, st');
    } else {
      assert forall n :: n in updates && n !in st.persisted.names ==> n in missing;
    }
  }

  // ----- Commit -----

  ghost predicate NoneEmpty(names: seq<Name>)
  {
    forall n :: n in names ==> n.addrs != []
  }

  /** The chunks a store has to commit. */
  ghost function Pending(s: Store): set<Addr>
  {
    s.mt.Keys + Reach(s.novel)
  }

  /** Any set of chunks can be written in some order. */
  lemma {:induction false} OrderOf(chunks: set<Addr>) returns (order: seq<Addr>)
    ensures forall a :: a in order <==> a in chunks
  {
    order := [];
    if chunks != {} {
      var a :| a in chunks;
      var rest := OrderOf(chunks - {a});
      order := rest + [a];
    }
  }

  /** A store in a commit that follows a manifest with the expected root, which its cache does not contradict. */
  ghost predicate Publishes(v: View, current: Root, last: Root)
  {
    && v.s.pc == Attempting(current, last)
    && v.p.holder.None?
    && (v.p.cache.Some? ==> v.p.cache.value.contents.lock == v.s.upstream.lock)
    && (v.persisted.lock.NoLock? ==> v.s.upstream.lock.NoLock?)
    && v.s.upstream.root == last
    && NoneEmpty(v.s.tables)
  }

  /** A commit of the pending chunks has been made. */
  ghost predicate Committed(st: State, st': State, sid: Sid, current: Root)
    requires sid in st.stores && sid in st'.stores
  {
    var s, s' := st.stores[sid], st'.stores[sid];
    && s'.pc.Idle? && s'.mt == map[] && s'.novel == []
    && s'.upstream.lock == st'.persisted.lock && st'.persisted.root == current
    && Reach(st'.persisted.names) == Reach(st.persisted.names) + Pending(s)
  }

  /** The first step of a pass writes the memtable and turns to the manifest. */
  lemma AttemptAlone(st: State, sid: Sid, current: Root, last: Root)
    returns (path: seq<State>, steps: seq<Step>, st': State)
    requires Inv(st) && sid in st.stores && Publishes(ViewOf(st, sid), current, last)
    ensures Leads(st, path, sid, steps, st') && |steps| == 1
    ensures var v, v' := ViewOf(st, sid), ViewOf(st', sid);
            && v' == v.(s := v'.s, files := v'.files)
            && v'.s.mt == map[] && v'.s.tables == v.s.tables && v'.s.upstream == v.s.upstream
            && Reach(v'.s.novel) + Reach(v.s.tables) == Pending(v.s) + Reach(v.s.tables)
            && v'.s.pc == WantUpdate(v.s.upstream.lock, MakeContents(current, NonEmpty(v'.s.novel) + v.s.tables),
                                     Commit(current, last))
  {
    hide Inv, Reach, Known, Splits, Written, NonEmpty, Filter, MakeContents;
    NoStep(st, sid);
    var v := ViewOf(st, sid);
    var order := OrderOf(v.s.mt.Keys - Reach(v.s.novel) - Reach(v.s.tables));
    path, steps, st' := Then(st, [st], sid, [], st, Attempt(order, None));
    ReachAppend([NameOf(order)], v.s.novel);
    ReachOne(NameOf(order));
  }

  /**
   * A pass that begins on a manifest with the expected root commits, unless the persisted manifest is another one:
   * then it leaves the store following that one.
   */
  lemma PassAlone(st: State, sid: Sid, current: Root, last: Root)
    returns (path: seq<State>, steps: seq<Step>, st': State)
    requires Inv(st) && sid in st.stores && Publishes(ViewOf(st, sid), current, last)
    requires st.persisted.root == last && NoneEmpty(st.persisted.names)
    ensures Leads(st, path, sid, steps, st') && |steps| == 4
    ensures
      || Committed(st, st', sid, current)
      || (&& st.persisted.lock != st.stores[sid].upstream.lock && st'.persisted == st.persisted
          && Publishes(ViewOf(st', sid), current, last) && st'.stores[sid].upstream == st.persisted
          && Reach(st.persisted.names) + Pending(st'.stores[sid])
             == Reach(st.persisted.names) + Pending(st.stores[sid]))
  {
    hide Inv, Reach, Known, NonEmpty, Filter, Dedup;
    var mid, path1, steps1;
    path1, steps1, mid := AttemptAlone(st, sid, current, last);
    path, steps, st' := WriteAlone(mid, sid, true);
    path, steps := Joins(st, path1, sid, steps1, mid, path, steps, st');
    var v, m := ViewOf(st, sid), ViewOf(mid, sid);
    StoreFacts(st, sid);
    PersistedGood(st);
    LockDetermines(st.persisted, st.files);
    LockDetermines(v.s.upstream, st.files);
    NonEmptyReach(m.s.novel);
    ReachAppend(NonEmpty(m.s.novel), m.s.tables);
    DedupReach(st.persisted.names);
  }

  lemma PersistedGood(st: State)
    requires Inv(st)
    ensures Good(st.persisted, st.files)
  {
    hide StoreInv, ProcInv, FilesOk, Good;
  }

  /** Every manifest a commit can come upon has the expected root and names no empty table. */
  ghost predicate CanCommit(v: View, last: Root)
  {
    && v.p.holder.None? && v.s.pc.Idle?
    && v.s.upstream.root == last && v.persisted.root == last
    && NoneEmpty(v.s.tables) && NoneEmpty(v.persisted.names)
    && (v.persisted.lock.NoLock? ==> v.s.upstream.lock.NoLock?)
    && (v.p.cache.Some? ==>
          var c := v.p.cache.value.contents;
          c.root == last && NoneEmpty(c.names) && (v.persisted.lock.NoLock? ==> c.lock.NoLock?))
  }

  /** The steps of a commit up to the first pass that its cache does not rule out. */
  lemma CommitBegins(st: State, sid: Sid, current: Root, last: Root)
    returns (path: seq<State>, steps: seq<Step>, st': State)
    requires Inv(st) && sid in st.stores && CanCommit(ViewOf(st, sid), last)
    requires st.stores[sid].mt != map[] || st.stores[sid].novel != [] || current != last
    ensures Leads(st, path, sid, steps, st') && |steps| <= 2 && Publishes(ViewOf(st', sid), current, last)
    ensures st'.persisted == st.persisted && Pending(st'.stores[sid]) == Pending(st.stores[sid])
  {
    hide Inv, Reach, Known, Splits, Written, NonEmpty, Filter, MakeContents, Dedup;
    NoStep(st, sid);
    path, steps, st' := Then(st, [st], sid, [], st, BeginCommit(current, last));
    var v := ViewOf(st', sid);
    if Doomed(v) {
      var order := OrderOf(v.s.mt.Keys - Reach(v.s.novel) - Reach(v.s.tables));
      path, steps, st' := Then(st, path, sid, steps, st', Attempt(order, None));
      NonEmptyReach(v.s.novel);
    }
  }

  /**
   * A commit that is left alone succeeds, however far the store and its cache are behind, if none of the manifests it
   * can come upon has another root or an empty table. The persisted tables then hold what they held and the pending
   * chunks, no more.
   */
  lemma CommitAlone(st: State, sid: Sid, current: Root, last: Root)
    returns (path: seq<State>, steps: seq<Step>, st': State)
    requires Inv(st) && sid in st.stores && CanCommit(ViewOf(st, sid), last)
    requires st.stores[sid].mt != map[] || st.stores[sid].novel != [] || current != last
    ensures Leads(st, path, sid, steps, st') && |steps| <= 10 && Committed(st, st', sid, current)
  {
    hide Inv, Reach;
    var path1, steps1, mid;
    path1, steps1, mid := CommitBegins(st, sid, current, last);
    path, steps, st' := PassAlone(mid, sid, current, last);
    path, steps := Joins(st, path1, sid, steps1, mid, path, steps, st');
    if !Committed(mid, st', sid, current) {
      var second := st';
      path1, steps1, st' := PassAlone(second, sid, current, last);
      path, steps := Joins(st, path, sid, steps, second, path1, steps1, st');
    }
  }

  /**
   * A conjoin on the way of a commit, left alone, replaces the conjoinees in the persisted manifest, which keeps its
   * root and the chunks it reaches, and the commit goes on from there.
   */
  lemma ConjoinAlone(st: State, sid: Sid, current: Root, last: Root, choice: Choice, keep: bool)
    returns (path: seq<State>, steps: seq<Step>, st': State)
    requires Inv(st) && sid in st.stores && Publishes(ViewOf(st, sid), current, last)
    requires st.persisted.lock == st.stores[sid].upstream.lock && Splits(st.stores[sid].upstream.names, choice)
    requires choice.conjoined.addrs != [] && NoneEmpty(choice.keepers)
    ensures Leads(st, path, sid, steps, st') && |steps| == 4 && Publishes(ViewOf(st', sid), current, last)
    ensures st'.persisted.root == st.persisted.root && st'.persisted.names == [choice.conjoined] + choice.keepers
    ensures Reach(st'.persisted.names) == Reach(st.persisted.names) && st'.stores[sid].upstream == st'.persisted
    ensures var s, s' := st.stores[sid], st'.stores[sid];
            s'.mt == map[] && Reach(s'.novel) + Reach(s'.tables) == Pending(s) + Reach(s.tables)
  {
    hide Inv, Reach, Known, Splits, Written, Conjoined, NonEmpty, Filter, Dedup;
    NoStep(st, sid);
    var v := ViewOf(st, sid);
    var order := OrderOf(v.s.mt.Keys - Reach(v.s.novel) - Reach(v.s.tables));
    var mid, path1, steps1;
    path1, steps1, mid := Then(st, [st], sid, [], st, Attempt(order, Some(choice)));
    path, steps, st' := WriteAlone(mid, sid, keep);
    path, steps := Joins(st, path1, sid, steps1, mid, path, steps, st');
    ReachAppend([NameOf(order)], v.s.novel);
    ReachOne(NameOf(order));
    NonEmptyReach(mid.stores[sid].novel);
    DedupReach(st'.persisted.names);
    StoreFacts(st, sid);
    PersistedGood(st);
    SplitReach(v.s.upstream.names, choice);
    LockDetermines(st.persisted, st.files);
    LockDetermines(v.s.upstream, st.files);
  }

  lemma SplitReach(names: seq<Name>, choice: Choice)
    requires Splits(names, choice)
    ensures Reach([choice.conjoined] + choice.keepers) == Reach(names)
  {
    hide Reach;
    ReachSame(names, choice.conjoinees + choice.keepers);
    ReachAppend(choice.conjoinees, choice.keepers);
    ReachAppend([choice.conjoined], choice.keepers);
    ReachOne(choice.conjoined);
  }

  // ----- Operations that are not left alone -----

  /** In every run a flush leaves an empty memtable and tables with the same chunks, and touches nothing else. */
  lemma FlushWrites(states: seq<State>, events: seq<Event>, i: nat)
    requires Reporting(states, events, i) && events[i].step.Flush?
    ensures events[i].sid in states[i + 1].stores && states[i + 1].persisted == states[i].persisted
    ensures var s, s' := states[i].stores[events[i].sid], states[i + 1].stores[events[i].sid];
            && s' == s.(mt := map[], novel := s'.novel)
            && Reach(s'.novel) + Reach(s'.tables) == Pending(s) + Reach(s.tables)
  {
    hide Init, Reach;
    var order := events[i].step.order;
    assert Steps(states[i], events[i].sid, Flush(order), states[i + 1]);
    ReachAppend([NameOf(order)], states[i].stores[events[i].sid].novel);
    ReachOne(NameOf(order));
  }

  /** A commit of current over last, or a conjoin on its way, is under way. */
  predicate InCommit(pc: Pc, current: Root, last: Root)
  {
    || pc == Attempting(current, last)
    || (&& (pc.WantUpdate? || pc.WantSwap? || pc.Swapped?)
        && (pc.op.Commit? || pc.op.Conjoin?) && pc.op.current == current && pc.op.last == last)
  }

  /** The manifest the commit came upon has another root than the expected one. */
  predicate Overtaken(v: View, step: Step, last: Root)
  {
    if step.Attempt? then v.s.upstream.root != last || (Doomed(v) && v.p.cache.value.contents.root != last)
    else
      && Answer(v, step).Some? && (v.s.pc.WantUpdate? || v.s.pc.Swapped?) && v.s.pc.op.Commit?
      && Answer(v, step).value.lock != v.s.pc.next.lock && Answer(v, step).value.root != last
  }

  /** The commit has to name an empty table, or the manifest file it is about to replace is gone. */
  ghost predicate Broken(v: View, step: Step, last: Root)
  {
    if step.Attempt? then
      && v.s.upstream.root == last && !Doomed(v) && step.choice.None?
      && exists n :: n in v.s.tables && n.addrs == []
    else step.SwapManifest? && v.s.pc.WantSwap? && v.s.pc.lock.LockOf? && v.persisted.lock.NoLock?
  }

  lemma CommitStepEnds(st: State, sid: Sid, step: Step, st': State, current: Root, last: Root)
    requires Steps(st, sid, step, st') && InCommit(st.stores[sid].pc, current, last) && !step.Evict?
    ensures var v, s' := ViewOf(st, sid), st'.stores[sid];
            && (s'.pc.Idle? <==> Commits(v, step) || Overtaken(v, step, last) || Broken(v, step, last))
            && (!s'.pc.Idle? ==> InCommit(s'.pc, current, last))
            && (Overtaken(v, step, last) ==> s'.upstream.root != last)
  {
    hide Known, Compacts, Splits, Written, Conjoined, NonEmpty, Filter, Dedup, Rebased, Attempted, FinishFetch,
      MakeContents;
    var v := ViewOf(st, sid);
    match step
    case Attempt(order, choice) => AttemptStepEnds(v, order, choice);
    case CheckUpdate => if v.p.cache.Some? { RebasedFrame(v.s, v.p.cache.value.contents); }
    case CacheUpdated(_) => RebasedFrame(v.s, v.p.flight.value.contents);
    case _ =>
  }

  lemma AttemptStepEnds(v: View, order: seq<Addr>, choice: Option<Choice>)
    requires v.s.pc.Attempting?
    ensures var step, current, last := Attempt(order, choice), v.s.pc.current, v.s.pc.last;
            var s' := Attempted(v, current, last, order, choice).s;
            && (s'.pc.Idle? <==> Overtaken(v, step, last) || Broken(v, step, last))
            && (!s'.pc.Idle? ==> InCommit(s'.pc, current, last))
            && (Overtaken(v, step, last) ==> s'.upstream.root != last)
  {
    hide Written, Conjoined, NonEmpty, Dedup, Rebased, MakeContents;
    if Doomed(v) { RebasedFrame(v.s, v.p.cache.value.contents); }
  }

  /**
   * In every run a commit goes on until it succeeds or comes upon a manifest with another root, which the store then
   * follows; that others only add or conjoin tables does not end it.
   */
  lemma CommitEnds(states: seq<State>, events: seq<Event>, i: nat, current: Root, last: Root)
    requires Reporting(states, events, i) && InCommit(states[i].stores[events[i].sid].pc, current, last)
    requires !events[i].step.Evict?
    ensures events[i].sid in states[i + 1].stores
    ensures var v, s' := ViewOf(states[i], events[i].sid), states[i + 1].stores[events[i].sid];
            var step := events[i].step;
            && (s'.pc.Idle? <==> Commits(v, step) || Overtaken(v, step, last) || Broken(v, step, last))
            && (!s'.pc.Idle? ==> InCommit(s'.pc, current, last))
            && (Overtaken(v, step, last) ==> s'.upstream.root != last)
  {
    hide Init, Enabled, Act, Commits, Overtaken, Broken, InCommit;
    assert Steps(states[i], events[i].sid, events[i].step, states[i + 1]);
    CommitStepEnds(states[i], events[i].sid, events[i].step, states[i + 1], current, last);
  }

  /** What a manifest update that was answered with c leads to if c is not the manifest it meant to write. */
  ghost predicate GoesOn(s: Store, s': Store, c: Contents, now: nat)
    requires s.pc.WantUpdate? || s.pc.Swapped?
  {
    match s.pc.op
    case Update(_) => s' == s.(pc := WantFetch(now, s.pc.op))
    case Commit(current, last) => s'.upstream == c && (c.root == last ==> s'.pc == Attempting(current, last))
    case Conjoin(current, last, conjoined, conjoinees) =>
      if forall n :: n in conjoinees ==> n in c.names then
        && s' == s.(pc := s'.pc) && s'.pc.WantUpdate? && s'.pc.lock == c.lock && s'.pc.op == s.pc.op
        && s'.pc.next.root == c.root && s'.pc.next.names != [] && s'.pc.next.names[0] == conjoined
        && forall n :: n in s'.pc.next.names[1..] <==> n in c.names && n !in conjoinees
      else s'.upstream == c && s'.pc == Attempting(current, last)
    case Rebase => false
  }

  lemma AnsweredStep(st: State, sid: Sid, step: Step, st': State)
    requires Inv(st) && Steps(st, sid, step, st') && Answer(ViewOf(st, sid), step).Some?
    requires Answer(ViewOf(st, sid), step).value.lock != st.stores[sid].pc.next.lock
    ensures GoesOn(st.stores[sid], st'.stores[sid], Answer(ViewOf(st, sid), step).value, |st.hist| - 1)
  {
    hide Inv, Known, Compacts, Splits, NonEmpty, Dedup, FinishFetch, Attempted;
    WriteIsNoRebase(st, sid);
  }

  /**
   * In every run an update of the manifest that did not come to pass is taken up again on the manifest it was answered
   * with: a table addition from a new fetch, a conjoin if its tables are still there, a commit if the root is.
   */
  lemma AnsweredGoesOn(states: seq<State>, events: seq<Event>, i: nat)
    requires Reporting(states, events, i) && Answer(ViewOf(states[i], events[i].sid), events[i].step).Some?
    requires Answer(ViewOf(states[i], events[i].sid), events[i].step).value.lock
             != states[i].stores[events[i].sid].pc.next.lock
    ensures events[i].sid in states[i + 1].stores
    ensures GoesOn(states[i].stores[events[i].sid], states[i + 1].stores[events[i].sid],
                   Answer(ViewOf(states[i], events[i].sid), events[i].step).value, |states[i].hist| - 1)
  {
    hide Init, Inv, Enabled, Act, GoesOn;
    RunKeepsInv(states, events, i);
    assert Steps(states[i], events[i].sid, events[i].step, states[i + 1]);
    AnsweredStep(states[i], events[i].sid, events[i].step, states[i + 1]);
  }
}
