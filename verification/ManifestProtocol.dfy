/** The optimistic manifest protocol. */
module ManifestProtocol {

  // Any number of stores in any number of processes put chunks, rebase, commit, conjoin and add tables, each step
  // making at most one access to state shared with the others.

  import opened Options
  import opened TableSets

  type Sid = nat
  type Pid = nat

  /** What an access to the manifest is for. */
  datatype Op =
    | Rebase
    | Update(updates: seq<Name>)
    | Commit(current: Root, last: Root)
    | Conjoin(current: Root, last: Root, conjoined: Name, conjoinees: seq<Name>)

  /** Where a store is; every position but Idle is inside the critical section of its mutex. */
  datatype Pc =
    | Idle
    | WantFetch(entry: nat, op: Op)
    | Reading(entry: nat, t: nat, op: Op)
    | Fetched(entry: nat, op: Op)
    | Attempting(current: Root, last: Root)
    | WantUpdate(lock: Lock, next: Contents, op: Op)
    | WantSwap(t: nat, lock: Lock, next: Contents, op: Op)
    | Swapped(lock: Lock, next: Contents, op: Op)

  datatype Store = Store(
    proc: Pid,
    mt: map<Addr, Data>,
    novel: seq<Name>,
    tables: seq<Name>,
    upstream: Contents,
    pc: Pc,
    accepted: set<Addr>)

  /** A manifest, the time it is stamped with and the moment it was the persisted one. */
  datatype Entry = Entry(contents: Contents, t: nat, at: nat)

  /**
   * The manifest cache and the fetch lock of a process. What the holder of the lock has read or written
   * and not yet put into the cache is in flight.
   */
  datatype Proc = Proc(cache: Option<Entry>, holder: Option<Sid>, flight: Option<Entry>, lastPut: nat)

  /** What one step of a store can read and write. */
  datatype View = View(s: Store, p: Proc, persisted: Contents, files: Files)

  // ----- The store's own operations -----

  /** The chunks that are novel in the memtable, as the table written for it. */
  ghost predicate Compacts(s: Store, order: seq<Addr>)
  {
    (set a | a in order) == s.mt.Keys - Reach(s.novel) - Reach(s.tables)
  }

  function Prepended(s: Store, order: seq<Addr>): Store
  {
    s.(mt := map[], novel := [NameOf(order)] + s.novel)
  }

  function Written(s: Store, files: Files, order: seq<Addr>): Files
  {
    if order == [] then files else files[NameOf(order) := map a | a in order && a in s.mt :: s.mt[a]]
  }

  function Rebased(s: Store, c: Contents): Store
  {
    s.(novel := NonEmpty(s.novel), tables := Dedup(c.names), upstream := c)
  }

  function Get(s: Store, files: Files, a: Addr): Option<Data>
  {
    if a in s.mt then Some(s.mt[a]) else Find(files, s.novel + s.tables, a)
  }

  predicate Has(s: Store, files: Files, a: Addr)
  {
    a in s.mt || AnyHas(files, s.novel + s.tables, a)
  }

  // ----- Continuations of manifest accesses -----

  function FinishFetch(s: Store, c: Contents, found: bool, op: Op): Store
  {
    match op
    case Rebase =>
      if !found || c.lock == s.upstream.lock then s.(pc := Idle) else Rebased(s, c).(pc := Idle)
    case Update(updates) =>
      var added := Filter(updates, n => n !in c.names);
      if added == [] then s.(pc := Idle)
      else s.(pc := WantUpdate(c.lock, MakeContents(c.root, c.names + added), op))
    case _ => s
  }

  function Retry(s: Store, c: Contents, current: Root, last: Root): Store
  {
    Rebased(s, c).(pc := if last != c.root then Idle else Attempting(current, last))
  }

  function FinishUpdate(s: Store, c: Contents, next: Contents, op: Op, now: nat): Store
  {
    match op
    case Update(_) =>
      if c.lock == next.lock then Rebased(s, c).(pc := Idle) else s.(pc := WantFetch(now, op))
    case Commit(current, last) =>
      if c.lock != next.lock then Retry(s, c, current, last)
      else s.(upstream := next, tables := NonEmpty(s.novel) + s.tables, novel := [], pc := Idle)
    case Conjoin(current, last, conjoined, conjoinees) =>
      if c.lock == next.lock || exists n :: n in conjoinees && n !in c.names then
        Rebased(s, c).(pc := Attempting(current, last))
      else
        var keepers := Filter(c.names, n => n !in conjoinees);
        s.(pc := WantUpdate(c.lock, MakeContents(c.root, [conjoined] + keepers), op))
    case Rebase => s
  }

  // ----- Steps -----

  datatype Choice = Choice(conjoined: Name, conjoinees: seq<Name>, keepers: seq<Name>)

  datatype Step =
    | Put(a: Addr, data: Data)
    | Flush(order: seq<Addr>)
    | BeginRebase
    | BeginUpdate(updates: seq<Name>)
    | BeginCommit(current: Root, last: Root)
    | LockFetch
    | ReadManifest
    | CacheFetched(keep: bool)
    | Attempt(order: seq<Addr>, choice: Option<Choice>)
    | CheckUpdate
    | SwapManifest
    | CacheUpdated(keep: bool)
    | Evict

  ghost predicate Enabled(v: View, step: Step)
  {
    match step
    case Put(a, data) => v.s.pc.Idle? && a == AddrOf(data)
    case Flush(order) => v.s.pc.Idle? && Compacts(v.s, order)
    case BeginRebase => v.s.pc.Idle?
    case BeginUpdate(updates) => v.s.pc.Idle? && Known(v.files, updates)
    case BeginCommit(_, _) => v.s.pc.Idle?
    case LockFetch => v.s.pc.WantFetch? && v.p.holder.None?
    case ReadManifest => v.s.pc.Reading?
    case CacheFetched(_) => v.s.pc.Fetched? && v.p.flight.Some?
    case Attempt(order, choice) =>
      && v.s.pc.Attempting?
      && Compacts(v.s, order)
      && (choice.Some? ==> Splits(v.s.upstream.names, choice.value))
    case CheckUpdate => v.s.pc.WantUpdate?
    case SwapManifest => v.s.pc.WantSwap? && v.p.holder.None?
    case CacheUpdated(_) => v.s.pc.Swapped? && v.p.flight.Some?
    case Evict => true
  }

  /** The conjoined table holds what the conjoinees hold; the other upstream tables are kept. */
  ghost predicate Splits(upstream: seq<Name>, c: Choice)
  {
    && (forall n :: n in upstream <==> n in c.conjoinees || n in c.keepers)
    && Held(c.conjoined) == Reach(c.conjoinees)
  }

  function Conjoined(files: Files, c: Choice): Files
  {
    files[c.conjoined := map a | a in Reach(c.conjoinees) && Find(files, c.conjoinees, a).Some?
                             :: Find(files, c.conjoinees, a).value]
  }

  function Doomed(v: View): bool
  {
    v.p.cache.Some? && v.p.cache.value.contents.lock != v.s.upstream.lock
  }

  /** One pass through updateManifest up to its write of the manifest. */
  function Attempted(v: View, current: Root, last: Root, order: seq<Addr>, choice: Option<Choice>): View
  {
    if v.s.upstream.root != last then v.(s := v.s.(pc := Idle))
    else if Doomed(v) then v.(s := Retry(v.s, v.p.cache.value.contents, current, last))
    else
      var s := if v.s.mt == map[] then v.s else Prepended(v.s, order);
      var files := if v.s.mt == map[] then v.files else Written(v.s, v.files, order);
      match choice
      case Some(c) =>
        var next := MakeContents(s.upstream.root, [c.conjoined] + c.keepers);
        v.(s := s.(pc := WantUpdate(s.upstream.lock, next, Conjoin(current, last, c.conjoined, c.conjoinees))),
           files := Conjoined(files, c))
      case None =>
        if exists n :: n in s.tables && n.addrs == [] then v.(s := s.(pc := Idle), files := files)
        else
          var next := MakeContents(current, NonEmpty(s.novel) + s.tables);
          v.(s := s.(pc := WantUpdate(s.upstream.lock, next, Commit(current, last))), files := files)
  }

  function Cached(p: Proc, keep: bool): Proc
    requires p.flight.Some?
  {
    Proc(if keep then p.flight else None, None, None, p.flight.value.at)
  }

  /** What a step does; now is the present moment and the step ends one later. */
  ghost function Act(v: View, sid: Sid, now: nat, step: Step): View
    requires Enabled(v, step)
  {
    var s, p := v.s, v.p;
    match step
    case Put(a, data) => v.(s := s.(mt := s.mt[a := data], accepted := s.accepted + {a}))
    case Flush(order) => v.(s := Prepended(s, order), files := Written(s, v.files, order))
    case BeginRebase => v.(s := s.(pc := WantFetch(now, Rebase)))
    case BeginUpdate(updates) => v.(s := s.(pc := WantFetch(now, Update(updates))))
    case BeginCommit(current, last) =>
      if s.mt == map[] && s.novel == [] && current == last then v.(s := s.(pc := WantFetch(now, Rebase)))
      else v.(s := s.(pc := Attempting(current, last)))
    case LockFetch =>
      if p.cache.Some? && p.cache.value.t > s.pc.entry
      then v.(s := FinishFetch(s, p.cache.value.contents, true, s.pc.op))
      else v.(s := s.(pc := Reading(s.pc.entry, now, s.pc.op)), p := p.(holder := Some(sid)))
    case ReadManifest =>
      v.(s := s.(pc := Fetched(s.pc.entry, s.pc.op)), p := p.(flight := Some(Entry(v.persisted, s.pc.t, now + 1))))
    case CacheFetched(keep) =>
      var c := p.flight.value.contents;
      v.(s := FinishFetch(s, c, c.lock.LockOf?, s.pc.op), p := Cached(p, keep))
    case Attempt(order, choice) => Attempted(v, s.pc.current, s.pc.last, order, choice)
    case CheckUpdate =>
      if p.cache.Some? && p.cache.value.contents.lock != s.pc.lock
      then v.(s := FinishUpdate(s, p.cache.value.contents, s.pc.next, s.pc.op, now))
      else v.(s := s.(pc := WantSwap(now, s.pc.lock, s.pc.next, s.pc.op)))
    case SwapManifest =>
      if v.persisted.lock.NoLock? && s.pc.lock.LockOf? then v.(s := s.(pc := Idle))
      else
        var c := if v.persisted.lock == s.pc.lock then s.pc.next else v.persisted;
        v.(s := s.(pc := Swapped(s.pc.lock, s.pc.next, s.pc.op)), persisted := c,
           p := p.(holder := Some(sid), flight := Some(Entry(c, s.pc.t, now + 1))))
    case CacheUpdated(keep) =>
      v.(s := FinishUpdate(s, p.flight.value.contents, s.pc.next, s.pc.op, now), p := Cached(p, keep))
    case Evict => v.(p := p.(cache := None))
  }

  // ----- What every step keeps -----

  ghost predicate StoreOk(s: Store, files: Files)
  {
    && WellAddressed(s.mt)
    && Known(files, s.novel)
    && Known(files, s.tables)
    && Good(s.upstream, files)
    && Reach(s.tables) == Reach(s.upstream.names)
    && s.accepted <= s.mt.Keys + Reach(s.novel) + Reach(s.tables)
  }

  /** The manifest a store is about to write may replace any manifest with the given lock. */
  ghost predicate UpdateOk(s: Store, lock: Lock, next: Contents, op: Op, files: Files)
  {
    && Good(next, files)
    && next.lock.LockOf?
    && LockReach(lock) <= Reach(next.names)
    && match op
       case Rebase => false
       case Update(updates) =>
         && Known(files, updates)
         && next.root == LockRoot(lock)
         && (forall n :: n in updates ==> n in next.names)
       case Commit(current, last) =>
         && next.root == current
         && LockRoot(lock) == last
         && s.mt == map[]
         && next.names == NonEmpty(s.novel) + s.tables
       case Conjoin(_, _, conjoined, conjoinees) =>
         && next.root == LockRoot(lock)
         && Known(files, [conjoined])
         && Reach(conjoinees) <= Held(conjoined)
  }

  ghost predicate FetchOp(op: Op, files: Files)
  {
    op.Rebase? || (op.Update? && Known(files, op.updates))
  }

  ghost predicate PcOk(s: Store, p: Proc, files: Files, now: nat)
  {
    match s.pc
    case Idle => true
    case WantFetch(entry, op) => entry <= now && FetchOp(op, files)
    case Reading(entry, t, op) => entry <= t <= now && FetchOp(op, files) && p.flight.None?
    case Fetched(entry, op) => p.flight.Some? && entry <= p.flight.value.t && FetchOp(op, files)
    case Attempting(_, _) => true
    case WantUpdate(lock, next, op) => UpdateOk(s, lock, next, op, files)
    case WantSwap(t, lock, next, op) => t <= now && UpdateOk(s, lock, next, op, files)
    case Swapped(lock, next, op) => p.flight.Some? && UpdateOk(s, lock, next, op, files)
  }

  predicate Holding(pc: Pc)
  {
    pc.Reading? || pc.Fetched? || pc.Swapped?
  }

  /** A manifest that was persisted at some moment since its time stamp and reaches no more than the present one. */
  ghost predicate EntryOk(e: Entry, persisted: Contents, files: Files, hist: seq<Contents>)
  {
    && Good(e.contents, files)
    && e.t <= e.at < |hist|
    && hist[e.at] == e.contents
    && Reach(e.contents.names) <= Reach(persisted.names)
  }

  ghost predicate ProcInv(p: Proc, persisted: Contents, files: Files, hist: seq<Contents>)
  {
    && p.lastPut < |hist|
    && (p.cache.Some? ==> EntryOk(p.cache.value, persisted, files, hist) && p.cache.value.at == p.lastPut)
    && (p.flight.Some? ==>
          p.holder.Some? && EntryOk(p.flight.value, persisted, files, hist) && p.lastPut <= p.flight.value.at)
    && (p.cache.Some? && p.flight.Some? ==>
          Reach(p.cache.value.contents.names) <= Reach(p.flight.value.contents.names))
  }

  ghost predicate Reaches(e: Option<Entry>, chunks: set<Addr>)
  {
    e.Some? ==> chunks <= Reach(e.value.contents.names)
  }

  ghost predicate StoreInv(sid: Sid, s: Store, p: Proc, persisted: Contents, files: Files, now: nat)
  {
    && StoreOk(s, files)
    && PcOk(s, p, files, now)
    && (Holding(s.pc) <==> p.holder == Some(sid))
    && Reach(s.upstream.names) <= Reach(persisted.names)
    && Reaches(p.cache, Reach(s.upstream.names))
    && Reaches(p.flight, Reach(s.upstream.names))
  }

  ghost predicate WorldOk(persisted: Contents, files: Files, hist: seq<Contents>)
  {
    && FilesOk(files)
    && Good(persisted, files)
    && |hist| > 0
    && hist[|hist| - 1] == persisted
  }

  ghost predicate ViewInv(v: View, sid: Sid, hist: seq<Contents>)
  {
    && WorldOk(v.persisted, v.files, hist)
    && ProcInv(v.p, v.persisted, v.files, hist)
    && StoreInv(sid, v.s, v.p, v.persisted, v.files, |hist| - 1)
  }

  /** How a step of sid may change what the other stores see. */
  ghost predicate Evolves(v: View, v': View, sid: Sid)
  {
    && v.files.Keys <= v'.files.Keys
    && Reach(v.persisted.names) <= Reach(v'.persisted.names)
    && (forall o :: o != sid ==> (v'.p.holder == Some(o) <==> v.p.holder == Some(o)))
    && (v'.p.cache.None? || v'.p.cache == v.p.cache || v'.p.cache == v.p.flight)
    && (v'.p.flight == v.p.flight || Reaches(v'.p.flight, Reach(v.persisted.names)))
    && (v.p.holder.Some? && v.p.holder != Some(sid) ==> v'.p.flight == v.p.flight)
    && v'.s.proc == v.s.proc
  }

  // ----- Store operations keep the store consistent -----

  lemma PrependKeeps(s: Store, files: Files, order: seq<Addr>)
    requires StoreOk(s, files) && FilesOk(files) && Compacts(s, order)
    ensures FilesOk(Written(s, files, order)) && files.Keys <= Written(s, files, order).Keys
    ensures StoreOk(Prepended(s, order), Written(s, files, order))
  {
    hide Reach, Good;
    var n := NameOf(order);
    ReachAppend([n], s.novel);
    ReachOne(n);
    assert Held(n) == s.mt.Keys - Reach(s.novel) - Reach(s.tables);
    GoodGrown(s.upstream, files, Written(s, files, order));
  }

  lemma GoodGrown(c: Contents, files: Files, files': Files)
    requires Good(c, files) && files.Keys <= files'.Keys
    ensures Good(c, files')
  {
    KnownGrown(c.names, files, files');
  }

  lemma KnownGrown(names: seq<Name>, files: Files, files': Files)
    requires Known(files, names) && files.Keys <= files'.Keys
    ensures Known(files', names)
  {
    forall n | n in names && n.addrs != [] ensures n in files' {
      assert n in files.Keys;
    }
  }

  lemma RebaseKeeps(s: Store, c: Contents, files: Files)
    requires StoreOk(s, files) && Good(c, files)
    requires Reach(s.upstream.names) <= Reach(c.names)
    ensures StoreOk(Rebased(s, c), files)
  {
    hide Reach;
    NonEmptyReach(s.novel);
    DedupReach(c.names);
  }

  /** A store that is out of the manifest manager again, based on its old upstream manifest or on c. */
  ghost predicate Ready(s: Store, s': Store, c: Contents, files: Files, now: nat)
  {
    && StoreOk(s', files)
    && !Holding(s'.pc)
    && PcOk(s', Proc(None, None, None, 0), files, now)
    && s'.proc == s.proc
    && s'.accepted == s.accepted
    && (s'.upstream == s.upstream || Reach(s'.upstream.names) == Reach(c.names))
  }

  lemma FetchKeeps(s: Store, s': Store, c: Contents, found: bool, op: Op, files: Files, now: nat)
    requires StoreOk(s, files) && Good(c, files) && FetchOp(op, files)
    requires Reach(s.upstream.names) <= Reach(c.names) && s' == FinishFetch(s, c, found, op)
    ensures Ready(s, s', c, files, now)
  {
    hide Reach, LockReach, LockRoot, StoreOk, Good, Rebased, UpdateOk;
    match op
    case Rebase =>
      RebaseKeeps(s, c, files);
      RebasedFrame(s, c);
      StoreGrown(s, s.(pc := Idle), files, files);
      StoreGrown(Rebased(s, c), Rebased(s, c).(pc := Idle), files, files);
    case Update(updates) =>
      AddKeeps(s, c, op, files);
      StoreGrown(s, s', files, files);
    case _ =>
  }

  lemma RebasedFrame(s: Store, c: Contents)
    ensures var r := Rebased(s, c); r.upstream == c && r.proc == s.proc && r.accepted == s.accepted && r.mt == s.mt
  {
  }

  /** Adding tables to a manifest is an update of it. */
  lemma AddKeeps(s: Store, c: Contents, op: Op, files: Files)
    requires Good(c, files) && op.Update? && Known(files, op.updates)
    ensures var next := MakeContents(c.root, c.names + Filter(op.updates, n => n !in c.names));
            UpdateOk(s.(pc := WantUpdate(c.lock, next, op)), c.lock, next, op, files)
  {
    hide Reach, LockReach, LockRoot;
    LockDetermines(c, files);
    ReachAppend(c.names, Filter(op.updates, n => n !in c.names));
  }

  lemma KeepersReach(names: seq<Name>, conjoined: Name, conjoinees: seq<Name>, keepers: seq<Name>)
    requires forall n :: n in names ==> n in conjoinees || n in keepers
    requires Reach(conjoinees) <= Held(conjoined)
    ensures Reach(names) <= Reach([conjoined] + keepers)
  {
    hide Reach;
    ReachSub(names, conjoinees + keepers);
    ReachAppend(conjoinees, keepers);
    ReachAppend([conjoined], keepers);
    ReachOne(conjoined);
  }

  lemma RetryConjoin(s: Store, c: Contents, op: Op, next: Contents, lock: Lock, files: Files)
    requires op.Conjoin? && UpdateOk(s, lock, next, op, files) && Good(c, files)
    ensures var keepers := Filter(c.names, n => n !in op.conjoinees);
            UpdateOk(s.(pc := Idle), c.lock, MakeContents(c.root, [op.conjoined] + keepers), op, files)
  {
    hide Reach, LockReach, LockRoot;
    LockDetermines(c, files);
    var keepers := Filter(c.names, n => n !in op.conjoinees);
    KeepersReach(c.names, op.conjoined, op.conjoinees, keepers);
  }

  /** After a successful commit everything the store holds is in its upstream tables. */
  lemma CommitKeeps(s: Store, lock: Lock, next: Contents, op: Op, files: Files)
    requires op.Commit? && StoreOk(s, files) && UpdateOk(s, lock, next, op, files)
    ensures StoreOk(s.(upstream := next, tables := NonEmpty(s.novel) + s.tables, novel := [], pc := Idle), files)
    ensures s.accepted <= Reach(next.names) && Reach(s.upstream.names) <= Reach(next.names)
  {
    hide LockReach, LockRoot, NonEmpty;
    NonEmptyReach(s.novel);
    ReachAppend(NonEmpty(s.novel), s.tables);
  }

  lemma UpdateKeeps(s: Store, c: Contents, lock: Lock, next: Contents, op: Op, files: Files, now: nat)
    requires StoreOk(s, files) && Good(c, files) && UpdateOk(s, lock, next, op, files)
    requires Reach(s.upstream.names) <= Reach(c.names)
    ensures Ready(s, FinishUpdate(s, c, next, op, now), c, files, now)
  {
    hide Reach, LockReach, LockRoot, StoreOk, Good, Rebased, UpdateOk, NonEmpty;
    var r := Rebased(s, c);
    RebaseKeeps(s, c, files);
    RebasedFrame(s, c);
    forall pc ensures StoreOk(r.(pc := pc), files) && StoreOk(s.(pc := pc), files) {
      StoreGrown(r, r.(pc := pc), files, files);
      StoreGrown(s, s.(pc := pc), files, files);
    }
    match op
    case Update(updates) => assert Known(files, updates) by { UpdateKnown(s, lock, next, op, files); }
    case Commit(_, _) =>
      if c.lock == next.lock {
        CommitKeeps(s, lock, next, op, files);
        SameLockReach(c, next, s, lock, op, files);
      }
    case Conjoin(_, _, _, _) =>
      RetryConjoin(s, c, op, next, lock, files);
      var retry := FinishUpdate(s, c, next, op, now);
      if retry.pc.WantUpdate? {
        UpdateFrame(s.(pc := Idle), retry, c.lock, retry.pc.next, op, files);
      }
    case Rebase => UpdateKnown(s, lock, next, op, files);
  }

  lemma UpdateKnown(s: Store, lock: Lock, next: Contents, op: Op, files: Files)
    requires UpdateOk(s, lock, next, op, files)
    ensures !op.Rebase? && (op.Update? ==> Known(files, op.updates))
  {
  }

  lemma SameLockReach(c: Contents, next: Contents, s: Store, lock: Lock, op: Op, files: Files)
    requires UpdateOk(s, lock, next, op, files) && Good(c, files) && c.lock == next.lock
    ensures Reach(next.names) == Reach(c.names)
  {
    hide Reach;
  }

  lemma ConjoinKeeps(s: Store, files: Files, c: Choice)
    requires StoreOk(s, files) && FilesOk(files) && Splits(s.upstream.names, c)
    ensures FilesOk(Conjoined(files, c)) && files.Keys <= Conjoined(files, c).Keys
    ensures c.conjoined in Conjoined(files, c) && Known(Conjoined(files, c), c.keepers)
    ensures LockReach(s.upstream.lock) <= Reach([c.conjoined] + c.keepers)
  {
    hide Reach, LockReach, Find, LockRoot;
    assert Known(files, c.conjoinees);
    forall a ensures Find(files, c.conjoinees, a) == if a in Reach(c.conjoinees) then Some(a.data) else None {
      FindReads(files, c.conjoinees, a);
    }
    assert Conjoined(files, c)[c.conjoined].Keys == Held(c.conjoined);
    LockDetermines(s.upstream, files);
    KeepersReach(s.upstream.names, c.conjoined, c.conjoinees, c.keepers);
  }

  /** A store about to publish its conjoined table or its commit. */
  lemma PublishKeeps(s: Store, files: Files, current: Root, last: Root, choice: Option<Choice>)
    requires StoreOk(s, files) && FilesOk(files) && s.mt == map[] && s.upstream.root == last
    requires choice.Some? ==> Splits(s.upstream.names, choice.value)
    ensures choice.Some? ==>
              var c := choice.value;
              UpdateOk(s, s.upstream.lock, MakeContents(last, [c.conjoined] + c.keepers),
                       Conjoin(current, last, c.conjoined, c.conjoinees), Conjoined(files, c))
    ensures choice.None? ==>
              UpdateOk(s, s.upstream.lock, MakeContents(current, NonEmpty(s.novel) + s.tables),
                       Commit(current, last), files)
  {
    hide Reach, LockReach, LockRoot, Conjoined, Splits;
    LockDetermines(s.upstream, files);
    if choice.Some? {
      ConjoinKeeps(s, files, choice.value);
      assert Reach(choice.value.conjoinees) <= Held(choice.value.conjoined) by { SplitsHeld(s, choice.value); }
    } else {
      ReachAppend(NonEmpty(s.novel), s.tables);
    }
  }

  lemma SplitsHeld(s: Store, c: Choice)
    requires Splits(s.upstream.names, c)
    ensures Reach(c.conjoinees) <= Held(c.conjoined)
  {
  }

  lemma StoreGrown(s: Store, s': Store, files: Files, files': Files)
    requires StoreOk(s, files) && files.Keys <= files'.Keys && s' == s.(pc := s'.pc)
    ensures StoreOk(s', files')
  {
    hide Reach;
    KnownGrown(s.novel, files, files');
    KnownGrown(s.tables, files, files');
    GoodGrown(s.upstream, files, files');
  }

  lemma AttemptKeeps(v: View, order: seq<Addr>, choice: Option<Choice>, c: Contents, now: nat)
    requires StoreOk(v.s, v.files) && FilesOk(v.files) && Enabled(v, Attempt(order, choice))
    requires v.p.cache.Some? ==>
               v.p.cache.value.contents == c && Good(c, v.files) && Reach(v.s.upstream.names) <= Reach(c.names)
    ensures var v' := Attempted(v, v.s.pc.current, v.s.pc.last, order, choice);
            && v' == v.(s := v'.s, files := v'.files)
            && v.files.Keys <= v'.files.Keys && FilesOk(v'.files)
            && Ready(v.s, v'.s, c, v'.files, now)
  {
    hide Reach, Compacts, Splits, FilesOk, UpdateOk, StoreOk, Good, Conjoined, Written, Prepended, MakeContents,
      Rebased;
    var current, last := v.s.pc.current, v.s.pc.last;
    if v.s.upstream.root != last {
      StoreGrown(v.s, v.s.(pc := Idle), v.files, v.files);
    } else if Doomed(v) {
      RebaseKeeps(v.s, c, v.files);
      RetryReady(v.s, c, v.files, current, last, now);
    } else {
      var s, files := v.s, v.files;
      if v.s.mt != map[] {
        PrependKeeps(s, files, order);
        s, files := Prepended(s, order), Written(s, files, order);
        PrependedFrame(v.s, order);
      }
      PublishKeeps(s, files, current, last, choice);
      if choice.Some? { ConjoinKeeps(s, files, choice.value); }
      var v' := Attempted(v, current, last, order, choice);
      StoreGrown(s, v'.s, files, v'.files);
      if v'.s.pc.WantUpdate? {
        UpdateFrame(s, v'.s, v'.s.pc.lock, v'.s.pc.next, v'.s.pc.op, v'.files);
      }
    }
  }

  lemma PrependedFrame(s: Store, order: seq<Addr>)
    ensures var s' := Prepended(s, order); s' == s.(mt := map[], novel := s'.novel)
  {
  }

  lemma RetryReady(s: Store, c: Contents, files: Files, current: Root, last: Root, now: nat)
    requires StoreOk(Rebased(s, c), files)
    ensures Ready(s, Retry(s, c, current, last), c, files, now)
  {
  }

  lemma UpdateFrame(s: Store, s': Store, lock: Lock, next: Contents, op: Op, files: Files)
    requires UpdateOk(s, lock, next, op, files) && s' == s.(pc := s'.pc)
    ensures UpdateOk(s', lock, next, op, files)
  {
  }

  // ----- Steps keep the invariant -----

  /** Time passes and files are added. */
  lemma EntryGrown(e: Entry, v: View, v': View, hist: seq<Contents>)
    requires EntryOk(e, v.persisted, v.files, hist)
    requires v.files.Keys <= v'.files.Keys && Reach(v.persisted.names) <= Reach(v'.persisted.names)
    ensures EntryOk(e, v'.persisted, v'.files, hist + [v'.persisted])
  {
    hide Reach;
    GoodGrown(e.contents, v.files, v'.files);
  }

  lemma ProcGrown(v: View, v': View, hist: seq<Contents>)
    requires ProcInv(v.p, v.persisted, v.files, hist)
    requires v.files.Keys <= v'.files.Keys && Reach(v.persisted.names) <= Reach(v'.persisted.names)
    ensures ProcInv(v.p, v'.persisted, v'.files, hist + [v'.persisted])
  {
    hide EntryOk, Reach;
    if v.p.cache.Some? { EntryGrown(v.p.cache.value, v, v', hist); }
    if v.p.flight.Some? { EntryGrown(v.p.flight.value, v, v', hist); }
  }

  /** The process after the holder of the fetch lock has put what is in flight into the cache. */
  lemma CachedKeeps(v: View, v': View, hist: seq<Contents>, keep: bool)
    requires ProcInv(v.p, v.persisted, v.files, hist) && v.p.flight.Some?
    requires v'.files == v.files && v'.persisted == v.persisted
    ensures ProcInv(Cached(v.p, keep), v'.persisted, v'.files, hist + [v'.persisted])
    ensures EntryOk(v.p.flight.value, v.persisted, v.files, hist)
  {
    hide Good, Reach;
    EntryGrown(v.p.flight.value, v, v', hist);
  }

  /** A store that leaves the manifest manager with contents its process has seen. */
  lemma ReadyKeeps(v: View, v': View, sid: Sid, hist: seq<Contents>, c: Contents)
    requires ViewInv(v, sid, hist)
    requires v'.persisted == v.persisted && v.files.Keys <= v'.files.Keys && FilesOk(v'.files)
    requires Ready(v.s, v'.s, c, v'.files, |hist|)
    requires ProcInv(v'.p, v'.persisted, v'.files, hist + [v'.persisted])
    requires v'.p.holder == (if v.p.holder == Some(sid) then None else v.p.holder)
    requires Reach(c.names) <= Reach(v.persisted.names)
    requires Reaches(v'.p.cache, Reach(c.names)) && Reaches(v'.p.cache, Reach(v.s.upstream.names))
    requires Reaches(v'.p.flight, Reach(c.names)) && Reaches(v'.p.flight, Reach(v.s.upstream.names))
    ensures ViewInv(v', sid, hist + [v'.persisted])
  {
    hide ProcInv, FilesOk, StoreOk, UpdateOk, Reach;
    GoodGrown(v.persisted, v.files, v'.files);
  }

  lemma OwnStepKeeps(v: View, sid: Sid, hist: seq<Contents>, step: Step)
    requires ViewInv(v, sid, hist) && Enabled(v, step)
    requires step.Put? || step.Flush? || step.BeginRebase? || step.BeginUpdate? || step.BeginCommit? || step.Evict?
    ensures var v' := Act(v, sid, |hist| - 1, step); ViewInv(v', sid, hist + [v'.persisted]) && Evolves(v, v', sid)
  {
    hide Reach, EntryOk, Good, FilesOk, Known, Compacts, WellAddressed, UpdateOk, Written;
    var v' := Act(v, sid, |hist| - 1, step);
    match step {
      case Put(a, data) => PutKeeps(v.s, a, data, v.files);
      case Flush(order) => PrependKeeps(v.s, v.files, order); PrependedFrame(v.s, order);
      case _ => StoreGrown(v.s, v'.s, v.files, v.files);
    }
    GoodGrown(v.persisted, v.files, v'.files);
    ProcGrown(v, v', hist);
  }

  lemma PutKeeps(s: Store, a: Addr, data: Data, files: Files)
    requires StoreOk(s, files) && a == AddrOf(data)
    ensures StoreOk(s.(mt := s.mt[a := data], accepted := s.accepted + {a}), files)
  {
  }

  lemma FetchStepKeeps(v: View, sid: Sid, hist: seq<Contents>, step: Step)
    requires ViewInv(v, sid, hist) && Enabled(v, step) && (step.LockFetch? || step.ReadManifest? || step.CacheFetched?)
    ensures var v' := Act(v, sid, |hist| - 1, step); ViewInv(v', sid, hist + [v'.persisted]) && Evolves(v, v', sid)
  {
    hide Reach, Good, FilesOk, Known, WellAddressed, UpdateOk, FinishFetch, StoreOk;
    var v' := Act(v, sid, |hist| - 1, step);
    match step {
      case LockFetch =>
        ProcGrown(v, v', hist);
        if v.p.cache.Some? && v.p.cache.value.t > v.s.pc.entry {
          var c := v.p.cache.value.contents;
          FetchKeeps(v.s, v'.s, c, true, v.s.pc.op, v.files, |hist|);
          ReadyKeeps(v, v', sid, hist, c);
        } else {
          StoreGrown(v.s, v'.s, v.files, v.files);
        }
      case ReadManifest =>
        ProcGrown(v, v', hist);
        StoreGrown(v.s, v'.s, v.files, v.files);
      case CacheFetched(keep) =>
        var c := v.p.flight.value.contents;
        CachedKeeps(v, v', hist, keep);
        var found := c.lock.LockOf?;
        FetchKeeps(v.s, v'.s, c, found, v.s.pc.op, v.files, |hist|);
        ReadyKeeps(v, v', sid, hist, c);
    }
  }

  lemma UpdateStepKeeps(v: View, sid: Sid, hist: seq<Contents>, step: Step)
    requires ViewInv(v, sid, hist) && Enabled(v, step) && (step.Attempt? || step.CheckUpdate? || step.CacheUpdated?)
    ensures var v' := Act(v, sid, |hist| - 1, step); ViewInv(v', sid, hist + [v'.persisted]) && Evolves(v, v', sid)
  {
    hide Reach, Good, FilesOk, Known, WellAddressed, UpdateOk, FinishUpdate, StoreOk, Attempted, Compacts, Splits;
    var v' := Act(v, sid, |hist| - 1, step);
    match step {
      case Attempt(order, choice) =>
        var c := if v.p.cache.Some? then v.p.cache.value.contents else v.s.upstream;
        AttemptKeeps(v, order, choice, c, |hist|);
        ProcGrown(v, v', hist);
        ReadyKeeps(v, v', sid, hist, c);
      case CheckUpdate =>
        ProcGrown(v, v', hist);
        if v.p.cache.Some? && v.p.cache.value.contents.lock != v.s.pc.lock {
          var c := v.p.cache.value.contents;
          UpdateKeeps(v.s, c, v.s.pc.lock, v.s.pc.next, v.s.pc.op, v.files, |hist| - 1);
          ReadyKeeps(v, v', sid, hist, c);
        } else {
          StoreGrown(v.s, v'.s, v.files, v.files);
          UpdateFrame(v.s, v'.s, v.s.pc.lock, v.s.pc.next, v.s.pc.op, v.files);
        }
      case CacheUpdated(keep) =>
        var c := v.p.flight.value.contents;
        CachedKeeps(v, v', hist, keep);
        UpdateKeeps(v.s, c, v.s.pc.lock, v.s.pc.next, v.s.pc.op, v.files, |hist| - 1);
        ReadyKeeps(v, v', sid, hist, c);
    }
  }

  lemma SwapStepKeeps(v: View, sid: Sid, hist: seq<Contents>)
    requires ViewInv(v, sid, hist) && Enabled(v, SwapManifest)
    ensures var v' := Act(v, sid, |hist| - 1, SwapManifest);
            ViewInv(v', sid, hist + [v'.persisted]) && Evolves(v, v', sid)
  {
    hide Reach, Good, FilesOk, Known, WellAddressed, StoreOk, LockReach, LockRoot, UpdateOk;
    var v' := Act(v, sid, |hist| - 1, SwapManifest);
    if v.persisted.lock == v.s.pc.lock {
      SwapGrows(v.s, v.persisted, v.s.pc.lock, v.s.pc.next, v.s.pc.op, v.files);
    }
    ProcGrown(v, v', hist);
    StoreGrown(v.s, v'.s, v.files, v.files);
    UpdateFrame(v.s, v'.s, v.s.pc.lock, v.s.pc.next, v.s.pc.op, v.files);
  }

  lemma SwapGrows(s: Store, persisted: Contents, lock: Lock, next: Contents, op: Op, files: Files)
    requires UpdateOk(s, lock, next, op, files) && Good(persisted, files) && persisted.lock == lock
    ensures Good(next, files) && Reach(persisted.names) <= Reach(next.names)
    ensures op.Commit? ==> persisted.root == op.last && next.root == op.current
    ensures !op.Commit? ==> next.root == persisted.root
  {
    LockDetermines(persisted, files);
  }

  lemma ActKeeps(v: View, sid: Sid, hist: seq<Contents>, step: Step)
    requires ViewInv(v, sid, hist) && Enabled(v, step)
    ensures var v' := Act(v, sid, |hist| - 1, step); ViewInv(v', sid, hist + [v'.persisted]) && Evolves(v, v', sid)
  {
    hide ViewInv, Enabled, Act, Evolves;
    match step
    case LockFetch => FetchStepKeeps(v, sid, hist, step);
    case ReadManifest => FetchStepKeeps(v, sid, hist, step);
    case CacheFetched(_) => FetchStepKeeps(v, sid, hist, step);
    case Attempt(_, _) => UpdateStepKeeps(v, sid, hist, step);
    case CheckUpdate => UpdateStepKeeps(v, sid, hist, step);
    case CacheUpdated(_) => UpdateStepKeeps(v, sid, hist, step);
    case SwapManifest => SwapStepKeeps(v, sid, hist);
    case _ => OwnStepKeeps(v, sid, hist, step);
  }

  /** A step of one store keeps what holds of another store in the same process. */
  lemma NeighbourKept(v: View, v': View, sid: Sid, o: Sid, s: Store, now: nat)
    requires StoreInv(o, s, v.p, v.persisted, v.files, now) && o != sid && Evolves(v, v', sid)
    ensures StoreInv(o, s, v'.p, v'.persisted, v'.files, now + 1)
  {
    hide Reach, Good, WellAddressed, UpdateOk, Known, StoreOk;
    StoreGrown(s, s, v.files, v'.files);
    PcGrown(s, v.p, v'.p, v.files, v'.files, now);
  }

  lemma UpdateGrown(s: Store, lock: Lock, next: Contents, op: Op, files: Files, files': Files)
    requires UpdateOk(s, lock, next, op, files) && files.Keys <= files'.Keys
    ensures UpdateOk(s, lock, next, op, files')
  {
    hide Reach, LockReach;
    GoodGrown(next, files, files');
    if op.Update? { KnownGrown(op.updates, files, files'); }
    if op.Conjoin? { KnownGrown([op.conjoined], files, files'); }
  }

  lemma PcGrown(s: Store, p: Proc, p': Proc, files: Files, files': Files, now: nat)
    requires PcOk(s, p, files, now) && files.Keys <= files'.Keys
    requires Holding(s.pc) ==> p'.flight == p.flight
    ensures PcOk(s, p', files', now + 1)
  {
    hide UpdateOk, Known;
    match s.pc
    case WantFetch(_, op) => FetchOpGrown(op, files, files');
    case Reading(_, _, op) => FetchOpGrown(op, files, files');
    case Fetched(_, op) => FetchOpGrown(op, files, files');
    case WantUpdate(lock, next, op) => UpdateGrown(s, lock, next, op, files, files');
    case WantSwap(_, lock, next, op) => UpdateGrown(s, lock, next, op, files, files');
    case Swapped(lock, next, op) => UpdateGrown(s, lock, next, op, files, files');
    case _ =>
  }

  lemma FetchOpGrown(op: Op, files: Files, files': Files)
    requires FetchOp(op, files) && files.Keys <= files'.Keys
    ensures FetchOp(op, files')
  {
    if op.Update? { KnownGrown(op.updates, files, files'); }
  }

  /** A step of one store keeps what holds of a store in another process. */
  lemma Distant(v: View, v': View, o: Sid, s: Store, p: Proc, now: nat)
    requires StoreInv(o, s, p, v.persisted, v.files, now)
    requires v.files.Keys <= v'.files.Keys && Reach(v.persisted.names) <= Reach(v'.persisted.names)
    ensures StoreInv(o, s, p, v'.persisted, v'.files, now + 1)
  {
    hide Reach, Good, WellAddressed, UpdateOk, Known, StoreOk;
    StoreGrown(s, s, v.files, v'.files);
    PcGrown(s, p, p, v.files, v'.files, now);
  }

  lemma AttemptAccepted(v: View, current: Root, last: Root, order: seq<Addr>, choice: Option<Choice>)
    ensures Attempted(v, current, last, order, choice).s.accepted == v.s.accepted
  {
    hide NonEmpty, Filter, Dedup, Written, Conjoined, MakeContents;
  }

  lemma GetReads(s: Store, files: Files, a: Addr)
    requires StoreOk(s, files) && FilesOk(files)
    ensures Get(s, files, a) == if a in s.mt.Keys + Reach(s.novel) + Reach(s.tables) then Some(a.data) else None
    ensures Has(s, files, a) <==> a in s.mt.Keys + Reach(s.novel) + Reach(s.tables)
  {
    hide Reach, Find, AnyHas;
    HasFinds(files, s.novel + s.tables, a);
    FindReads(files, s.novel + s.tables, a);
    ReachAppend(s.novel, s.tables);
  }

  lemma AttemptFrame(v: View, current: Root, last: Root, order: seq<Addr>, choice: Option<Choice>)
    ensures var v' := Attempted(v, current, last, order, choice); v'.p == v.p && v'.persisted == v.persisted
  {
  }

  lemma EvictFrame(v: View, sid: Sid, now: nat)
    ensures Enabled(v, Evict) && Act(v, sid, now, Evict) == v.(p := v.p.(cache := None))
  {
  }
}
