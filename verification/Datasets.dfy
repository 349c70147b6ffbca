/** Dataset heads. */
module Datasets {

  // Edits over an optimistically updated root, concurrent runs of them and what they keep.

  import opened AncestorSearch
  import opened CommitClosures
  import opened CommitGraph
  import opened Options

  /** Dataset ids by the namespace they belong to. */
  datatype Id = Branch(name: string) | WorkingSet(name: string) | Tag(name: string)

  type Heads = map<Id, Addr>

  /** The root of a store: the hash of its datasets map, or the empty hash. */
  datatype Root = NoRoot | RootOf(heads: Heads)

  /** The empty hash. */
  const NONE: Addr := 0

  function HeadsOf(r: Root): Heads
  {
    if r.NoRoot? then map[] else r.heads
  }

  /** The head of a dataset, NONE if it has none. */
  function Head(m: Heads, id: Id): Addr
  {
    if id in m then m[id] else NONE
  }

  // ----- Edits -----

  datatype Edit =
    | SetHead(id: Id, expected: Addr, commit: Addr)
    | CommitBoth(id: Id, expected: Addr, commit: Addr, ws: Id, wsExpected: Addr, wsAddr: Addr)
    | SetWorkingSet(id: Id, expected: Addr, addr: Addr)
    | NewTag(id: Id, addr: Addr)
    | Delete(id: Id, first: Addr)

  datatype Outcome = Edited(heads: Heads) | MergeNeeded | AlreadyCommitted | OptimisticLockFailed | TagExists

  /** What a delete has to find: the first head it ever saw. */
  function Captured(e: Edit, m: Heads): Edit
  {
    if e.Delete? && e.first == NONE then e.(first := Head(m, e.id)) else e
  }

  function Apply(e: Edit, m: Heads): Outcome
  {
    match e
    case SetHead(id, expected, commit) =>
      if Head(m, id) != expected then MergeNeeded
      else if expected != NONE && expected == commit then AlreadyCommitted
      else Edited(m[id := commit])
    case CommitBoth(id, expected, commit, ws, wsExpected, wsAddr) =>
      if Head(m, ws) != wsExpected then OptimisticLockFailed
      else if Head(m, id) != expected then MergeNeeded
      else Edited(m[id := commit][ws := wsAddr])
    case SetWorkingSet(id, expected, addr) =>
      if Head(m, id) != expected then OptimisticLockFailed else Edited(m[id := addr])
    case NewTag(id, addr) =>
      if Head(m, id) != NONE then TagExists else Edited(m[id := addr])
    case Delete(id, _) =>
      if Head(m, id) != Captured(e, m).first then MergeNeeded else Edited(m - {id})
  }

  /** The datasets an edit may change. */
  function Touched(e: Edit): set<Id>
  {
    if e.CommitBoth? then {e.id, e.ws} else {e.id}
  }

  // ----- Building commits and the fast-forward test -----

  /**
   * The parents a new commit on a dataset with the given head gets; None when the head is not among those asked for.
   */
  function CommitParents(head: Addr, parents: seq<Addr>): Option<seq<Addr>>
  {
    if parents == [] then Some(if head == NONE then [] else [head])
    else if head != NONE && head !in parents then None
    else Some(parents)
  }

  /** A commit together with its working set adds the head as first parent instead of failing. */
  function BothParents(head: Addr, parents: seq<Addr>): seq<Addr>
  {
    if parents != [] && head != NONE && head !in parents then [head] + parents else parents
  }

  lemma BothParentsNeverFail(head: Addr, parents: seq<Addr>)
    ensures CommitParents(head, BothParents(head, parents)).Some?
  {
  }

  /** A new head is a fast-forward exactly when the best common ancestor is the current head. */
  lemma FastForwardTest(g: Graph, current: Addr, next: Addr, r: Option<Addr>)
    requires Ranked(g) && current in g && next in g && Best(g, Common(g, current, next), r)
    ensures r == Some(current) <==> current in Ancestors(g, next)
  {
    hide Ranked;
    if current in Ancestors(g, next) {
      assert current in Common(g, current, next);
      AncestorFacts(g, current, r.value);
    }
  }

  method CanFastForward(g: Graph, head: Addr, next: Addr) returns (ok: bool)
    requires AllExact(g) && next in g && (head != NONE ==> head in g)
    ensures ok <==> head == NONE || head in Ancestors(g, next)
  {
    if head == NONE {
      return true;
    }
    var r := FindCommonAncestor(g, head, next);
    FastForwardTest(g, head, next, r);
    return r == Some(head);
  }

  // ----- Concurrent runs -----

  type ViewId = nat
  type ClientId = nat

  datatype Pc = Idle | Loading(edit: Edit) | Committing(edit: Edit, root: Root, next: Root)

  /** A client edits through the view of the storage that its database holds. */
  datatype Client = Client(view: ViewId, pc: Pc)

  datatype State = State(g: Graph, storage: Root, views: map<ViewId, Root>, clients: map<ClientId, Client>)

  datatype Step =
    | BeginCommit(id: Id, head: Addr, parents: seq<Addr>, addr: Addr)
    | BeginBoth(id: Id, head: Addr, parents: seq<Addr>, addr: Addr, ws: Id, wsExpected: Addr, wsAddr: Addr)
    | BeginFastForward(id: Id, head: Addr, next: Addr)
    | Begin(edit: Edit)
    | Load
    | TryCommit
    | RebaseView

  /** The graph after writing a commit; writing one that is already there changes nothing. */
  ghost predicate Writes(g: Graph, addr: Addr, parents: seq<Addr>, g': Graph)
  {
    addr != NONE && (Commits(g, addr, parents, g') || (addr in g && g[addr].parents == parents && g' == g))
  }

  /** Starting a call of the client: the new edit, None if the call fails at once. */
  ghost predicate Starts(g: Graph, step: Step, edit: Option<Edit>, g': Graph)
  {
    match step
    case BeginCommit(id, head, parents, addr) =>
      && id.Branch? && (head != NONE ==> head in g)
      && (match CommitParents(head, parents)
          case None => edit == None && g' == g
          case Some(ps) => Writes(g, addr, ps, g') && edit == Some(SetHead(id, head, addr)))
    case BeginBoth(id, head, parents, addr, ws, wsExpected, wsAddr) =>
      && id.Branch? && ws.WorkingSet? && (head != NONE ==> head in g)
      && (BothParentsNeverFail(head, parents);
          Writes(g, addr, CommitParents(head, BothParents(head, parents)).value, g'))
      && edit == Some(CommitBoth(id, head, addr, ws, wsExpected, wsAddr))
    case BeginFastForward(id, head, next) =>
      && id.Branch? && (head != NONE ==> head in g) && next in g && next != NONE && g' == g && Ranked(g)
      && edit == if head == NONE || head in Ancestors(g, next) then Some(SetHead(id, head, next)) else None
    case Begin(e) =>
      && g' == g && edit == Some(e)
      && ((e.SetWorkingSet? && e.id.WorkingSet?) || (e.NewTag? && e.id.Tag?) || (e.Delete? && e.first == NONE))
    case _ => false
  }

  ghost predicate Next(st: State, c: ClientId, step: Step, st': State)
  {
    && c in st.clients && st.clients[c].view in st.views
    && var cl, view := st.clients[c], st.views[st.clients[c].view];
       match step
       case Load =>
         && cl.pc.Loading?
         && var o := Apply(cl.pc.edit, HeadsOf(view));
            st' == st.(clients := st.clients[c := cl.(pc :=
              if o.Edited? then Committing(Captured(cl.pc.edit, HeadsOf(view)), view, RootOf(o.heads)) else Idle)])
       case TryCommit =>
         && cl.pc.Committing?
         && if cl.pc.root != view then st' == st.(clients := st.clients[c := cl.(pc := Loading(cl.pc.edit))])
            else if cl.pc.root != st.storage then
              st' == st.(clients := st.clients[c := cl.(pc := Loading(cl.pc.edit))],
                         views := st.views[cl.view := st.storage])
            else
              st' == st.(clients := st.clients[c := cl.(pc := Idle)],
                         views := st.views[cl.view := cl.pc.next], storage := cl.pc.next)
       case RebaseView => st' == st.(views := st.views[cl.view := st.storage])
       case _ =>
         && cl.pc.Idle?
         && exists edit ::
              && Starts(st.g, step, edit, st'.g)
              && st' == st.(g := st'.g,
                clients := st.clients[c := cl.(pc := if edit.Some? then Loading(edit.value) else Idle)])
  }

  /** A call of client c succeeds in this step. */
  ghost predicate Succeeds(st: State, c: ClientId, step: Step)
  {
    && step.TryCommit? && c in st.clients && st.clients[c].view in st.views && st.clients[c].pc.Committing?
    && st.clients[c].pc.root == st.views[st.clients[c].view] == st.storage
  }

  // ----- What every step keeps -----

  /**
   * Branch edits lead from the expected head to a descendant of it; other edits leave branches alone or delete them.
   */
  ghost predicate EditOk(g: Graph, e: Edit)
    requires Ranked(g)
  {
    match e
    case SetHead(id, expected, commit) =>
      commit in g && commit != NONE && id.Branch? && (expected != NONE ==> expected in Ancestors(g, commit))
    case CommitBoth(id, expected, commit, ws, _, _) =>
      && commit in g && commit != NONE && id.Branch? && ws.WorkingSet?
      && (expected != NONE ==> expected in Ancestors(g, commit))
    case SetWorkingSet(id, _, _) => id.WorkingSet?
    case NewTag(id, _) => id.Tag?
    case Delete(_, _) => true
  }

  /** Branch heads are commits. */
  ghost predicate RootOk(g: Graph, r: Root)
  {
    forall id :: id in HeadsOf(r) && id.Branch? ==> HeadsOf(r)[id] in g && HeadsOf(r)[id] != NONE
  }

  ghost predicate PcOk(g: Graph, pc: Pc)
    requires Ranked(g)
  {
    match pc
    case Idle => true
    case Loading(e) => EditOk(g, e)
    case Committing(e, root, next) =>
      EditOk(g, e) && Captured(e, HeadsOf(root)) == e && next.RootOf? && Apply(e, HeadsOf(root)) == Edited(next.heads)
  }

  ghost predicate Inv(st: State)
  {
    && AllExact(st.g)
    && RootOk(st.g, st.storage)
    && (forall v :: v in st.views ==> RootOk(st.g, st.views[v]))
    && (forall c :: c in st.clients ==> PcOk(st.g, st.clients[c].pc))
  }

  /** An edit that is applied keeps branch heads commits. */
  lemma ApplyKeeps(g: Graph, e: Edit, r: Root)
    requires Ranked(g) && EditOk(g, e) && RootOk(g, r) && Apply(e, HeadsOf(r)).Edited?
    ensures RootOk(g, RootOf(Apply(e, HeadsOf(r)).heads))
  {
    hide Ranked, Ancestors;
  }

  /** The graph only grows, and with it the invariant holds of what was there. */
  ghost predicate GrownGraph(g: Graph, g': Graph)
  {
    AllExact(g) && AllExact(g') && forall a :: a in g ==> a in g' && g'[a] == g[a]
  }

  lemma EditGrown(g: Graph, g': Graph, e: Edit)
    requires GrownGraph(g, g') && EditOk(g, e)
    ensures EditOk(g', e)
  {
    hide Ancestors, Ranked;
    if e.SetHead? || e.CommitBoth? {
      AncestorsKept(g, g', e.commit);
    }
  }

  lemma WritesKeep(g: Graph, addr: Addr, parents: seq<Addr>, g': Graph)
    requires AllExact(g) && Writes(g, addr, parents, g')
    ensures GrownGraph(g, g') && addr in g' && g'[addr].parents == parents
    ensures forall p :: p in parents ==> p in Ancestors(g', addr)
  {
    hide AllExact, Ancestors, ClosureFor, Ranked, MaxHeight, Heights;
    if Commits(g, addr, parents, g') {
      CommitExact(g, addr, parents, g');
    }
    RankedOf(g');
    forall p | p in parents ensures p in Ancestors(g', addr) {
      ParentIsAncestor(g', addr, p);
    }
  }

  lemma ParentIsAncestor(g: Graph, c: Addr, p: Addr)
    requires Ranked(g) && c in g && p in g[c].parents
    ensures p in Ancestors(g, c)
  {
    hide Ancestors;
    AncestorsStep(g, c, p);
    AncestorsStep(g, p, p);
  }

  lemma RankedOf(g: Graph)
    requires AllExact(g)
    ensures Ranked(g)
  {
  }

  lemma StartsKeep(g: Graph, step: Step, edit: Option<Edit>, g': Graph)
    requires AllExact(g) && Starts(g, step, edit, g')
    ensures GrownGraph(g, g') && (edit.Some? ==> EditOk(g', edit.value))
  {
    hide Writes, ClosureExact, Ranked, Ancestors, StrictAncestors;
    match step
    case BeginCommit(id, head, parents, addr) =>
      var ps := CommitParents(head, parents);
      if ps.Some? { WritesKeep(g, addr, ps.value, g'); WritesNonZero(g, addr, ps.value, g'); }
    case BeginBoth(id, head, parents, addr, _, _, _) =>
      BothParentsNeverFail(head, parents);
      var ps := CommitParents(head, BothParents(head, parents)).value;
      WritesKeep(g, addr, ps, g');
      WritesNonZero(g, addr, ps, g');
    case _ =>
  }

  lemma WritesNonZero(g: Graph, addr: Addr, parents: seq<Addr>, g': Graph)
    requires Writes(g, addr, parents, g')
    ensures addr != NONE
  {
  }

  lemma PcGrown(g: Graph, g': Graph, pc: Pc)
    requires GrownGraph(g, g') && PcOk(g, pc)
    ensures PcOk(g', pc)
  {
    hide Ancestors, Ranked, ClosureExact, EditOk;
    match pc
    case Idle =>
    case Loading(e) => EditGrown(g, g', e);
    case Committing(e, _, _) => EditGrown(g, g', e);
  }

  lemma RootGrown(g: Graph, g': Graph, r: Root)
    requires GrownGraph(g, g') && RootOk(g, r)
    ensures RootOk(g', r)
  {
  }

  lemma NextGrows(st: State, c: ClientId, step: Step, st': State)
    requires Inv(st) && Next(st, c, step, st')
    ensures GrownGraph(st.g, st'.g)
  {
    hide AllExact, Starts, PcOk, RootOk;
    if !(step.Load? || step.TryCommit? || step.RebaseView?) {
      var edit :| Starts(st.g, step, edit, st'.g);
      StartsKeep(st.g, step, edit, st'.g);
    }
  }

  lemma OwnPcOk(st: State, c: ClientId, step: Step, st': State)
    requires Inv(st) && Next(st, c, step, st')
    ensures Ranked(st'.g) && c in st'.clients && PcOk(st'.g, st'.clients[c].pc)
  {
    hide AllExact, Starts, Ranked, Ancestors, RootOk;
    RankedOf(st.g);
    assert PcOk(st.g, st.clients[c].pc);
    NextGrows(st, c, step, st');
    RankedOf(st'.g);
    if step.Load? {
      CapturedSame(st.clients[c].pc.edit, HeadsOf(st.views[st.clients[c].view]));
      CapturedOk(st.g, st.clients[c].pc.edit, HeadsOf(st.views[st.clients[c].view]));
    } else if step.TryCommit? || step.RebaseView? {
    } else {
      var edit :| Starts(st.g, step, edit, st'.g)
        && st' == st.(g := st'.g,
          clients := st.clients[c := st.clients[c].(pc := if edit.Some? then Loading(edit.value) else Idle)]);
      StartsKeep(st.g, step, edit, st'.g);
    }
  }

  lemma CapturedSame(e: Edit, m: Heads)
    ensures Captured(Captured(e, m), m) == Captured(e, m) && Apply(Captured(e, m), m) == Apply(e, m)
  {
  }

  lemma CapturedOk(g: Graph, e: Edit, m: Heads)
    requires Ranked(g) && EditOk(g, e)
    ensures EditOk(g, Captured(e, m))
  {
  }

  lemma NextKeepsInv(st: State, c: ClientId, step: Step, st': State)
    requires Inv(st) && Next(st, c, step, st')
    ensures Inv(st')
  {
    hide AllExact, Starts, PcOk, RootOk, Ranked, Apply;
    NextGrows(st, c, step, st');
    OwnPcOk(st, c, step, st');
    assert RootOk(st'.g, st'.storage) by { StorageOk(st, c, step, st'); }
    forall v | v in st'.views ensures RootOk(st'.g, st'.views[v]) {
      if v in st.views { RootGrown(st.g, st'.g, st.views[v]); }
    }
    forall o | o in st'.clients ensures PcOk(st'.g, st'.clients[o].pc) {
      if o != c { PcGrown(st.g, st'.g, st.clients[o].pc); }
    }
  }

  lemma StorageOk(st: State, c: ClientId, step: Step, st': State)
    requires Inv(st) && Next(st, c, step, st')
    ensures RootOk(st'.g, st'.storage)
  {
    hide AllExact, Starts, RootOk, Ranked, Apply;
    NextGrows(st, c, step, st');
    RootGrown(st.g, st'.g, st.storage);
    if st'.storage != st.storage {
      var pc := st.clients[c].pc;
      RankedOf(st.g);
      assert PcOk(st.g, pc);
      ApplyKeeps(st.g, pc.edit, pc.root);
    }
  }

  // ----- What runs of edits promise -----

  /** A successful call is one root transition: its edit applied to the immediately preceding datasets. */
  lemma Serializable(st: State, c: ClientId, step: Step, st': State)
    requires Inv(st) && Next(st, c, step, st')
    ensures Succeeds(st, c, step) ==>
              st'.storage.RootOf? && Apply(st.clients[c].pc.edit, HeadsOf(st.storage)) == Edited(st'.storage.heads)
    ensures !Succeeds(st, c, step) ==> st'.storage == st.storage
  {
    hide AllExact, Starts, RootOk, Ranked, Apply;
    RankedOf(st.g);
    assert PcOk(st.g, st.clients[c].pc);
  }

  /** The edits of the calls that succeeded in the first j steps, in order. */
  ghost function Log(states: seq<State>, events: seq<Event>, j: nat): seq<Edit>
    requires |states| == |events| + 1 && j <= |events|
  {
    if j == 0 then []
    else
      var st, e := states[j - 1], events[j - 1];
      Log(states, events, j - 1) + if Succeeds(st, e.client, e.step) then [st.clients[e.client].pc.edit] else []
  }

  /** Applying edits one after the other; None if one of them fails. */
  ghost function ApplyAll(edits: seq<Edit>, m: Heads): Option<Heads>
  {
    if edits == [] then Some(m)
    else
      var before := ApplyAll(edits[..|edits| - 1], m);
      if before.None? then None
      else
        var o := Apply(edits[|edits| - 1], before.value);
        if o.Edited? then Some(o.heads) else None
  }

  /** Over every run the datasets are the initial ones with the edits of the successful calls applied one by one. */
  lemma {:induction false} RunIsSerial(states: seq<State>, events: seq<Event>, j: nat)
    requires Run(states, events) && j < |states|
    ensures ApplyAll(Log(states, events, j), HeadsOf(states[0].storage)) == Some(HeadsOf(states[j].storage))
  {
    hide Next, Inv, Succeeds, Apply, Init;
    if j > 0 {
      RunIsSerial(states, events, j - 1);
      RunInv(states, events, j - 1);
      var st, e := states[j - 1], events[j - 1];
      Serializable(st, e.client, e.step, states[j]);
      if Succeeds(st, e.client, e.step) {
        SucceedsAt(st, e.client, e.step);
        LogPush(Log(states, events, j - 1), st.clients[e.client].pc.edit, HeadsOf(states[0].storage));
      } else {
        assert Log(states, events, j) == Log(states, events, j - 1);
      }
    }
  }

  lemma SucceedsAt(st: State, c: ClientId, step: Step)
    requires Succeeds(st, c, step)
    ensures c in st.clients && st.clients[c].pc.Committing?
  {
  }

  lemma LogPush(edits: seq<Edit>, e: Edit, m: Heads)
    ensures ApplyAll(edits + [e], m) ==
              var before := ApplyAll(edits, m);
              if before.Some? && Apply(e, before.value).Edited? then Some(Apply(e, before.value).heads) else None
  {
    assert (edits + [e])[..|edits|] == edits;
  }

  /** No edit alters or loses the entry of another dataset, and a commit with its working set changes both entries. */
  lemma EditIsLocal(e: Edit, m: Heads, id: Id)
    requires Apply(e, m).Edited?
    ensures id !in Touched(e) ==> (id in Apply(e, m).heads <==> id in m) && Head(Apply(e, m).heads, id) == Head(m, id)
    ensures e.CommitBoth? && e.id != e.ws ==>
              Head(Apply(e, m).heads, e.id) == e.commit && Head(Apply(e, m).heads, e.ws) == e.wsAddr
    ensures e.CommitBoth? ==> Head(m, e.id) == e.expected && Head(m, e.ws) == e.wsExpected
  {
  }

  /** The head of a branch moves only to a descendant; it can otherwise only appear or be deleted. */
  lemma HeadMovesToDescendant(st: State, c: ClientId, step: Step, st': State, b: Id)
    requires Inv(st) && Next(st, c, step, st') && b.Branch?
    ensures Ranked(st'.g)
    ensures var was, now := Head(HeadsOf(st.storage), b), Head(HeadsOf(st'.storage), b);
            || was == now
            || (now == NONE && Succeeds(st, c, step) && st.clients[c].pc.edit.Delete? && st.clients[c].pc.edit.id == b)
            || (now != NONE && now in st'.g && (was == NONE || was in Ancestors(st'.g, now)))
  {
    hide AllExact, Starts, Ranked, Ancestors;
    NextGrows(st, c, step, st');
    RankedOf(st'.g);
    if st'.storage != st.storage {
      assert PcOk(st.g, st.clients[c].pc);
    }
  }

  /** Any store whose branch heads are commits, its views, and clients that have not started. */
  ghost predicate Init(st: State)
  {
    && AllExact(st.g)
    && RootOk(st.g, st.storage)
    && (forall v :: v in st.views ==> RootOk(st.g, st.views[v]))
    && (forall c :: c in st.clients ==> st.clients[c].pc.Idle?)
  }

  datatype Event = Event(client: ClientId, step: Step)

  ghost predicate Run(states: seq<State>, events: seq<Event>)
  {
    && |states| == |events| + 1
    && Init(states[0])
    && forall i :: 0 <= i < |events| ==> Next(states[i], events[i].client, events[i].step, states[i + 1])
  }

  /** No delete of b wins between i and j. */
  ghost predicate Kept(states: seq<State>, events: seq<Event>, b: Id, i: nat, j: nat)
    requires |states| == |events| + 1 && i <= j <= |events|
  {
    forall k :: i <= k < j && Succeeds(states[k], events[k].client, events[k].step) ==>
      !(states[k].clients[events[k].client].pc.edit.Delete? && states[k].clients[events[k].client].pc.edit.id == b)
  }

  /** Over every run in which nobody deletes a branch, its later head descends from its earlier head. */
  lemma {:induction false} BranchOnlyDescends(states: seq<State>, events: seq<Event>, b: Id, i: nat, j: nat)
    requires Run(states, events) && b.Branch? && i <= j < |states| && Kept(states, events, b, i, j)
    requires Head(HeadsOf(states[i].storage), b) != NONE
    ensures Inv(states[j]) && Ranked(states[j].g)
    ensures Head(HeadsOf(states[j].storage), b) in states[j].g && Head(HeadsOf(states[j].storage), b) != NONE
    ensures Head(HeadsOf(states[i].storage), b) in Ancestors(states[j].g, Head(HeadsOf(states[j].storage), b))
    decreases j - i
  {
    hide Next, Inv, Ranked, Ancestors, Succeeds;
    if i == j {
      RunInv(states, events, i);
      HeadPresent(states[i], b);
      AncestorsStep(states[i].g, Head(HeadsOf(states[i].storage), b), Head(HeadsOf(states[i].storage), b));
    } else {
      BranchOnlyDescends(states, events, b, i, j - 1);
      BranchStep(states[j - 1], events[j - 1].client, events[j - 1].step, states[j], b,
        Head(HeadsOf(states[i].storage), b));
    }
  }

  lemma {:induction false} RunInv(states: seq<State>, events: seq<Event>, i: nat)
    requires Run(states, events) && i < |states|
    ensures Inv(states[i])
  {
    hide Next, RootOk;
    if i > 0 {
      RunInv(states, events, i - 1);
      NextKeepsInv(states[i - 1], events[i - 1].client, events[i - 1].step, states[i]);
    }
  }

  lemma HeadPresent(st: State, b: Id)
    requires Inv(st) && b.Branch? && Head(HeadsOf(st.storage), b) != NONE
    ensures Ranked(st.g) && Head(HeadsOf(st.storage), b) in st.g
  {
    hide ClosureExact;
  }

  lemma BranchStep(st: State, c: ClientId, step: Step, st': State, b: Id, a: Addr)
    requires Inv(st) && Next(st, c, step, st') && b.Branch? && Ranked(st.g)
    requires Head(HeadsOf(st.storage), b) in st.g && a in Ancestors(st.g, Head(HeadsOf(st.storage), b))
    requires Head(HeadsOf(st.storage), b) != NONE
    requires Succeeds(st, c, step) ==> !(st.clients[c].pc.edit.Delete? && st.clients[c].pc.edit.id == b)
    ensures Inv(st') && Ranked(st'.g) && Head(HeadsOf(st'.storage), b) in st'.g && Head(HeadsOf(st'.storage), b) != NONE
    ensures a in Ancestors(st'.g, Head(HeadsOf(st'.storage), b))
  {
    hide Next, Inv, Ranked, Ancestors, AllExact, Apply;
    NextKeepsInv(st, c, step, st');
    NextGrows(st, c, step, st');
    HeadMovesToDescendant(st, c, step, st', b);
    Serializable(st, c, step, st');
    var h, h' := Head(HeadsOf(st.storage), b), Head(HeadsOf(st'.storage), b);
    RankedOf(st.g);
    AncestorsKept(st.g, st'.g, h);
    if h' != NONE {
      HeadPresent(st', b);
      if h != h' { AncestorFacts(st'.g, h', h); }
    }
  }

  // ----- What a run does to one dataset -----

  /** No call that succeeds between i and j may change the dataset. */
  ghost predicate Untouched(states: seq<State>, events: seq<Event>, id: Id, i: nat, j: nat)
    requires |states| == |events| + 1 && i <= j <= |events|
  {
    forall k :: i <= k < j && Succeeds(states[k], events[k].client, events[k].step) ==>
      id !in Touched(states[k].clients[events[k].client].pc.edit)
  }

  /** Over every run the entry of a dataset changes only through a successful edit of that dataset. */
  lemma {:induction false} EditsAreLocal(states: seq<State>, events: seq<Event>, id: Id, i: nat, j: nat)
    requires Run(states, events) && i <= j < |states| && Untouched(states, events, id, i, j)
    ensures id in HeadsOf(states[i].storage) <==> id in HeadsOf(states[j].storage)
    ensures Head(HeadsOf(states[i].storage), id) == Head(HeadsOf(states[j].storage), id)
  {
    hide Next, Inv, Succeeds, Apply, Init, Touched;
    if i < j {
      EditsAreLocal(states, events, id, i, j - 1);
      RunInv(states, events, j - 1);
      var st, e := states[j - 1], events[j - 1];
      Serializable(st, e.client, e.step, states[j]);
      if Succeeds(st, e.client, e.step) {
        SucceedsAt(st, e.client, e.step);
        EditIsLocal(st.clients[e.client].pc.edit, HeadsOf(st.storage), id);
      }
    }
  }

  /** In every run a commit with its working set that succeeds replaces both expected heads in one step. */
  lemma BothTogether(states: seq<State>, events: seq<Event>, k: nat)
    requires Run(states, events) && k < |events| && Succeeds(states[k], events[k].client, events[k].step)
    requires states[k].clients[events[k].client].pc.edit.CommitBoth?
    ensures var e, was, now :=
              states[k].clients[events[k].client].pc.edit, HeadsOf(states[k].storage), HeadsOf(states[k + 1].storage);
            && Head(was, e.id) == e.expected && Head(was, e.ws) == e.wsExpected
            && Head(now, e.id) == e.commit && Head(now, e.ws) == e.wsAddr
            && e.commit in states[k + 1].g
  {
    hide Next, Apply, Init, Touched, AllExact, RootOk, Ancestors, Ranked;
    RunInv(states, events, k);
    RunInv(states, events, k + 1);
    var st, c := states[k], events[k].client;
    var e := st.clients[c].pc.edit;
    Serializable(st, c, events[k].step, states[k + 1]);
    NextGrows(st, c, events[k].step, states[k + 1]);
    RankedOf(st.g);
    assert PcOk(st.g, st.clients[c].pc);
    EditIsLocal(e, HeadsOf(st.storage), e.id);
  }

  /** n is m with a head under id, and differs nowhere else. */
  ghost predicate Moves(m: Heads, n: Heads, id: Id, a: Addr)
  {
    id in n && n[id] == a && forall o :: o != id ==> (o in n <==> o in m) && Head(n, o) == Head(m, o)
  }

  ghost predicate Removes(m: Heads, n: Heads, id: Id)
  {
    id !in n && forall o :: o != id ==> (o in n <==> o in m) && Head(n, o) == Head(m, o)
  }

  /** What an edit that is made finds and leaves. */
  ghost predicate Done(e: Edit, was: Heads, now: Heads)
  {
    match e
    case SetHead(id, expected, commit) => Head(was, id) == expected && Moves(was, now, id, commit)
    case CommitBoth(id, expected, commit, ws, wsExpected, wsAddr) =>
      && Head(was, id) == expected && Head(was, ws) == wsExpected && Head(now, ws) == wsAddr
      && (id != ws ==> Head(now, id) == commit)
      && forall o :: o != id && o != ws ==> (o in now <==> o in was) && Head(now, o) == Head(was, o)
    case SetWorkingSet(id, expected, addr) => Head(was, id) == expected && Moves(was, now, id, addr)
    case NewTag(id, addr) => Head(was, id) == NONE && Moves(was, now, id, addr)
    case Delete(id, first) => (first != NONE ==> Head(was, id) == first) && Removes(was, now, id)
  }

  lemma EditDoes(e: Edit, m: Heads)
    ensures Apply(e, m).Edited? ==> Done(e, m, Apply(e, m).heads)
  {
  }

  /**
   * In every run a call that succeeds finds the head it expects and leaves its own: a commit or fast-forward moves the
   * head from the expected one to the new commit, an update of a working set writes its address over the expected one,
   * and a tag comes where there was none.
   */
  lemma SuccessMoves(states: seq<State>, events: seq<Event>, k: nat)
    requires Run(states, events) && k < |events| && Succeeds(states[k], events[k].client, events[k].step)
    ensures Done(states[k].clients[events[k].client].pc.edit,
                 HeadsOf(states[k].storage), HeadsOf(states[k + 1].storage))
  {
    hide Next, Inv, Apply, Init, Done;
    RunInv(states, events, k);
    var st, c := states[k], events[k].client;
    Serializable(st, c, events[k].step, states[k + 1]);
    EditDoes(st.clients[c].pc.edit, HeadsOf(st.storage));
  }

  /** A call that meets the given heads ends with the given error. */
  ghost predicate RefusedWith(e: Edit, m: Heads, o: Outcome)
  {
    match o
    case Edited(_) => false
    case MergeNeeded =>
      || (e.SetHead? && Head(m, e.id) != e.expected)
      || (e.CommitBoth? && Head(m, e.ws) == e.wsExpected && Head(m, e.id) != e.expected)
      || (e.Delete? && e.first != NONE && Head(m, e.id) != e.first)
    case AlreadyCommitted => e.SetHead? && Head(m, e.id) == e.expected == e.commit != NONE
    case OptimisticLockFailed =>
      || (e.SetWorkingSet? && Head(m, e.id) != e.expected)
      || (e.CommitBoth? && Head(m, e.ws) != e.wsExpected)
    case TagExists => e.NewTag? && Head(m, e.id) != NONE
  }

  lemma RefusedExactly(e: Edit, m: Heads, o: Outcome)
    ensures !o.Edited? ==> (Apply(e, m) == o <==> RefusedWith(e, m, o))
  {
  }

  /** In every run a call that loads the datasets is refused exactly if an error applies to the heads it sees. */
  lemma LoadRefuses(states: seq<State>, events: seq<Event>, k: nat)
    requires Run(states, events) && k < |events| && events[k].step.Load?
    ensures var st, st', c := states[k], states[k + 1], events[k].client;
            && c in st.clients && st.clients[c].pc.Loading? && st.clients[c].view in st.views && c in st'.clients
            && (st'.clients[c].pc.Idle? <==>
                exists o :: RefusedWith(st.clients[c].pc.edit, HeadsOf(st.views[st.clients[c].view]), o))
            && st'.storage == st.storage
  {
    hide Init, Apply, RefusedWith;
    var st, c := states[k], events[k].client;
    assert Next(st, c, Load, states[k + 1]);
    var e, m := st.clients[c].pc.edit, HeadsOf(st.views[st.clients[c].view]);
    RefusedExactly(e, m, Apply(e, m));
    forall o | RefusedWith(e, m, o) ensures !Apply(e, m).Edited? {
      NeverEdited(e, m, o);
      RefusedExactly(e, m, o);
    }
  }

  lemma NeverEdited(e: Edit, m: Heads, o: Outcome)
    requires RefusedWith(e, m, o)
    ensures !o.Edited?
  {
  }

  /** Client c is idle or deletes the dataset on condition that its head is h. */
  ghost predicate DeletesOnly(st: State, c: ClientId, id: Id, h: Addr)
  {
    c in st.clients && (st.clients[c].pc.Idle? || st.clients[c].pc.edit == Delete(id, h))
  }

  predicate StartsCall(step: Step)
  {
    !step.Load? && !step.TryCommit? && !step.RebaseView?
  }

  lemma DeleteGoesOn(st: State, o: ClientId, step: Step, st': State, c: ClientId, id: Id, h: Addr)
    requires Next(st, o, step, st') && DeletesOnly(st, c, id, h) && h != NONE && (o == c ==> !StartsCall(step))
    ensures DeletesOnly(st', c, id, h)
  {
    hide Starts, Apply;
  }

  lemma {:induction false} DeleteGoesOnLong(
    states: seq<State>, events: seq<Event>, i: nat, j: nat, c: ClientId, id: Id, h: Addr)
    requires Run(states, events) && i <= j < |states| && DeletesOnly(states[i], c, id, h) && h != NONE
    requires forall k :: i <= k < j && events[k].client == c ==> !StartsCall(events[k].step)
    ensures DeletesOnly(states[j], c, id, h)
  {
    hide Next, Init, DeletesOnly;
    if i < j {
      DeleteGoesOnLong(states, events, i, j - 1, c, id, h);
      DeleteGoesOn(states[j - 1], events[j - 1].client, events[j - 1].step, states[j], c, id, h);
    }
  }

  /** The load of event i is the first one of a delete, and it sees the head h. */
  ghost predicate FirstSees(states: seq<State>, events: seq<Event>, i: nat, id: Id, h: Addr)
  {
    && i < |events| < |states| && events[i].step.Load? && h != NONE
    && var st, c := states[i], events[i].client;
       && c in st.clients && st.clients[c].view in st.views && st.clients[c].pc == Loading(Delete(id, NONE))
       && Head(HeadsOf(st.views[st.clients[c].view]), id) == h
  }

  /**
   * In every run a delete that succeeds removes the head it saw first, however often it had to retry and whatever the
   * other clients did meanwhile, and removes nothing else.
   */
  lemma DeleteRemovesFirstSeen(states: seq<State>, events: seq<Event>, i: nat, j: nat, id: Id, h: Addr)
    requires Run(states, events) && i < j < |events| && FirstSees(states, events, i, id, h)
    requires events[j].client == events[i].client && Succeeds(states[j], events[j].client, events[j].step)
    requires forall k :: i < k < j && events[k].client == events[i].client ==> !StartsCall(events[k].step)
    ensures Head(HeadsOf(states[j].storage), id) == h
    ensures HeadsOf(states[j + 1].storage) == HeadsOf(states[j].storage) - {id}
  {
    hide Inv, Init;
    var c := events[i].client;
    assert Next(states[i], c, Load, states[i + 1]);
    assert DeletesOnly(states[i + 1], c, id, h);
    DeleteGoesOnLong(states, events, i + 1, j, c, id, h);
    RunInv(states, events, j);
    Serializable(states[j], c, events[j].step, states[j + 1]);
  }
}
