/** A client that is left alone. */
module DatasetProgress {

  // What a call comes to when no other client takes a step meanwhile: it is the update loop of the database.

  import opened AncestorSearch
  import opened CommitClosures
  import opened CommitGraph
  import opened Database
  import opened Datasets
  import opened Options

  /** The steps of a client, one after the other, and the states they lead through. */
  ghost predicate Leads(st: State, path: seq<State>, c: ClientId, steps: seq<Step>, st': State)
  {
    && |path| == |steps| + 1 && path[0] == st && path[|steps|] == st'
    && forall i :: 0 <= i < |steps| ==> Next(path[i], c, steps[i], path[i + 1])
  }

  /** The state after client c has moved to a new position, with a new view and new storage. */
  function Moved(st: State, c: ClientId, pc: Pc, view: Root, storage: Root): State
    requires c in st.clients
  {
    var cl := st.clients[c];
    State(st.g, storage, st.views[cl.view := view], st.clients[c := cl.(pc := pc)])
  }

  lemma Then(st: State, path: seq<State>, c: ClientId, steps: seq<Step>, mid: State, step: Step, st': State)
    requires Leads(st, path, c, steps, mid) && Next(mid, c, step, st')
    ensures Leads(st, path + [st'], c, steps + [step], st')
  {
    hide Next;
  }

  /** A load that is followed by a commit on the root that was loaded. */
  lemma PassAlone(st: State, c: ClientId) returns (st1: State, st2: State)
    requires c in st.clients && st.clients[c].view in st.views && st.clients[c].pc.Loading?
    requires Apply(st.clients[c].pc.edit, HeadsOf(st.views[st.clients[c].view])).Edited?
    ensures Next(st, c, Load, st1) && Next(st1, c, TryCommit, st2)
    ensures var e, view := st.clients[c].pc.edit, st.views[st.clients[c].view];
            var next := RootOf(Apply(e, HeadsOf(view)).heads);
            if view == st.storage then Succeeds(st1, c, TryCommit) && st2 == Moved(st, c, Idle, next, next)
            else !Succeeds(st1, c, TryCommit)
                 && st2 == Moved(st, c, Loading(Captured(e, HeadsOf(view))), st.storage, st.storage)
  {
    hide Apply, Captured;
    var cl := st.clients[c];
    var view := st.views[cl.view];
    var next := RootOf(Apply(cl.pc.edit, HeadsOf(view)).heads);
    var e := Captured(cl.pc.edit, HeadsOf(view));
    st1 := Moved(st, c, Committing(e, view, next), view, st.storage);
    st2 := if view == st.storage then Moved(st, c, Idle, next, next)
           else Moved(st, c, Loading(e), st.storage, st.storage);
    assert st.views[cl.view := view] == st.views;
    assert st1.clients[c := st2.clients[c]] == st2.clients;
  }

  lemma LoadFails(st: State, c: ClientId) returns (st': State)
    requires c in st.clients && st.clients[c].view in st.views && st.clients[c].pc.Loading?
    requires !Apply(st.clients[c].pc.edit, HeadsOf(st.views[st.clients[c].view])).Edited?
    ensures Next(st, c, Load, st') && st' == Moved(st, c, Idle, st.views[st.clients[c].view], st.storage)
  {
    hide Apply, Captured;
    var view := st.clients[c].view;
    st' := Moved(st, c, Idle, st.views[view], st.storage);
    assert st.views[view := st.views[view]] == st.views;
  }

  /**
   * A call that is left alone ends after at most two passes. It does to the storage what the update loop of the
   * database does, succeeds exactly if the loop does, and changes nothing else.
   */
  lemma EditAlone(st: State, c: ClientId) returns (path: seq<State>, steps: seq<Step>, st': State)
    requires c in st.clients && st.clients[c].view in st.views && st.clients[c].pc.Loading?
    ensures Leads(st, path, c, steps, st') && 1 <= |steps| <= 4
    ensures st.clients[c].view in st'.views
    ensures st' == Moved(st, c, Idle, st'.views[st.clients[c].view], st'.storage)
    ensures var r := Result(st.clients[c].pc.edit, st.views[st.clients[c].view], st.storage);
            && st'.storage == (if r.Edited? then RootOf(r.heads) else st.storage)
            && (r.Edited? <==> Succeeds(path[|steps| - 1], c, steps[|steps| - 1]))
            && (r.Edited? ==> st'.views[st.clients[c].view] == st'.storage)
    ensures var e := Captured(st.clients[c].pc.edit, HeadsOf(st.views[st.clients[c].view]));
            Succeeds(path[|steps| - 1], c, steps[|steps| - 1]) ==> Done(e, HeadsOf(st.storage), HeadsOf(st'.storage))
  {
    hide Next, Apply, Captured, Succeeds, Done, RefusedWith;
    var view := st.clients[c].view;
    ResultMeans(st.clients[c].pc.edit, st.views[view], st.storage);
    path, steps := [st], [];
    st' := st;
    var r := Apply(st.clients[c].pc.edit, HeadsOf(st.views[view]));
    if r.Edited? {
      var st1, st2 := PassAlone(st, c);
      Then(st, path, c, steps, st, Load, st1);
      Then(st, [st, st1], c, [Load], st1, TryCommit, st2);
      path, steps, st' := [st, st1, st2], [Load, TryCommit], st2;
      if st.views[view] == st.storage {
        return;
      }
      if Apply(st'.clients[c].pc.edit, HeadsOf(st'.views[view])).Edited? {
        var st3, st4 := PassAlone(st', c);
        Then(st, path, c, steps, st', Load, st3);
        Then(st, path + [st3], c, steps + [Load], st3, TryCommit, st4);
        path, steps, st' := path + [st3] + [st4], steps + [Load] + [TryCommit], st4;
        return;
      }
    }
    var end := LoadFails(st', c);
    Then(st, path, c, steps, st', Load, end);
    path, steps, st' := path + [end], steps + [Load], end;
    assert !Succeeds(path[|steps| - 1], c, Load) by { LoadNeverSucceeds(path[|steps| - 1], c); }
  }

  lemma LoadNeverSucceeds(st: State, c: ClientId)
    ensures !Succeeds(st, c, Load)
  {
  }

  /** A client that refreshes its view first needs one pass, and is refused only by the heads in the storage. */
  lemma RefreshedAlone(st: State, c: ClientId) returns (st1: State, st2: State, st3: State)
    requires c in st.clients && st.clients[c].view in st.views && st.clients[c].pc.Loading?
    requires forall o :: !RefusedWith(st.clients[c].pc.edit, HeadsOf(st.storage), o)
    ensures Next(st, c, RebaseView, st1) && Next(st1, c, Load, st2) && Next(st2, c, TryCommit, st3)
    ensures Succeeds(st2, c, TryCommit) && st3 == Moved(st, c, Idle, st3.storage, st3.storage)
    ensures Done(Captured(st.clients[c].pc.edit, HeadsOf(st.storage)), HeadsOf(st.storage), HeadsOf(st3.storage))
  {
    hide Apply, Captured, Succeeds, Done, RefusedWith;
    var e := st.clients[c].pc.edit;
    st1 := Moved(st, c, st.clients[c].pc, st.storage, st.storage);
    assert st1.clients == st.clients;
    RefusedExactly(e, HeadsOf(st.storage), Apply(e, HeadsOf(st.storage)));
    st2, st3 := PassAlone(st1, c);
    CapturedSame(e, HeadsOf(st.storage));
    EditDoes(Captured(e, HeadsOf(st.storage)), HeadsOf(st.storage));
  }

  /**
   * In every run a commit of the root that did not succeed leaves the storage alone, and its call tries the same edit
   * again, on another root than the one it lost with.
   */
  lemma LostGoesOn(states: seq<State>, events: seq<Event>, k: nat)
    requires Run(states, events) && k < |events| && events[k].step.TryCommit?
    requires !Succeeds(states[k], events[k].client, TryCommit)
    ensures var st, st', c := states[k], states[k + 1], events[k].client;
            && c in st.clients && st.clients[c].pc.Committing? && c in st'.clients
            && st'.storage == st.storage && st'.clients[c].pc == Loading(st.clients[c].pc.edit)
            && st'.clients[c].view in st'.views && st'.views[st'.clients[c].view] != st.clients[c].pc.root
  {
    hide Init;
    assert Next(states[k], events[k].client, TryCommit, states[k + 1]);
  }

  // ----- Beginning a call -----

  /** What a caller has to see to. */
  predicate Callable(g: Graph, step: Step)
  {
    match step
    case BeginCommit(id, head, parents, addr) =>
      && id.Branch? && (head == NONE || head in g) && addr != NONE && (forall p :: p in parents ==> p in g)
      && (addr in g ==> CommitParents(head, parents) in {None, Some(g[addr].parents)})
    case BeginBoth(id, head, parents, addr, ws, _, _) =>
      && id.Branch? && ws.WorkingSet? && (head == NONE || head in g) && addr != NONE
      && (forall p :: p in parents ==> p in g)
      && (addr in g ==> CommitParents(head, BothParents(head, parents)) == Some(g[addr].parents))
    case BeginFastForward(id, head, next) => id.Branch? && (head == NONE || head in g) && next in g && next != NONE
    case Begin(e) =>
      || (e.SetWorkingSet? && e.id.WorkingSet?)
      || (e.NewTag? && e.id.Tag?)
      || (e.Delete? && e.first == NONE)
    case _ => false
  }

  /** The edit a call turns into, by the heads, parents and ancestors it is made with. */
  ghost predicate Begun(g: Graph, step: Step, g': Graph, pc: Pc)
    requires Ranked(g)
  {
    match step
    case BeginCommit(id, head, parents, addr) =>
      if parents == [] || head == NONE || head in parents then
        && pc == Loading(SetHead(id, head, addr)) && addr in g'
        && g'[addr].parents == if parents != [] then parents else if head == NONE then [] else [head]
      else pc == Idle && g' == g
    case BeginBoth(id, head, parents, addr, ws, wsExpected, wsAddr) =>
      && pc == Loading(CommitBoth(id, head, addr, ws, wsExpected, wsAddr)) && addr in g'
      && g'[addr].parents == if head == NONE || head in parents then parents else [head] + parents
    case BeginFastForward(id, head, next) =>
      && g' == g
      && pc == if head == NONE || (next in g && head in Ancestors(g, next)) then Loading(SetHead(id, head, next))
               else Idle
    case Begin(e) => g' == g && pc == Loading(e)
    case _ => false
  }

  method Written(g: Graph, addr: Addr, parents: seq<Addr>) returns (g': Graph)
    requires AllExact(g) && addr != NONE && (forall p :: p in parents ==> p in g)
    requires addr in g ==> g[addr].parents == parents
    ensures Writes(g, addr, parents, g') && addr in g' && g'[addr].parents == parents
  {
    if addr in g {
      return g;
    }
    g' := NewCommit(g, addr, parents);
  }

  /** Every such call can begin, at any time; a commit is written with the parents it asks for. */
  method BeginAlone(st: State, c: ClientId, step: Step) returns (st': State)
    requires Inv(st) && c in st.clients && st.clients[c].view in st.views && st.clients[c].pc.Idle?
    requires Callable(st.g, step)
    ensures Next(st, c, step, st') && c in st'.clients && Begun(st.g, step, st'.g, st'.clients[c].pc)
    ensures st' == st.(g := st'.g, clients := st.clients[c := st.clients[c].(pc := st'.clients[c].pc)])
  {
    var cl := st.clients[c];
    var g, edit := st.g, None;
    match step {
      case BeginCommit(id, head, parents, addr) =>
        var ps := CommitParents(head, parents);
        if ps.Some? {
          g := Written(g, addr, ps.value);
          edit := Some(SetHead(id, head, addr));
        }
      case BeginBoth(id, head, parents, addr, ws, wsExpected, wsAddr) =>
        BothParentsNeverFail(head, parents);
        g := Written(g, addr, CommitParents(head, BothParents(head, parents)).value);
        edit := Some(CommitBoth(id, head, addr, ws, wsExpected, wsAddr));
      case BeginFastForward(id, head, next) =>
        var ok := CanFastForward(g, head, next);
        edit := if ok then Some(SetHead(id, head, next)) else None;
      case Begin(e) => edit := Some(e);
    }
    st' := st.(g := g, clients := st.clients[c := cl.(pc := if edit.Some? then Loading(edit.value) else Idle)]);
    assert Starts(st.g, step, edit, g);
  }
}
