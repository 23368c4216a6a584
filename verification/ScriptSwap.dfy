/** Putting a new scripts tree in place of the live one: the live tree is moved
    aside, the staged files are renamed in one by one, and a failure or a process
    death in the middle has to end with a tree that was whole. Removing a tree may
    stop half way, and the source goes on as if it had not. */
module ScriptSwap {
  import opened Text

  /** Path components below a tree's root; [] is the root directory itself. */
  type Rel = seq<string>

  datatype Node = Dir | File(content: string)

  /** A directory tree on disk; a tree that does not exist is empty. */
  type Tree = map<Rel, Node>

  datatype Applied = Applied(current: string, content: string, installed: seq<(string, string)>)

  /** applied-state.json. */
  datatype Saved = Missing | Garbled | Holds(applied: Applied)

  /** How the last apply or boot ended. */
  datatype Outcome =
    | Booted
    | Refused       // the live tree could not be moved aside
    | RolledBack    // a promote failed and was undone
    | Stuck         // a promote failed, and so did putting the old tree back
    | Finished
    | Unsaved       // everything is in place, but writing applied-state.json failed

  datatype Phase =
    | Ready(last: Outcome)
    | Clearing(begun: bool)     // removing a scripts.old left over by an earlier failure
    | Cleared                   // about to move the live tree aside
    | Promoting                 // moving staged files in
    | Undoing                   // a promote failed: removing what it moved
    | Returning                 // about to move the old tree back
    | Sweeping(begun: bool)     // promote finished: removing scripts.old
    | Discarding                // removing the staging directory
    | Recorded                  // fields assigned, state not saved yet
    | Saving                    // applied-state.json opened and truncated
    | Recovering                // boot found a scripts.old: removing scripts
    | Restoring                 // about to move scripts.old back

  /** What was true when the apply began, or what a boot set out to restore; whether since
      then an error was met that the source ignores; and whether what was saved got lost. */
  datatype Job = Job(
    before: Tree, stale: Tree, goal: Tree, applied: Applied,
    memory: Applied, saved: Saved, ignored: bool, lost: bool)

  datatype State = State(
    phase: Phase,
    scripts: Tree, aside: Tree, staged: Tree,   // scripts, scripts.old, staging/scripts
    memory: Applied,                            // current_hash_, content_hash_, installed_
    saved: Saved,                               // applied-state.json
    job: Job)

  /** One system call or assignment of the agent, its death and restart, or a new life of the
      sync thread in the same process. */
  datatype Move =
    | Begin(staged: Tree, applied: Applied)
    | Unlink(rel: Rel)
    | MakeDir(rel: Rel)
    | Rename(rel: Rel)
    | Go          // the statement at hand is done
    | GiveUp      // an error nobody looks at: remove_all stops, or closing the file loses it
    | Throw
    | Die
    | Rerun

  const ABSENT: Tree := map[]
  const BARE: Tree := map[[] := Dir]
  const NOTHING := Applied("", "", [])

  predicate Exists(t: Tree) {
    [] in t
  }

  predicate FileIn(t: Tree, r: Rel) {
    r in t && t[r].File?
  }

  predicate DirIn(t: Tree, r: Rel) {
    r in t && t[r].Dir?
  }

  /** A directory can be renamed onto nothing, or onto an empty directory. */
  predicate Vacant(t: Tree) {
    t.Keys <= {[]}
  }

  /** remove_all takes a directory only when nothing is left below it. */
  predicate Leaf(t: Tree, r: Rel) {
    r in t && forall q :: q in t && r <= q ==> q == r
  }

  function Parent(r: Rel): Rel
    requires r != []
  {
    r[..|r| - 1]
  }

  predicate CanMakeDir(s: State, r: Rel) {
    && r !in s.scripts && (r == [] || DirIn(s.scripts, Parent(r)))
    && exists f :: f in s.staged && FileIn(s.staged, f) && r < f
  }

  predicate CanRename(s: State, f: Rel) {
    && f != [] && FileIn(s.staged, f) && DirIn(s.scripts, Parent(f))
    && (f in s.scripts ==> s.scripts[f].File?)
  }

  predicate NoFiles(t: Tree) {
    forall r :: r in t ==> t[r].Dir?
  }

  /** load_applied_state: the hashes are replaced, the bundles are added to the ones there. */
  function Reload(memory: Applied, saved: Saved): Applied {
    match saved
    case Missing => memory
    case Garbled => NOTHING
    case Holds(a) => Applied(a.current, a.content, memory.installed + a.installed)
  }

  function Load(saved: Saved): Applied {
    Reload(NOTHING, saved)
  }

  function Forget(a: Applied): Applied {
    a.(current := "", content := "")
  }

  /** What the next boot will make the live tree. */
  function Restored(s: State): Tree {
    if Exists(s.aside) then s.aside else s.scripts
  }

  /** The sync starts with what `memory` holds: it loads its state and looks for scripts.old. */
  function Started(s: State, memory: Applied): State {
    s.(phase := if Exists(s.aside) then Recovering else Ready(Booted),
       memory := Reload(memory, s.saved), job := s.job.(before := Restored(s), ignored := false, lost := false))
  }

  /** The process is gone, and the next one starts from nothing. */
  function Restart(s: State): State {
    Started(s, NOTHING)
  }

  function Unlinked(s: State, r: Rel): State {
    match s.phase
    case Clearing(_) => if Leaf(s.aside, r) then s.(phase := Clearing(true), aside := s.aside - {r}) else s
    case Undoing => if Leaf(s.scripts, r) then s.(scripts := s.scripts - {r}) else s
    case Sweeping(_) => if Leaf(s.aside, r) then s.(phase := Sweeping(true), aside := s.aside - {r}) else s
    case Discarding => if Leaf(s.staged, r) then s.(staged := s.staged - {r}) else s
    case Recovering => if Leaf(s.scripts, r) then s.(scripts := s.scripts - {r}) else s
    case _ => s
  }

  /** The next statement, once the current one has done what it is for. */
  function Advanced(s: State): State {
    match s.phase
    case Clearing(_) => if s.aside == ABSENT then s.(phase := Cleared) else s
    case Cleared =>
      if !Exists(s.scripts) then s.(phase := Promoting)
      else if Vacant(s.aside) then s.(phase := Promoting, aside := s.scripts, scripts := ABSENT)
      else s
    case Promoting => if NoFiles(s.staged) then s.(phase := Sweeping(false)) else s
    case Undoing => if s.scripts == ABSENT then s.(phase := Returning) else s
    case Returning =>
      if !Exists(s.aside) then s.(phase := Ready(RolledBack))
      else if Vacant(s.scripts) then s.(phase := Ready(RolledBack), scripts := s.aside, aside := ABSENT)
      else s
    case Sweeping(_) => if s.aside == ABSENT then s.(phase := Discarding) else s
    case Discarding => if s.staged == ABSENT then s.(phase := Recorded, memory := s.job.applied) else s
    case Recorded => s.(phase := Saving, saved := Garbled)
    case Saving => s.(phase := Ready(Finished), saved := Holds(s.memory))
    case Recovering => if s.scripts == ABSENT then s.(phase := Restoring) else s
    case Restoring =>
      if Vacant(s.scripts)
      then s.(phase := Ready(Booted), scripts := s.aside, aside := ABSENT, memory := Forget(s.memory))
      else s
    case Ready(_) => s
  }

  function Noted(s: State): State {
    s.(job := s.job.(ignored := true))
  }

  /** remove_all returned early, or the file lost what was written when it was closed, and the
      next statement runs all the same. */
  function GaveUp(s: State): State {
    match s.phase
    case Clearing(_) => Noted(s).(phase := Cleared)
    case Undoing => Noted(s).(phase := Returning)
    case Sweeping(_) => Noted(s).(phase := Discarding)
    case Discarding => s.(phase := Recorded, memory := s.job.applied)
    case Recovering => Noted(s).(phase := Restoring)
    case Saving => s.(phase := Ready(Finished), job := s.job.(lost := true))
    case _ => s
  }

  /** An exception, or in recovery a rename whose error code is not looked at. */
  function Thrown(s: State): State {
    match s.phase
    case Cleared => s.(phase := Ready(Refused))
    case Promoting => s.(phase := Undoing)
    case Returning => s.(phase := Ready(Stuck))
    case Recorded => s.(phase := Ready(Unsaved))
    case Saving => s.(phase := Ready(Unsaved))
    case Restoring => Noted(s).(phase := Ready(Booted), memory := Forget(s.memory))
    case _ => s
  }

  function Begun(s: State, staged: Tree, applied: Applied): State {
    s.(phase := Clearing(false), staged := staged,
       job := Job(s.scripts, s.aside, staged, applied, s.memory, s.saved, false, false))
  }

  function Step(s: State, m: Move): State {
    match m
    case Begin(staged, applied) => if s.phase.Ready? then Begun(s, staged, applied) else s
    case Unlink(r) => Unlinked(s, r)
    case MakeDir(r) =>
      if s.phase.Promoting? && CanMakeDir(s, r) then s.(scripts := s.scripts[r := Dir]) else s
    case Rename(f) =>
      if s.phase.Promoting? && CanRename(s, f)
      then s.(scripts := s.scripts[f := s.staged[f]], staged := s.staged - {f})
      else s
    case Go => Advanced(s)
    case GiveUp => GaveUp(s)
    case Throw => Thrown(s)
    case Die => Restart(s)
    case Rerun => if s.phase.Ready? then Started(s, s.memory) else s
  }

  function Run(s: State, moves: seq<Move>): State
    decreases moves
  {
    if moves == [] then s else Run(Step(s, moves[0]), moves[1..])
  }

  // ---- what holds at every point of every run ------------------------------------------------

  ghost predicate Rooted(t: Tree) {
    t != ABSENT ==> Exists(t)
  }

  /** The files of `scripts` and `staged` together are those of `goal`, each in one place. */
  ghost predicate SplitUp(scripts: Tree, staged: Tree, goal: Tree) {
    && (forall r :: FileIn(goal, r) ==> FileIn(scripts, r) || FileIn(staged, r))
    && (forall r :: FileIn(scripts, r) ==> FileIn(goal, r) && scripts[r] == goal[r] && !FileIn(staged, r))
    && (forall r :: FileIn(staged, r) ==> FileIn(goal, r) && staged[r] == goal[r])
  }

  /** Every directory leads to a file of `goal`. */
  ghost predicate Needed(scripts: Tree, goal: Tree) {
    forall r :: r in scripts && scripts[r].Dir? ==> exists f :: FileIn(goal, f) && r < f
  }

  /** Exactly the files of `goal`, with the directories they need and nothing stale. */
  ghost predicate Exact(scripts: Tree, goal: Tree) {
    && (forall r :: FileIn(scripts, r) <==> FileIn(goal, r))
    && (forall r :: FileIn(goal, r) && r in scripts ==> scripts[r] == goal[r])
    && Needed(scripts, goal)
  }

  ghost predicate Untouched(memory: Applied, saved: Saved, j: Job) {
    memory == j.memory && saved == j.saved
  }

  ghost predicate SubTree(a: Tree, b: Tree) {
    forall r :: r in a ==> r in b && a[r] == b[r]
  }

  /** The tree there is to fall back on: the one moved aside, or failing that a stale one. */
  function Kept(j: Job): Tree {
    if j.before != ABSENT then j.before else j.stale
  }

  ghost predicate Fallback(aside: Tree, j: Job) {
    if j.before != ABSENT then aside == j.before
    else SubTree(aside, j.stale) && (!j.ignored ==> aside == ABSENT)
  }

  /** The new tree is live; of the old one there may be a rest. */
  ghost predicate InPlace(scripts: Tree, aside: Tree, j: Job) {
    Exact(scripts, j.goal) && SubTree(aside, Kept(j)) && (!j.ignored ==> aside == ABSENT)
  }

  ghost predicate PhaseInv(s: State) {
    match s.phase
    case Clearing(begun) =>
      && s.scripts == s.job.before && s.staged == s.job.goal && Untouched(s.memory, s.saved, s.job)
      && SubTree(s.aside, s.job.stale)
      && (if begun then exists r :: r in s.job.stale && r !in s.aside else s.aside == s.job.stale)
    case Cleared =>
      && s.scripts == s.job.before && s.staged == s.job.goal && Untouched(s.memory, s.saved, s.job)
      && SubTree(s.aside, s.job.stale) && (!s.job.ignored ==> s.aside == ABSENT)
    case Promoting =>
      && Fallback(s.aside, s.job) && Untouched(s.memory, s.saved, s.job)
      && SplitUp(s.scripts, s.staged, s.job.goal) && Needed(s.scripts, s.job.goal)
    case Undoing => Fallback(s.aside, s.job) && Untouched(s.memory, s.saved, s.job)
    case Returning =>
      Fallback(s.aside, s.job) && Untouched(s.memory, s.saved, s.job) && (!s.job.ignored ==> s.scripts == ABSENT)
    case Sweeping(begun) =>
      && Exact(s.scripts, s.job.goal) && Untouched(s.memory, s.saved, s.job) && SubTree(s.aside, Kept(s.job))
      && (s.job.before == ABSENT && !s.job.ignored ==> s.aside == ABSENT)
      && (if begun then exists r :: r in Kept(s.job) && r !in s.aside else Fallback(s.aside, s.job))
    case Discarding => InPlace(s.scripts, s.aside, s.job) && Untouched(s.memory, s.saved, s.job)
    case Recorded => InPlace(s.scripts, s.aside, s.job) && s.memory == s.job.applied && s.saved == s.job.saved
    case Saving => InPlace(s.scripts, s.aside, s.job) && s.memory == s.job.applied && s.saved == Garbled
    case Recovering => Exists(s.aside) && s.aside == s.job.before
    case Restoring => Exists(s.aside) && s.aside == s.job.before && (!s.job.ignored ==> s.scripts == ABSENT)
    case Ready(last) => ReadyInv(s, last)
  }

  ghost predicate ReadyInv(s: State, last: Outcome) {
    match last
    case Booted => Restored(s) == s.job.before && (!s.job.ignored ==> s.aside == ABSENT)
    case Refused =>
      && s.scripts == s.job.before && Untouched(s.memory, s.saved, s.job) && SubTree(s.aside, s.job.stale)
      && (!s.job.ignored ==> s.aside == ABSENT)
    case RolledBack =>
      && s.aside == ABSENT && Untouched(s.memory, s.saved, s.job)
      && (s.job.before != ABSENT || !s.job.ignored ==> s.scripts == s.job.before)
    case Stuck => Fallback(s.aside, s.job) && Untouched(s.memory, s.saved, s.job)
    case Finished =>
      && InPlace(s.scripts, s.aside, s.job) && s.memory == s.job.applied
      && s.saved == if s.job.lost then Garbled else Holds(s.job.applied)
    case Unsaved =>
      && InPlace(s.scripts, s.aside, s.job) && s.memory == s.job.applied
      && (s.saved == s.job.saved || s.saved == Garbled)
  }

  ghost predicate Inv(s: State) {
    && Rooted(s.scripts) && Rooted(s.aside) && Rooted(s.job.before) && Rooted(s.job.stale) && PhaseInv(s)
    && (s.job.lost ==> s.phase == Ready(Finished))
  }

  lemma LeafKeepsRoot(t: Tree, r: Rel)
    requires Rooted(t) && Leaf(t, r)
    ensures Rooted(t - {r}) && r in t
  {
    if t - {r} != ABSENT {
      var q :| q in t - {r};
      assert [] <= q;
    }
  }

  lemma SubTrees(a: Tree, b: Tree, r: Rel)
    ensures SubTree(b, b) && SubTree(ABSENT, b) && !Exists(ABSENT)
    ensures SubTree(a, b) ==> SubTree(a - {r}, b)
    ensures SubTree(a, b) && r in a ==> r in b
  {
  }

  lemma UnlinkKeepsInv(s: State, r: Rel)
    requires Inv(s)
    ensures Inv(Unlinked(s, r))
  {
    hide Leaf, Rooted, Exact, SplitUp, Needed, Exists, SubTree, Untouched, ReadyInv;
    if Leaf(s.aside, r) {
      LeafKeepsRoot(s.aside, r);
      SubTrees(s.aside, s.job.stale, r);
      SubTrees(s.aside, Kept(s.job), r);
    }
    if Leaf(s.scripts, r) { LeafKeepsRoot(s.scripts, r); }
  }

  lemma MakeDirKeepsInv(s: State, r: Rel)
    requires Inv(s) && s.phase.Promoting? && CanMakeDir(s, r)
    ensures Inv(Step(s, MakeDir(r)))
  {
    var f :| f in s.staged && FileIn(s.staged, f) && r < f;
    assert FileIn(s.job.goal, f);
  }

  lemma RenameKeepsInv(s: State, f: Rel)
    requires Inv(s) && s.phase.Promoting? && CanRename(s, f)
    ensures Inv(Step(s, Rename(f)))
  {
    var t := Step(s, Rename(f));
    assert forall r :: r != f ==>
      (FileIn(t.scripts, r) <==> FileIn(s.scripts, r)) && (FileIn(t.staged, r) <==> FileIn(s.staged, r));
  }

  lemma AllMoved(scripts: Tree, staged: Tree, goal: Tree)
    requires SplitUp(scripts, staged, goal) && Needed(scripts, goal) && NoFiles(staged)
    ensures Exact(scripts, goal)
  {
  }

  lemma NoneMoved(goal: Tree)
    ensures SplitUp(ABSENT, goal, goal) && Needed(ABSENT, goal)
  {
  }

  lemma AdvanceKeepsInv(s: State)
    requires Inv(s)
    ensures Inv(Advanced(s))
  {
    match s.phase
    case Promoting => SweepKeepsInv(s);
    case Undoing => UndoKeepsInv(s);
    case Returning => UndoKeepsInv(s);
    case Recovering => RecoverKeepsInv(s);
    case Restoring => RecoverKeepsInv(s);
    case Ready(_) =>
    case Clearing(_) => MoveAsideKeepsInv(s);
    case Cleared => MoveAsideKeepsInv(s);
    case _ => EndKeepsInv(s);
  }

  lemma MoveAsideKeepsInv(s: State)
    requires Inv(s) && (s.phase.Clearing? || s.phase.Cleared?)
    ensures Inv(Advanced(s))
  {
    hide Exact, SplitUp, Needed, Vacant, SubTree, Exists;
    NoneMoved(s.job.goal);
    SubTrees(s.aside, s.job.stale, []);
  }

  lemma SweepKeepsInv(s: State)
    requires Inv(s) && s.phase.Promoting?
    ensures Inv(Advanced(s))
  {
    hide Exact, SplitUp, Needed, NoFiles, SubTree, Exists;
    SubTrees(s.aside, Kept(s.job), []);
    if NoFiles(s.staged) {
      AllMoved(s.scripts, s.staged, s.job.goal);
    }
  }

  lemma UndoKeepsInv(s: State)
    requires Inv(s) && (s.phase.Undoing? || s.phase.Returning?)
    ensures Inv(Advanced(s))
  {
    hide Exact, SplitUp, Needed, Vacant, SubTree, Exists;
    SubTrees(s.aside, s.job.stale, []);
  }

  lemma RecoverKeepsInv(s: State)
    requires Inv(s) && (s.phase.Recovering? || s.phase.Restoring?)
    ensures Inv(Advanced(s))
  {
    hide Exact, SplitUp, Needed, Vacant, SubTree, Exists;
    SubTrees(s.aside, s.job.stale, []);
  }

  lemma EndKeepsInv(s: State)
    requires Inv(s) && (s.phase.Sweeping? || s.phase.Discarding? || s.phase.Recorded? || s.phase.Saving?)
    ensures Inv(Advanced(s))
  {
    hide Exact, SplitUp, Needed, SubTree, Exists;
  }

  lemma GiveUpKeepsInv(s: State)
    requires Inv(s)
    ensures Inv(GaveUp(s))
  {
    match s.phase
    case Sweeping(_) => RestKeepsInv(s);
    case Discarding => RestKeepsInv(s);
    case Clearing(_) => HalfWayKeepsInv(s);
    case Saving => EndKeepsInv(s);
    case Undoing => HalfWayKeepsInv(s);
    case Recovering => HalfWayKeepsInv(s);
    case _ =>
  }

  lemma RestKeepsInv(s: State)
    requires Inv(s) && (s.phase.Sweeping? || s.phase.Discarding?)
    ensures Inv(GaveUp(s))
  {
    hide Exact, SplitUp, Needed, SubTree, Exists, Rooted, ReadyInv;
  }

  lemma HalfWayKeepsInv(s: State)
    requires Inv(s) && (s.phase.Clearing? || s.phase.Undoing? || s.phase.Recovering?)
    ensures Inv(GaveUp(s))
  {
    hide Exact, SplitUp, Needed, SubTree, Exists, Rooted, ReadyInv, InPlace;
  }

  lemma ThrowKeepsInv(s: State)
    requires Inv(s)
    ensures Inv(Thrown(s))
  {
    match s.phase
    case Restoring => LateThrowKeepsInv(s);
    case Recorded => LateThrowKeepsInv(s);
    case Saving => LateThrowKeepsInv(s);
    case _ => EarlyThrowKeepsInv(s);
  }

  lemma LateThrowKeepsInv(s: State)
    requires Inv(s) && (s.phase.Restoring? || s.phase.Recorded? || s.phase.Saving?)
    ensures Inv(Thrown(s))
  {
    hide Exact, SplitUp, Needed, SubTree, Exists, Rooted, InPlace, Untouched, Fallback;
  }

  lemma EarlyThrowKeepsInv(s: State)
    requires Inv(s) && !s.phase.Restoring? && !s.phase.Recorded? && !s.phase.Saving?
    ensures Inv(Thrown(s))
  {
    hide Exact, SplitUp, Needed, SubTree, Exists, Rooted, InPlace, Untouched, Fallback;
  }

  lemma StepKeepsInv(s: State, m: Move)
    requires Inv(s)
    ensures Inv(Step(s, m))
  {
    hide Exact, SplitUp, Needed, Leaf, CanMakeDir, CanRename, NoFiles, SubTree;
    match m
    case Begin(_, _) => SubTrees(s.aside, s.aside, []);
    case Unlink(r) => UnlinkKeepsInv(s, r);
    case MakeDir(r) => if s.phase.Promoting? && CanMakeDir(s, r) { MakeDirKeepsInv(s, r); }
    case Rename(f) => if s.phase.Promoting? && CanRename(s, f) { RenameKeepsInv(s, f); }
    case Go => AdvanceKeepsInv(s);
    case GiveUp => GiveUpKeepsInv(s);
    case Throw => ThrowKeepsInv(s);
    case Die =>
    case Rerun =>
  }

  /** Applies, failures, ignored errors, deaths and restarts in any order and any number keep
      the invariant. */
  lemma {:induction false} RunKeepsInv(s: State, moves: seq<Move>)
    requires Inv(s)
    ensures Inv(Run(s, moves))
    decreases |moves|
  {
    hide Inv, Step;
    if moves == [] {
    } else {
      StepKeepsInv(s, moves[0]);
      RunKeepsInv(Step(s, moves[0]), moves[1..]);
    }
  }

  // ---- failure --------------------------------------------------------------------------------

  /** What a failed apply leaves: until the fields are assigned the hashes, the bundle list and
      the saved state are those of before, and so is the tree whenever there was one and it could
      be put back; where it could not, it is whole in scripts.old. From then on the new tree is
      live and the new fields stand, whatever is reported. */
  lemma {:induction false} FailureLeaves(s: State, moves: seq<Move>)
    requires Inv(s)
    ensures var t := Run(s, moves); var j := t.job;
            && (t.phase == Ready(Refused) ==> t.scripts == j.before && t.memory == j.memory && t.saved == j.saved)
            && (t.phase == Ready(RolledBack) ==>
                  && t.memory == j.memory && t.saved == j.saved && !Exists(t.aside)
                  && (j.before != ABSENT || !j.ignored ==> t.scripts == j.before))
            && (t.phase == Ready(Stuck) ==>
                  t.memory == j.memory && t.saved == j.saved && (j.before != ABSENT ==> t.aside == j.before))
            && (t.phase == Ready(Unsaved) ==>
                  Exact(t.scripts, j.goal) && t.memory == j.applied && (t.saved == j.saved || t.saved == Garbled))
  {
    hide Run, SplitUp, Needed, SubTree, Exact;
    RunKeepsInv(s, moves);
  }

  /** A finished apply left exactly the staged files, nothing of the tree before; the state is
      saved, unless closing the file lost it; and there is no scripts.old, unless an error was
      ignored. */
  lemma {:induction false} FinishedIsExact(s: State, moves: seq<Move>)
    requires Inv(s)
    ensures var t := Run(s, moves);
            t.phase == Ready(Finished) ==>
              && Exact(t.scripts, t.job.goal) && t.memory == t.job.applied
              && t.saved == (if t.job.lost then Garbled else Holds(t.job.applied))
              && (!t.job.ignored ==> !Exists(t.aside))
  {
    hide Run, SplitUp, Needed, SubTree, Exact;
    RunKeepsInv(s, moves);
  }

  // ---- death and restart --------------------------------------------------------------------

  /** The state a boot reaches once its recovery, if there is one, is through. */
  function Boot(s: State): State {
    var t := Restart(s);
    if !t.phase.Recovering? then t
    else t.(phase := Ready(Booted), scripts := t.aside, aside := ABSENT, memory := Forget(t.memory))
  }

  /** A death while files are being moved, or moved back: with a tree set aside the
      next boot restores exactly that tree and forgets both hashes; without one it
      leaves whatever had been moved, or brings back a stale tree that could not be removed. */
  lemma {:induction false} DeathDuringPromote(s: State, moves: seq<Move>)
    requires Inv(s)
    ensures var t := Run(s, moves); var j := t.job;
            t.phase.Promoting? || t.phase.Undoing? || t.phase.Returning? || t.phase == Ready(Stuck) ==>
              && (j.before != ABSENT ==>
                    Boot(t).scripts == j.before && Boot(t).aside == ABSENT && Boot(t).memory == Forget(Load(t.saved)))
              && (j.before == ABSENT ==> Boot(t).scripts == if Exists(t.aside) then t.aside else t.scripts)
              && (Boot(t).scripts == j.before <==> j.before != ABSENT || (t.scripts == ABSENT && t.aside == ABSENT))
  {
    hide Run, SplitUp, Needed, SubTree, Exact;
    RunKeepsInv(s, moves);
  }

  /** A death while scripts.old is being removed after a finished promote: a boot that
      still finds it goes back to it, and gets the old tree if and only if not one
      node of it was gone. */
  lemma {:induction false} DeathDuringSweep(s: State, moves: seq<Move>)
    requires Inv(s)
    ensures var t := Run(s, moves);
            t.phase.Sweeping? ==>
              && (t.aside == ABSENT ==> Exact(Boot(t).scripts, t.job.goal) && Boot(t).memory == Load(t.job.saved))
              && (t.aside != ABSENT ==> Boot(t).scripts == t.aside && SubTree(t.aside, Kept(t.job)))
              && (t.aside != ABSENT && t.job.before != ABSENT ==>
                    (Boot(t).scripts == t.job.before <==> !t.phase.begun))
  {
    hide Run, Exact, SplitUp, Needed;
    RunKeepsInv(s, moves);
  }

  /** Once the sweep is over, a restart keeps the new tree if and only if the sweep removed
      everything (or what it left happens to be the same tree); otherwise the rest of the old
      tree takes its place, even long after a finished apply. */
  lemma {:induction false} RestartAfterSweep(s: State, moves: seq<Move>)
    requires Inv(s)
    ensures var t := Run(s, moves);
            t.phase in {Discarding, Recorded, Saving, Ready(Finished), Ready(Unsaved)} ==>
              && Exact(t.scripts, t.job.goal)
              && (t.aside != ABSENT ==> Boot(t).scripts == t.aside && SubTree(t.aside, Kept(t.job)))
              && (Boot(t).scripts == t.scripts <==> t.aside == ABSENT || t.aside == t.scripts)
  {
    hide Run, Exact, SplitUp, Needed, SubTree;
    RunKeepsInv(s, moves);
  }

  /** A death while a leftover scripts.old is being removed, or a restart after an apply that got
      no further: the live tree is still that of before, but a boot goes back to whatever is left
      of scripts.old. The live tree stays if and only if nothing is left, or just that tree; the
      leftover tree comes back whole if and only if its removal has not begun. */
  lemma {:induction false} DeathDuringClearing(s: State, moves: seq<Move>)
    requires Inv(s)
    ensures var t := Run(s, moves); var j := t.job;
            t.phase.Clearing? || t.phase.Cleared? || t.phase == Ready(Refused) ==>
              && t.scripts == j.before && SubTree(t.aside, j.stale)
              && (t.aside != ABSENT ==> Boot(t).scripts == t.aside)
              && (Boot(t).scripts == j.before <==> t.aside == ABSENT || t.aside == j.before)
              && (t.phase.Clearing? && t.aside != ABSENT ==> (Boot(t).scripts == j.stale <==> !t.phase.begun))
  {
    hide Run, Exact, SplitUp, Needed;
    RunKeepsInv(s, moves);
  }

  ghost predicate OnlyUnlinks(moves: seq<Move>) {
    forall i :: 0 <= i < |moves| ==> moves[i].Unlink?
  }

  lemma {:induction false} ClearingStays(s: State, moves: seq<Move>)
    requires s.phase.Clearing? && OnlyUnlinks(moves)
    ensures var t := Run(s, moves); t.phase.Clearing? && t.job == s.job && t.scripts == s.scripts
    decreases |moves|
  {
    hide Leaf;
    if moves == [] {
    } else {
      ClearingStays(Step(s, moves[0]), moves[1..]);
    }
  }

  /** The next apply after one that got stuck: the tree from before the stuck one, which is whole
      in scripts.old and nowhere else, survives a death if and only if the new apply has not yet
      begun to remove it (or it had been live all along). */
  lemma {:induction false} RetryAfterStuck(s: State, again: Tree, applied: Applied, moves: seq<Move>)
    requires Inv(s) && s.phase == Ready(Stuck) && s.job.before != ABSENT && OnlyUnlinks(moves)
    ensures var t := Run(s, [Begin(again, applied)] + moves);
            && t.phase.Clearing?
            && (Boot(t).scripts == s.job.before <==>
                !t.phase.begun || (t.aside == ABSENT && s.scripts == s.job.before))
  {
    hide Run, Exact, SplitUp, Needed, SubTree;
    var b := Step(s, Begin(again, applied));
    RunConcat(s, [Begin(again, applied)], moves);
    RunThree(s, Begin(again, applied), Go, Go);
    ClearingStays(b, moves);
    StepKeepsInv(s, Begin(again, applied));
    RunKeepsInv(b, moves);
    DeathDuringClearing(b, moves);
  }

  /** What the first boot after a finished apply knows: the applied state, if scripts.old is gone
      and the file was not lost when it was closed. Otherwise both hashes are empty and the agent
      asks for everything again, with the right tree live or not. */
  lemma {:induction false} BootAfterFinish(s: State, moves: seq<Move>)
    requires Inv(s)
    ensures var t := Run(s, moves);
            t.phase == Ready(Finished) ==>
              && (!Exists(t.aside) && !t.job.lost ==> Boot(t).memory == t.job.applied && Boot(t).scripts == t.scripts)
              && (Exists(t.aside) || t.job.lost ==> Boot(t).memory.current == "" && Boot(t).memory.content == "")
  {
    hide Run, Exact, SplitUp, Needed, SubTree;
    RunKeepsInv(s, moves);
    var t := Run(s, moves);
    assert [] + t.job.applied.installed == t.job.applied.installed;
  }

  /** A new life of the sync thread in the same process loads the saved bundles on top of the ones
      it has: the list stays as it is if and only if nothing is saved, or no bundle is, or the file
      is garbled and there was none to lose. */
  lemma RerunBundles(s: State)
    requires s.phase.Ready?
    ensures var t := Step(s, Rerun);
            t.memory.installed == s.memory.installed <==>
            match s.saved
            case Missing => true
            case Garbled => s.memory.installed == []
            case Holds(a) => a.installed == []
  {
    match s.saved
    case Missing =>
    case Garbled =>
    case Holds(a) => assert |s.memory.installed + a.installed| == |s.memory.installed| + |a.installed|;
  }

  ghost predicate NoBegin(moves: seq<Move>) {
    forall i :: 0 <= i < |moves| ==> !moves[i].Begin?
  }

  ghost predicate InRecovery(s: State) {
    s.phase.Recovering? || s.phase.Restoring? || s.phase == Ready(Booted)
  }

  /** Recovery cut short by any number of further deaths, and with any errors it ignores,
      never loses the tree it set out to restore; without such an error it is live in the end. */
  lemma {:induction false} RecoveryRestartable(s: State, moves: seq<Move>)
    requires Inv(s) && NoBegin(moves) && InRecovery(s)
    ensures var t := Run(s, moves);
            && InRecovery(t) && Restored(t) == s.job.before
            && (t.phase.Ready? && !t.job.ignored ==> t.scripts == s.job.before)
    decreases |moves|
  {
    hide Exact, SplitUp, Needed, SubTree, Leaf, CanMakeDir, CanRename, NoFiles, Vacant;
    if moves == [] {
    } else {
      StepKeepsInv(s, moves[0]);
      RecoveryStep(s, moves[0]);
      RecoveryRestartable(Step(s, moves[0]), moves[1..]);
    }
  }

  lemma RecoveryStep(s: State, m: Move)
    requires Inv(s) && InRecovery(s) && !m.Begin?
    ensures InRecovery(Step(s, m)) && Step(s, m).job.before == s.job.before
  {
    hide Exact, SplitUp, Needed, SubTree, Leaf, CanMakeDir, CanRename, NoFiles, Vacant;
  }

  /** A boot forces a re-sync if and only if it found scripts.old itself, or nothing was
      saved to begin with. */
  lemma BootForcesResync(s: State)
    ensures var m := Boot(s).memory;
            (m.current == "" && m.content == "") <==>
            (Exists(s.aside) || (Load(s.saved).current == "" && Load(s.saved).content == ""))
  {
  }

  /** The hashes are dropped in memory only: one more restart brings back the saved ones. */
  lemma SecondBootRemembers(s: State)
    ensures Boot(Boot(s)).memory == Load(s.saved)
  {
  }

  // ---- whole histories -----------------------------------------------------------------------------

  /** From here on the apply stands: its files are live and, unless an error was ignored, no
      scripts.old is left that a boot could go back to. */
  predicate Landed(s: State) {
    || (s.phase.Sweeping? && s.aside == ABSENT)
    || s.phase in {Discarding, Recorded, Saving, Ready(Finished), Ready(Unsaved)}
  }

  /** Where a death costs files: while the sweep has a half-removed tree, or in a promote
      that has no tree to fall back on. */
  predicate Danger(s: State) {
    || (s.phase == Sweeping(true) && s.aside != ABSENT)
    || ((s.phase.Promoting? || s.phase.Undoing? || s.phase.Returning?) && s.job.before == ABSENT && s.scripts != ABSENT)
  }

  /** A death at a dangerous spot; a removal that stops half way; the old tree not moved back. */
  predicate Mishap(s: State, m: Move) {
    || (m.Die? && Danger(s))
    || (m.GiveUp? && (s.phase.Clearing? || s.phase.Undoing? || s.phase.Sweeping? || s.phase.Recovering?))
    || (m.Throw? && (s.phase.Returning? || s.phase.Restoring?))
  }

  predicate NoMishap(s: State, moves: seq<Move>)
    decreases moves
  {
    moves == [] || (!Mishap(s, moves[0]) && NoMishap(Step(s, moves[0]), moves[1..]))
  }

  /** The staged tree of the last apply that landed. */
  function LandedAfter(s: State, last: Option<Tree>, m: Move): Option<Tree> {
    if Landed(Step(s, m)) then Some(Step(s, m).job.goal) else last
  }

  function LastLanded(s: State, last: Option<Tree>, moves: seq<Move>): Option<Tree>
    decreases moves
  {
    if moves == [] then last else LastLanded(Step(s, moves[0]), LandedAfter(s, last, moves[0]), moves[1..])
  }

  /** `t` is exactly what the last apply that landed staged, or the tree it all started with. */
  ghost predicate Current(t: Tree, base: Tree, last: Option<Tree>) {
    if last.Some? then Exact(t, last.value) else t == base
  }

  ghost predicate CurrentInv(s: State, base: Tree, last: Option<Tree>) {
    && !s.job.ignored && s.phase != Ready(Stuck)
    && (s.phase.Clearing? ==> s.aside == ABSENT)
    && (if Landed(s) then last == Some(s.job.goal) else Current(s.job.before, base, last))
  }

  lemma LiveIsCurrent(s: State, base: Tree, last: Option<Tree>)
    requires Inv(s) && CurrentInv(s, base, last) && s.phase.Ready?
    ensures Current(s.scripts, base, last) && s.aside == ABSENT
  {
    hide Exact, SplitUp, Needed, SubTree;
  }

  lemma CurrentAfterDeath(s: State, base: Tree, last: Option<Tree>)
    requires Inv(s) && CurrentInv(s, base, last) && !Danger(s)
    ensures Current(Restored(s), base, last)
  {
    hide Exact, SplitUp, Needed, SubTree;
  }

  /** What a step other than a begin or a restart keeps. */
  ghost predicate Follows(s: State, t: State) {
    && t.job.before == s.job.before && t.job.goal == s.job.goal && t.job.ignored == s.job.ignored
    && (Landed(s) ==> Landed(t))
    && (t.phase.Clearing? ==> s.phase.Clearing? && (s.aside == ABSENT ==> t.aside == ABSENT))
    && (t.phase == Ready(Stuck) ==> s.phase == Ready(Stuck))
  }

  lemma UnlinkFollows(s: State, r: Rel)
    ensures Follows(s, Unlinked(s, r))
  {
    hide Leaf;
    assert ABSENT - {r} == ABSENT;
  }

  lemma AdvanceFollows(s: State)
    ensures Follows(s, Advanced(s))
  {
    hide NoFiles, Vacant, Exists;
  }

  lemma FailFollows(s: State)
    ensures !Mishap(s, GiveUp) ==> Follows(s, GaveUp(s))
    ensures !Mishap(s, Throw) ==> Follows(s, Thrown(s))
  {
    hide Danger;
  }

  lemma StepFollows(s: State, m: Move)
    requires !Mishap(s, m) && !m.Die? && !((m.Begin? || m.Rerun?) && s.phase.Ready?)
    ensures Follows(s, Step(s, m))
  {
    hide Leaf, CanMakeDir, CanRename, Mishap, Follows, Advanced, Unlinked, GaveUp, Thrown;
    match m
    case Unlink(r) => UnlinkFollows(s, r);
    case Go => AdvanceFollows(s);
    case GiveUp => FailFollows(s);
    case Throw => FailFollows(s);
    case _ => MoveFollows(s, m);
  }

  lemma MoveFollows(s: State, m: Move)
    requires m.MakeDir? || m.Rename? || ((m.Begin? || m.Rerun?) && !s.phase.Ready?)
    ensures Follows(s, Step(s, m))
  {
    hide CanMakeDir, CanRename;
  }

  lemma StepKeepsCurrent(s: State, m: Move, base: Tree, last: Option<Tree>)
    requires Inv(s) && CurrentInv(s, base, last) && !Mishap(s, m)
    ensures CurrentInv(Step(s, m), base, LandedAfter(s, last, m))
  {
    hide Current, Inv, Landed, Advanced, Unlinked, GaveUp, Thrown, CanMakeDir, CanRename, Danger, Exists;
    if m.Begin? && s.phase.Ready? {
      LiveIsCurrent(s, base, last);
      NotLanded(Step(s, m));
    } else if m.Die? || (m.Rerun? && s.phase.Ready?) {
      if m.Rerun? { ReadyIsSafe(s); }
      CurrentAfterDeath(s, base, last);
      NotLanded(Step(s, m));
    } else {
      StepFollows(s, m);
    }
  }

  lemma ReadyIsSafe(s: State)
    requires s.phase.Ready?
    ensures !Danger(s)
  {
  }

  lemma NotLanded(s: State)
    requires s.phase.Clearing? || s.phase.Recovering? || s.phase == Ready(Booted)
    ensures !Landed(s)
  {
  }

  /** Over every history of applies, failures, deaths and restarts without such a mishap, the
      live tree between applies is exactly that of the last apply that landed. */
  lemma {:induction false} HistoryKeepsCurrent(s: State, moves: seq<Move>, base: Tree, last: Option<Tree>)
    requires Inv(s) && CurrentInv(s, base, last) && NoMishap(s, moves)
    ensures var t := Run(s, moves);
            && CurrentInv(t, base, LastLanded(s, last, moves))
            && (t.phase.Ready? ==> Current(t.scripts, base, LastLanded(s, last, moves)) && !Exists(t.aside))
    decreases |moves|
  {
    hide Inv, CurrentInv, Current, Step, Mishap, LandedAfter;
    if moves == [] {
      if s.phase.Ready? { LiveIsCurrent(s, base, last); }
    } else {
      StepKeepsInv(s, moves[0]);
      StepKeepsCurrent(s, moves[0], base, last);
      HistoryKeepsCurrent(Step(s, moves[0]), moves[1..], base, LandedAfter(s, last, moves[0]));
    }
  }

  /** A process that starts on a disk with nothing to recover. */
  function Fresh(scripts: Tree, saved: Saved): State {
    State(Ready(Booted), scripts, ABSENT, ABSENT, Load(saved), saved,
          Job(scripts, ABSENT, ABSENT, NOTHING, NOTHING, Missing, false, false))
  }

  lemma FreshInv(scripts: Tree, saved: Saved)
    requires Rooted(scripts)
    ensures Inv(Fresh(scripts, saved)) && CurrentInv(Fresh(scripts, saved), scripts, None)
  {
  }

  // ---- runs that end badly ------------------------------------------------------------------------------

  lemma RunConcat(s: State, a: seq<Move>, b: seq<Move>)
    ensures Run(s, a + b) == Run(Run(s, a), b)
    decreases |a|
  {
    hide Step;
    if a == [] {
      assert a + b == b;
    } else {
      assert (a + b)[1..] == a[1..] + b;
      RunConcat(Step(s, a[0]), a[1..], b);
    }
  }

  lemma RunThree(s: State, a: Move, b: Move, c: Move)
    ensures Run(s, [a, b, c]) == Step(Step(Step(s, a), b), c)
    ensures Run(s, [a, b]) == Step(Step(s, a), b) && Run(s, [a]) == Step(s, a) && Run(s, []) == s
  {
    hide Step;
    assert [a, b, c][1..] == [b, c] && [b, c][1..] == [c] && [c][1..] == [];
    assert [a, b][1..] == [b] && [b][1..] == [] && [a][1..] == [];
    assert Run(Step(s, a), [b]) == Step(Step(s, a), b);
    assert Run(Step(s, a), [b, c]) == Run(Step(Step(s, a), b), [c]);
    assert Run(Step(Step(s, a), b), [c]) == Step(Step(Step(s, a), b), c);
  }

  /** A tree of one file. */
  function One(name: string, content: string): Tree {
    map[[] := Dir, [name] := File(content)]
  }

  /** The moves that bring a first file in. */
  function FirstIn(staged: Tree, applied: Applied, name: string): seq<Move> {
    [Begin(staged, applied), Go, Go] + [MakeDir([]), Rename([name])]
  }

  lemma {:induction false} FirstFile(s: State, staged: Tree, applied: Applied, name: string)
    requires s.phase.Ready? && Rooted(s.scripts) && s.aside == ABSENT && FileIn(staged, [name])
    ensures Run(s, FirstIn(staged, applied, name)) ==
            State(Promoting, One(name, staged[[name]].content), s.scripts, staged - {[name]}, s.memory, s.saved,
                  Job(s.scripts, ABSENT, staged, applied, s.memory, s.saved, false, false))
  {
    var j := Job(s.scripts, ABSENT, staged, applied, s.memory, s.saved, false, false);
    var promoting := State(Promoting, ABSENT, s.scripts, staged, s.memory, s.saved, j);
    RunConcat(s, [Begin(staged, applied), Go, Go], [MakeDir([]), Rename([name])]);
    RunThree(s, Begin(staged, applied), Go, Go);
    assert Step(Step(Step(s, Begin(staged, applied)), Go), Go) == promoting;
    RunThree(promoting, MakeDir([]), Rename([name]), Go);
    MovesIn(promoting, name);
  }

  lemma MovesIn(s: State, name: string)
    requires s.phase.Promoting? && s.scripts == ABSENT && FileIn(s.staged, [name])
    ensures Step(Step(s, MakeDir([])), Rename([name])) ==
            s.(scripts := One(name, s.staged[[name]].content), staged := s.staged - {[name]})
  {
    assert [] < [name] && Parent([name]) == [];
    assert CanMakeDir(s, []);
    var t := Step(s, MakeDir([]));
    assert t.scripts == BARE;
    assert CanRename(t, [name]);
    assert t.scripts[[name] := s.staged[[name]]] == One(name, s.staged[[name]].content);
  }

  /** Taking down a tree of one file. */
  lemma OneGone(name: string, content: string)
    ensures Leaf(One(name, content), [name]) && One(name, content) - {[name]} == BARE
    ensures Leaf(BARE, []) && BARE - {[]} == ABSENT
  {
  }

  /** A death in the first promote ever: one of two staged scripts is live, the other is not,
      and the boot sees nothing to recover. */
  lemma FirstPromoteDeathLeavesAPart(applied: Applied)
    ensures var staged: Tree := map[[] := Dir, ["a"] := File("x"), ["b"] := File("y")];
            var t := Run(Fresh(ABSENT, Missing), FirstIn(staged, applied, "a") + [Die]);
            t.phase == Ready(Booted) && FileIn(t.scripts, ["a"]) && !FileIn(t.scripts, ["b"])
  {
    var staged: Tree := map[[] := Dir, ["a"] := File("x"), ["b"] := File("y")];
    var s := Fresh(ABSENT, Missing);
    FirstFile(s, staged, applied, "a");
    RunConcat(s, FirstIn(staged, applied, "a"), [Die]);
    RunThree(Run(s, FirstIn(staged, applied, "a")), Die, Go, Go);
  }

  /** From a live tree with script a, an apply of script b up to the end of its promote. */
  function Promoted(applied: Applied, saved: Saved): State {
    var live, next := One("a", "x"), One("b", "y");
    State(Sweeping(false), next, live, BARE, Load(saved), saved,
          Job(live, ABSENT, next, applied, Load(saved), saved, false, false))
  }

  function PromoteMoves(applied: Applied): seq<Move> {
    FirstIn(One("b", "y"), applied, "b") + [Go]
  }

  lemma {:induction false} PromotedIsReached(applied: Applied, saved: Saved)
    ensures Run(Fresh(One("a", "x"), saved), PromoteMoves(applied)) == Promoted(applied, saved)
  {
    var s, next := Fresh(One("a", "x"), saved), One("b", "y");
    FirstFile(s, next, applied, "b");
    OneGone("b", "y");
    var t := Run(s, FirstIn(next, applied, "b"));
    RunConcat(s, FirstIn(next, applied, "b"), [Go]);
    RunThree(t, Go, Go, Go);
    assert NoFiles(t.staged);
  }

  /** A death that loses a script: the sweep removed it from the old tree and stopped before
      the directory, and the boot restores what is left. */
  lemma {:induction false} SweepDeathLosesAFile(applied: Applied, saved: Saved)
    ensures var moves := PromoteMoves(applied) + [Unlink(["a"]), Die];
            var t := Run(Fresh(One("a", "x"), saved), moves);
            t.phase.Recovering? && Boot(t).scripts == BARE
  {
    var s := Fresh(One("a", "x"), saved);
    PromotedIsReached(applied, saved);
    RunConcat(s, PromoteMoves(applied), [Unlink(["a"]), Die]);
    RunThree(Promoted(applied, saved), Unlink(["a"]), Die, Go);
    OneGone("a", "x");
  }

  /** An apply that finished and is undone by the next ordinary restart: the
      sweep met an error, nobody looked, and the boot takes scripts.old for an interrupted apply. */
  lemma {:induction false} FinishedApplyUndone(applied: Applied, saved: Saved)
    ensures var moves := PromoteMoves(applied) + ([GiveUp, Unlink([]), Go] + [Go, Go]);
            var t := Run(Fresh(One("a", "x"), saved), moves);
            && t.phase == Ready(Finished) && t.memory == applied
            && t.scripts == One("b", "y") && Boot(t).scripts == One("a", "x")
  {
    hide Step, Run;
    var s, p := Fresh(One("a", "x"), saved), Promoted(applied, saved);
    PromotedIsReached(applied, saved);
    RunConcat(s, PromoteMoves(applied), [GiveUp, Unlink([]), Go] + [Go, Go]);
    RunConcat(p, [GiveUp, Unlink([]), Go], [Go, Go]);
    RunThree(p, GiveUp, Unlink([]), Go);
    SweepGivesUp(applied, saved);
    RunThree(Run(p, [GiveUp, Unlink([]), Go]), Go, Go, Go);
  }

  lemma SweepGivesUp(applied: Applied, saved: Saved)
    ensures var p := Promoted(applied, saved);
            var r := Noted(p).(phase := Recorded, staged := ABSENT, memory := applied);
            && Step(Step(Step(p, GiveUp), Unlink([])), Go) == r
            && Step(Step(r, Go), Go) == r.(phase := Ready(Finished), saved := Holds(applied))
  {
    var p := Promoted(applied, saved);
    OneGone("b", "y");
    assert Step(p, GiveUp) == Noted(p).(phase := Discarding);
    BareDiscarded(Noted(p).(phase := Discarding));
  }

  lemma BareDiscarded(s: State)
    requires s.phase.Discarding? && s.staged == BARE
    ensures Step(Step(s, Unlink([])), Go) == s.(phase := Recorded, staged := ABSENT, memory := s.job.applied)
  {
    OneGone("b", "y");
  }

  /** After such an apply the next one loses both trees: it begins to remove the rest of the old
      one, dies, and the boot puts what is left over the new one. */
  lemma {:induction false} BothTreesLost(applied: Applied, saved: Saved, again: Tree)
    ensures var moves := PromoteMoves(applied) + ([GiveUp, Unlink([]), Go] + [Go, Go]);
            var t := Run(Fresh(One("a", "x"), saved), moves);
            t.phase == Ready(Finished) && Boot(Run(t, [Begin(again, applied), Unlink(["a"])])).scripts == BARE
  {
    hide Step, Run;
    var s, p := Fresh(One("a", "x"), saved), Promoted(applied, saved);
    PromotedIsReached(applied, saved);
    RunConcat(s, PromoteMoves(applied), [GiveUp, Unlink([]), Go] + [Go, Go]);
    RunConcat(p, [GiveUp, Unlink([]), Go], [Go, Go]);
    RunThree(p, GiveUp, Unlink([]), Go);
    SweepGivesUp(applied, saved);
    RunThree(Run(p, [GiveUp, Unlink([]), Go]), Go, Go, Go);
    var t := Run(Run(p, [GiveUp, Unlink([]), Go]), [Go, Go]);
    RunThree(t, Begin(again, applied), Unlink(["a"]), Go);
    ClearingBegins(t, again, applied);
  }

  lemma ClearingBegins(s: State, again: Tree, applied: Applied)
    requires s.phase.Ready? && s.aside == One("a", "x")
    ensures Step(Step(s, Begin(again, applied)), Unlink(["a"])).aside == BARE
  {
    OneGone("a", "x");
  }

  /** An apply that finished with nothing saved: applied-state.json was written into a buffer, and
      closing it failed with nobody looking. The next boot knows nothing of the apply. */
  lemma {:induction false} FinishedButNotSaved(applied: Applied, saved: Saved)
    ensures var moves := PromoteMoves(applied) + ([Unlink(["a"]), Unlink([]), Go] + ([Unlink([]), Go, Go] + [GiveUp]));
            var t := Run(Fresh(One("a", "x"), saved), moves);
            && t.phase == Ready(Finished) && t.scripts == One("b", "y") && t.memory == applied
            && t.saved == Garbled && Boot(t).memory == NOTHING
  {
    hide Step, Run;
    var s, p := Fresh(One("a", "x"), saved), Promoted(applied, saved);
    var sweep, save := [Unlink(["a"]), Unlink([]), Go], [Unlink([]), Go, Go];
    PromotedIsReached(applied, saved);
    RunConcat(s, PromoteMoves(applied), sweep + (save + [GiveUp]));
    RunConcat(p, sweep, save + [GiveUp]);
    RunThree(p, Unlink(["a"]), Unlink([]), Go);
    SweepGoesThrough(applied, saved);
    var d := Run(p, sweep);
    RunConcat(d, save, [GiveUp]);
    RunThree(d, Unlink([]), Go, Go);
    RunThree(Run(d, save), GiveUp, Go, Go);
    SaveIsLost(d);
  }

  lemma SaveIsLost(d: State)
    requires d.phase.Discarding? && d.staged == BARE
    ensures var g := d.(phase := Saving, staged := ABSENT, memory := d.job.applied, saved := Garbled);
            && Step(Step(Step(d, Unlink([])), Go), Go) == g
            && Step(g, GiveUp) == g.(phase := Ready(Finished), job := d.job.(lost := true))
  {
    BareDiscarded(d);
  }

  /** A finished apply, and a new life of the sync thread: every bundle is listed twice. */
  lemma RerunDoublesBundles(s: State)
    requires Inv(s) && s.phase == Ready(Finished) && !s.job.lost
    ensures Step(s, Rerun).memory.installed == s.job.applied.installed + s.job.applied.installed
  {
    hide Exact, SubTree;
  }

  /** The new tree is live, the fields are the new ones, and the agent reports a failed apply:
      it could not write applied-state.json, which still tells of the state before. */
  lemma {:induction false} FailedSaveIsLive(applied: Applied, saved: Saved)
    ensures var moves := PromoteMoves(applied) + ([Unlink(["a"]), Unlink([]), Go] + [Unlink([]), Go, Throw]);
            var t := Run(Fresh(One("a", "x"), saved), moves);
            && t.phase == Ready(Unsaved) && t.scripts == One("b", "y") && !Exists(t.aside)
            && t.memory == applied && t.saved == saved
  {
    hide Step, Run;
    var s, p := Fresh(One("a", "x"), saved), Promoted(applied, saved);
    PromotedIsReached(applied, saved);
    RunConcat(s, PromoteMoves(applied), [Unlink(["a"]), Unlink([]), Go] + [Unlink([]), Go, Throw]);
    RunConcat(p, [Unlink(["a"]), Unlink([]), Go], [Unlink([]), Go, Throw]);
    RunThree(p, Unlink(["a"]), Unlink([]), Go);
    SweepGoesThrough(applied, saved);
    RunThree(Run(p, [Unlink(["a"]), Unlink([]), Go]), Unlink([]), Go, Throw);
  }

  lemma SweepGoesThrough(applied: Applied, saved: Saved)
    ensures var p := Promoted(applied, saved);
            var d := p.(phase := Discarding, aside := ABSENT);
            && Step(Step(Step(p, Unlink(["a"])), Unlink([])), Go) == d
            && Step(Step(Step(d, Unlink([])), Go), Throw) ==
               d.(phase := Ready(Unsaved), staged := ABSENT, memory := applied)
  {
    OneGone("a", "x");
  }

  /** A failed promote whose rollback fails too, and the next apply, which starts by removing
      scripts.old: the only whole copy of the tree before is gone, and a half of the failed
      apply stays live. */
  lemma {:induction false} RetryAfterStuckLosesTheTree(applied: Applied, saved: Saved, again: Tree)
    ensures var moves := FirstIn(One("b", "y"), applied, "b") + [Throw, GiveUp, Throw];
            var stuck := Run(Fresh(One("a", "x"), saved), moves);
            var t := Run(stuck, [Begin(again, applied), Unlink(["a"]), Unlink([])]);
            && stuck.phase == Ready(Stuck) && Boot(stuck).scripts == One("a", "x")
            && Boot(t).scripts == One("b", "y")
  {
    hide Step, Run;
    var s, next := Fresh(One("a", "x"), saved), One("b", "y");
    FirstFile(s, next, applied, "b");
    var p := Run(s, FirstIn(next, applied, "b"));
    RunConcat(s, FirstIn(next, applied, "b"), [Throw, GiveUp, Throw]);
    RunThree(p, Throw, GiveUp, Throw);
    var stuck := Run(p, [Throw, GiveUp, Throw]);
    GetsStuck(p);
    RunThree(stuck, Begin(again, applied), Unlink(["a"]), Unlink([]));
    ClearingLoses(stuck, again, applied);
  }

  lemma GetsStuck(p: State)
    requires p.phase.Promoting?
    ensures Step(Step(Step(p, Throw), GiveUp), Throw) == Noted(p).(phase := Ready(Stuck))
  {
  }

  lemma ClearingLoses(s: State, again: Tree, applied: Applied)
    requires s.phase.Ready? && s.aside == One("a", "x")
    ensures var t := Step(Step(Step(s, Begin(again, applied)), Unlink(["a"])), Unlink([]));
            t.aside == ABSENT && t.scripts == s.scripts
  {
    OneGone("a", "x");
  }

  // ---- the agent ------------------------------------------------------------------------------------

  /** The tree that the remove_all of this phase is taking down. */
  function Doomed(s: State): Tree {
    match s.phase
    case Clearing(_) => s.aside
    case Sweeping(_) => s.aside
    case Undoing => s.scripts
    case Recovering => s.scripts
    case Discarding => s.staged
    case _ => ABSENT
  }

  /** The same state, that tree gone. */
  function Razed(s: State): State {
    match s.phase
    case Clearing(begun) => s.(phase := Clearing(begun || s.aside != ABSENT), aside := ABSENT)
    case Sweeping(begun) => s.(phase := Sweeping(begun || s.aside != ABSENT), aside := ABSENT)
    case Undoing => s.(scripts := ABSENT)
    case Recovering => s.(scripts := ABSENT)
    case Discarding => s.(staged := ABSENT)
    case _ => s
  }

  predicate Removing(p: Phase) {
    p.Clearing? || p.Sweeping? || p.Undoing? || p.Recovering? || p.Discarding?
  }

  /** The entries strictly below `r`. */
  function Below(t: Tree, r: Rel): set<Rel> {
    set q | q in t && r < q
  }

  lemma {:induction false} LeafBelow(t: Tree, r: Rel)
    requires r in t
    ensures exists q :: q in t && Leaf(t, q)
    decreases Below(t, r)
  {
    if Leaf(t, r) {
    } else {
      var q :| q in t && r <= q && q != r;
      assert q in Below(t, r) && q !in Below(t, q);
      assert forall p :: p in Below(t, q) ==> p in Below(t, r);
      LeafBelow(t, q);
    }
  }

  lemma UnlinkRazes(s: State, r: Rel)
    requires r in Doomed(s) && Leaf(Doomed(s), r)
    ensures Doomed(Unlinked(s, r)) == Doomed(s) - {r}
    ensures Razed(Unlinked(s, r)) == Razed(s)
    ensures Removing(Unlinked(s, r).phase)
  {
    hide Leaf;
    match s.phase
    case Sweeping(_) =>
    case Clearing(_) =>
    case _ =>
  }

  lemma RazedWhenDone(s: State)
    requires Doomed(s) == ABSENT
    ensures Razed(s) == s
  {
  }

  lemma RunMore(s: State, moves: seq<Move>, m: Move)
    ensures Run(s, moves + [m]) == Step(Run(s, moves), m)
  {
    RunConcat(s, moves, [m]);
    assert [m][1..] == [];
    assert Run(Run(s, moves), [m]) == Run(Step(Run(s, moves), m), []);
  }

  /** Where in the swap a system call fails: after how many entries a remove_all stops, whether
      moving a whole tree fails, at which staged entry the promote throws, how the save does. */
  datatype Faults = Faults(
    clear: Option<nat>, moveAside: bool, promoteAt: nat, undo: Option<nat>, moveBack: bool,
    sweep: Option<nat>, discard: Option<nat>, save: SaveFault)

  datatype SaveFault = SavesFine | CannotOpen | CannotWrite | LostAtClose

  predicate RemovesFine(f: Faults) {
    f.clear.None? && f.undo.None? && f.sweep.None? && f.discard.None?
  }

  /** How a swap ends by its faults, when every removal goes through. */
  function Expected(f: Faults, existed: bool, entries: nat): Outcome {
    if existed && f.moveAside then Refused
    else if f.promoteAt < entries then (if existed && f.moveBack then Stuck else RolledBack)
    else if f.save.CannotOpen? || f.save.CannotWrite? then Unsaved
    else Finished
  }

  /** What every directory listing is: above a file there are only directories. */
  ghost predicate Sound(t: Tree) {
    forall f, r: Rel :: FileIn(t, f) && r < f ==> !FileIn(t, r)
  }

  /** In a sound tree a file never stands in the way of another. */
  lemma NothingInTheWay(s: State, f: Rel)
    requires Inv(s) && s.phase.Promoting? && Sound(s.job.goal) && FileIn(s.staged, f)
    ensures f in s.scripts ==> s.scripts[f].File?
    ensures forall d: Rel :: d < f ==> !FileIn(s.scripts, d)
  {
    hide SubTree, Exact;
    assert FileIn(s.job.goal, f);
    forall d: Rel | d < f
      ensures !FileIn(s.scripts, d)
    {
      assert FileIn(s.scripts, d) ==> FileIn(s.job.goal, d);
    }
  }

  class Agent {
    var state: State
    ghost const start: State
    ghost var trail: seq<Move>

    /** What the agent did so far is a run of the machine, so every point of it is one
        at which the lemmas above say what a failure or a death would do. */
    ghost predicate Valid()
      reads this
    {
      Inv(state) && state == Run(start, trail)
    }

    constructor (scripts: Tree, saved: Saved)
      requires Rooted(scripts)
      ensures Valid() && state == Fresh(scripts, saved)
    {
      FreshInv(scripts, saved);
      state := Fresh(scripts, saved);
      start := Fresh(scripts, saved);
      trail := [];
    }

    method Do(m: Move)
      requires Valid()
      modifies this
      ensures Valid() && state == Step(old(state), m)
    {
      hide Inv, Step;
      StepKeepsInv(state, m);
      RunMore(start, trail, m);
      trail := trail + [m];
      state := Step(state, m);
    }

    /** remove_all, one entry at a time, stopping after `limit` of them at an error; the
        statement after it runs in either case. */
    method RemoveAll(limit: Option<nat>)
      requires Valid() && Removing(state.phase)
      modifies this
      ensures Valid() && OnlyThatTree(old(state), state)
      ensures limit.None? ==> state == Advanced(Razed(old(state)))
    {
      hide Inv, Run, Unlinked, Razed, Leaf, Doomed, Advanced, GaveUp, OnlyThatTree, LessOf;
      var n := 0;
      LessOfItself(state);
      while Doomed(state) != ABSENT && (limit.None? || n < limit.value)
        invariant Valid() && Removing(state.phase)
        invariant Razed(state) == Razed(old(state)) && LessOf(old(state), state)
        decreases Doomed(state).Keys
      {
        var any :| any in Doomed(state);
        LeafBelow(Doomed(state), any);
        var r :| r in Doomed(state) && Leaf(Doomed(state), r);
        UnlinkRazes(state, r);
        LessAndLess(old(state), state, r);
        Do(Unlink(r));
        n := n + 1;
      }
      MovesOn(old(state), state);
      if Doomed(state) == ABSENT {
        RazedWhenDone(state);
        Do(Go);
      } else {
        Do(GiveUp);
      }
    }

    /** create_directories for the parent of `f`; false, exactly when a file is in the way. */
    method CreateDirectories(f: Rel) returns (ok: bool)
      requires Valid() && state.phase.Promoting? && f != [] && FileIn(state.staged, f)
      modifies this
      ensures Valid() && state.(scripts := old(state.scripts)) == old(state)
      ensures ok ==> DirIn(state.scripts, Parent(f))
      ensures ok <==> FreeTo(old(state.scripts), f, |f|)
      ensures Grown(old(state.scripts), state.scripts, f)
    {
      hide Inv, Run, Grown, FreeTo;
      FreeAtFirst(state.scripts, f);
      var k := 0;
      while k < |f|
        invariant 0 <= k <= |f| && Valid()
        invariant state.(scripts := old(state.scripts)) == old(state)
        invariant k > 0 ==> DirIn(state.scripts, f[..k - 1])
        invariant FreeTo(old(state.scripts), f, k) && Grown(old(state.scripts), state.scripts, f)
      {
        var dir := f[..k];
        FreeNext(old(state.scripts), state.scripts, f, k);
        if FileIn(state.scripts, dir) { return false; }
        if dir !in state.scripts {
          assert k > 0 ==> Parent(dir) == f[..k - 1];
          Do(MakeDir(dir));
        }
        k := k + 1;
      }
      assert f[..|f| - 1] == Parent(f);
      return true;
    }

    /** Move every staged file in, in whatever order the directory lists them. The
        call on the `failAt`-th entry throws. */
    method PromoteTree(order: seq<Rel>, failAt: nat) returns (ok: bool)
      requires Valid() && state.phase.Promoting? && [] !in order
      requires forall r :: r in state.staged && r !in order ==> state.staged[r].Dir?
      modifies this
      ensures Valid() && state.phase.Promoting? && state.job == old(state.job) && state.aside == old(state.aside)
      ensures ok ==> NoFiles(state.staged) && failAt >= |order|
      ensures Sound(state.job.goal) && failAt >= |order| ==> ok
    {
      hide Inv, Run, Sound;
      var i := 0;
      while i < |order|
        invariant 0 <= i <= |order| && i <= failAt
        invariant Valid() && state.phase.Promoting? && state.job == old(state.job) && state.aside == old(state.aside)
        invariant forall r :: r in state.staged && r !in order[i..] ==> state.staged[r].Dir?
      {
        if i == failAt { return false; }
        var f := order[i];
        if FileIn(state.staged, f) {
          ghost var before := state;
          var made := CreateDirectories(f);
          if Sound(before.job.goal) {
            NothingInTheWay(before, f);
            assert made && (f in state.scripts ==> f in before.scripts && FileIn(before.scripts, f));
          }
          if !made || (f in state.scripts && !state.scripts[f].File?) { return false; }
          Do(Rename(f));
        }
        assert forall r :: r in order[i..] && r != f ==> r in order[i + 1..];
        i := i + 1;
      }
      return true;
    }

    /** Up to the point where the promote starts; false when the live tree cannot be moved. */
    method MoveAside(staged: Tree, applied: Applied, f: Faults) returns (ok: bool)
      requires Valid() && state.phase.Ready?
      modifies this
      ensures Valid() && state.phase == (if ok then Promoting else Ready(Refused)) && state.staged == staged
      ensures state.job == Begun(old(state), staged, applied).job.(ignored := state.job.ignored)
      ensures f.clear.None? ==>
                && !state.job.ignored && (ok <==> !(Exists(old(state.scripts)) && f.moveAside))
                && state.aside == if ok then old(state.scripts) else ABSENT
    {
      hide Run, Inv, SubTree, Razed, Leaf;
      LiveIsRooted(state);
      Do(Begin(staged, applied));
      ClearedNext(state);
      RemoveAll(f.clear);
      if Exists(state.scripts) && (f.moveAside || !Vacant(state.aside)) {
        Do(Throw);
        return false;
      }
      Do(Go);
      return true;
    }

    /** After an exception in the promote: what was moved goes, the old tree comes back. */
    method RollBack(f: Faults)
      requires Valid() && state.phase.Promoting?
      modifies this
      ensures Valid() && (state.phase == Ready(RolledBack) || state.phase == Ready(Stuck))
      ensures state.job == old(state.job).(ignored := state.job.ignored)
      ensures f.undo.None? ==>
                state.job == old(state.job) && (state.phase == Ready(Stuck) <==> Exists(old(state.aside)) && f.moveBack)
    {
      hide Run, Inv, SubTree, Razed, Leaf;
      Do(Throw);
      UndoneNext(state);
      RemoveAll(f.undo);
      if Exists(state.aside) && (f.moveBack || !Vacant(state.scripts)) {
        Do(Throw);
      } else {
        Do(Go);
      }
    }

    /** After the promote: the old tree and the staging directory go, and the state is saved. */
    method FinishUp(f: Faults)
      requires Valid() && state.phase.Promoting? && NoFiles(state.staged)
      modifies this
      ensures Valid() && state.phase == Ready(if f.save.CannotOpen? || f.save.CannotWrite? then Unsaved else Finished)
      ensures state.job == old(state.job).(ignored := state.job.ignored, lost := f.save.LostAtClose?)
    {
      hide Run, Inv, SubTree, Razed, Leaf;
      NotLost(state);
      Do(Go);
      RemoveAll(f.sweep);
      RemoveAll(f.discard);
      if f.save.CannotOpen? {
        Do(Throw);
        return;
      }
      Do(Go);
      if f.save.CannotWrite? {
        Do(Throw);
        return;
      }
      Do(if f.save.LostAtClose? then GiveUp else Go);
    }

    /** The swap, with system calls failing where `f` says. True means exactly the staged files
        are live and the state is saved, unless closing the file lost it. False means one of four
        things: nothing was touched; the promote was undone; it could not be undone and the old
        tree is in scripts.old; or the new tree is live with the new fields and the save failed. */
    method Swap(staged: Tree, applied: Applied, order: seq<Rel>, f: Faults) returns (ok: bool)
      requires Valid() && state.phase.Ready? && [] !in order
      requires forall r :: r in staged && r !in order ==> staged[r].Dir?
      modifies this
      ensures Valid() && state.phase.Ready? && (ok <==> state.phase == Ready(Finished))
      ensures state.job == Begun(old(state), staged, applied).job.(ignored := state.job.ignored, lost := state.job.lost)
      ensures ok ==>
                && Exact(state.scripts, staged) && state.memory == applied
                && state.saved == if f.save.LostAtClose? then Garbled else Holds(applied)
      ensures !ok && state.phase != Ready(Unsaved) ==>
                state.memory == old(state.memory) && state.saved == old(state.saved)
      ensures state.phase == Ready(Refused) ==> state.scripts == old(state.scripts)
      ensures state.phase == Ready(RolledBack) && old(state.scripts) != ABSENT ==> state.scripts == old(state.scripts)
      ensures state.phase == Ready(Stuck) && old(state.scripts) != ABSENT ==> state.aside == old(state.scripts)
      ensures state.phase == Ready(Unsaved) ==>
                && Exact(state.scripts, staged) && state.memory == applied
                && (state.saved == old(state.saved) || state.saved == Garbled)
      ensures RemovesFine(f) && Sound(staged) ==>
                state.phase == Ready(Expected(f, Exists(old(state.scripts)), |order|))
    {
      hide Run, SubTree, Exact, SplitUp, Needed, Sound, NoFiles;
      ok := MoveAside(staged, applied, f);
      if !ok { return; }
      ok := PromoteTree(order, f.promoteAt);
      if !ok {
        RollBack(f);
        return;
      }
      FinishUp(f);
      ok := f.save.SavesFine? || f.save.LostAtClose?;
    }

    /** Put scripts.old back in place of whatever is live. */
    method RestoreAside(limit: Option<nat>, moveFails: bool)
      requires Valid() && state.phase.Recovering? && Exists(state.aside)
      modifies this
      ensures Valid() && state.phase == Ready(Booted) && Restored(state) == old(state.aside)
      ensures limit.None? && !moveFails ==>
                state == old(state).(phase := Ready(Booted), scripts := old(state.aside), aside := ABSENT,
                                     memory := Forget(old(state.memory)))
    {
      hide Run, Inv, SubTree, Leaf, Razed, Exists;
      RecoveredNext(state);
      SubTrees(ABSENT, ABSENT, []);
      RemoveAll(limit);
      if moveFails || !Vacant(state.scripts) {
        Do(Throw);
      } else {
        Do(Go);
      }
    }

    /** The process died; load the saved state and undo an interrupted apply. Whatever error
        recovery ignores, the tree it is to restore is not lost. */
    method Recover(limit: Option<nat>, moveFails: bool)
      requires Valid()
      modifies this
      ensures Valid() && state.phase == Ready(Booted) && Restored(state) == Restored(old(state))
      ensures limit.None? && !moveFails ==> state == Boot(old(state))
    {
      hide Run, Inv, Exists;
      Do(Die);
      if state.phase.Recovering? {
        RestoreAside(limit, moveFails);
      }
    }
  }

  lemma LiveIsRooted(s: State)
    requires Inv(s)
    ensures !Exists(s.scripts) ==> s.scripts == ABSENT
  {
  }

  lemma NotLost(s: State)
    requires Inv(s) && s.phase.Promoting?
    ensures !s.job.lost
  {
  }

  lemma ClearedNext(s: State)
    requires s.phase.Clearing?
    ensures Advanced(Razed(s)) == s.(phase := Cleared, aside := ABSENT) && Vacant(ABSENT)
  {
  }

  lemma UndoneNext(s: State)
    requires s.phase.Undoing?
    ensures Advanced(Razed(s)) == s.(phase := Returning, scripts := ABSENT) && Vacant(ABSENT)
  {
  }

  lemma RecoveredNext(s: State)
    requires s.phase.Recovering?
    ensures Advanced(Razed(s)) == s.(phase := Restoring, scripts := ABSENT) && Vacant(ABSENT)
  {
  }

  /** The same files, and at most directories above `f` more. */
  ghost predicate Grown(a: Tree, b: Tree, f: Rel) {
    && (forall d :: FileIn(b, d) <==> FileIn(a, d))
    && (forall d :: d in b ==> d in a || d < f)
  }

  /** None of the first `k` directories above `f` is a file. */
  ghost predicate FreeTo(t: Tree, f: Rel, k: nat) {
    forall d: Rel :: d < f && |d| < k ==> !FileIn(t, d)
  }

  lemma FreeAtFirst(t: Tree, f: Rel)
    ensures FreeTo(t, f, 0) && Grown(t, t, f)
  {
  }

  lemma FreeNext(a: Tree, b: Tree, f: Rel, k: nat)
    requires k < |f| && FreeTo(a, f, k) && Grown(a, b, f)
    ensures f[..k] < f
    ensures FileIn(b, f[..k]) ==> !FreeTo(a, f, |f|)
    ensures !FileIn(b, f[..k]) ==> FreeTo(a, f, k + 1)
    ensures f[..k] !in b ==> Grown(a, b[f[..k] := Dir], f)
  {
    assert forall d: Rel :: d < f && |d| == k ==> d == f[..k];
  }

  /** `t` is `s` with some of the tree being removed gone. */
  ghost predicate LessOf(s: State, t: State) {
    SubTree(Doomed(t), Doomed(s))
  }

  /** The next statement is reached, and of the disk only the tree to be removed changed, which
      has at most what it had. */
  ghost predicate OnlyThatTree(s: State, t: State) {
    && t.job == s.job.(ignored := t.job.ignored) && t.saved == s.saved
    && match s.phase
       case Clearing(_) =>
         t.phase.Cleared? && t.scripts == s.scripts && t.staged == s.staged && SubTree(t.aside, s.aside)
       case Sweeping(_) =>
         t.phase.Discarding? && t.scripts == s.scripts && t.staged == s.staged && SubTree(t.aside, s.aside)
       case Undoing => t.phase.Returning? && t.aside == s.aside && t.staged == s.staged && SubTree(t.scripts, s.scripts)
       case Recovering =>
         t.phase.Restoring? && t.aside == s.aside && t.staged == s.staged && SubTree(t.scripts, s.scripts)
       case Discarding =>
         t.phase.Recorded? && t.aside == s.aside && t.scripts == s.scripts && SubTree(t.staged, s.staged)
       case _ => true
  }

  lemma LessOfItself(s: State)
    ensures LessOf(s, s)
  {
  }

  lemma LessAndLess(s: State, t: State, r: Rel)
    requires LessOf(s, t) && r in Doomed(t) && Leaf(Doomed(t), r)
    ensures LessOf(s, Unlinked(t, r))
  {
    UnlinkRazes(t, r);
    hide Unlinked;
  }

  lemma SamePhase(s: State, t: State)
    requires Removing(s.phase) && Removing(t.phase) && Razed(t) == Razed(s)
    ensures s.phase.Sweeping? == t.phase.Sweeping? && s.phase.Clearing? == t.phase.Clearing?
    ensures !s.phase.Sweeping? && !s.phase.Clearing? ==> s.phase == t.phase
    ensures t.job == s.job && t.saved == s.saved
  {
  }

  lemma MovesOn(s: State, t: State)
    requires Removing(s.phase) && Removing(t.phase) && Razed(t) == Razed(s) && LessOf(s, t)
    ensures OnlyThatTree(s, GaveUp(t))
    ensures Doomed(t) == ABSENT ==> OnlyThatTree(s, Advanced(t))
  {
    SamePhase(s, t);
    match s.phase
    case Clearing(_) => ClearingMovesOn(s, t);
    case Sweeping(_) => SweepingMovesOn(s, t);
    case Undoing => ScriptsMoveOn(s, t);
    case Recovering => ScriptsMoveOn(s, t);
    case Discarding => StagedMovesOn(s, t);
  }

  lemma ClearingMovesOn(s: State, t: State)
    requires s.phase.Clearing? && t.phase.Clearing? && Razed(t) == Razed(s) && LessOf(s, t)
    ensures OnlyThatTree(s, GaveUp(t))
    ensures t.aside == ABSENT ==> OnlyThatTree(s, Advanced(t))
  {
    hide SubTree;
  }

  lemma SweepingMovesOn(s: State, t: State)
    requires s.phase.Sweeping? && t.phase.Sweeping? && Razed(t) == Razed(s) && LessOf(s, t)
    ensures OnlyThatTree(s, GaveUp(t))
    ensures t.aside == ABSENT ==> OnlyThatTree(s, Advanced(t))
  {
    hide SubTree;
  }

  lemma ScriptsMoveOn(s: State, t: State)
    requires (s.phase.Undoing? || s.phase.Recovering?) && t.phase == s.phase && Razed(t) == Razed(s) && LessOf(s, t)
    ensures OnlyThatTree(s, GaveUp(t))
    ensures t.scripts == ABSENT ==> OnlyThatTree(s, Advanced(t))
  {
    hide SubTree;
  }

  lemma StagedMovesOn(s: State, t: State)
    requires s.phase.Discarding? && t.phase.Discarding? && Razed(t) == Razed(s) && LessOf(s, t)
    ensures OnlyThatTree(s, GaveUp(t))
    ensures t.staged == ABSENT ==> OnlyThatTree(s, Advanced(t))
  {
    hide SubTree;
  }
}
