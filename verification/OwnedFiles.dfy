/**
 The pattern both publishers follow: create a private temporary exclusively, fill it, bring it to a public
 name in one call, and clean up by identity.  This module says what every single transition of such a run
 may do, and shows it for each kind of call.
 */
module OwnedFiles {
  import opened Wrappers
  import opened FileSystems

  type Steps = seq<(State, State)>

  /**
   One run: the private file `i`, its temporary and public names, and the bytes to publish.
   `replace` allows the public name to be taken from somebody else (rename) or not (link).
   `calm` says that other processes leave the temporary name alone.
   */
  datatype Plan = Plan(i: Inode, temporary: Key, output: Key, data: Bytes, replace: bool, calm: bool)

  /** The entry was left as it was, or changed between absent and naming our file. */
  ghost predicate OnlyOurs(a: State, b: State, key: Key, i: Inode) {
    SameEntry(a, b, key) || (a.Names(key, i) && key !in b.entries) || (key !in a.entries && b.Names(key, i))
  }

  /** Whenever the public name shows our file, the file is complete. */
  ghost predicate Visible(s: State, p: Plan) {
    s.Names(p.output, p.i) ==> s.Holds(p.i, p.data)
  }

  /** The public name was left as it was, or came to name our file. */
  ghost predicate Atomic(a: State, b: State, p: Plan) {
    SameEntry(a, b, p.output) || b.Names(p.output, p.i)
  }

  /** The step renamed the temporary to the public name. */
  ghost predicate IsRename(a: State, b: State, p: Plan) {
    p.temporary in a.entries && b == Renamed(a, p.temporary, p.output)
  }

  /** The step linked the temporary to a public name that did not exist. */
  ghost predicate IsLink(a: State, b: State, p: Plan) {
    p.temporary in a.entries && p.output !in a.entries &&
    b == a.(entries := a.entries[p.output := a.entries[p.temporary]])
  }

  /** The step withdrew a linked public name while it named our file. */
  ghost predicate IsUndo(a: State, b: State, p: Plan) {
    a.Names(p.output, p.i) && p.output !in b.entries
  }

  /**
   One of our transitions once the private file exists.  Only our file and the two names change.  The public name
   changes by the one rename, when the plan is to replace, and otherwise by the one link and its undoing.
   */
  ghost predicate OwnStep(a: State, b: State, p: Plan) {
    Touches(a, b, {p.i}, {p.temporary, p.output}) && Visible(a, p) && Visible(b, p) &&
    (if p.replace then IsRename(a, b, p) || (OnlyOurs(a, b, p.temporary, p.i) && SameEntry(a, b, p.output))
     else OnlyOurs(a, b, p.temporary, p.i) && (SameEntry(a, b, p.output) || IsLink(a, b, p) || IsUndo(a, b, p))) &&
    (p.calm && p.output in b.entries ==> Atomic(a, b, p))
  }

  /** The step that created the private file: it did not exist, and neither did the temporary name. */
  ghost predicate Born(k: nat, steps: Steps, p: Plan) {
    k < |steps| && p.temporary !in steps[k].0.entries && p.i !in steps[k].0.nodes &&
    steps[k].1 == State(steps[k].0.nodes[p.i := File([])], steps[k].0.entries[p.temporary := p.i])
  }

  /** The later list extends the earlier one. */
  ghost predicate Continues(before: Steps, steps: Steps) {
    |before| <= |steps| && steps[..|before|] == before
  }

  lemma ContinuesOn(start: Steps, before: Steps, steps: Steps)
    requires Continues(start, before) && Continues(before, steps)
    ensures Continues(start, steps)
  {
    assert steps[..|start|] == steps[..|before|][..|start|];
  }

  /** All transitions from position n on are of that kind. */
  ghost predicate OwnSince(n: nat, steps: Steps, p: Plan) {
    n <= |steps| && forall k :: n <= k < |steps| ==> OwnStep(steps[k].0, steps[k].1, p)
  }

  /** At some point after n the public name showed our file. */
  ghost predicate Shown(n: nat, steps: Steps, p: Plan) {
    exists k :: n <= k < |steps| && steps[k].1.Names(p.output, p.i)
  }

  /** The last transition of `steps`, made after other processes moved from `s` within the guard. */
  ghost predicate Extends(before: Steps, steps: Steps, s: State, now: State, g: Guard) {
    |steps| == |before| + 1 && steps[..|before|] == before &&
    Rely(s, steps[|before|].0, g) && steps[|before|].1 == now
  }

  ghost predicate Keeps(s: State, t: State, still: set<Key>) {
    forall key :: key in still ==> SameEntry(s, t, key)
  }

  /** The guard protects the private file and its two names. */
  ghost predicate Guards(g: Guard, p: Plan) {
    p.i in g.mine && p.output in g.names && p.temporary in g.names && p.temporary != p.output &&
    (p.calm ==> p.temporary in g.still)
  }

  /** The private file holds what was written so far, and is complete if the public name shows it. */
  ghost predicate Progress(s: State, p: Plan, written: Bytes) {
    s.Holds(p.i, written) && (s.Names(p.output, p.i) ==> written == p.data)
  }

  // ----- Single transitions -----

  lemma ObserveStep(s: State, t: State, g: Guard, p: Plan, written: Bytes)
    requires Rely(s, t, g) && Guards(g, p) && Progress(s, p, written)
    ensures OwnStep(t, t, p) && Progress(t, p, written)
    ensures t.Names(p.output, p.i) ==> s.Names(p.output, p.i)
    ensures Keeps(s, t, g.still)
  {
  }

  /** Linking the temporary to a public name that did not exist. */
  lemma LinkStep(s: State, t: State, u: State, g: Guard, p: Plan)
    requires Rely(s, t, g) && Guards(g, p) && Progress(s, p, p.data) && !s.Names(p.output, p.i) && !p.replace
    requires (p.calm ==> s.Names(p.temporary, p.i)) && IsLink(t, u, p)
    ensures OwnStep(t, u, p) && Progress(u, p, p.data)
    ensures p.calm ==> u.Names(p.output, p.i)
  {
  }

  /** Renaming the temporary to the public name. */
  lemma RenameStep(s: State, t: State, u: State, g: Guard, p: Plan)
    requires Rely(s, t, g) && Guards(g, p) && Progress(s, p, p.data) && !s.Names(p.output, p.i) && p.replace
    requires (p.calm ==> s.Names(p.temporary, p.i)) && IsRename(t, u, p)
    ensures OwnStep(t, u, p) && Progress(u, p, p.data)
    ensures p.calm ==> u.Names(p.output, p.i)
    ensures u.Names(p.output, p.i) <==> t.Names(p.temporary, p.i)
  {
  }

  /** Renaming now publishes our file, or a file that is the public one already. */
  ghost predicate RenameSafe(a: State, p: Plan) {
    p.temporary in a.entries && (a.entries[p.temporary] == p.i || a.Names(p.output, a.entries[p.temporary]))
  }

  /**
   Between the ownership check and the rename, other processes can put a different file at the temporary
   name; the rename then publishes that file.  Of all steps of a replacing run, exactly those are atomic that
   leave the public name alone or start from a state in which the rename is safe.
   */
  lemma AtomicExactly(a: State, b: State, p: Plan)
    requires OwnStep(a, b, p) && p.replace && p.temporary != p.output
    ensures Atomic(a, b, p) <==> SameEntry(a, b, p.output) || RenameSafe(a, p)
  {
  }

  /** Every step from n on is atomic exactly when it leaves the public name alone or its rename is safe. */
  ghost predicate AtomicWhenSafe(n: nat, steps: Steps, p: Plan) {
    forall k :: n <= k < |steps| ==>
      (Atomic(steps[k].0, steps[k].1, p) <==>
       SameEntry(steps[k].0, steps[k].1, p.output) || RenameSafe(steps[k].0, p))
  }

  lemma RunAtomicExactly(n: nat, steps: Steps, p: Plan)
    requires OwnSince(n, steps, p) && p.replace && p.temporary != p.output
    ensures AtomicWhenSafe(n, steps, p)
    ensures p.calm ==> forall k :: n <= k < |steps| ==> Atomic(steps[k].0, steps[k].1, p)
  {
    forall k | n <= k < |steps|
      ensures Atomic(steps[k].0, steps[k].1, p) <==>
              SameEntry(steps[k].0, steps[k].1, p.output) || RenameSafe(steps[k].0, p)
      ensures p.calm ==> Atomic(steps[k].0, steps[k].1, p)
    {
      assert OwnStep(steps[k].0, steps[k].1, p);
      AtomicExactly(steps[k].0, steps[k].1, p);
      CalmAtomic(steps[k].0, steps[k].1, p);
    }
  }

  lemma CalmAtomic(a: State, b: State, p: Plan)
    requires OwnStep(a, b, p) && p.replace
    ensures p.calm ==> Atomic(a, b, p)
  {
  }

  /** The run of steps with other processes moving within the guard in between. */
  ghost predicate Interleaved(steps: Steps, g: Guard) {
    forall k, l :: 0 <= k && l == k + 1 && l < |steps| ==> Rely(steps[k].1, steps[l].0, g)
  }

  /**
   A run in which the rename is not safe: the private file is created, filled and found under its temporary name,
   then another process puts its own file there, and the rename publishes that file.
   */
  lemma RenameRace() returns (steps: Steps, g: Guard, p: Plan)
    ensures Guards(g, p) && p.replace && Interleaved(steps, g) && Born(0, steps, p) && OwnSince(0, steps, p)
    ensures |steps| == 4 && steps[2].1.Names(p.temporary, p.i) && steps[2].1.Holds(p.i, p.data)
    ensures IsRename(steps[3].0, steps[3].1, p) && !Atomic(steps[3].0, steps[3].1, p)
  {
    hide OwnStep, Rely, Renamed, RaceState, RacedState, Atomic;
    p := Plan(1, (0, "t"), (0, "o"), [7], true, false);
    g := Guard({1}, {p.temporary, p.output}, {});
    RaceOwned(p);
    RaceFacts(p);
    RaceRely(g);
    var empty, created, filled, raced := RaceState([], false), RaceState([], true), RaceState([7], true), RacedState();
    steps := [(empty, created), (created, filled), (filled, filled), (raced, Renamed(raced, p.temporary, p.output))];
  }

  /** A directory with the private file, once created, at its temporary name, and a file of another process. */
  ghost function RaceState(data: Bytes, created: bool): State {
    var nodes := map[0 := Directory, 2 := File([])];
    if created then State(nodes[1 := File(data)], map[(0, "t") := 1]) else State(nodes, map[])
  }

  ghost function RacedState(): State {
    State(RaceState([7], true).nodes, map[(0, "t") := 2])
  }

  lemma RaceOwned(p: Plan)
    requires p == Plan(1, (0, "t"), (0, "o"), [7], true, false)
    ensures OwnStep(RaceState([], false), RaceState([], true), p)
    ensures OwnStep(RaceState([], true), RaceState([7], true), p)
    ensures OwnStep(RaceState([7], true), RaceState([7], true), p)
    ensures p.temporary in RacedState().entries
    ensures OwnStep(RacedState(), Renamed(RacedState(), p.temporary, p.output), p)
  {
  }

  lemma RaceFacts(p: Plan)
    requires p == Plan(1, (0, "t"), (0, "o"), [7], true, false)
    ensures var empty, created, filled, raced :=
              RaceState([], false), RaceState([], true), RaceState([7], true), RacedState();
      p.temporary !in empty.entries && p.i !in empty.nodes &&
      created == State(empty.nodes[p.i := File([])], empty.entries[p.temporary := p.i]) &&
      filled.Names(p.temporary, p.i) && filled.Holds(p.i, p.data) &&
      p.temporary in raced.entries && !Atomic(raced, Renamed(raced, p.temporary, p.output), p)
  {
  }

  lemma RaceRely(g: Guard)
    requires g == Guard({1}, {(0, "t"), (0, "o")}, {})
    ensures Rely(RaceState([], true), RaceState([], true), g) && Rely(RaceState([7], true), RaceState([7], true), g)
    ensures Rely(RaceState([7], true), RacedState(), g)
  {
  }

  lemma UnlinkStep(s: State, t: State, u: State, g: Guard, p: Plan, written: Bytes, key: Key, known: Option<Inode>)
    requires Rely(s, t, g) && Guards(g, p) && Progress(s, p, written)
    requires key == p.temporary || (key == p.output && !p.replace)
    requires known.Some? ==> known.value == p.i
    requires u == Unlinked(t, key, known)
    ensures OwnStep(t, u, p) && Progress(u, p, written)
    ensures u.Names(p.output, p.i) ==> s.Names(p.output, p.i)
    ensures known.Some? ==> !u.Names(key, p.i)
    ensures forall other :: other != key && other in g.still ==> SameEntry(s, u, other)
  {
  }

  lemma BirthStep(before: Steps, steps: Steps, s: State, now: State, g: Guard, p: Plan)
    requires Extends(before, steps, s, now, g) && p.temporary != p.output && Born(|before|, steps, p)
    ensures OwnSince(|before|, steps, p) && Progress(now, p, [])
    ensures !now.Names(p.output, p.i) && now.Names(p.temporary, p.i)
    ensures forall other :: other != p.temporary && other in g.still ==> SameEntry(s, now, other)
  {
  }

  // ----- Runs -----

  lemma OwnExtend(n: nat, before: Steps, steps: Steps, s: State, now: State, g: Guard, p: Plan)
    requires OwnSince(n, before, p) && Extends(before, steps, s, now, g) && OwnStep(steps[|before|].0, now, p)
    ensures OwnSince(n, steps, p) && steps[..n] == before[..n]
  {
    hide OwnStep, Rely;
    forall k | n <= k < |steps| ensures OwnStep(steps[k].0, steps[k].1, p) {
      if k < |before| {
        assert steps[k] == before[k];
      }
    }
  }

  lemma ObserveExtends(n: nat, before: Steps, steps: Steps, s: State, now: State, g: Guard, p: Plan, written: Bytes)
    requires OwnSince(n, before, p) && Extends(before, steps, s, now, g) && steps[|before|].0 == now
    requires Guards(g, p) && Progress(s, p, written)
    ensures OwnSince(n, steps, p) && steps[..n] == before[..n] && Progress(now, p, written)
    ensures now.Names(p.output, p.i) ==> s.Names(p.output, p.i)
    ensures Keeps(s, now, g.still)
  {
    hide OwnStep, Rely;
    ObserveStep(s, now, g, p, written);
    OwnExtend(n, before, steps, s, now, g, p);
  }

  lemma WriteExtends(n: nat, before: Steps, steps: Steps, s: State, now: State, p: Plan, written: Bytes)
    requires OwnSince(n, before, p) && !s.Names(p.output, p.i)
    requires |before| <= |steps| && steps[..|before|] == before
    requires forall k :: |before| <= k < |steps| ==>
      Touches(steps[k].0, steps[k].1, {p.i}, {}) && !steps[k].0.Names(p.output, p.i) && !steps[k].1.Names(p.output, p.i)
    requires now.Holds(p.i, written) && !now.Names(p.output, p.i)
    ensures OwnSince(n, steps, p) && steps[..n] == before[..n] && Progress(now, p, written)
  {
    forall k | n <= k < |steps| ensures OwnStep(steps[k].0, steps[k].1, p) {
      if k < |before| {
        assert steps[k] == before[k];
      }
    }
  }

  lemma LinkExtends(n: nat, before: Steps, steps: Steps, s: State, now: State, g: Guard, p: Plan)
    requires OwnSince(n, before, p) && Extends(before, steps, s, now, g) && Guards(g, p)
    requires Progress(s, p, p.data) && !s.Names(p.output, p.i) && (p.calm ==> s.Names(p.temporary, p.i))
    requires IsLink(steps[|before|].0, now, p) && !p.replace
    ensures OwnSince(n, steps, p) && steps[..n] == before[..n] && Progress(now, p, p.data)
  {
    hide OwnStep, Rely, IsLink;
    LinkStep(s, steps[|before|].0, now, g, p);
    OwnExtend(n, before, steps, s, now, g, p);
  }

  lemma RenameExtends(n: nat, before: Steps, steps: Steps, s: State, now: State, g: Guard, p: Plan)
    requires OwnSince(n, before, p) && Extends(before, steps, s, now, g) && Guards(g, p) && p.replace
    requires Progress(s, p, p.data) && !s.Names(p.output, p.i) && (p.calm ==> s.Names(p.temporary, p.i))
    requires IsRename(steps[|before|].0, now, p)
    ensures OwnSince(n, steps, p) && steps[..n] == before[..n] && Progress(now, p, p.data)
    ensures p.calm ==> now.Names(p.output, p.i)
  {
    hide OwnStep, Rely, IsRename;
    RenameStep(s, steps[|before|].0, now, g, p);
    OwnExtend(n, before, steps, s, now, g, p);
  }

  lemma UnlinkExtends(n: nat, before: Steps, steps: Steps, s: State, now: State, g: Guard, p: Plan, written: Bytes,
                      key: Key, known: Option<Inode>)
    requires OwnSince(n, before, p) && Extends(before, steps, s, now, g) && Guards(g, p) && Progress(s, p, written)
    requires key == p.temporary || (key == p.output && !p.replace)
    requires known.Some? ==> known.value == p.i
    requires now == Unlinked(steps[|before|].0, key, known)
    ensures OwnSince(n, steps, p) && steps[..n] == before[..n] && Progress(now, p, written)
    ensures now.Names(p.output, p.i) ==> s.Names(p.output, p.i)
    ensures known.Some? ==> !now.Names(key, p.i)
    ensures forall other :: other != key && other in g.still ==> SameEntry(s, now, other)
  {
    hide OwnStep, Rely, Unlinked;
    UnlinkStep(s, steps[|before|].0, now, g, p, written, key, known);
    OwnExtend(n, before, steps, s, now, g, p);
  }

  lemma OwnJoin(n: nat, born: Steps, steps: Steps, p: Plan)
    requires OwnSince(n, born, p) && OwnSince(|born|, steps, p) && steps[..|born|] == born
    ensures OwnSince(n, steps, p)
  {
    hide OwnStep;
    forall k | n <= k < |steps| ensures OwnStep(steps[k].0, steps[k].1, p) {
      if k < |born| {
        assert steps[k] == born[k];
      }
    }
  }

  lemma ShownLater(n: nat, m: nat, before: Steps, steps: Steps, p: Plan)
    requires n <= m && Shown(m, before, p) && |before| <= |steps| && steps[..|before|] == before
    ensures Shown(n, steps, p)
  {
    var k :| m <= k < |before| && before[k].1.Names(p.output, p.i);
    assert steps[k] == before[k];
  }

  lemma OwnNothing(steps: Steps, p: Plan)
    ensures OwnSince(|steps|, steps, p)
  {
  }

  lemma ProgressStart(s: State, p: Plan)
    requires s.Holds(p.i, []) && !s.Names(p.output, p.i)
    ensures Progress(s, p, [])
  {
  }

  lemma HoldsOf(s: State, p: Plan, written: Bytes)
    requires Progress(s, p, written)
    ensures s.Holds(p.i, written)
  {
  }
}
