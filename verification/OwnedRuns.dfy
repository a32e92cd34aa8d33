/**
 The transitions of the owned qualification tree: directories added on the way to a file, links between pinned
 directories seen again, the completion marker, and runs of observations.
 */
module OwnedRuns {
  import opened Wrappers
  import opened FileSystems
  import opened OwnedFiles

  // ----- Making directories -----

  /** The transitions from position n on only make directories under these names. */
  ghost predicate MadeSince(n: nat, steps: Steps, keys: set<Key>) {
    n <= |steps| && forall k :: n <= k < |steps| ==> AddsIn(steps[k].0, steps[k].1, keys)
  }

  lemma MadeNothing(steps: Steps, keys: set<Key>)
    ensures MadeSince(|steps|, steps, keys)
  {
  }

  lemma MadeJoin(n: nat, before: Steps, steps: Steps, keys: set<Key>, more: set<Key>)
    requires MadeSince(n, before, keys) && MadeSince(|before|, steps, more) && Continues(before, steps) && keys <= more
    ensures MadeSince(n, steps, more)
  {
    forall k | n <= k < |steps| ensures AddsIn(steps[k].0, steps[k].1, more) {
      if k < |before| {
        assert steps[k] == before[k] && AddsIn(before[k].0, before[k].1, keys);
        AddsWider(before[k].0, before[k].1, keys, more);
      }
    }
  }

  lemma AddsWider(s: State, t: State, keys: set<Key>, more: set<Key>)
    requires AddsIn(s, t, keys) && keys <= more
    ensures AddsIn(s, t, more)
  {
    if s != t {
      var key, i :| key in keys && MakesDirectory(s, t, key, i);
      assert key in more;
    }
  }

  lemma MadeWider(n: nat, steps: Steps, keys: set<Key>, more: set<Key>)
    requires MadeSince(n, steps, keys) && keys <= more
    ensures MadeSince(n, steps, more)
  {
    MadeNothing(steps, more);
    MadeJoin(n, steps, steps, keys, more);
  }

  lemma ObservedOnly(before: Steps, steps: Steps, keys: set<Key>)
    requires |steps| == |before| + 1 && steps[|before|].0 == steps[|before|].1
    ensures MadeSince(|before|, steps, keys)
  {
  }

  lemma MadeOne(before: Steps, steps: Steps, key: Key, i: Inode, keys: set<Key>)
    requires |steps| == |before| + 1 && MakesDirectory(steps[|before|].0, steps[|before|].1, key, i) && key in keys
    ensures MadeSince(|before|, steps, keys)
  {
  }

  // ----- Directories seen -----

  ghost predicate Seen(steps: Steps, k: nat, key: Key, i: Inode) {
    k < |steps| && steps[k].1.Names(key, i) && IsDirectory(steps[k].1, key)
  }

  /** Some state from position n on had this entry as this directory. */
  ghost predicate Checked(n: nat, steps: Steps, key: Key, i: Inode) {
    exists k :: n <= k < |steps| && Seen(steps, k, key, i)
  }

  lemma CheckedLater(n: nat, m: nat, before: Steps, steps: Steps, key: Key, i: Inode)
    requires n <= m && Checked(m, before, key, i) && Continues(before, steps)
    ensures Checked(n, steps, key, i)
  {
    var k :| m <= k < |before| && Seen(before, k, key, i);
    assert steps[k] == before[k];
    assert Seen(steps, k, key, i);
  }

  /** From position n on, the link was seen to lead from its open parent to its open child. */
  ghost predicate LinkChecked(open: map<Fd, Inode>, n: nat, steps: Steps, link: (Fd, Name, Fd)) {
    link.0 in open && link.2 in open && Checked(n, steps, (open[link.0], link.1), open[link.2])
  }

  ghost predicate LinksChecked(open: map<Fd, Inode>, n: nat, steps: Steps, links: seq<(Fd, Name, Fd)>) {
    forall l :: 0 <= l < |links| ==> LinkChecked(open, n, steps, links[l])
  }

  /** The later table keeps the descriptors of the earlier one. */
  ghost predicate Grown(open: map<Fd, Inode>, now: map<Fd, Inode>) {
    forall x :: x in open ==> x in now && now[x] == open[x]
  }

  lemma LinksLater(open: map<Fd, Inode>, now: map<Fd, Inode>, n: nat, m: nat, before: Steps, steps: Steps,
                   links: seq<(Fd, Name, Fd)>)
    requires n <= m && LinksChecked(open, m, before, links) && Continues(before, steps) && Grown(open, now)
    ensures LinksChecked(now, n, steps, links)
  {
    hide Checked;
    forall l | 0 <= l < |links| ensures LinkChecked(now, n, steps, links[l]) {
      assert LinkChecked(open, m, before, links[l]);
      CheckedLater(n, m, before, steps, (open[links[l].0], links[l].1), open[links[l].2]);
    }
  }

  lemma LinksExtend(open: map<Fd, Inode>, n: nat, before: Steps, steps: Steps, links: seq<(Fd, Name, Fd)>,
                    link: (Fd, Name, Fd))
    requires LinksChecked(open, n, before, links) && Continues(before, steps) && LinkChecked(open, n, steps, link)
    ensures LinksChecked(open, n, steps, links + [link])
  {
    hide LinkChecked;
    LinksLater(open, open, n, n, before, steps, links);
  }

  /**
   The entry was opened as this directory; if it was to be created, it was made or found to exist right before.
   */
  ghost predicate Reached(n: nat, steps: Steps, key: Key, i: Inode, create: bool) {
    exists m :: n <= m < |steps| && Seen(steps, m, key, i) && (create ==> n < m && key in steps[m - 1].1.entries)
  }

  lemma ReachedLater(n: nat, m: nat, before: Steps, steps: Steps, key: Key, i: Inode, create: bool)
    requires n <= m && Reached(m, before, key, i, create) && Continues(before, steps)
    ensures Reached(n, steps, key, i, create)
  {
    var k :| m <= k < |before| && Seen(before, k, key, i) && (create ==> m < k && key in before[k - 1].1.entries);
    assert steps[k] == before[k] && (create ==> steps[k - 1] == before[k - 1]);
    assert Seen(steps, k, key, i);
  }

  /** Following the first components of a path from `top`, each was reached as a directory of the one before. */
  ghost predicate Descent(n: nat, steps: Steps, top: Inode, parts: seq<Name>, trail: seq<Inode>, create: bool) {
    1 <= |trail| <= |parts| && trail[0] == top &&
    forall k, l :: 0 <= k && l == k + 1 && l < |trail| ==> Reached(n, steps, (trail[k], parts[k]), trail[l], create)
  }

  lemma DescentStart(n: nat, steps: Steps, top: Inode, parts: seq<Name>, create: bool)
    requires parts != []
    ensures Descent(n, steps, top, parts, [top], create)
  {
  }

  lemma DescentLater(n: nat, m: nat, before: Steps, steps: Steps, top: Inode, parts: seq<Name>, trail: seq<Inode>,
                     create: bool)
    requires n <= m && Descent(m, before, top, parts, trail, create) && Continues(before, steps)
    ensures Descent(n, steps, top, parts, trail, create)
  {
    hide Reached;
    forall k, l | 0 <= k && l == k + 1 && l < |trail|
      ensures Reached(n, steps, (trail[k], parts[k]), trail[l], create)
    {
      assert Reached(m, before, (trail[k], parts[k]), trail[l], create);
      ReachedLater(n, m, before, steps, (trail[k], parts[k]), trail[l], create);
    }
  }

  lemma DescentStep(n: nat, before: Steps, steps: Steps, top: Inode, parts: seq<Name>, trail: seq<Inode>, next: Inode,
                    create: bool)
    requires Descent(n, before, top, parts, trail, create) && |trail| < |parts| && n <= |before|
    requires Continues(before, steps)
    requires Reached(|before|, steps, (trail[|trail| - 1], parts[|trail| - 1]), next, create)
    ensures Descent(n, steps, top, parts, trail + [next], create)
  {
    hide Reached;
    DescentLater(n, n, before, steps, top, parts, trail, create);
    var longer := trail + [next];
    forall k, l | 0 <= k && l == k + 1 && l < |longer|
      ensures Reached(n, steps, (longer[k], parts[k]), longer[l], create)
    {
      if l < |trail| {
        assert Reached(n, steps, (trail[k], parts[k]), trail[l], create);
      } else {
        ReachedLater(n, |before|, steps, steps, (trail[k], parts[k]), next, create);
      }
    }
  }

  /** The names under which the directories of a path may be made on the way: none unless asked to create them. */
  ghost function TrailKeys(parts: seq<Name>, trail: seq<Inode>, create: bool): set<Key> {
    if create then set k | 0 <= k < |trail| && k < |parts| - 1 :: (trail[k], parts[k]) else {}
  }

  lemma TrailKeysStep(parts: seq<Name>, trail: seq<Inode>, next: Inode, create: bool)
    requires 1 <= |trail| < |parts|
    ensures TrailKeys(parts, trail, create) <= TrailKeys(parts, trail + [next], create)
    ensures create ==> (trail[|trail| - 1], parts[|trail| - 1]) in TrailKeys(parts, trail, create)
  {
    var longer := trail + [next];
    forall key | key in TrailKeys(parts, trail, create) ensures key in TrailKeys(parts, longer, create) {
      var k :| 0 <= k < |trail| && k < |parts| - 1 && key == (trail[k], parts[k]);
      assert longer[k] == trail[k];
    }
  }

  /** The name did not exist, `made` was made there as a new directory, and `found` was opened there later. */
  ghost predicate Reserved(n: nat, steps: Steps, key: Key, made: Inode, found: Inode) {
    exists k, m :: n <= k < m < |steps| && MakesDirectory(steps[k].0, steps[k].1, key, made) &&
      Seen(steps, m, key, found)
  }

  lemma ReservedLater(n: nat, from: nat, before: Steps, steps: Steps, key: Key, made: Inode, found: Inode)
    requires n <= from && Reserved(from, before, key, made, found) && Continues(before, steps)
    ensures Reserved(n, steps, key, made, found)
  {
    hide MakesDirectory;
    var k, m :| from <= k < m < |before| && MakesDirectory(before[k].0, before[k].1, key, made) &&
      Seen(before, m, key, found);
    assert steps[k] == before[k] && steps[m] == before[m];
    assert Seen(steps, m, key, found);
  }

  lemma RelyStill(s: State, t: State, g: Guard, key: Key)
    requires Rely(s, t, g) && key in g.still
    ensures SameEntry(s, t, key)
  {
  }

  lemma RelyKeeps(s: State, t: State, g: Guard)
    requires Rely(s, t, g)
    ensures Keeps(s, t, g.still)
  {
  }

  lemma RelyMine(s: State, t: State, g: Guard, i: Inode)
    requires Rely(s, t, g)
    ensures i in g.mine && i in s.nodes ==> t.Content(i) == Some(s.nodes[i])
  {
  }

  lemma Adopted(before: map<Fd, Inode>, now: map<Fd, Inode>, held: set<Fd>, x: Fd)
    requires x !in before && now - {x} == before
    ensures now - (held + {x}) == before - held && Grown(before, now)
  {
    assert now - (held + {x}) == (now - {x}) - held;
    forall y | y in before ensures y in now && now[y] == before[y] {
      assert y in now - {x};
    }
  }

  // ----- Observations -----

  /** The later list extends the earlier one by observations, other processes moving within the guard. */
  ghost predicate Quiet(before: Steps, steps: Steps, s: State, now: State, g: Guard) {
    Continues(before, steps) && Rely(s, now, g) &&
    forall k :: |before| <= k < |steps| ==> steps[k].0 == steps[k].1 && Rely(s, steps[k].1, g)
  }

  lemma QuietStart(steps: Steps, s: State, g: Guard)
    requires WellFormed(s)
    ensures Quiet(steps, steps, s, s, g)
  {
    hide Rely;
    RelyReflexive(s, g);
  }

  lemma QuietExtend(start: Steps, before: Steps, steps: Steps, origin: State, s: State, now: State, g: Guard)
    requires Quiet(start, before, origin, s, g) && Extends(before, steps, s, now, g) && steps[|before|].0 == now
    ensures Quiet(start, steps, origin, now, g)
  {
    hide Rely;
    RelyTransitive(origin, s, now, g);
    forall k | |start| <= k < |steps| ensures steps[k].0 == steps[k].1 && Rely(origin, steps[k].1, g) {
      if k < |before| {
        assert steps[k] == before[k];
      }
    }
    assert steps[..|start|] == before[..|start|];
  }

  lemma QuietFacts(before: Steps, steps: Steps, s: State, now: State, g: Guard)
    requires Quiet(before, steps, s, now, g)
    ensures Continues(before, steps) && Keeps(s, now, g.still)
    ensures forall k :: |before| <= k < |steps| ==> steps[k].0 == steps[k].1
  {
  }

  lemma QuietMade(before: Steps, steps: Steps, s: State, now: State, g: Guard, keys: set<Key>)
    requires Quiet(before, steps, s, now, g)
    ensures MadeSince(|before|, steps, keys)
  {
  }

  /** Observations are transitions of an owned run. */
  lemma QuietOwn(n: nat, before: Steps, steps: Steps, s: State, now: State, g: Guard, p: Plan, written: Bytes)
    requires OwnSince(n, before, p) && Quiet(before, steps, s, now, g) && Guards(g, p) && Progress(s, p, written)
    ensures OwnSince(n, steps, p) && Progress(now, p, written)
    ensures now.Names(p.output, p.i) ==> s.Names(p.output, p.i)
    ensures now.Names(p.temporary, p.i) ==> s.Names(p.temporary, p.i)
    ensures Keeps(s, now, g.still)
  {
    hide OwnStep, Progress;
    ObserveStep(s, now, g, p, written);
    forall k | n <= k < |steps| ensures OwnStep(steps[k].0, steps[k].1, p) {
      if k < |before| {
        assert steps[k] == before[k];
      } else {
        ObserveStep(s, steps[k].1, g, p, written);
      }
    }
  }

  // ----- The transitions of `write` -----

  /**
   Before the private file is created as a new file, only directories are made, and only under these names; owned
   steps afterwards.
   */
  ghost predicate WriteRun(start: Steps, birth: nat, steps: Steps, p: Plan, keys: set<Key>) {
    |start| <= birth <= |steps| && Continues(start, steps) &&
    (forall k :: |start| <= k < birth ==> AddsIn(steps[k].0, steps[k].1, keys)) &&
    (birth < |steps| ==> Born(birth, steps, p)) && OwnSince(birth, steps, p)
  }

  lemma WriteRunFrom(start: Steps, before: Steps, birth: nat, steps: Steps, p: Plan, keys: set<Key>)
    requires MadeSince(|start|, before, keys) && Continues(start, before) && |before| <= birth
    requires OwnSince(birth, steps, p) && Continues(before, steps) && (birth < |steps| ==> Born(birth, steps, p))
    requires forall k :: |before| <= k < birth ==> steps[k].0 == steps[k].1
    ensures WriteRun(start, birth, steps, p, keys)
  {
    hide OwnStep;
    forall k | |start| <= k < birth ensures AddsIn(steps[k].0, steps[k].1, keys) {
      if k < |before| {
        assert steps[k] == before[k];
      }
    }
    ContinuesOn(start, before, steps);
  }

  lemma WriteRunQuiet(start: Steps, birth: nat, before: Steps, steps: Steps, s: State, now: State, g: Guard,
                      p: Plan, written: Bytes, keys: set<Key>)
    requires WriteRun(start, birth, before, p, keys) && birth < |before| && Quiet(before, steps, s, now, g)
    requires Guards(g, p) && Progress(s, p, written)
    ensures WriteRun(start, birth, steps, p, keys) && Progress(now, p, written)
    ensures Continues(before, steps) && Keeps(s, now, g.still)
    ensures now.Names(p.temporary, p.i) ==> s.Names(p.temporary, p.i)
  {
    hide OwnStep, Rely, AddsIn, Progress, Guards;
    QuietOwn(birth, before, steps, s, now, g, p, written);
    forall k | |start| <= k < birth ensures AddsIn(steps[k].0, steps[k].1, keys) {
      assert steps[k] == before[k];
    }
    assert steps[birth] == before[birth];
    ContinuesOn(start, before, steps);
  }

  lemma WriteRunAtomic(start: Steps, birth: nat, steps: Steps, p: Plan, keys: set<Key>)
    requires WriteRun(start, birth, steps, p, keys) && p.replace && (birth < |steps| ==> p.temporary != p.output)
    ensures AtomicWhenSafe(birth, steps, p)
    ensures p.calm ==> forall k :: birth <= k < |steps| ==> Atomic(steps[k].0, steps[k].1, p)
  {
    hide OwnStep, Born, Atomic;
    if birth < |steps| {
      RunAtomicExactly(birth, steps, p);
    }
  }

  // ----- The transitions of `move_source` -----

  /** The target was seen absent at step n, and the next step renamed the source to it. */
  ghost predicate Moves(n: nat, steps: Steps, source: Key, target: Key, still: set<Key>) {
    n + 1 < |steps| && steps[n].0 == steps[n].1 && target !in steps[n].1.entries &&
    source in steps[n + 1].0.entries && steps[n + 1].1 == Renamed(steps[n + 1].0, source, target) &&
    (target in still ==> target !in steps[n + 1].0.entries)
  }

  /** Only directories are made before the rename, which is step `at`, and nothing is changed after it. */
  ghost predicate MoveRun(start: Steps, at: nat, steps: Steps, source: Key, target: Key, still: set<Key>,
                          keys: set<Key>)
  {
    Continues(start, steps) && |start| <= at <= |steps| &&
    (forall k :: |start| <= k < at ==> AddsIn(steps[k].0, steps[k].1, keys)) &&
    (at < |steps| ==> at > |start| && Moves(at - 1, steps, source, target, still)) &&
    forall k :: at < k < |steps| ==> steps[k].0 == steps[k].1
  }

  /** No existing entry was replaced. */
  ghost predicate Spares(a: State, b: State, key: Key) {
    key in a.entries ==> SameEntry(a, b, key)
  }

  ghost predicate MoveSafe(a: State, source: Key, target: Key) {
    source in a.entries && (target !in a.entries || a.entries[target] == a.entries[source])
  }

  /** A run in which the destination is not spared: another process puts a file there after the check. */
  lemma MoveRace() returns (steps: Steps, g: Guard, source: Key, target: Key)
    ensures |steps| == 2 && Interleaved(steps, g) && MoveRun([], 1, steps, source, target, g.still, {})
    ensures !MoveSafe(steps[1].0, source, target) && !Spares(steps[1].0, steps[1].1, target)
  {
    source, target, g := (0, "a"), (0, "b"), Guard({}, {}, {});
    var seen := State(map[0 := Directory, 1 := File([]), 2 := File([])], map[source := 1]);
    var raced := State(seen.nodes, map[source := 1, target := 2]);
    steps := [(seen, seen), (raced, Renamed(raced, source, target))];
    assert forall k :: 0 <= k < 1 ==> AddsIn(steps[k].0, steps[k].1, {});
  }

  lemma MoveNothing(start: Steps, steps: Steps, source: Key, target: Key, still: set<Key>, keys: set<Key>)
    requires MadeSince(|start|, steps, keys) && Continues(start, steps)
    ensures MoveRun(start, |steps|, steps, source, target, still, keys)
  {
  }

  lemma MoveRefused(start: Steps, before: Steps, steps: Steps, source: Key, target: Key, still: set<Key>,
                    keys: set<Key>)
    requires MadeSince(|start|, before, keys) && Continues(start, before) && Continues(before, steps)
    requires forall k :: |before| <= k < |steps| ==> steps[k].0 == steps[k].1
    ensures MoveRun(start, |steps|, steps, source, target, still, keys)
  {
    forall k | |start| <= k < |steps| ensures AddsIn(steps[k].0, steps[k].1, keys) {
      if k < |before| {
        assert steps[k] == before[k];
      }
    }
    ContinuesOn(start, before, steps);
  }

  lemma MoveMade(start: Steps, before: Steps, steps: Steps, source: Key, target: Key, still: set<Key>, keys: set<Key>)
    requires MadeSince(|start|, before, keys) && Continues(start, before) && Continues(before, steps)
    requires |steps| == |before| + 2 && Moves(|before|, steps, source, target, still)
    ensures MoveRun(start, |before| + 1, steps, source, target, still, keys)
    ensures Spares(steps[|before| + 1].0, steps[|before| + 1].1, target) <==>
      MoveSafe(steps[|before| + 1].0, source, target)
  {
    forall k | |start| <= k < |before| + 1 ensures AddsIn(steps[k].0, steps[k].1, keys) {
      if k < |before| {
        assert steps[k] == before[k];
      }
    }
    ContinuesOn(start, before, steps);
  }

  lemma MoveRunQuiet(start: Steps, at: nat, before: Steps, steps: Steps, source: Key, target: Key, still: set<Key>,
                     keys: set<Key>)
    requires MoveRun(start, at, before, source, target, still, keys) && at < |before| && Continues(before, steps)
    requires forall k :: |before| <= k < |steps| ==> steps[k].0 == steps[k].1
    ensures MoveRun(start, at, steps, source, target, still, keys) && steps[at] == before[at]
  {
    forall k | 0 <= k < |before| ensures steps[k] == before[k] {
      assert steps[k] == steps[..|before|][k];
    }
    ContinuesOn(start, before, steps);
  }

  // ----- The completion marker -----

  /**
   A transition of `publish` once the marker exists: only the marker and our file change, nobody else's marker
   does.
   */
  ghost predicate MarkerStep(a: State, b: State, i: Inode, marker: Key) {
    Touches(a, b, {i}, {marker}) && OnlyOurs(a, b, marker, i)
  }

  ghost predicate MarkerSince(n: nat, steps: Steps, i: Inode, marker: Key) {
    n <= |steps| && forall k :: n <= k < |steps| ==> MarkerStep(steps[k].0, steps[k].1, i, marker)
  }

  /** The step that created the marker: neither the file nor the name existed. */
  ghost predicate MarkerBorn(k: nat, steps: Steps, i: Inode, marker: Key) {
    k < |steps| && marker !in steps[k].0.entries && i !in steps[k].0.nodes &&
    steps[k].1 == State(steps[k].0.nodes[i := File([])], steps[k].0.entries[marker := i])
  }

  /** From position n on, the file had exactly this content. */
  ghost predicate HeldSince(n: nat, steps: Steps, i: Inode, data: Bytes) {
    n <= |steps| && forall k :: n <= k < |steps| ==> steps[k].1.Holds(i, data)
  }

  lemma MarkerQuiet(n: nat, before: Steps, steps: Steps, s: State, now: State, g: Guard, i: Inode, marker: Key,
                    data: Bytes)
    requires MarkerSince(n, before, i, marker) && Quiet(before, steps, s, now, g) && i in g.mine && s.Holds(i, data)
    ensures MarkerSince(n, steps, i, marker) && Continues(before, steps)
    ensures now.Holds(i, data) && HeldSince(|before|, steps, i, data) && Keeps(s, now, g.still)
  {
    forall k | n <= k < |steps| ensures MarkerStep(steps[k].0, steps[k].1, i, marker) {
      if k < |before| {
        assert steps[k] == before[k];
      }
    }
  }

  lemma HeldJoin(n: nat, before: Steps, steps: Steps, i: Inode, data: Bytes)
    requires HeldSince(n, before, i, data) && HeldSince(|before|, steps, i, data) && steps[..|before|] == before
    ensures HeldSince(n, steps, i, data)
  {
    forall k | n <= k < |steps| ensures steps[k].1.Holds(i, data) {
      if k < |before| {
        assert steps[k] == before[k];
      }
    }
  }

  lemma MarkerNothing(steps: Steps, i: Inode, marker: Key)
    ensures MarkerSince(|steps|, steps, i, marker)
  {
  }

  /** A prefix of observations followed by observations. */
  lemma SplicePrefix(start: Steps, before: Steps, steps: Steps, birth: nat)
    requires Continues(start, before) && Continues(before, steps) && |before| <= birth <= |steps|
    requires forall k :: |start| <= k < |before| ==> before[k].0 == before[k].1
    requires forall k :: |before| <= k < birth ==> steps[k].0 == steps[k].1
    ensures Continues(start, steps)
    ensures forall k :: |start| <= k < birth ==> steps[k].0 == steps[k].1
  {
    forall k | |start| <= k < birth ensures steps[k].0 == steps[k].1 {
      if k < |before| {
        assert steps[k] == before[k];
      }
    }
    ContinuesOn(start, before, steps);
  }

  lemma MarkerBirth(before: Steps, steps: Steps, s: State, now: State, g: Guard, i: Inode, marker: Key)
    requires Extends(before, steps, s, now, g) && MarkerBorn(|before|, steps, i, marker)
    ensures MarkerSince(|before|, steps, i, marker) && now.Holds(i, [])
    ensures marker in g.still ==> marker !in s.entries
  {
  }

  lemma MarkerUnlink(n: nat, before: Steps, steps: Steps, s: State, now: State, g: Guard, i: Inode, marker: Key,
                     created: Option<Inode>)
    requires MarkerSince(n, before, i, marker) && Extends(before, steps, s, now, g)
    requires (created.Some? ==> created.value == i) && now == Unlinked(steps[|before|].0, marker, created)
    ensures MarkerSince(n, steps, i, marker)
    ensures created.Some? ==> !now.Names(marker, i)
  {
    forall k | n <= k < |steps| ensures MarkerStep(steps[k].0, steps[k].1, i, marker) {
      if k < |before| {
        assert steps[k] == before[k];
      }
    }
  }

  lemma MarkerWrites(n: nat, before: Steps, steps: Steps, i: Inode, marker: Key)
    requires MarkerSince(n, before, i, marker) && Continues(before, steps)
    requires forall k :: |before| <= k < |steps| ==> Touches(steps[k].0, steps[k].1, {i}, {})
    ensures MarkerSince(n, steps, i, marker)
  {
    forall k | n <= k < |steps| ensures MarkerStep(steps[k].0, steps[k].1, i, marker) {
      if k < |before| {
        assert steps[k] == before[k];
      }
    }
  }
}
