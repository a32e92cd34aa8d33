/**
 Publication of a fresh report (`_publish`, scripts/benchmark_callee_context.py, lines 389-478): write a
 private temporary, link it to the output name, and remove names only while they identify it.
 */
module ReportPublication {
  import opened Wrappers
  import opened FileSystems
  import opened OwnedFiles

  /** An input that must not be overwritten: the entry that names its directory, and its own name. */
  datatype Input = Input(parent: Key, name: Name)

  /** The output: the entry of its parent directory, the directory owned before measurement, and the name in it. */
  datatype Destination = Destination(place: Key, directory: Inode, output: Name, inputs: seq<Input>)

  /** The parent path is the owned directory, and no protected input is the output. */
  ghost predicate ParentOwned(s: State, d: Destination) {
    s.Names(d.place, d.directory) && IsDirectory(s, d.place) &&
    forall k :: 0 <= k < |d.inputs| && d.inputs[k].name == d.output ==> !s.Names(d.inputs[k].parent, d.directory)
  }

  /** One of these steps saw the parent owned. */
  ghost predicate ParentSeen(from: nat, to: nat, steps: Steps, d: Destination) {
    exists k :: from <= k < to && k < |steps| && ParentOwned(steps[k].1, d)
  }

  lemma ParentSeenLater(from: nat, to: nat, before: Steps, steps: Steps, d: Destination)
    requires ParentSeen(from, to, before, d) && Continues(before, steps)
    ensures ParentSeen(from, to, steps, d)
  {
    hide ParentOwned;
    var k :| from <= k < to && k < |before| && ParentOwned(before[k].1, d);
    assert steps[k] == before[k];
  }

  /** Step `at` linked our file to the output, between one sight of the owned parent and another. */
  ghost predicate Confirmed(n: nat, at: nat, steps: Steps, p: Plan, d: Destination) {
    n <= at < |steps| && IsLink(steps[at].0, steps[at].1, p) && steps[at].1.Names(p.output, p.i) &&
    ParentSeen(n, at, steps, d) && ParentSeen(at + 1, |steps|, steps, d)
  }

  lemma ConfirmedLater(n: nat, m: nat, at: nat, before: Steps, steps: Steps, p: Plan, d: Destination)
    requires n <= m && Confirmed(m, at, before, p, d) && Continues(before, steps)
    ensures Confirmed(n, at, steps, p, d) && Shown(n, steps, p)
  {
    hide ParentSeen, IsLink;
    assert steps[at] == before[at];
    ParentSeenLater(m, at, before, steps, d);
    ParentSeenLater(at + 1, |before|, before, steps, d);
    ParentSeenWider(n, m, at, at, steps, d);
    ParentSeenWider(at + 1, at + 1, |before|, |steps|, steps, d);
  }

  lemma ParentSeenWider(n: nat, from: nat, to: nat, end: nat, steps: Steps, d: Destination)
    requires n <= from && to <= end && ParentSeen(from, to, steps, d)
    ensures ParentSeen(n, end, steps, d)
  {
    hide ParentOwned;
  }

  /** The plan of publishing `data`: both names lie in the owned directory. */
  ghost predicate Planned(p: Plan, d: Destination, temporary: Name, data: Bytes) {
    p == Plan(p.i, (d.directory, temporary), (d.directory, d.output), data, false, p.calm)
  }

  /** Every transition of the run: nothing changes before the private file is created as a new file. */
  ghost predicate Run(start: nat, birth: nat, steps: Steps, p: Plan) {
    start <= birth <= |steps| && (forall k :: start <= k < birth ==> steps[k].0 == steps[k].1) &&
    (birth < |steps| ==> Born(birth, steps, p)) && OwnSince(birth, steps, p)
  }

  /** `verify()`: the parent path still is the owned directory, and no protected input is the output. */
  method VerifyParent(fs: FileSystem, d: Destination, g: Guard) returns (ok: bool)
    requires fs.Valid()
    modifies fs`state, fs`steps, fs`outcomes
    ensures fs.Valid() && fs.Stepped(g) && fs.steps[|old(fs.steps)|].0 == fs.state
    ensures ok ==> ParentOwned(fs.state, d) && ParentSeen(|old(fs.steps)|, |fs.steps|, fs.steps, d)
    ensures Answered(old(fs.outcomes), fs.outcomes, ok)
    ensures !ok && fs.outcomes.faults == old(fs.outcomes).faults ==> !ParentOwned(fs.state, d)
  {
    var failed := fs.Observe(g);
    var entries, nodes := fs.state.entries, fs.state.nodes;
    ok := !failed && d.place in entries && entries[d.place] in nodes && nodes[entries[d.place]].Directory? &&
      entries[d.place] == d.directory;
    var k := 0;
    while ok && k < |d.inputs|
      invariant 0 <= k <= |d.inputs|
      invariant ok ==>
        !failed && fs.state.Names(d.place, d.directory) && IsDirectory(fs.state, d.place) &&
        forall l :: 0 <= l < k && d.inputs[l].name == d.output ==> !fs.state.Names(d.inputs[l].parent, d.directory)
      invariant !ok ==> failed || !ParentOwned(fs.state, d)
    {
      var input := d.inputs[k];
      if input.name == d.output && input.parent in entries && entries[input.parent] == d.directory {
        ok := false;
      }
      k := k + 1;
    }
    fs.Answer(ok);
    assert ok ==> ParentOwned(fs.steps[|old(fs.steps)|].1, d);
  }

  /** Before the temporary exists: identify the directory, check the parent, require a fresh output. */
  method Prepare(fs: FileSystem, directory: Fd, d: Destination, still: set<Key>) returns (ready: bool)
    requires fs.Valid() && directory in fs.open && fs.open[directory] == d.directory
    modifies fs`state, fs`steps, fs`outcomes, fs`calls
    ensures fs.Valid() && Unchanging(|old(fs.steps)|, old(fs.steps), fs.steps) && Keeps(old(fs.state), fs.state, still)
    ensures |fs.calls| == |old(fs.calls)| + 1 && Answered(old(fs.outcomes), fs.outcomes, ready)
    ensures ready ==> (d.directory, d.output) !in fs.state.entries
    ensures ready ==> ParentSeen(|old(fs.steps)|, |fs.steps|, fs.steps, d)
  {
    hide ParentOwned;
    var g := Guard({}, {}, still);
    var parent := fs.Identify(directory, g);
    if parent.None? { return false; }
    var verified := VerifyParent(fs, d, g);
    if !verified { return false; }
    ghost var seen := fs.steps;
    ready := fs.RequireAbsent((d.directory, d.output), g);
    ParentSeenLater(|old(fs.steps)| + 1, |seen|, seen, fs.steps, d);
  }

  /** The later list extends the earlier one by observations only. */
  ghost predicate Unchanging(n: nat, before: Steps, steps: Steps) {
    n <= |before| && Continues(before, steps) &&
    forall k :: n <= k < |steps| ==> steps[k].0 == steps[k].1
  }

  lemma FailedCreation(before: Steps, steps: Steps, s: State, now: State, g: Guard, start: nat)
    requires Extends(before, steps, s, now, g) && steps[|before|].0 == now
    requires start <= |before| && forall k :: start <= k < |before| ==> before[k].0 == before[k].1
    ensures forall k :: start <= k < |steps| ==> steps[k].0 == steps[k].1
    ensures Keeps(s, now, g.still)
  {
    forall k | start <= k < |steps| ensures steps[k].0 == steps[k].1 {
      if k < |before| {
        assert steps[k] == before[k];
      }
    }
  }

  lemma RunFrom(start: nat, birth: nat, before: Steps, born: Steps, steps: Steps, p: Plan)
    requires OwnSince(birth, steps, p) && Born(birth, born, p) && birth == |before| && born[..birth] == before
    requires Continues(born, steps)
    requires start <= birth && forall k :: start <= k < birth ==> before[k].0 == before[k].1
    ensures Run(start, birth, steps, p)
  {
    hide OwnStep;
    forall k | start <= k < birth ensures steps[k].0 == steps[k].1 {
      assert steps[k] == born[k] && born[k] == before[k];
    }
    assert steps[birth] == born[birth];
  }

  /** The `try` block up to the link: identify, write, sync, check the parent and the temporary. */
  method FillTemporary(fs: FileSystem, fd: Fd, d: Destination, temporary: Name, data: Bytes, g: Guard, ghost p: Plan)
    returns (ok: bool, identity: Option<Inode>, ghost written: Bytes)
    requires fs.Valid() && fd in fs.open && fs.open[fd] == p.i && Guards(g, p) && Planned(p, d, temporary, data)
    requires fs.state.Holds(p.i, []) && !fs.state.Names(p.output, p.i)
    modifies fs`state, fs`steps, fs`outcomes, fs`calls
    ensures fs.Valid() && Continues(old(fs.steps), fs.steps)
    ensures OwnSince(|old(fs.steps)|, fs.steps, p) && Progress(fs.state, p, written)
    ensures !fs.state.Names(p.output, p.i) && Keeps(old(fs.state), fs.state, g.still)
    ensures identity.Some? ==> identity.value == p.i
    ensures identity.None? ==> fs.calls == old(fs.calls) + [Fstat(p.i, false)]
    ensures Answered(old(fs.outcomes), fs.outcomes, ok)
    ensures ok ==> Synced(|old(fs.calls)|, fs.calls, p.i, data)
    ensures ok ==> identity.Some? && written == data && fs.state.Names(p.temporary, p.i)
    ensures ok ==> ParentSeen(|old(fs.steps)|, |fs.steps|, fs.steps, d)
  {
    hide OwnStep, OwnSince, Rely, Progress, ParentOwned, ParentSeen;
    ghost var n, origin := |fs.steps|, fs.state;
    written, ok := [], false;
    OwnNothing(fs.steps, p);
    ProgressStart(fs.state, p);

    ghost var s, before := fs.state, fs.steps;
    identity := fs.Identify(fd, g);
    ObserveExtends(n, before, fs.steps, s, fs.state, g, p, []);
    if identity.None? { return; }

    s, before := fs.state, fs.steps;
    var wrote;
    HoldsOf(fs.state, p, []);
    wrote, written := fs.WriteAll(fd, data, g);
    WriteExtends(n, before, fs.steps, s, fs.state, p, written);
    assert Keeps(origin, fs.state, g.still);
    if !wrote { return; }

    s, before := fs.state, fs.steps;
    var synced := fs.Sync(fd, g);
    ObserveExtends(n, before, fs.steps, s, fs.state, g, p, written);
    if !synced { return; }
    HoldsOf(fs.state, p, written);
    assert fs.calls[|fs.calls| - 1] == Fsync(p.i, Some(File(data)), true);

    s, before := fs.state, fs.steps;
    var verified := VerifyParent(fs, d, g);
    ObserveExtends(n, before, fs.steps, s, fs.state, g, p, written);
    if !verified { return; }
    ParentSeenWider(n, |before|, |fs.steps|, |fs.steps|, fs.steps, d);

    s, before := fs.state, fs.steps;
    ok := fs.CheckOwned((d.directory, temporary), identity.value, g);
    ObserveExtends(n, before, fs.steps, s, fs.state, g, p, written);
    ParentSeenLater(n, |before|, before, fs.steps, d);
    ParentSeenWider(n, n, |before|, |fs.steps|, fs.steps, d);
  }

  /** The `try` block from the link on: link, check that the output is ours, check the parent again. */
  method LinkAndConfirm(fs: FileSystem, d: Destination, temporary: Name, identity: Inode, g: Guard,
                        ghost n: nat, ghost p: Plan)
    returns (ok: bool, published: bool, ghost at: nat)
    requires fs.Valid() && Guards(g, p) && Planned(p, d, temporary, p.data) && identity == p.i
    requires n <= |fs.steps| && OwnSince(n, fs.steps, p) && Progress(fs.state, p, p.data)
    requires !fs.state.Names(p.output, p.i) && fs.state.Names(p.temporary, p.i)
    requires ParentSeen(n, |fs.steps|, fs.steps, d)
    modifies fs`state, fs`steps, fs`outcomes
    ensures fs.Valid() && Continues(old(fs.steps), fs.steps)
    ensures OwnSince(n, fs.steps, p) && Progress(fs.state, p, p.data)
    ensures !published ==> !fs.state.Names(p.output, p.i) && Keeps(old(fs.state), fs.state, g.still)
    ensures Answered(old(fs.outcomes), fs.outcomes, ok)
    ensures ok ==> published && Confirmed(n, at, fs.steps, p, d)
    ensures ok && p.output in g.still ==> fs.state.Names(p.output, p.i)
  {
    hide OwnStep, OwnSince, Rely, Progress, ParentOwned, ParentSeen;
    published, ok := false, false;
    at := |fs.steps|;
    ghost var s, before := fs.state, fs.steps;
    var linked := fs.Link(d.directory, temporary, d.output, g);
    if !linked {
      ObserveExtends(n, before, fs.steps, s, fs.state, g, p, p.data);
      return;
    }
    published := true;
    LinkExtends(n, before, fs.steps, s, fs.state, g, p);
    ghost var start, link := before, fs.steps;

    s, before := fs.state, fs.steps;
    var owned := fs.CheckOwned((d.directory, d.output), identity, g);
    ObserveExtends(n, before, fs.steps, s, fs.state, g, p, p.data);
    if !owned { return; }
    assert link[at].1.Names(p.output, p.i);

    s, before := fs.state, fs.steps;
    ok := VerifyParent(fs, d, g);
    ObserveExtends(n, before, fs.steps, s, fs.state, g, p, p.data);
    assert fs.steps[at] == before[at] && before[at] == link[at];
    if ok {
      assert fs.steps[..|start|] == start;
      ParentSeenLater(n, |start|, start, fs.steps, d);
      ParentSeenWider(at + 1, |before|, |fs.steps|, |fs.steps|, fs.steps, d);
    }
  }

  /** The handlers: undo the publication on failure, then close and remove the temporary if it is ours. */
  method CleanUp(fs: FileSystem, fd: Fd, d: Destination, temporary: Name,
                 failed: bool, published: bool, known: Option<Inode>, g: Guard,
                 ghost n: nat, ghost written: Bytes, ghost p: Plan)
    returns (identity: Option<Inode>)
    requires fs.Valid() && fd in fs.open && fs.open[fd] == p.i && Guards(g, p) && Planned(p, d, temporary, p.data)
    requires OwnSince(n, fs.steps, p) && Progress(fs.state, p, written)
    requires known.Some? ==> known.value == p.i
    requires published ==> known.Some?
    requires !published ==> !fs.state.Names(p.output, p.i)
    modifies fs`state, fs`steps, fs`outcomes, fs`open, fs`calls
    ensures fs.Valid() && fs.open == old(fs.open) - {fd}
    ensures Continues(old(fs.steps), fs.steps)
    ensures OwnSince(n, fs.steps, p) && Progress(fs.state, p, written)
    ensures failed ==> !fs.state.Names(p.output, p.i)
    ensures identity.Some? ==> !fs.state.Names(p.temporary, p.i)
    ensures known.Some? ==> identity.Some? && fs.outcomes == old(fs.outcomes)
    ensures fs.outcomes.refusals >= old(fs.outcomes).refusals
    ensures identity.None? ==> fs.calls == old(fs.calls) + [Fstat(p.i, false)]
    ensures known.Some? ==> fs.calls == old(fs.calls)
    ensures !failed && p.output in g.still ==> SameEntry(old(fs.state), fs.state, p.output)
  {
    hide OwnStep, OwnSince, Rely, Progress, Unlinked;
    ghost var s, before := fs.state, fs.steps;
    if failed && published {
      fs.UnlinkOwned(d.directory, d.output, known, g);
      UnlinkExtends(n, before, fs.steps, s, fs.state, g, p, written, p.output, known);
    }
    identity := known;
    if identity.None? {
      s, before := fs.state, fs.steps;
      identity := fs.Identify(fd, g);
      ObserveExtends(n, before, fs.steps, s, fs.state, g, p, written);
    }
    fs.Close(fd);
    s, before := fs.state, fs.steps;
    fs.UnlinkOwned(d.directory, temporary, identity, g);
    UnlinkExtends(n, before, fs.steps, s, fs.state, g, p, written, p.temporary, identity);
    ContinuesOn(old(fs.steps), before, fs.steps);
  }

  /** The file could not be identified: both attempts, the second one during cleanup, failed. */
  ghost predicate Unidentified(calls: seq<Call>, i: Inode) {
    |calls| >= 2 && calls[|calls| - 2] == Fstat(i, false) && calls[|calls| - 1] == Fstat(i, false)
  }

  /** The run once the private file exists: fill it, link it, clean up. */
  method PublishBorn(fs: FileSystem, fd: Fd, d: Destination, temporary: Name, data: Bytes, g: Guard,
                     ghost n: nat, ghost p: Plan)
    returns (ok: bool, ghost at: nat)
    requires fs.Valid() && fd in fs.open && fs.open[fd] == p.i && Guards(g, p) && Planned(p, d, temporary, data)
    requires fs.state.Holds(p.i, []) && !fs.state.Names(p.output, p.i)
    requires n <= |fs.steps| && OwnSince(n, fs.steps, p)
    modifies fs
    ensures fs.Valid() && fs.open == old(fs.open) - {fd}
    ensures Continues(old(fs.steps), fs.steps)
    ensures OwnSince(n, fs.steps, p)
    ensures ok ==> fs.state.Holds(p.i, data) && Confirmed(n, at, fs.steps, p, d) && Shown(n, fs.steps, p)
    ensures ok ==> Synced(|old(fs.calls)|, fs.calls, p.i, data)
    ensures ok && p.output in g.still ==> fs.state.Names(p.output, p.i)
    ensures !ok ==> !fs.state.Names(p.output, p.i)
    ensures ok <==> fs.outcomes.refusals == old(fs.outcomes).refusals
    ensures fs.outcomes.refusals >= old(fs.outcomes).refusals
    ensures fs.state.Names(p.temporary, p.i) ==> !ok && Unidentified(fs.calls, p.i)
  {
    hide OwnStep, OwnSince, Rely, Progress, ParentSeen, Guards;
    ghost var born := fs.steps;
    ghost var written;
    var identity, published := None, false;
    ok, identity, written := FillTemporary(fs, fd, d, temporary, data, g, p);
    OwnJoin(n, born, fs.steps, p);
    ghost var filled := fs.steps;
    at := 0;
    if ok {
      ok, published, at := LinkAndConfirm(fs, d, temporary, identity.value, g, |born|, p);
      OwnJoin(n, born, fs.steps, p);
    }
    ghost var linked := fs.steps;
    ContinuesOn(born, filled, linked);
    identity := CleanUp(fs, fd, d, temporary, !ok, published, identity, g, n, written, p);
    ContinuesOn(born, linked, fs.steps);
    HoldsOf(fs.state, p, written);
    if ok {
      ConfirmedLater(n, |born|, at, linked, fs.steps, p, d);
    }
  }

  /**
   Publish `data` under a fresh output name.  Whatever other processes do within the guard and whichever call
   fails: `Run` holds of all our transitions, so our file is a new one, an entry of somebody else is never
   replaced or removed and the output never shows a partial report; a normal return has linked the complete report
   between two sights of the owned parent and removed the temporary; a raise leaves neither name on our file,
   except the temporary when both attempts to identify it failed.  It raises exactly when some call was refused.
   */
  method Publish(fs: FileSystem, directory: Fd, temporary: Name, output: Name, data: Bytes,
                 place: Key, inputs: seq<Input>, still: set<Key>)
    returns (ok: bool, ghost birth: nat, ghost at: nat, ghost p: Plan)
    requires fs.Valid() && directory in fs.open && temporary != output
    modifies fs
    ensures fs.Valid() && fs.open == old(fs.open)
    ensures Continues(old(fs.steps), fs.steps)
    ensures var d := old(fs.open[directory]);
      p == Plan(p.i, (d, temporary), (d, output), data, false, (d, temporary) in still)
    ensures Run(|old(fs.steps)|, birth, fs.steps, p)
    ensures ok ==>
      birth < |fs.steps| && fs.state.Holds(p.i, data) && !fs.state.Names(p.temporary, p.i) &&
      Shown(birth, fs.steps, p) && (p.output in still ==> fs.state.Names(p.output, p.i))
    ensures ok ==> Synced(|old(fs.calls)|, fs.calls, p.i, data)
    ensures var d := Destination(place, old(fs.open[directory]), output, inputs);
      ok ==> ParentSeen(|old(fs.steps)|, birth, fs.steps, d) && Confirmed(birth, at, fs.steps, p, d)
    ensures birth < |fs.steps| && !ok ==> !fs.state.Names(p.output, p.i)
    ensures birth < |fs.steps| && fs.state.Names(p.temporary, p.i) ==> !ok && Unidentified(fs.calls, p.i)
    ensures ok <==> fs.outcomes.refusals == old(fs.outcomes).refusals
    ensures p.output in still && p.output in old(fs.state.entries) ==>
      !ok && SameEntry(old(fs.state), fs.state, p.output)
  {
    hide OwnStep, OwnSince, Rely, Progress, ParentOwned, ParentSeen, Confirmed, Unidentified;
    var d := Destination(place, fs.open[directory], output, inputs);
    ghost var start := |fs.steps|;
    p := Plan(0, (d.directory, temporary), (d.directory, output), data, false, (d.directory, temporary) in still);
    ok, at := false, 0;
    var ready := Prepare(fs, directory, d, still);
    birth := |fs.steps|;
    OwnNothing(fs.steps, p);
    if !ready { return; }
    ghost var s, before := fs.state, fs.steps;
    var g := Guard({}, {}, still);
    var created;
    ghost var i;
    created, i := fs.CreateExclusive(d.directory, temporary, g);
    if created.None? {
      birth := |fs.steps|;
      OwnNothing(fs.steps, p);
      FailedCreation(before, fs.steps, s, fs.state, g, start);
      return;
    }
    p := p.(i := i);
    ghost var born := fs.steps;
    BirthStep(before, born, s, fs.state, g, p);
    HoldsOf(fs.state, p, []);
    var fd := created.value;
    g := Guard({fs.open[fd]}, {(d.directory, temporary), (d.directory, output)}, still);
    ok, at := PublishBorn(fs, fd, d, temporary, data, g, birth, p);
    RunFrom(start, birth, before, born, fs.steps, p);
    ContinuesOn(before, born, fs.steps);
    if ok {
      ParentSeenLater(start, birth, before, fs.steps, d);
    }
    assert fs.open == old(fs.open);
  }
}
