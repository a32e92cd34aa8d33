/**
 The shared filesystem under owned publication (scripts/body_qualification_io.py and `_publish` in
 scripts/benchmark_callee_context.py).

 Other processes act before every system call of ours, within a `Guard`.  Every call of ours may fail.
 `steps` records our own transitions, so that a contract can speak about every intermediate state: the
 first component of a step is the state other processes left, the second the state after our call.
 */
module FileSystems {
  import opened Wrappers

  newtype Byte = x: int | 0 <= x < 256
  type Bytes = seq<Byte>
  type Name = string
  /** The pair (st_dev, st_ino). */
  type Inode = nat
  /** A directory entry: the directory and the name in it. */
  type Key = (Inode, Name)
  type Fd = nat

  datatype Node = File(data: Bytes) | Directory | Symlink

  datatype State = State(nodes: map<Inode, Node>, entries: map<Key, Inode>) {
    predicate Names(key: Key, i: Inode) {
      key in entries && entries[key] == i
    }

    predicate Holds(i: Inode, data: Bytes) {
      i in nodes && nodes[i] == File(data)
    }

    function Content(i: Inode): Option<Node> {
      if i in nodes then Some(nodes[i]) else None
    }
  }

  /**
   Calls on a descriptor that change no state but whose outcome matters: `os.fstat`, and `os.fsync` with the
   content it made durable.
   */
  datatype Call = Fstat(i: Inode, ok: bool) | Fsync(i: Inode, content: Option<Node>, ok: bool)

  /** From position n on, an `os.fsync` succeeded while the file held the data. */
  ghost predicate Synced(n: nat, calls: seq<Call>, i: Inode, data: Bytes) {
    exists k :: n <= k < |calls| && calls[k] == Fsync(i, Some(File(data)), true)
  }

  /**
   What other processes leave alone while an operation runs: the contents of its private files `mine`;
   the entries `names`, which they may remove or point elsewhere but never at a private file; and the
   entries `still`, which they do not touch.
   */
  datatype Guard = Guard(mine: set<Inode>, names: set<Key>, still: set<Key>)

  predicate SameEntry(s: State, t: State, key: Key) {
    if key in s.entries then key in t.entries && t.entries[key] == s.entries[key] else key !in t.entries
  }

  /** Every entry names an existing inode. */
  predicate WellFormed(s: State) {
    forall key :: key in s.entries ==> s.entries[key] in s.nodes
  }

  /** One step of other processes. Inodes keep their kind, and inode numbers are not reused. */
  predicate Rely(s: State, t: State, g: Guard) {
    WellFormed(t) &&
    (forall i :: i in s.nodes ==> i in t.nodes && (s.nodes[i].File? <==> t.nodes[i].File?)) &&
    (forall i :: i in g.mine && i in s.nodes ==> i in t.nodes && t.nodes[i] == s.nodes[i]) &&
    (forall key :: key in g.names && key in t.entries && t.entries[key] in g.mine ==> SameEntry(s, t, key)) &&
    (forall key :: key in g.still ==> SameEntry(s, t, key))
  }

  /** What one of our calls may do at most: change the private file `own` and the entries in `names`. */
  ghost predicate Touches(s: State, t: State, own: set<Inode>, names: set<Key>) {
    (forall i :: i in s.nodes && i !in own ==> i in t.nodes && t.nodes[i] == s.nodes[i]) &&
    (forall key :: key !in names ==> SameEntry(s, t, key))
  }

  /** A new, empty directory under a name that did not exist. */
  ghost predicate MakesDirectory(s: State, t: State, key: Key, i: Inode) {
    key !in s.entries && i !in s.nodes && t == State(s.nodes[i := Directory], s.entries[key := i])
  }

  /** Our call did nothing, or made one new directory under one of these names. */
  ghost predicate AddsIn(s: State, t: State, keys: set<Key>) {
    s == t || exists key, i :: key in keys && MakesDirectory(s, t, key, i)
  }

  /** So whatever existed is left as it was. */
  lemma AddsKeeps(s: State, t: State, keys: set<Key>)
    requires AddsIn(s, t, keys)
    ensures forall i :: i in s.nodes ==> i in t.nodes && t.nodes[i] == s.nodes[i]
    ensures forall key :: key in s.entries || key !in keys ==> SameEntry(s, t, key)
  {
  }

  /**
   How many calls of ours were refused, and how many of those because the system failed rather than because of what
   the call found.
   */
  datatype Outcomes = Outcomes(refusals: nat, faults: nat)

  /** One more call, refused unless ok. */
  ghost predicate Answered(before: Outcomes, after: Outcomes, ok: bool) {
    after.refusals == before.refusals + (if ok then 0 else 1) && after.faults >= before.faults
  }

  class FileSystem {
    var state: State
    var open: map<Fd, Inode>
    var nextFd: Fd
    ghost var steps: seq<(State, State)>
    ghost var calls: seq<Call>
    ghost var outcomes: Outcomes

    ghost predicate Valid()
      reads this
    {
      WellFormed(state) && forall fd :: fd in open ==> fd < nextFd
    }

    /** Other processes act, as far as the guard allows. */
    method Interfere(g: Guard)
      requires Valid()
      modifies this`state
      ensures Valid() && Rely(old(state), state, g)
    {
      RelyReflexive(state, g);
      var other: State := *;
      if Rely(state, other, g) {
        state := other;
      }
    }

    /** An arbitrary outcome of a call that may fail. */
    method Fails() returns (b: bool)
    {
      b := *;
    }

    /** The last own transition, made from a state other processes reached from `before`. */
    twostate predicate Stepped(g: Guard)
      reads this
    {
      |steps| == |old(steps)| + 1 && steps[..|old(steps)|] == old(steps) &&
      Rely(old(state), steps[|old(steps)|].0, g) && steps[|old(steps)|].1 == state
    }

    /** Whether the system fails a call. */
    method Fault() returns (failed: bool)
      modifies this`outcomes
      ensures outcomes == Outcomes(old(outcomes).refusals, old(outcomes).faults + if failed then 1 else 0)
    {
      failed := Fails();
      if failed {
        outcomes := Outcomes(outcomes.refusals, outcomes.faults + 1);
      }
    }

    /** Record the answer of a call. */
    ghost method Answer(ok: bool)
      modifies this`outcomes
      ensures outcomes == Outcomes(old(outcomes).refusals + (if ok then 0 else 1), old(outcomes).faults)
    {
      if !ok {
        outcomes := Outcomes(outcomes.refusals + 1, outcomes.faults);
      }
    }

    /** A call that observes only: other processes act, then the state is read. */
    method Observe(g: Guard) returns (failed: bool)
      requires Valid()
      modifies this`state, this`steps, this`outcomes
      ensures Valid() && Stepped(g) && steps[|old(steps)|].0 == state
      ensures outcomes == Outcomes(old(outcomes).refusals, old(outcomes).faults + if failed then 1 else 0)
    {
      Interfere(g);
      steps := steps + [(state, state)];
      failed := Fault();
    }

    /** `os.open(name, O_WRONLY | O_CREAT | O_EXCL | O_NOFOLLOW)`: a new empty file, never an existing one. */
    method CreateExclusive(directory: Inode, name: Name, g: Guard) returns (r: Option<Fd>, ghost i: Inode)
      requires Valid()
      modifies this
      ensures Valid() && Stepped(g)
      ensures var before := steps[|old(steps)|].0;
        (r.None? ==> state == before && open == old(open)) &&
        (r.Some? ==>
          (directory, name) !in before.entries && i !in before.nodes &&
          state == State(before.nodes[i := File([])], before.entries[(directory, name) := i]) &&
          r.value !in old(open) && open == old(open)[r.value := i])
      ensures calls == old(calls) && Answered(old(outcomes), outcomes, r.Some?)
      ensures r.None? && outcomes.faults == old(outcomes).faults ==> (directory, name) in state.entries
    {
      Interfere(g);
      ghost var before := state;
      var number: Inode := *;
      var failed := Fault();
      if !failed && number in state.nodes {
        failed, outcomes := true, Outcomes(outcomes.refusals, outcomes.faults + 1);
      }
      i := number;
      if failed || (directory, name) in state.entries {
        r := None;
      } else {
        state := State(state.nodes[number := File([])], state.entries[(directory, name) := number]);
        open := open[nextFd := number];
        r := Some(nextFd);
        nextFd := nextFd + 1;
      }
      steps := steps + [(before, state)];
      Answer(r.Some?);
    }

    /** `os.fstat(descriptor)`: the identity of the open file. */
    method Identify(fd: Fd, g: Guard) returns (r: Option<Inode>)
      requires Valid() && fd in open
      modifies this`state, this`steps, this`outcomes, this`calls
      ensures Valid() && Stepped(g) && steps[|old(steps)|].0 == state
      ensures r.Some? ==> r.value == open[fd]
      ensures calls == old(calls) + [Fstat(open[fd], r.Some?)] && Answered(old(outcomes), outcomes, r.Some?)
      ensures r.None? ==> outcomes.faults > old(outcomes).faults
    {
      var failed := Observe(g);
      r := if failed then None else Some(open[fd]);
      Answer(r.Some?);
      calls := calls + [Fstat(open[fd], r.Some?)];
    }

    /** `os.write`: appends some prefix, possibly empty, of the bytes to the open file. */
    method WriteSome(fd: Fd, bytes: Bytes, g: Guard) returns (r: Option<nat>)
      requires Valid() && fd in open
      requires open[fd] in g.mine && open[fd] in state.nodes && state.nodes[open[fd]].File?
      modifies this`state, this`steps, this`outcomes
      ensures Valid() && Stepped(g)
      ensures var before, i := steps[|old(steps)|].0, open[fd];
        i in before.nodes && before.nodes[i] == old(state).nodes[i] &&
        (r.None? ==> state == before) &&
        (r.Some? ==>
          r.value <= |bytes| &&
          state == State(before.nodes[i := File(before.nodes[i].data + bytes[..r.value])], before.entries))
      ensures outcomes.refusals == old(outcomes).refusals && outcomes.faults >= old(outcomes).faults
      ensures r.None? ==> outcomes.faults > old(outcomes).faults
    {
      var i := open[fd];
      Interfere(g);
      ghost var before := state;
      var count: int := *;
      var failed := Fault();
      if !failed && (count < 0 || count > |bytes|) {
        failed, outcomes := true, Outcomes(outcomes.refusals, outcomes.faults + 1);
      }
      if failed {
        r := None;
      } else {
        state := State(state.nodes[i := File(state.nodes[i].data + bytes[..count])], state.entries);
        r := Some(count);
      }
      steps := steps + [(before, state)];
    }

    /** `os.fsync`. */
    method Sync(fd: Fd, g: Guard) returns (ok: bool)
      requires Valid() && fd in open
      modifies this`state, this`steps, this`outcomes, this`calls
      ensures Valid() && Stepped(g) && steps[|old(steps)|].0 == state
      ensures calls == old(calls) + [Fsync(open[fd], state.Content(open[fd]), ok)]
      ensures Answered(old(outcomes), outcomes, ok) && (!ok ==> outcomes.faults > old(outcomes).faults)
    {
      var failed := Observe(g);
      ok := !failed;
      Answer(ok);
      calls := calls + [Fsync(open[fd], state.Content(open[fd]), ok)];
    }

    /** `os.stat(name)` that has to raise `FileNotFoundError`: the name must not exist. */
    method RequireAbsent(key: Key, g: Guard) returns (ok: bool)
      requires Valid()
      modifies this`state, this`steps, this`outcomes
      ensures Valid() && Stepped(g) && steps[|old(steps)|].0 == state && Answered(old(outcomes), outcomes, ok)
      ensures ok ==> key !in state.entries
      ensures !ok && outcomes.faults == old(outcomes).faults ==> key in state.entries
    {
      var failed := Observe(g);
      ok := !failed && key !in state.entries;
      Answer(ok);
    }

    /** `owned(name)`: the name has the given identity. */
    method CheckOwned(key: Key, identity: Inode, g: Guard) returns (ok: bool)
      requires Valid()
      modifies this`state, this`steps, this`outcomes
      ensures Valid() && Stepped(g) && steps[|old(steps)|].0 == state && Answered(old(outcomes), outcomes, ok)
      ensures ok ==> state.Names(key, identity)
      ensures !ok && outcomes.faults == old(outcomes).faults ==> !state.Names(key, identity)
    {
      var failed := Observe(g);
      ok := !failed && state.Names(key, identity);
      Answer(ok);
    }

    /** `_verify_owned`: the name is a regular file with the given identity. */
    method VerifyOwned(directory: Inode, name: Name, created: Inode, g: Guard) returns (ok: bool)
      requires Valid()
      modifies this`state, this`steps, this`outcomes
      ensures Valid() && Stepped(g) && steps[|old(steps)|].0 == state
      ensures ok ==> state.Names((directory, name), created) && created in state.nodes && state.nodes[created].File?
      ensures Answered(old(outcomes), outcomes, ok)
      ensures !ok && outcomes.faults == old(outcomes).faults ==>
        !state.Names((directory, name), created) || !state.nodes[created].File?
    {
      var failed := Observe(g);
      ok := !failed && state.Names((directory, name), created) && state.nodes[created].File?;
      Answer(ok);
    }

    /**
     `os.rename`: an existing entry at the target is replaced; renaming a name to another name of the same file
     does nothing.
     */
    method Rename(source: Key, target: Key, g: Guard) returns (ok: bool)
      requires Valid()
      modifies this`state, this`steps, this`outcomes
      ensures Valid() && Stepped(g)
      ensures var before := steps[|old(steps)|].0;
        (!ok ==> state == before) &&
        (ok ==> source in before.entries && state == Renamed(before, source, target))
      ensures Answered(old(outcomes), outcomes, ok)
      ensures !ok && outcomes.faults == old(outcomes).faults ==>
        source !in state.entries || (IsDirectory(state, target) && !IsDirectory(state, source))
    {
      Interfere(g);
      ghost var before := state;
      var failed := Fault();
      ok := !failed && source in state.entries && (IsDirectory(state, target) ==> IsDirectory(state, source));
      if ok {
        state := Renamed(state, source, target);
      }
      steps := steps + [(before, state)];
      Answer(ok);
    }

    /** `os.link` within one directory: never replaces an existing entry. */
    method Link(directory: Inode, source: Name, target: Name, g: Guard) returns (ok: bool)
      requires Valid()
      modifies this`state, this`steps, this`outcomes
      ensures Valid() && Stepped(g)
      ensures var before := steps[|old(steps)|].0;
        (!ok ==> state == before) &&
        (ok ==>
          (directory, source) in before.entries && (directory, target) !in before.entries &&
          state == before.(entries := before.entries[(directory, target) := before.entries[(directory, source)]]))
      ensures Answered(old(outcomes), outcomes, ok)
      ensures !ok && outcomes.faults == old(outcomes).faults ==>
        (directory, source) !in state.entries || (directory, target) in state.entries
    {
      Interfere(g);
      ghost var before := state;
      var failed := Fault();
      ok := !failed && (directory, source) in state.entries && (directory, target) !in state.entries;
      if ok {
        state := state.(entries := state.entries[(directory, target) := state.entries[(directory, source)]]);
      }
      steps := steps + [(before, state)];
      Answer(ok);
    }

    /** `_unlink_owned`: remove the name only while it has the given identity. Faults in cleanup are not modelled. */
    method UnlinkOwned(directory: Inode, name: Name, created: Option<Inode>, g: Guard)
      requires Valid()
      modifies this`state, this`steps, this`outcomes
      ensures Valid() && Stepped(g)
      ensures state == Unlinked(steps[|old(steps)|].0, (directory, name), created) && outcomes == old(outcomes)
    {
      Interfere(g);
      ghost var before := state;
      state := Unlinked(state, (directory, name), created);
      steps := steps + [(before, state)];
    }

    /**
     `_write_all`: repeat short writes until nothing remains; no progress is an error.  Throughout, nothing
     but the open file changes, and no guarded name that did not name it comes to name it.
     */
    method WriteAll(fd: Fd, value: Bytes, g: Guard) returns (ok: bool, ghost written: Bytes)
      requires Valid() && fd in open && open[fd] in g.mine && state.Holds(open[fd], [])
      modifies this`state, this`steps, this`outcomes
      ensures Valid() && |steps| >= |old(steps)| && steps[..|old(steps)|] == old(steps)
      ensures state.Holds(open[fd], written) && written <= value && (ok ==> written == value)
      ensures WritesOnly(|old(steps)|, steps, old(state), state, open[fd], g)
      ensures Answered(old(outcomes), outcomes, ok) && (!ok ==> |written| < |value|)
    {
      var i := open[fd];
      var remaining := value;
      written := [];
      while remaining != []
        invariant Valid() && |steps| >= |old(steps)| && steps[..|old(steps)|] == old(steps)
        invariant state.Holds(i, written) && written + remaining == value
        invariant WritesOnly(|old(steps)|, steps, old(state), state, i, g)
        invariant Answered(old(outcomes), outcomes, true)
        decreases |remaining|
      {
        hide WritesOnly, Rely;
        ghost var before, s := steps, state;
        var count := WriteSome(fd, remaining, g);
        WriteExtendsOnly(|old(steps)|, before, steps, old(state), s, state, i, g);
        if count.None? {
          Answer(false);
          return false, written;
        }
        written := written + remaining[..count.value];
        if count.value == 0 {
          Answer(false);
          return false, written;
        }
        remaining := remaining[count.value..];
      }
      return true, written;
    }

    /** `os.open("/", O_DIRECTORY)`, with the root given by its identity. */
    method OpenRoot(root: Inode, g: Guard) returns (r: Option<Fd>)
      requires Valid()
      modifies this
      ensures Valid() && Stepped(g) && steps[|old(steps)|].0 == state
      ensures r.None? ==> open == old(open)
      ensures r.Some? ==> r.value !in old(open) && open == old(open)[r.value := root]
      ensures calls == old(calls) && Answered(old(outcomes), outcomes, r.Some?)
      ensures r.None? ==> outcomes.faults > old(outcomes).faults
    {
      var failed := Observe(g);
      Answer(!failed);
      if failed {
        r := None;
      } else {
        r := Some(nextFd);
        open := open[nextFd := root];
        nextFd := nextFd + 1;
      }
    }

    /** `os.open(name, O_DIRECTORY | O_NOFOLLOW, dir_fd=...)`: only a real directory opens. */
    method OpenDirectory(directory: Inode, name: Name, g: Guard) returns (r: Option<Fd>)
      requires Valid()
      modifies this
      ensures Valid() && Stepped(g) && steps[|old(steps)|].0 == state
      ensures r.None? ==> open == old(open)
      ensures r.Some? ==>
        IsDirectory(state, (directory, name)) && r.value !in old(open) &&
        open == old(open)[r.value := state.entries[(directory, name)]]
      ensures calls == old(calls) && Answered(old(outcomes), outcomes, r.Some?)
      ensures r.None? && outcomes.faults == old(outcomes).faults ==> !IsDirectory(state, (directory, name))
    {
      var failed := Observe(g);
      Answer(!failed && IsDirectory(state, (directory, name)));
      if failed || !IsDirectory(state, (directory, name)) {
        r := None;
      } else {
        r := Some(nextFd);
        open := open[nextFd := state.entries[(directory, name)]];
        nextFd := nextFd + 1;
      }
    }

    /** `os.mkdir`: a new directory under a name that did not exist. */
    method MakeDirectory(key: Key, g: Guard) returns (ok: bool, ghost i: Inode)
      requires Valid()
      modifies this`state, this`steps, this`outcomes
      ensures Valid() && Stepped(g) && Answered(old(outcomes), outcomes, ok)
      ensures ok ==> MakesDirectory(steps[|old(steps)|].0, state, key, i)
      ensures !ok ==> steps[|old(steps)|].0 == state
      ensures !ok && outcomes.faults == old(outcomes).faults ==> key in state.entries
    {
      var made;
      made, ok, i := TryDirectory(key, g);
      ok := made;
      Answer(ok);
    }

    /** `os.mkdir` with `FileExistsError` ignored: afterwards the name exists. */
    method EnsureDirectory(key: Key, g: Guard) returns (ok: bool, ghost i: Inode)
      requires Valid()
      modifies this`state, this`steps, this`outcomes
      ensures Valid() && Stepped(g) && Answered(old(outcomes), outcomes, ok)
      ensures ok ==> key in state.entries
      ensures steps[|old(steps)|].0 == state || MakesDirectory(steps[|old(steps)|].0, state, key, i)
      ensures !ok ==> steps[|old(steps)|].0 == state && outcomes.faults > old(outcomes).faults
    {
      var made, existed;
      made, existed, i := TryDirectory(key, g);
      ok := made || existed;
      Answer(ok);
    }

    method TryDirectory(key: Key, g: Guard) returns (made: bool, existed: bool, ghost i: Inode)
      requires Valid()
      modifies this`state, this`steps, this`outcomes
      ensures Valid() && Stepped(g) && Answered(old(outcomes), outcomes, true)
      ensures !made ==> steps[|old(steps)|].0 == state
      ensures made ==> MakesDirectory(steps[|old(steps)|].0, state, key, i)
      ensures existed ==> key in state.entries
      ensures !made && !existed ==> outcomes.faults > old(outcomes).faults
    {
      Interfere(g);
      ghost var before := state;
      var number: Inode := *;
      var failed := Fault();
      if !failed && number in state.nodes {
        failed, outcomes := true, Outcomes(outcomes.refusals, outcomes.faults + 1);
      }
      i := number;
      existed := !failed && key in state.entries;
      made := !failed && key !in state.entries;
      if made {
        state := State(state.nodes[number := Directory], state.entries[key := number]);
      }
      steps := steps + [(before, state)];
    }

    /** The name in one open directory still is the directory open as the other descriptor. */
    method VerifyDirectory(parent: Fd, name: Name, child: Fd, g: Guard) returns (ok: bool)
      requires Valid() && parent in open && child in open
      modifies this`state, this`steps, this`outcomes
      ensures Valid() && Stepped(g) && steps[|old(steps)|].0 == state
      ensures ok ==> IsDirectory(state, (open[parent], name)) && state.Names((open[parent], name), open[child])
      ensures Answered(old(outcomes), outcomes, ok)
      ensures !ok && outcomes.faults == old(outcomes).faults ==>
        !IsDirectory(state, (open[parent], name)) || !state.Names((open[parent], name), open[child])
    {
      var failed := Observe(g);
      ok := !failed && IsDirectory(state, (open[parent], name)) && state.Names((open[parent], name), open[child]);
      Answer(ok);
    }

    /** `os.close`: a descriptor is closed at most once, since it must be open. */
    method Close(fd: Fd)
      requires Valid() && fd in open
      modifies this`open
      ensures Valid() && open == old(open) - {fd}
    {
      open := open - {fd};
    }
  }

  /**
   From position n on nothing but the file changes, no guarded name comes to name it, and the entries other processes
   leave alone stay.
   */
  ghost predicate WritesOnly(n: nat, steps: seq<(State, State)>, s: State, now: State, i: Inode, g: Guard) {
    (forall k :: n <= k < |steps| ==> Touches(steps[k].0, steps[k].1, {i}, {})) &&
    (forall k, key :: n <= k < |steps| && key in g.names && !s.Names(key, i) ==>
      !steps[k].0.Names(key, i) && !steps[k].1.Names(key, i)) &&
    (forall key :: key in g.names && now.Names(key, i) ==> s.Names(key, i)) &&
    forall key :: key in g.still ==> SameEntry(s, now, key)
  }

  lemma WriteExtendsOnly(n: nat, before: seq<(State, State)>, steps: seq<(State, State)>, s: State, t: State,
                         now: State, i: Inode, g: Guard)
    requires WritesOnly(n, before, s, t, i, g) && n <= |before| && i in g.mine
    requires |steps| == |before| + 1 && steps[..|before|] == before && Rely(t, steps[|before|].0, g)
    requires steps[|before|].1 == now && now.entries == steps[|before|].0.entries
    requires forall x :: x in steps[|before|].0.nodes && x != i ==>
      x in now.nodes && now.nodes[x] == steps[|before|].0.nodes[x]
    ensures WritesOnly(n, steps, s, now, i, g)
  {
    forall k | n <= k < |before| ensures steps[k] == before[k] {
      assert steps[k] == steps[..|before|][k];
    }
  }

  lemma RelyReflexive(s: State, g: Guard)
    requires WellFormed(s)
    ensures Rely(s, s, g)
  {
  }

  lemma RelyTransitive(s: State, t: State, u: State, g: Guard)
    requires Rely(s, t, g) && Rely(t, u, g)
    ensures Rely(s, u, g)
  {
  }

  predicate IsDirectory(s: State, key: Key) {
    key in s.entries && s.entries[key] in s.nodes && s.nodes[s.entries[key]].Directory?
  }

  /** The target takes over the source's file and the source name goes, unless both name the same file already. */
  function Renamed(s: State, source: Key, target: Key): (t: State)
    requires source in s.entries
    ensures t.nodes == s.nodes && t.Names(target, s.entries[source])
    ensures forall key :: key != source && key != target ==> SameEntry(s, t, key)
    ensures source != target ==> (source in t.entries <==> s.Names(target, s.entries[source]))
    ensures source in t.entries ==> SameEntry(s, t, source)
  {
    if target in s.entries && s.entries[target] == s.entries[source] then s
    else s.(entries := (s.entries - {source})[target := s.entries[source]])
  }

  /** The name is removed exactly when it has the given identity. */
  function Unlinked(s: State, key: Key, created: Option<Inode>): (t: State)
    ensures t.nodes == s.nodes && forall other :: other != key ==> SameEntry(s, t, other)
    ensures key in t.entries <==> key in s.entries && created != Some(s.entries[key])
    ensures key in t.entries ==> SameEntry(s, t, key)
  {
    if created.Some? && s.Names(key, created.value) then s.(entries := s.entries - {key}) else s
  }
}
