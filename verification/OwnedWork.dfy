/**
 The owned qualification tree (class `OwnedWork`, scripts/body_qualification_io.py, lines 132-332).

 Every method may be interrupted by a failing call at any point, and other processes act between calls.
 The contracts of `Enter`, `Exit`, `OpenParent` and of the operations built on them account for every
 descriptor; `Write`, `MoveSource` and `PublishMarker` account for every transition of the filesystem.
 */
module OwnedWorks {
  import opened Wrappers
  import opened FiniteSets
  import opened FileSystems
  import opened OwnedFiles
  import opened OwnedRuns
  import SourcePaths

  /** Close a list of descriptors, the last one opened first. */
  method CloseAll(fs: FileSystem, fds: seq<Fd>)
    requires fs.Valid() && Distinct(fds) && Elements(fds) <= fs.open.Keys
    modifies fs`open
    ensures fs.Valid() && fs.open == old(fs.open) - Elements(fds)
  {
    var k := |fds|;
    assert fds[..k] == fds;
    while k > 0
      invariant 0 <= k <= |fds| && fs.Valid()
      invariant Elements(fds[..k]) <= fs.open.Keys
      invariant fs.open == old(fs.open) - (Elements(fds) - Elements(fds[..k]))
    {
      k := k - 1;
      assert fds[..k + 1] == fds[..k] + [fds[k]];
      ElementsAppend(fds[..k], fds[k]);
      assert fds[k] in Elements(fds[..k + 1]) && fds[k] !in Elements(fds[..k]);
      fs.Close(fds[k]);
    }
  }

  const MARKER: Name := "QUALIFICATION_COMPLETE"
  const TEXT: Bytes := Encode("victor-incremental-body-qualification-v2\n")

  /** The bytes of an ASCII text. */
  ghost predicate Encodes(data: Bytes, text: string) {
    |data| == |text| && forall i :: 0 <= i < |text| ==> data[i] as int == text[i] as int % 128
  }

  function Encode(text: string): (data: Bytes)
    ensures Encodes(data, text)
  {
    seq(|text|, (i: int) requires 0 <= i < |text| => (text[i] as int % 128) as Byte)
  }

  class OwnedWork {
    const fs: FileSystem
    const root: Inode
    /** The components of the output's parent path, and the output's own name. */
    const parents: seq<Name>
    const name: Name

    var fd: Option<Fd>
    var sourceFd: Option<Fd>
    var parentFd: Option<Fd>
    var ancestorFds: seq<Fd>
    var ancestorLinks: seq<(Fd, Name, Fd)>
    var published: bool

    /** The descriptors this object has to close; `parentFd` is an alias of the last ancestor. */
    ghost function Held(): set<Fd>
      reads this
    {
      Elements(ancestorFds) + (if fd.Some? then {fd.value} else {}) + (if sourceFd.Some? then {sourceFd.value} else {})
    }

    ghost predicate Idle()
      reads this
    {
      fd.None? && sourceFd.None? && parentFd.None? && ancestorFds == [] && ancestorLinks == []
    }

    ghost predicate Valid()
      reads this, fs
    {
      fs.Valid() && Held() <= fs.open.Keys && Distinct(ancestorFds) &&
      (forall x :: x in ancestorFds ==> x in fs.open) &&
      (fd.Some? ==> fd.value !in ancestorFds) &&
      (sourceFd.Some? ==> sourceFd.value !in ancestorFds && fd.Some? && fd.value != sourceFd.value) &&
      Chained() &&
      (parentFd.Some? ==> |ancestorLinks| == |parents| && ancestorFds != [] && parentFd.value == ancestorFds[|parents|])
    }

    /** Each recorded link leads from one open ancestor to the next by the next path component. */
    ghost predicate Chained()
      reads this
    {
      (ancestorFds == [] ==> ancestorLinks == []) &&
      (ancestorFds != [] ==> |ancestorFds| == |ancestorLinks| + 1 && |ancestorLinks| <= |parents|) &&
      forall l :: 0 <= l < |ancestorLinks| ==> ancestorLinks[l] == (ancestorFds[l], parents[l], ancestorFds[l + 1])
    }

    ghost predicate Entered()
      reads this, fs
    {
      Valid() && fd.Some? && sourceFd.Some? && parentFd.Some?
    }

    constructor (fs: FileSystem, root: Inode, parents: seq<Name>, name: Name)
      requires fs.Valid()
      ensures this.fs == fs && this.root == root && this.parents == parents && this.name == name
      ensures Valid() && Idle() && !published
    {
      this.fs, this.root, this.parents, this.name := fs, root, parents, name;
      fd, sourceFd, parentFd, ancestorFds, ancestorLinks, published := None, None, None, [], [], false;
    }

    /** `__exit__`: close everything held, once; a second call closes nothing. */
    method Exit()
      requires Valid()
      modifies this, fs`open
      ensures Valid() && Idle() && published == old(published)
      ensures fs.open == old(fs.open) - old(Held())
    {
      ghost var held, before := Held(), fs.open;
      if sourceFd.Some? {
        fs.Close(sourceFd.value);
        sourceFd := None;
      }
      if fd.Some? {
        fs.Close(fd.value);
        fd := None;
      }
      CloseAll(fs, ancestorFds);
      assert fs.open == before - held;
      ancestorFds, ancestorLinks, parentFd := [], [], None;
    }

    /** Everything open is held by this object or was open before. */
    ghost predicate Owns(base: map<Fd, Inode>)
      reads this, fs
    {
      Valid() && fs.open - Held() == base
    }

    /** While descending: only ancestors are held, the first of them the root. */
    ghost predicate Descending(base: map<Fd, Inode>)
      reads this, fs
    {
      Owns(base) && fd.None? && sourceFd.None? && parentFd.None? &&
      ancestorFds != [] && ancestorFds[0] in fs.open && fs.open[ancestorFds[0]] == root
    }

    /** The directories behind the open ancestors. */
    ghost function Ancestors(): seq<Inode>
      requires Valid()
      reads this, fs
    {
      seq(|ancestorFds|, (k: int) requires 0 <= k < |ancestorFds| reads this, fs =>
        if ancestorFds[k] in fs.open then fs.open[ancestorFds[k]] else 0)
    }

    /** Open the next ancestor without following links. */
    method OpenNext(g: Guard, ghost base: map<Fd, Inode>) returns (ok: bool)
      requires Descending(base) && |ancestorLinks| < |parents|
      modifies this`ancestorFds, this`ancestorLinks, fs
      ensures Descending(base) && Continues(old(fs.steps), fs.steps)
      ensures MadeSince(|old(fs.steps)|, fs.steps, {}) && Answered(old(fs.outcomes), fs.outcomes, ok)
      ensures |ancestorLinks| == |old(ancestorLinks)| + if ok then 1 else 0
      ensures !ok ==> Ancestors() == old(Ancestors())
      ensures ok ==>
        var before, k := old(Ancestors()), |old(ancestorLinks)|;
        Ancestors()[..|before|] == before && |Ancestors()| == |before| + 1 == k + 2 &&
        Reached(|old(fs.steps)|, fs.steps, (before[k], parents[k]), Ancestors()[k + 1], false)
    {
      hide Rely, AddsIn, IsDirectory;
      ghost var before, held, wasOpen, trail := fs.steps, Held(), fs.open, Ancestors();
      var current, part := ancestorFds[|ancestorFds| - 1], parents[|ancestorLinks|];
      assert current in Held() && ancestorFds[0] in Held();
      var child := fs.OpenDirectory(fs.open[current], part, g);
      ObservedOnly(before, fs.steps, {});
      if child.None? {
        return false;
      }
      assert Seen(fs.steps, |before|, (wasOpen[current], part), fs.open[child.value]);
      ElementsAppend(ancestorFds, child.value);
      assert child.value !in Elements(ancestorFds);
      ancestorLinks := ancestorLinks + [(current, part, child.value)];
      ancestorFds := ancestorFds + [child.value];
      assert Held() == held + {child.value};
      assert fs.open - Held() == wasOpen - held;
      assert Ancestors()[..|trail|] == trail;
      return true;
    }

    /** Descend to the output's parent, opening every ancestor. */
    method OpenAncestors(g: Guard, ghost base: map<Fd, Inode>) returns (ok: bool)
      requires Descending(base) && ancestorLinks == []
      modifies this`ancestorFds, this`ancestorLinks, fs
      ensures Descending(base) && Continues(old(fs.steps), fs.steps)
      ensures MadeSince(|old(fs.steps)|, fs.steps, {}) && Answered(old(fs.outcomes), fs.outcomes, ok)
      ensures Descent(|old(fs.steps)|, fs.steps, root, parents + [name], Ancestors(), false)
      ensures ok ==> |ancestorLinks| == |parents|
    {
      hide Reached, AddsIn, Rely;
      ghost var path := parents + [name];
      assert Ancestors() == [root];
      DescentStart(|fs.steps|, fs.steps, root, path, false);
      MadeNothing(fs.steps, {});
      for k := 0 to |parents|
        invariant Descending(base) && |ancestorLinks| == k && Continues(old(fs.steps), fs.steps)
        invariant MadeSince(|old(fs.steps)|, fs.steps, {}) && Answered(old(fs.outcomes), fs.outcomes, true)
        invariant Descent(|old(fs.steps)|, fs.steps, root, path, Ancestors(), false)
      {
        ghost var before, trail := fs.steps, Ancestors();
        ok := OpenNext(g, base);
        ContinuesOn(old(fs.steps), before, fs.steps);
        MadeJoin(|old(fs.steps)|, before, fs.steps, {}, {});
        if !ok {
          DescentLater(|old(fs.steps)|, |old(fs.steps)|, before, fs.steps, root, path, trail, false);
          return;
        }
        DescentStep(|old(fs.steps)|, before, fs.steps, root, path, trail, Ancestors()[k + 1], false);
        assert Ancestors() == trail + [Ancestors()[k + 1]];
      }
      return true;
    }

    /** One comparison of a name with a pinned descriptor. */
    method VerifyLink(link: (Fd, Name, Fd), g: Guard, ghost m: nat) returns (ok: bool)
      requires Valid() && link.0 in fs.open && link.2 in fs.open && m <= |fs.steps|
      modifies fs`state, fs`steps, fs`outcomes
      ensures Valid() && Answered(old(fs.outcomes), fs.outcomes, ok)
      ensures fs.Stepped(g) && fs.steps[|old(fs.steps)|].0 == fs.state
      ensures ok ==> LinkChecked(fs.open, m, fs.steps, link)
    {
      hide Rely, IsDirectory;
      ghost var before := fs.steps;
      ok := fs.VerifyDirectory(link.0, link.1, link.2, g);
      assert ok ==> Seen(fs.steps, |before|, (fs.open[link.0], link.1), fs.open[link.2]);
    }

    /** `verify_ancestors`: every pinned ancestor still is what its name leads to. */
    method VerifyAncestors(g: Guard) returns (ok: bool)
      requires Valid()
      modifies fs`state, fs`steps, fs`outcomes
      ensures Valid() && Quiet(old(fs.steps), fs.steps, old(fs.state), fs.state, g)
      ensures Answered(old(fs.outcomes), fs.outcomes, ok)
      ensures ok ==> LinksChecked(fs.open, |old(fs.steps)|, fs.steps, ancestorLinks)
    {
      hide Rely, IsDirectory, Quiet, LinkChecked;
      QuietStart(fs.steps, fs.state, g);
      for l := 0 to |ancestorLinks|
        invariant Valid() && Quiet(old(fs.steps), fs.steps, old(fs.state), fs.state, g)
        invariant Answered(old(fs.outcomes), fs.outcomes, true)
        invariant |fs.steps| == |old(fs.steps)| + l
        invariant LinksChecked(fs.open, |old(fs.steps)|, fs.steps, ancestorLinks[..l])
      {
        ghost var before, s := fs.steps, fs.state;
        assert ancestorFds[l] in ancestorFds && ancestorFds[l + 1] in ancestorFds;
        ok := VerifyLink(ancestorLinks[l], g, |old(fs.steps)|);
        QuietExtend(old(fs.steps), before, fs.steps, old(fs.state), s, fs.state, g);
        if !ok {
          return;
        }
        LinksLater(fs.open, fs.open, |old(fs.steps)|, |old(fs.steps)|, before, fs.steps, ancestorLinks[..l]);
      }
      assert ancestorLinks[..|ancestorLinks|] == ancestorLinks;
      return true;
    }

    /** `os.mkdir` and `os.open` of a new directory inside an open one; the descriptor is the caller's. */
    method MakeAndOpen(parent: Fd, child: Name, g: Guard) returns (r: Option<Fd>, ghost made: Inode)
      requires Valid() && parent in fs.open
      modifies fs
      ensures Valid() && Continues(old(fs.steps), fs.steps) && Answered(old(fs.outcomes), fs.outcomes, r.Some?)
      ensures r.None? ==> fs.open == old(fs.open)
      ensures r.Some? ==> r.value !in old(fs.open) && r.value in fs.open && fs.open - {r.value} == old(fs.open)
      ensures MadeSince(|old(fs.steps)|, fs.steps, {(old(fs.open[parent]), child)})
      ensures var key := (old(fs.open[parent]), child);
        r.Some? ==> MadeAt(|old(fs.steps)|, fs.steps, key, made, fs.open[r.value], g.still)
    {
      hide Rely, AddsIn, IsDirectory;
      ghost var before, key := fs.steps, (fs.open[parent], child);
      var ok;
      ok, made := fs.MakeDirectory((fs.open[parent], child), g);
      if !ok {
        ObservedOnly(before, fs.steps, {key});
        return None, made;
      }
      MadeOne(before, fs.steps, key, made, {key});
      ghost var after, s := fs.steps, fs.state;
      r := fs.OpenDirectory(fs.open[parent], child, g);
      ObservedOnly(after, fs.steps, {key});
      MadeJoin(|before|, after, fs.steps, {key}, {key});
      ContinuesOn(before, after, fs.steps);
      if r.Some? {
        assert fs.open - {r.value} == old(fs.open);
        assert fs.steps[|before|] == after[|before|] && Seen(fs.steps, |after|, key, fs.open[r.value]);
        if key in g.still {
          RelyStill(s, fs.state, g, key);
        }
      }
    }

    /**
     What entering promises: the ancestors lead from the root by the components of the path, and the output
     directory and its source directory were made as new directories under their names and then opened.
     */
    ghost predicate Built(n: nat, steps: Steps, made: Inode, source: Inode, still: set<Key>)
      requires fd.Some? && sourceFd.Some? && parentFd.Some? && ancestorFds != []
      requires {fd.value, sourceFd.value, parentFd.value, ancestorFds[0]} <= fs.open.Keys
      reads this`fd, this`sourceFd, this`parentFd, this`ancestorLinks, this`ancestorFds, fs`open
    {
      fs.open[ancestorFds[0]] == root && LinksChecked(fs.open, n, steps, ancestorLinks) &&
      MadeAt(n, steps, (fs.open[parentFd.value], name), made, fs.open[fd.value], still) &&
      MadeAt(n, steps, (fs.open[fd.value], "source"), source, fs.open[sourceFd.value], still)
    }

    /** Make the output directory in the last ancestor and hold it. */
    method MakeOutput(g: Guard, ghost base: map<Fd, Inode>) returns (ok: bool, ghost made: Inode)
      requires Descending(base) && |ancestorLinks| == |parents|
      modifies this`parentFd, this`fd, fs
      ensures Owns(base) && Continues(old(fs.steps), fs.steps) && sourceFd.None?
      ensures MadeSince(|old(fs.steps)|, fs.steps, {(old(Ancestors())[|parents|], name)})
      ensures Answered(old(fs.outcomes), fs.outcomes, ok)
      ensures ok ==> fd.Some? && parentFd.Some? && ancestorFds != []
      ensures ok ==> {fd.value, parentFd.value, ancestorFds[0]} <= fs.open.Keys && fs.open[ancestorFds[0]] == root
      ensures ok ==> fs.open[parentFd.value] == old(Ancestors())[|parents|]
      ensures ok ==>
        MadeAt(|old(fs.steps)|, fs.steps, (fs.open[parentFd.value], name), made, fs.open[fd.value], g.still)
    {
      hide Rely, AddsIn, IsDirectory, Reserved;
      var current := ancestorFds[|ancestorFds| - 1];
      parentFd := Some(current);
      ghost var held, wasOpen := Held(), fs.open;
      assert ancestorFds[0] in Held() && current in Held();
      var output;
      output, made := MakeAndOpen(current, name, g);
      if output.None? {
        return false, made;
      }
      fd := output;
      assert Held() == held + {output.value};
      Adopted(wasOpen, fs.open, held, output.value);
      return true, made;
    }

    /** Make the source directory in the output directory and hold it. */
    method MakeSource(g: Guard, ghost base: map<Fd, Inode>) returns (ok: bool, ghost source: Inode)
      requires Owns(base) && fd.Some? && parentFd.Some? && sourceFd.None? && fd.value in fs.open
      modifies this`sourceFd, fs
      ensures Owns(base) && Continues(old(fs.steps), fs.steps)
      ensures MadeSince(|old(fs.steps)|, fs.steps, {(old(fs.open[fd.value]), "source")})
      ensures Answered(old(fs.outcomes), fs.outcomes, ok)
      ensures ok ==> Entered() && Grown(old(fs.open), fs.open)
      ensures ok ==>
        MadeAt(|old(fs.steps)|, fs.steps, (fs.open[fd.value], "source"), source, fs.open[sourceFd.value], g.still)
    {
      hide Rely, AddsIn, IsDirectory, Reserved;
      ghost var held, wasOpen := Held(), fs.open;
      assert fd.value in Held();
      var inner;
      inner, source := MakeAndOpen(fd.value, "source", g);
      if inner.None? {
        return false, source;
      }
      sourceFd := inner;
      assert Held() == held + {inner.value};
      Adopted(wasOpen, fs.open, held, inner.value);
      return true, source;
    }

    /**
     The names under which entering makes directories: the output in the directory its parent path leads to, and
     `source` in the directory opened there.
     */
    ghost predicate Reserves(n: nat, steps: Steps, trail: seq<Inode>, output: Option<Inode>, keys: set<Key>) {
      keys == {} ||
      (Descent(n, steps, root, parents + [name], trail, false) && |trail| == |parents| + 1 &&
       (output.Some? ==> Checked(n, steps, (trail[|parents|], name), output.value)) &&
       keys == {(trail[|parents|], name)} + (if output.Some? then {(output.value, "source")} else {}))
    }

    /** The `try` block of `__enter__`: ancestors, a new output directory, and its source directory. */
    method Reserve(g: Guard, ghost base: map<Fd, Inode>)
      returns (ok: bool, ghost made: Inode, ghost source: Inode,
               ghost trail: seq<Inode>, ghost output: Option<Inode>, ghost keys: set<Key>)
      requires Descending(base) && ancestorLinks == []
      modifies this`ancestorFds, this`ancestorLinks, this`parentFd, this`fd, this`sourceFd, fs
      ensures Owns(base) && Continues(old(fs.steps), fs.steps) && Answered(old(fs.outcomes), fs.outcomes, ok)
      ensures MadeSince(|old(fs.steps)|, fs.steps, keys) && Reserves(|old(fs.steps)|, fs.steps, trail, output, keys)
      ensures ok ==> Entered() && Built(|old(fs.steps)|, fs.steps, made, source, g.still)
      ensures ok ==> keys == {(fs.open[parentFd.value], name), (fs.open[fd.value], "source")}
    {
      hide Rely, AddsIn, IsDirectory, Reached, Quiet, Reserved, LinksChecked, Checked;
      ghost var start := fs.steps;
      made, source, keys, output := 0, 0, {}, None;
      ok := OpenAncestors(g, base);
      trail := Ancestors();
      if !ok { return; }

      ghost var descended, key := fs.steps, (trail[|parents|], name);
      ok, made := MakeOutput(g, base);
      ghost var reserved, s := fs.steps, fs.state;
      keys := {key};
      ContinuesOn(start, descended, reserved);
      MadeJoin(|start|, descended, reserved, {}, keys);
      DescentLater(|start|, |start|, descended, reserved, root, parents + [name], trail, false);
      if !ok { return; }
      ReservedChecked(|start|, |descended|, reserved, key, made, fs.open[fd.value]);

      ok := VerifyAncestors(g);
      ghost var verified, wasOpen := fs.steps, fs.open;
      QuietFacts(reserved, verified, s, fs.state, g);
      QuietMade(reserved, verified, s, fs.state, g, keys);
      ContinuesOn(start, reserved, verified);
      MadeJoin(|start|, reserved, verified, keys, keys);
      DescentLater(|start|, |start|, reserved, verified, root, parents + [name], trail, false);
      if !ok { return; }
      CheckedLater(|start|, |start|, reserved, verified, key, fs.open[fd.value]);

      output := Some(fs.open[fd.value]);
      ok, source := MakeSource(g, base);
      keys := {key} + {(output.value, "source")};
      MadeWider(|verified|, fs.steps, {(output.value, "source")}, keys);
      MadeJoin(|start|, verified, fs.steps, {key}, keys);
      ContinuesOn(start, verified, fs.steps);
      CheckedLater(|start|, |start|, verified, fs.steps, key, output.value);
      DescentLater(|start|, |start|, verified, fs.steps, root, parents + [name], trail, false);
      if !ok { return; }
      ContinuesOn(reserved, verified, fs.steps);
      MadeLater(|start|, |descended|, reserved, fs.steps, key, made, wasOpen[fd.value], g.still);
      MadeLater(|start|, |verified|, fs.steps, fs.steps, (fs.open[fd.value], "source"), source,
                fs.open[sourceFd.value], g.still);
      LinksLater(wasOpen, fs.open, |start|, |reserved|, verified, fs.steps, ancestorLinks);
    }

    /**
     `__enter__`: on success everything opened is held, and the output is a new directory under its path; whichever
     step fails, at whatever depth, everything opened is closed again.  Only the output and its source directory are
     made.  It raises exactly when the output has no name or some call was refused.
     */
    method Enter(g: Guard)
      returns (ok: bool, ghost made: Inode, ghost source: Inode,
               ghost trail: seq<Inode>, ghost output: Option<Inode>, ghost keys: set<Key>)
      requires Valid() && Idle()
      modifies this, fs
      ensures Valid() && published == old(published)
      ensures ok ==> Entered() && fs.open - Held() == old(fs.open)
      ensures ok ==> Built(|old(fs.steps)|, fs.steps, made, source, g.still)
      ensures ok ==> keys == {(fs.open[parentFd.value], name), (fs.open[fd.value], "source")}
      ensures !ok ==> Idle() && fs.open == old(fs.open)
      ensures Continues(old(fs.steps), fs.steps) && MadeSince(|old(fs.steps)|, fs.steps, keys)
      ensures Reserves(|old(fs.steps)|, fs.steps, trail, output, keys)
      ensures ok <==> name != "" && fs.outcomes.refusals == old(fs.outcomes).refusals
    {
      hide Rely, AddsIn, Reserved, LinksChecked, Reached, Checked;
      ghost var start, base := fs.steps, fs.open;
      made, source, trail, output, keys, ok := 0, 0, [], None, {}, false;
      MadeNothing(start, {});
      if name == "" {
        return;
      }
      var top := fs.OpenRoot(root, g);
      ghost var before := fs.steps;
      ObservedOnly(start, before, {});
      if top.None? {
        return;
      }
      ancestorFds := [top.value];
      assert Held() == {top.value} && fs.open - Held() == base;
      ok, made, source, trail, output, keys := Reserve(g, base);
      ContinuesOn(start, before, fs.steps);
      MadeWider(|start|, before, {}, keys);
      MadeJoin(|start|, before, fs.steps, keys, keys);
      ReservesLater(|start|, |before|, fs.steps, trail, output, keys);
      if ok {
        BuiltWider(|start|, |before|, fs.steps, made, source, g.still);
      } else {
        Exit();
      }
    }

    lemma ReservesLater(n: nat, m: nat, steps: Steps, trail: seq<Inode>, output: Option<Inode>, keys: set<Key>)
      requires n <= m && Reserves(m, steps, trail, output, keys)
      ensures Reserves(n, steps, trail, output, keys)
    {
      hide Reached, Checked;
      if keys != {} {
        DescentLater(n, m, steps, steps, root, parents + [name], trail, false);
        if output.Some? {
          CheckedLater(n, m, steps, steps, (trail[|parents|], name), output.value);
        }
      }
    }

    lemma BuiltWider(n: nat, m: nat, steps: Steps, made: Inode, source: Inode, still: set<Key>)
      requires n <= m && fd.Some? && sourceFd.Some? && parentFd.Some? && ancestorFds != []
      requires {fd.value, sourceFd.value, parentFd.value, ancestorFds[0]} <= fs.open.Keys
      requires Built(m, steps, made, source, still)
      ensures Built(n, steps, made, source, still)
    {
      hide Reserved, LinksChecked;
      MadeLater(n, m, steps, steps, (fs.open[parentFd.value], name), made, fs.open[fd.value], still);
      MadeLater(n, m, steps, steps, (fs.open[fd.value], "source"), source, fs.open[sourceFd.value], still);
      LinksLater(fs.open, fs.open, n, m, steps, steps, ancestorLinks);
    }

    /** The links of the whole tree: between the ancestors, to the output directory and to its source directory. */
    ghost function Links(): seq<(Fd, Name, Fd)>
      requires fd.Some? && sourceFd.Some? && parentFd.Some?
      reads this`fd, this`sourceFd, this`parentFd, this`ancestorLinks
    {
      ancestorLinks + [(parentFd.value, name, fd.value)] + [(fd.value, "source", sourceFd.value)]
    }

    /** From position n on, every directory of the tree was seen to be the pinned one. */
    ghost predicate AllChecked(open: map<Fd, Inode>, n: nat, steps: Steps)
      requires fd.Some? && sourceFd.Some? && parentFd.Some?
      reads this`fd, this`sourceFd, this`parentFd, this`ancestorLinks
    {
      LinksChecked(open, n, steps, Links())
    }

    /** `verify`. */
    method Verify(g: Guard) returns (ok: bool)
      requires Entered()
      modifies fs`state, fs`steps, fs`outcomes
      ensures Entered() && Quiet(old(fs.steps), fs.steps, old(fs.state), fs.state, g)
      ensures Answered(old(fs.outcomes), fs.outcomes, ok)
      ensures ok ==> AllChecked(fs.open, |old(fs.steps)|, fs.steps)
    {
      hide Rely, IsDirectory, LinkChecked, LinksChecked;
      ghost var start := |fs.steps|;
      ok := VerifyAncestors(g);
      if !ok { return; }
      ghost var before, s, links := fs.steps, fs.state, ancestorLinks;
      assert parentFd.value in ancestorFds && fd.value in Held() && sourceFd.value in Held();
      ok := VerifyLink((parentFd.value, name, fd.value), g, start);
      QuietExtend(old(fs.steps), before, fs.steps, old(fs.state), s, fs.state, g);
      if !ok { return; }
      LinksExtend(fs.open, start, before, fs.steps, links, (parentFd.value, name, fd.value));
      links := links + [(parentFd.value, name, fd.value)];
      before, s := fs.steps, fs.state;
      ok := VerifyLink((fd.value, "source", sourceFd.value), g, start);
      QuietExtend(old(fs.steps), before, fs.steps, old(fs.state), s, fs.state, g);
      if ok {
        LinksExtend(fs.open, start, before, fs.steps, links, (fd.value, "source", sourceFd.value));
      }
    }

    /** One component of `_parent`: create the directory if asked and missing, then open it. */
    method OpenChild(directory: Inode, part: Name, create: bool, g: Guard) returns (child: Option<Fd>)
      requires Entered()
      modifies fs
      ensures Entered() && Continues(old(fs.steps), fs.steps) && fs.calls == old(fs.calls)
      ensures Answered(old(fs.outcomes), fs.outcomes, child.Some?)
      ensures MadeSince(|old(fs.steps)|, fs.steps, if create then {(directory, part)} else {})
      ensures child.None? ==> fs.open == old(fs.open)
      ensures child.Some? ==>
        child.value !in old(fs.open) && child.value in fs.open && fs.open - {child.value} == old(fs.open) &&
        Reached(|old(fs.steps)|, fs.steps, (directory, part), fs.open[child.value], create)
    {
      hide Rely, AddsIn, IsDirectory;
      ghost var before, keys: set<Key> := fs.steps, if create then {(directory, part)} else {};
      MadeNothing(before, keys);
      if create {
        var ready;
        ghost var i;
        ready, i := fs.EnsureDirectory((directory, part), g);
        if fs.steps[|before|].0 == fs.steps[|before|].1 {
          ObservedOnly(before, fs.steps, keys);
        } else {
          MadeOne(before, fs.steps, (directory, part), i, keys);
        }
        if !ready {
          return None;
        }
      }
      ghost var after := fs.steps;
      child := fs.OpenDirectory(directory, part, g);
      ObservedOnly(after, fs.steps, keys);
      MadeJoin(|before|, after, fs.steps, keys, keys);
      ContinuesOn(before, after, fs.steps);
      if child.Some? {
        assert fs.open - {child.value} == old(fs.open);
        assert Seen(fs.steps, |after|, (directory, part), fs.open[child.value]);
        assert create ==> fs.steps[|after| - 1] == after[|after| - 1];
      }
    }

    /** The directory in which paths of the tree start. */
    ghost function Top(source: bool): Inode
      requires Entered()
      reads this, fs
    {
      assert fd.value in Held() && sourceFd.value in Held();
      fs.open[if source then sourceFd.value else fd.value]
    }

    /** Open the directories of a path one inside the other; on failure close them again. */
    method Descend(top: Inode, parts: seq<Name>, create: bool, g: Guard)
      returns (ok: bool, extra: seq<Fd>, directory: Inode, ghost trail: seq<Inode>)
      requires Entered() && parts != []
      modifies fs
      ensures Entered() && Continues(old(fs.steps), fs.steps) && fs.calls == old(fs.calls)
      ensures Answered(old(fs.outcomes), fs.outcomes, ok)
      ensures Descent(|old(fs.steps)|, fs.steps, top, parts, trail, create)
      ensures MadeSince(|old(fs.steps)|, fs.steps, TrailKeys(parts, trail, create))
      ensures !ok ==> fs.open == old(fs.open)
      ensures ok ==> OpenBeside(old(fs.open), fs.open, extra)
      ensures ok ==> |trail| == |parts| == |extra| + 1 && directory == trail[|trail| - 1]
    {
      hide Rely, AddsIn, IsDirectory, Reached, OpenBeside, TrailKeys, MadeSince, Descent;
      ghost var start, base := fs.steps, fs.open;
      extra, directory, trail := [], top, [top];
      DescentStart(|start|, start, top, parts, create);
      MadeNothing(start, TrailKeys(parts, trail, create));
      NothingBeside(base);
      for k := 0 to |parts| - 1
        invariant Entered() && Continues(start, fs.steps) && fs.calls == old(fs.calls)
        invariant Answered(old(fs.outcomes), fs.outcomes, true) && OpenBeside(base, fs.open, extra)
        invariant |extra| == k && |trail| == k + 1 && directory == trail[k]
        invariant Descent(|start|, fs.steps, top, parts, trail, create)
        invariant MadeSince(|start|, fs.steps, TrailKeys(parts, trail, create))
      {
        ghost var wasOpen, before, keys := fs.open, fs.steps, TrailKeys(parts, trail, create);
        var child := OpenChild(directory, parts[k], create, g);
        ContinuesOn(start, before, fs.steps);
        TrailKeysStep(parts, trail, 0, create);
        MadeWider(|before|, fs.steps, if create then {(directory, parts[k])} else {}, keys);
        MadeJoin(|start|, before, fs.steps, keys, keys);
        if child.None? {
          DescentLater(|start|, |start|, before, fs.steps, top, parts, trail, create);
          CloseBeside(base, extra);
          return false, [], directory, trail;
        }
        directory := fs.open[child.value];
        DescentStep(|start|, before, fs.steps, top, parts, trail, directory, create);
        TrailKeysStep(parts, trail, directory, create);
        trail := trail + [directory];
        MadeWider(|start|, fs.steps, keys, TrailKeys(parts, trail, create));
        OneMoreBeside(base, wasOpen, fs.open, extra, child.value);
        extra := extra + [child.value];
      }
      ok := true;
    }

    /** Close what was opened beside the tree. */
    method CloseBeside(ghost base: map<Fd, Inode>, extra: seq<Fd>)
      requires Entered() && OpenBeside(base, fs.open, extra) && Held() <= base.Keys
      modifies fs`open
      ensures Entered() && fs.open == base
    {
      CloseAll(fs, extra);
    }

    /**
     `_parent`: the directory of a manifest path inside the tree, reached from the source or output directory by
     the path's components, made on the way if asked.  On failure everything opened on the way is closed; on success
     exactly `extra` is open in addition, for the caller to close.
     */
    method OpenParent(relative: string, casefold: string -> string, source: bool, create: bool, g: Guard)
      returns (ok: bool, extra: seq<Fd>, directory: Inode, leaf: Name, ghost trail: seq<Inode>)
      requires Entered()
      modifies fs
      ensures Entered() && Continues(old(fs.steps), fs.steps) && fs.calls == old(fs.calls)
      ensures ok <==>
        SourcePaths.SourceParts(relative, casefold).Some? && fs.outcomes.refusals == old(fs.outcomes).refusals
      ensures fs.outcomes.refusals >= old(fs.outcomes).refusals
      ensures Along(relative, casefold, |old(fs.steps)|, fs.steps, old(Top(source)), trail, create)
      ensures MadeSince(|old(fs.steps)|, fs.steps, PathKeys(relative, casefold, trail, create))
      ensures !ok ==> fs.open == old(fs.open)
      ensures ok ==> OpenBeside(old(fs.open), fs.open, extra)
      ensures ok ==> AllChecked(old(fs.open), |old(fs.steps)|, fs.steps)
      ensures ok ==> Leads(relative, casefold, trail, (directory, leaf)) && |extra| == |trail| - 1
    {
      hide Rely, AddsIn, IsDirectory, Quiet, Reached, LinksChecked, OpenBeside, TrailKeys, MadeSince;
      extra, directory, leaf, trail, ok := [], 0, "", [], false;
      ghost var start, s := fs.steps, fs.state;
      MadeNothing(start, PathKeys(relative, casefold, trail, create));
      var split := SourcePaths.SourceParts(relative, casefold);
      if split.None? { return; }
      var parts := split.value;
      ok := Verify(g);
      ghost var verified, base := fs.steps, fs.open;
      QuietFacts(start, verified, s, fs.state, g);
      QuietMade(start, verified, s, fs.state, g, {});
      MadeWider(|start|, verified, {}, PathKeys(relative, casefold, [], create));
      if !ok { return; }
      assert fd.value in Held() && sourceFd.value in Held();
      ok, extra, directory, trail := Descend(fs.open[if source then sourceFd.value else fd.value], parts, create, g);
      ContinuesOn(start, verified, fs.steps);
      MadeJoin(|start|, verified, fs.steps, {}, TrailKeys(parts, trail, create));
      DescentLater(|start|, |verified|, fs.steps, fs.steps, old(Top(source)), parts, trail, create);
      leaf := parts[|parts| - 1];
      if ok {
        LinksLater(base, base, |start|, |start|, verified, fs.steps, Links());
      }
    }

    /** The inner `try` of `write`: identify, write, sync, check the temporary, rename, check the target. */
    method WriteAndRename(file: Fd, directory: Inode, temporary: Name, leaf: Name, value: Bytes, g: Guard,
                          ghost p: Plan)
      returns (ok: bool, created: Option<Inode>, ghost written: Bytes)
      requires fs.Valid() && file in fs.open && Guards(g, p) && fs.state.Holds(p.i, [])
      requires !fs.state.Names(p.output, p.i)
      requires p == Plan(fs.open[file], (directory, temporary), (directory, leaf), value, true, p.calm)
      modifies fs`state, fs`steps, fs`outcomes, fs`calls
      ensures fs.Valid() && Continues(old(fs.steps), fs.steps)
      ensures OwnSince(|old(fs.steps)|, fs.steps, p) && Progress(fs.state, p, written)
      ensures created.Some? ==> created.value == p.i
      ensures created.None? ==> !ok && fs.calls == old(fs.calls) + [Fstat(p.i, false)]
      ensures Answered(old(fs.outcomes), fs.outcomes, ok)
      ensures ok ==> written == value && Shown(|old(fs.steps)|, fs.steps, p)
      ensures ok ==> Synced(|old(fs.calls)|, fs.calls, p.i, value)
      ensures ok && p.output in g.still ==> fs.state.Names(p.output, p.i)
    {
      hide OwnStep, OwnSince, Rely, Progress, Renamed;
      ghost var n, origin := |fs.steps|, fs.state;
      written, ok := [], false;
      OwnNothing(fs.steps, p);
      ProgressStart(fs.state, p);

      ghost var s, before := fs.state, fs.steps;
      created := fs.Identify(file, g);
      ObserveExtends(n, before, fs.steps, s, fs.state, g, p, []);
      if created.None? { return; }

      s, before := fs.state, fs.steps;
      var wrote;
      HoldsOf(fs.state, p, []);
      wrote, written := fs.WriteAll(file, value, g);
      WriteExtends(n, before, fs.steps, s, fs.state, p, written);
      if !wrote { return; }

      s, before := fs.state, fs.steps;
      var synced := fs.Sync(file, g);
      ObserveExtends(n, before, fs.steps, s, fs.state, g, p, written);
      if !synced { return; }
      HoldsOf(fs.state, p, written);
      assert fs.calls[|fs.calls| - 1] == Fsync(p.i, Some(File(value)), true);

      s, before := fs.state, fs.steps;
      var owned := fs.VerifyOwned(directory, temporary, created.value, g);
      ObserveExtends(n, before, fs.steps, s, fs.state, g, p, written);
      if !owned { return; }

      s, before := fs.state, fs.steps;
      var renamed := fs.Rename((directory, temporary), (directory, leaf), g);
      if !renamed {
        ObserveExtends(n, before, fs.steps, s, fs.state, g, p, written);
        return;
      }
      RenameExtends(n, before, fs.steps, s, fs.state, g, p);

      s, before := fs.state, fs.steps;
      ok := fs.VerifyOwned(directory, leaf, created.value, g);
      ObserveExtends(n, before, fs.steps, s, fs.state, g, p, written);
      assert ok ==> fs.steps[|before|].1.Names(p.output, p.i);
    }

    /** The body of `write` inside the opened directory: exclusive temporary, rename, cleanup by identity. */
    method ReplaceIn(directory: Inode, temporary: Name, leaf: Name, value: Bytes, still: set<Key>)
      returns (ok: bool, g: Guard, ghost birth: nat, ghost p: Plan, ghost written: Bytes)
      requires fs.Valid() && temporary != leaf
      modifies fs
      ensures fs.Valid() && fs.open == old(fs.open) && Continues(old(fs.steps), fs.steps)
      ensures |old(fs.steps)| <= birth <= |fs.steps| && OwnSince(birth, fs.steps, p)
      ensures forall k :: |old(fs.steps)| <= k < birth ==> fs.steps[k].0 == fs.steps[k].1
      ensures birth < |fs.steps| ==> birth == |old(fs.steps)| && Born(birth, fs.steps, p)
      ensures p == Plan(p.i, (directory, temporary), (directory, leaf), value, true, (directory, temporary) in still)
      ensures birth < |fs.steps| ==> Guards(g, p) && g.still == still && Progress(fs.state, p, written)
      ensures birth < |fs.steps| && fs.state.Names(p.temporary, p.i) ==> !ok && Unidentified(fs.calls, p.i)
      ensures Answered(old(fs.outcomes), fs.outcomes, ok)
      ensures ok ==> birth < |fs.steps| && written == value && Shown(birth, fs.steps, p)
      ensures ok ==> Synced(|old(fs.calls)|, fs.calls, p.i, value)
      ensures ok && p.output in still ==> fs.state.Names(p.output, p.i)
    {
      hide OwnStep, OwnSince, Rely, Progress, Unlinked;
      written, ok := [], false;
      g := Guard({}, {}, still);
      p := Plan(0, (directory, temporary), (directory, leaf), value, true, (directory, temporary) in still);
      birth := |fs.steps|;
      ghost var s, before := fs.state, fs.steps;
      var created;
      ghost var i;
      created, i := fs.CreateExclusive(directory, temporary, g);
      if created.None? {
        birth := |fs.steps|;
        OwnNothing(fs.steps, p);
        return;
      }
      p := p.(i := i);
      BirthStep(before, fs.steps, s, fs.state, g, p);
      HoldsOf(fs.state, p, []);
      var file := created.value;
      g := Guard({fs.open[file]}, {(directory, temporary), (directory, leaf)}, still);
      ghost var born := fs.steps;
      var identity;
      ok, identity, written := WriteAndRename(file, directory, temporary, leaf, value, g, p);
      OwnJoin(birth, born, fs.steps, p);

      s, before := fs.state, fs.steps;
      fs.UnlinkOwned(directory, temporary, identity, g);
      UnlinkExtends(birth, before, fs.steps, s, fs.state, g, p, written, p.temporary, identity);
      ContinuesOn(born, before, fs.steps);
      assert fs.steps[birth] == born[birth];
      fs.Close(file);
      assert fs.open == old(fs.open);
      if ok {
        ShownLater(birth, |born|, before, fs.steps, p);
      }
    }

    /** `write` up to its last check. */
    method WriteUnchecked(relative: string, casefold: string -> string, value: Bytes, source: bool, temporary: Name,
                          still: set<Key>)
      returns (ok: bool, g: Guard, ghost birth: nat, ghost p: Plan, ghost trail: seq<Inode>, ghost written: Bytes)
      requires Entered() && Fresh(relative, casefold, temporary)
      modifies fs
      ensures Entered() && fs.open == old(fs.open)
      ensures WriteRun(old(fs.steps), birth, fs.steps, p, PathKeys(relative, casefold, trail, true))
      ensures Along(relative, casefold, |old(fs.steps)|, fs.steps[..birth], old(Top(source)), trail, true)
      ensures p == Plan(p.i, (p.output.0, temporary), p.output, value, true, (p.output.0, temporary) in still)
      ensures birth < |fs.steps| ==>
        Leads(relative, casefold, trail, p.output) && AllChecked(fs.open, |old(fs.steps)|, fs.steps[..birth])
      ensures birth < |fs.steps| ==> Guards(g, p) && g.still == still && Progress(fs.state, p, written)
      ensures birth < |fs.steps| && fs.state.Names(p.temporary, p.i) ==> !ok && Unidentified(fs.calls, p.i)
      ensures ok <==>
        SourcePaths.SourceParts(relative, casefold).Some? && fs.outcomes.refusals == old(fs.outcomes).refusals
      ensures fs.outcomes.refusals >= old(fs.outcomes).refusals
      ensures ok ==> birth < |fs.steps| && written == value && Shown(birth, fs.steps, p)
      ensures ok ==> Synced(|old(fs.calls)|, fs.calls, p.i, value)
      ensures ok && p.output in still ==> fs.state.Names(p.output, p.i)
    {
      hide OwnStep, OwnSince, Rely, Progress, AddsIn, MadeSince, LinksChecked, Guards, WriteRun, Shown;
      hide Along, PathKeys, Synced, Unidentified, Born, OpenBeside;
      ghost var start := fs.steps;
      written := [];
      g := Guard({}, {}, still);
      var extra, directory, leaf;
      ok, extra, directory, leaf, trail := OpenParent(relative, casefold, source, true, g);
      ghost var keys := PathKeys(relative, casefold, trail, true);
      p := Plan(0, (directory, temporary), (directory, leaf), value, true, (directory, temporary) in still);
      ghost var before := fs.steps;
      birth := |before|;
      OwnNothing(before, p);
      WriteRunFrom(start, before, birth, before, p, keys);
      assert before[..birth] == before;
      if !ok { return; }
      ok, g, birth, p, written := ReplaceIn(directory, temporary, leaf, value, still);
      WriteRunFrom(start, before, birth, fs.steps, p, keys);
      assert Continues(before, fs.steps[..birth]);
      AlongLater(relative, casefold, |start|, |start|, before, fs.steps[..birth], old(Top(source)), trail, true);
      assert birth < |fs.steps| ==> fs.steps[..birth] == before;
      CloseBeside(old(fs.open), extra);
    }

    /**
     `write`: replace the file the path leads to.  Before the temporary exists only missing directories of the path
     are made; from then on every transition is an `OwnStep`: the private file is a new one, the target shows it only
     when it is complete, and the target changes by the rename and by nothing else.  Each transition is atomic exactly
     when it leaves the target alone or its rename is safe, which it is while other processes leave the temporary name
     alone.  Success means the complete and synced value was shown under the target between two checks of the whole
     tree.  Afterwards the temporary does not name our file unless identifying it failed, and every descriptor opened
     here is closed.  It raises exactly when the path is malformed or some call was refused.
     */
    method Write(relative: string, casefold: string -> string, value: Bytes, source: bool, temporary: Name,
                 still: set<Key>)
      returns (ok: bool, ghost birth: nat, ghost done: nat, ghost p: Plan, ghost trail: seq<Inode>)
      requires Entered() && Fresh(relative, casefold, temporary)
      modifies fs
      ensures Entered() && fs.open == old(fs.open)
      ensures WriteRun(old(fs.steps), birth, fs.steps, p, PathKeys(relative, casefold, trail, true))
      ensures Along(relative, casefold, |old(fs.steps)|, fs.steps[..birth], old(Top(source)), trail, true)
      ensures p == Plan(p.i, (p.output.0, temporary), p.output, value, true, (p.output.0, temporary) in still)
      ensures birth < |fs.steps| ==>
        Leads(relative, casefold, trail, p.output) && AllChecked(fs.open, |old(fs.steps)|, fs.steps[..birth])
      ensures AtomicWhenSafe(birth, fs.steps, p)
      ensures p.calm ==> forall k :: birth <= k < |fs.steps| ==> Atomic(fs.steps[k].0, fs.steps[k].1, p)
      ensures birth < |fs.steps| && fs.state.Names(p.temporary, p.i) ==> !ok && Unidentified(fs.calls, p.i)
      ensures ok <==>
        SourcePaths.SourceParts(relative, casefold).Some? && fs.outcomes.refusals == old(fs.outcomes).refusals
      ensures ok ==>
        birth < done <= |fs.steps| && fs.state.Holds(p.i, value) && Shown(birth, fs.steps[..done], p) &&
        AllChecked(fs.open, done, fs.steps) && Synced(|old(fs.calls)|, fs.calls, p.i, value) &&
        (p.output in still ==> fs.state.Names(p.output, p.i))
    {
      hide OwnStep, OwnSince, Rely, Progress, Quiet, AddsIn, LinksChecked, WriteRun, Shown;
      hide Along, Leads, PathKeys, Synced, Unidentified, Atomic, AtomicWhenSafe;
      var g;
      ghost var written;
      ok, g, birth, p, trail, written := WriteUnchecked(relative, casefold, value, source, temporary, still);
      done := |fs.steps|;
      ghost var keys := PathKeys(relative, casefold, trail, true);
      if ok {
        ghost var s, replaced := fs.state, fs.steps;
        ok := Verify(g);
        WriteRunQuiet(old(fs.steps), birth, replaced, fs.steps, s, fs.state, g, p, written, keys);
        HoldsOf(fs.state, p, value);
        assert fs.steps[..done] == replaced && fs.steps[..birth] == replaced[..birth];
      }
      WriteRunAtomic(old(fs.steps), birth, fs.steps, p, keys);
    }

    /** The check and the rename of `move_source`: the target was absent when looked up. */
    method RenameAbsent(source: Key, target: Key, g: Guard) returns (ok: bool)
      requires fs.Valid()
      modifies fs`state, fs`steps, fs`outcomes
      ensures fs.Valid() && Continues(old(fs.steps), fs.steps) && Answered(old(fs.outcomes), fs.outcomes, ok)
      ensures !ok ==> forall k :: |old(fs.steps)| <= k < |fs.steps| ==> fs.steps[k].0 == fs.steps[k].1
      ensures ok ==> |fs.steps| == |old(fs.steps)| + 2 && Moves(|old(fs.steps)|, fs.steps, source, target, g.still)
    {
      hide Renamed;
      ghost var start := fs.steps;
      ok := fs.RequireAbsent(target, g);
      if !ok {
        return;
      }
      ghost var before, s := fs.steps, fs.state;
      ok := fs.Rename(source, target, g);
      ContinuesOn(start, before, fs.steps);
      assert fs.steps[|start|] == before[|start|];
      assert target in g.still ==> SameEntry(s, fs.steps[|before|].0, target);
    }

    /** Both `_parent` contexts of `move_source`: the second makes missing directories of the destination's path. */
    method OpenBoth(before: string, after: string, casefold: string -> string, g: Guard)
      returns (ok: bool, extra: seq<Fd>, more: seq<Fd>, source: Key, target: Key,
               ghost left: seq<Inode>, ghost right: seq<Inode>, ghost between: map<Fd, Inode>)
      requires Entered()
      modifies fs
      ensures Entered() && Continues(old(fs.steps), fs.steps)
      ensures ok <==>
        SourcePaths.SourceParts(before, casefold).Some? && SourcePaths.SourceParts(after, casefold).Some? &&
        fs.outcomes.refusals == old(fs.outcomes).refusals
      ensures fs.outcomes.refusals >= old(fs.outcomes).refusals
      ensures Along(before, casefold, |old(fs.steps)|, fs.steps, old(Top(true)), left, false)
      ensures Along(after, casefold, |old(fs.steps)|, fs.steps, old(Top(true)), right, true)
      ensures MadeSince(|old(fs.steps)|, fs.steps, PathKeys(after, casefold, right, true))
      ensures !ok ==> fs.open == old(fs.open)
      ensures ok ==> OpenBeside(old(fs.open), between, extra) && OpenBeside(between, fs.open, more)
      ensures ok ==> Held() <= between.Keys
      ensures ok ==> Leads(before, casefold, left, source) && Leads(after, casefold, right, target)
    {
      hide Rely, Quiet, AddsIn, MadeSince, LinksChecked, Along, Leads, OpenBeside;
      ghost var start, base := fs.steps, fs.open;
      more, source, target, right := [], (0, ""), (0, ""), [];
      NotAlong(after, casefold, |start|, fs.steps, Top(true), true);
      var directory, leaf;
      ok, extra, directory, leaf, left := OpenParent(before, casefold, true, false, g);
      source := (directory, leaf);
      between := fs.open;
      ghost var first := fs.steps;
      NoPathKeys(before, casefold, left);
      MadeWider(|start|, first, {}, PathKeys(after, casefold, [], true));
      NotAlong(after, casefold, |start|, first, old(Top(true)), true);
      if !ok { return; }
      KeepsTop(base, extra);
      assert Held() <= between.Keys;
      ok, more, directory, leaf, right := OpenParent(after, casefold, true, true, g);
      target := (directory, leaf);
      ContinuesOn(start, first, fs.steps);
      MadeJoin(|start|, first, fs.steps, {}, PathKeys(after, casefold, right, true));
      AlongLater(before, casefold, |start|, |start|, first, fs.steps, old(Top(true)), left, false);
      AlongLater(after, casefold, |start|, |first|, fs.steps, fs.steps, old(Top(true)), right, true);
      if !ok {
        CloseBeside(base, extra);
      }
    }

    /** `move_source` up to its last check. */
    method MoveUnchecked(before: string, after: string, casefold: string -> string, g: Guard)
      returns (ok: bool, ghost at: nat, ghost source: Key, ghost target: Key,
               ghost left: seq<Inode>, ghost right: seq<Inode>)
      requires Entered()
      modifies fs
      ensures Entered() && fs.open == old(fs.open)
      ensures MoveRun(old(fs.steps), at, fs.steps, source, target, g.still, PathKeys(after, casefold, right, true))
      ensures Along(before, casefold, |old(fs.steps)|, fs.steps, old(Top(true)), left, false)
      ensures Along(after, casefold, |old(fs.steps)|, fs.steps, old(Top(true)), right, true)
      ensures ok <==>
        SourcePaths.SourceParts(before, casefold).Some? && SourcePaths.SourceParts(after, casefold).Some? &&
        fs.outcomes.refusals == old(fs.outcomes).refusals
      ensures fs.outcomes.refusals >= old(fs.outcomes).refusals
      ensures ok ==> |fs.steps| == at + 1
      ensures !ok ==> |fs.steps| == at
      ensures ok ==>
        Leads(before, casefold, left, source) && Leads(after, casefold, right, target) &&
        (Spares(fs.steps[at].0, fs.steps[at].1, target) <==> MoveSafe(fs.steps[at].0, source, target))
    {
      hide Rely, MadeSince, Along, Leads, PathKeys, OpenBeside, Moves, MoveSafe, Spares, MoveRun;
      ghost var start, base, between := fs.steps, fs.open, fs.open;
      var extra, more, from, to;
      ok, extra, more, from, to, left, right, between := OpenBoth(before, after, casefold, g);
      source, target := from, to;
      ghost var opened', keys := fs.steps, PathKeys(after, casefold, right, true);
      at := |opened'|;
      MoveNothing(start, opened', source, target, g.still, keys);
      if !ok { return; }
      ok := RenameAbsent(from, to, g);
      ghost var moved := fs.steps;
      AlongLater(before, casefold, |start|, |start|, opened', moved, old(Top(true)), left, false);
      AlongLater(after, casefold, |start|, |start|, opened', moved, old(Top(true)), right, true);
      CloseBeside(between, more);
      CloseBeside(base, extra);
      if ok {
        at := |opened'| + 1;
        MoveMade(start, opened', moved, source, target, g.still, keys);
      } else {
        at := |moved|;
        MoveRefused(start, opened', moved, source, target, g.still, keys);
      }
    }

    /**
     `move_source`: rename one path of the source directory to another that was seen to be absent.  Before the
     rename only missing directories of the destination's path are made.  An entry that another process put at the
     destination in between is replaced: the destination is spared exactly when it still is absent, or names the same
     file, right before the rename, as it does while other processes leave it alone.  It raises exactly when a path is
     malformed or some call was refused.
     */
    method MoveSource(before: string, after: string, casefold: string -> string, still: set<Key>)
      returns (ok: bool, ghost at: nat, ghost source: Key, ghost target: Key,
               ghost left: seq<Inode>, ghost right: seq<Inode>)
      requires Entered()
      modifies fs
      ensures Entered() && fs.open == old(fs.open)
      ensures MoveRun(old(fs.steps), at, fs.steps, source, target, still, PathKeys(after, casefold, right, true))
      ensures Along(before, casefold, |old(fs.steps)|, fs.steps, old(Top(true)), left, false)
      ensures Along(after, casefold, |old(fs.steps)|, fs.steps, old(Top(true)), right, true)
      ensures at < |fs.steps| ==> Leads(before, casefold, left, source) && Leads(after, casefold, right, target)
      ensures at < |fs.steps| ==>
        (Spares(fs.steps[at].0, fs.steps[at].1, target) <==> MoveSafe(fs.steps[at].0, source, target))
      ensures ok <==>
        SourcePaths.SourceParts(before, casefold).Some? && SourcePaths.SourceParts(after, casefold).Some? &&
        fs.outcomes.refusals == old(fs.outcomes).refusals
      ensures ok ==> at < |fs.steps| && AllChecked(fs.open, at + 1, fs.steps)
    {
      hide Rely, Quiet, AddsIn, LinksChecked, Along, Leads, PathKeys, Moves, MoveSafe, Spares, MoveRun;
      var g := Guard({}, {}, still);
      ok, at, source, target, left, right := MoveUnchecked(before, after, casefold, g);
      if ok {
        ghost var moved, s, start := fs.steps, fs.state, |old(fs.steps)|;
        ok := Verify(g);
        QuietFacts(moved, fs.steps, s, fs.state, g);
        MoveRunQuiet(old(fs.steps), at, moved, fs.steps, source, target, still, PathKeys(after, casefold, right, true));
        AlongLater(before, casefold, start, start, moved, fs.steps, old(Top(true)), left, false);
        AlongLater(after, casefold, start, start, moved, fs.steps, old(Top(true)), right, true);
      }
    }

    /** Descriptors opened beside the tree leave the tree's own as they are. */
    lemma KeepsTop(base: map<Fd, Inode>, extra: seq<Fd>)
      requires Entered() && OpenBeside(base, fs.open, extra) && Held() <= base.Keys
      ensures Top(true) == base[sourceFd.value]
    {
      assert sourceFd.value in Held();
      assert sourceFd.value in fs.open - Elements(extra);
    }

    /** The three `fsync` calls of `publish`. */
    method SyncAll(file: Fd, g: Guard) returns (ok: bool)
      requires Entered() && file in fs.open && fs.open[file] in g.mine && fs.state.Holds(fs.open[file], TEXT)
      modifies fs`state, fs`steps, fs`outcomes, fs`calls
      ensures Entered() && Quiet(old(fs.steps), fs.steps, old(fs.state), fs.state, g)
      ensures Answered(old(fs.outcomes), fs.outcomes, ok)
      ensures ok ==>
        AllSynced(fs.calls, |old(fs.calls)|, fs.open[file], fs.open[fd.value], fs.open[parentFd.value])
    {
      hide Rely;
      ghost var before, s := fs.steps, fs.state;
      QuietStart(before, s, g);
      ok := fs.Sync(file, g);
      QuietExtend(old(fs.steps), before, fs.steps, old(fs.state), s, fs.state, g);
      RelyMine(s, fs.state, g, fs.open[file]);
      if !ok { return; }
      assert fd.value in Held() && parentFd.value in ancestorFds;
      before, s := fs.steps, fs.state;
      ok := fs.Sync(fd.value, g);
      QuietExtend(old(fs.steps), before, fs.steps, old(fs.state), s, fs.state, g);
      if !ok { return; }
      before, s := fs.steps, fs.state;
      ok := fs.Sync(parentFd.value, g);
      QuietExtend(old(fs.steps), before, fs.steps, old(fs.state), s, fs.state, g);
      assert fs.calls[|old(fs.calls)|] == Fsync(fs.open[file], Some(File(TEXT)), true);
    }

    /** The `try` block of `publish`: identify, write, sync, verify the tree again, check the marker. */
    method FillMarker(file: Fd, g: Guard, ghost i: Inode, ghost n: nat)
      returns (ok: bool, created: Option<Inode>, ghost complete: nat)
      requires Entered() && file in fs.open && fs.open[file] == i && i in g.mine && fs.state.Holds(i, [])
      requires MarkerSince(n, fs.steps, i, (fs.open[fd.value], MARKER))
      modifies fs`state, fs`steps, fs`outcomes, fs`calls
      ensures Entered() && MarkerSince(n, fs.steps, i, (fs.open[fd.value], MARKER))
      ensures Continues(old(fs.steps), fs.steps)
      ensures created.Some? ==> created.value == i
      ensures created.None? ==> !ok && fs.calls == old(fs.calls) + [Fstat(i, false)]
      ensures Answered(old(fs.outcomes), fs.outcomes, ok)
      ensures Keeps(old(fs.state), fs.state, g.still)
      ensures ok ==>
        fs.state.Holds(i, TEXT) && fs.state.Names((fs.open[fd.value], MARKER), i) &&
        |old(fs.steps)| <= complete && HeldSince(complete, fs.steps, i, TEXT) && AllChecked(fs.open, complete, fs.steps)
      ensures ok ==> AllSynced(fs.calls, |old(fs.calls)|, i, fs.open[fd.value], fs.open[parentFd.value])
    {
      hide Rely, MarkerStep, HeldSince, LinksChecked, IsDirectory, AllSynced, Encode, Encodes;
      ghost var marker, origin, start := (fs.open[fd.value], MARKER), fs.state, fs.steps;
      ok, complete := false, n;

      ghost var before, s := fs.steps, fs.state;
      created := fs.Identify(file, g);
      QuietStart(before, s, g);
      QuietExtend(before, before, fs.steps, s, s, fs.state, g);
      MarkerQuiet(n, before, fs.steps, s, fs.state, g, i, marker, []);
      if created.None? { return; }

      before, s := fs.steps, fs.state;
      ghost var log := |fs.calls|;
      var wrote;
      ghost var written;
      wrote, written := fs.WriteAll(file, TEXT, g);
      MarkerWrites(n, before, fs.steps, i, marker);
      ContinuesOn(start, before, fs.steps);
      assert Keeps(origin, fs.state, g.still);
      if !wrote { return; }

      before, s := fs.steps, fs.state;
      ok := SyncAll(file, g);
      MarkerQuiet(n, before, fs.steps, s, fs.state, g, i, marker, TEXT);
      ContinuesOn(start, before, fs.steps);
      if !ok { return; }
      SyncedWider(fs.calls, |old(fs.calls)|, log, i, fs.open[fd.value], fs.open[parentFd.value]);

      before, s := fs.steps, fs.state;
      complete := |fs.steps|;
      ok := Verify(g);
      MarkerQuiet(n, before, fs.steps, s, fs.state, g, i, marker, TEXT);
      ContinuesOn(start, before, fs.steps);
      if !ok { return; }

      before, s := fs.steps, fs.state;
      ok := fs.VerifyOwned(fs.open[fd.value], MARKER, created.value, g);
      QuietStart(before, s, g);
      QuietExtend(before, before, fs.steps, s, s, fs.state, g);
      MarkerQuiet(n, before, fs.steps, s, fs.state, g, i, marker, TEXT);
      ContinuesOn(start, before, fs.steps);
      HeldJoin(complete, before, fs.steps, i, TEXT);
      LinksLater(fs.open, fs.open, complete, complete, before, fs.steps, Links());
    }

    /**
     What a run of `publish` did: nothing before `birth`; then the marker was created as a new file under a name
     that did not exist, and only it and its entry changed.
     */
    ghost predicate MarkerRun(start: Steps, birth: nat, steps: Steps, i: Inode)
      requires fd.Some? && fd.value in fs.open
      reads this`fd, fs`open
    {
      var marker := (fs.open[fd.value], MARKER);
      Continues(start, steps) && |start| <= birth <= |steps| &&
      (forall k :: |start| <= k < birth ==> steps[k].0 == steps[k].1) &&
      (birth < |steps| ==> MarkerBorn(birth, steps, i, marker)) && MarkerSince(birth, steps, i, marker)
    }

    /** `publish` after its first check: create the marker exclusively, fill it, and undo on failure. */
    method PlaceMarker(still: set<Key>) returns (ok: bool, ghost birth: nat, ghost i: Inode, ghost complete: nat)
      requires Entered()
      modifies fs
      ensures Entered() && fs.open == old(fs.open) && fd.value in fs.open && parentFd.value in fs.open
      ensures MarkerRun(old(fs.steps), birth, fs.steps, i)
      ensures ok ==>
        birth < complete && fs.state.Holds(i, TEXT) && fs.state.Names((fs.open[fd.value], MARKER), i) &&
        HeldSince(complete, fs.steps, i, TEXT) && AllChecked(fs.open, complete, fs.steps) &&
        AllSynced(fs.calls, |old(fs.calls)|, i, fs.open[fd.value], fs.open[parentFd.value])
      ensures !ok && birth < |fs.steps| && fs.state.Names((fs.open[fd.value], MARKER), i) ==> Unidentified(fs.calls, i)
      ensures Answered(old(fs.outcomes), fs.outcomes, ok)
      ensures var marker := (fs.open[fd.value], MARKER);
        marker in still && marker in old(fs.state.entries) ==> !ok && SameEntry(old(fs.state), fs.state, marker)
    {
      hide Rely, MarkerStep, MarkerSince, HeldSince, LinksChecked, Unlinked, AllSynced, IsDirectory, Encode;
      assert fd.value in Held() && parentFd.value in ancestorFds;
      ghost var marker, base := (fs.open[fd.value], MARKER), fs.open;
      i, complete, ok := 0, 0, false;
      var g := Guard({}, {}, still);
      ghost var before, s := fs.steps, fs.state;
      birth := |before|;
      var descriptor;
      descriptor, i := fs.CreateExclusive(fs.open[fd.value], MARKER, g);
      ghost var born := fs.steps;
      if descriptor.None? {
        birth := |born|;
        MarkerNothing(born, i, marker);
        RelyKeeps(s, fs.state, g);
        return;
      }
      MarkerBirth(before, born, s, fs.state, g, i, marker);
      g := Guard({fs.open[descriptor.value]}, {}, still);
      var created;
      ok, created, complete := FillMarker(descriptor.value, g, i, birth);
      ghost var filled := fs.steps;
      if !ok {
        s := fs.state;
        fs.UnlinkOwned(fs.open[fd.value], MARKER, created, g);
        MarkerUnlink(birth, filled, fs.steps, s, fs.state, g, i, marker, created);
      } else {
        LinksWithout(fs.open, descriptor.value, complete, fs.steps);
      }
      ContinuesOn(born, filled, fs.steps);
      ContinuesOn(before, born, fs.steps);
      assert fs.steps[birth] == born[birth];
      fs.Close(descriptor.value);
      assert fs.open == base;
    }

    /** Closing a descriptor that the tree does not hold leaves its checked links checked. */
    lemma LinksWithout(open: map<Fd, Inode>, x: Fd, n: nat, steps: Steps)
      requires Entered() && x !in Held() && AllChecked(open, n, steps)
      ensures AllChecked(open - {x}, n, steps)
    {
      hide Checked;
      assert x !in ancestorFds && fd.value in Held() && sourceFd.value in Held() && parentFd.value in ancestorFds;
      var links := Links();
      forall l | 0 <= l < |links| ensures LinkChecked(open - {x}, n, steps, links[l]) {
        assert LinkChecked(open, n, steps, links[l]);
        if l < |ancestorLinks| {
          assert ancestorFds[l] in ancestorFds && ancestorFds[l + 1] in ancestorFds;
        }
      }
    }

    /**
     `publish`: certify completion by an exclusively created marker.  `published` becomes true only when the new
     marker held the full text, synced, while every directory identity was verified again, and then named our file;
     a failure removes our marker unless identifying it failed; an existing marker makes the call fail and changes
     neither the marker nor the flag.  It raises exactly when some call was refused.
     */
    method PublishMarker(still: set<Key>) returns (ok: bool, ghost birth: nat, ghost i: Inode, ghost complete: nat)
      requires Entered()
      modifies this`published, fs
      ensures Entered() && fs.open == old(fs.open) && published == (old(published) || ok)
      ensures fd.value in fs.open && parentFd.value in fs.open
      ensures MarkerRun(old(fs.steps), birth, fs.steps, i)
      ensures birth < |fs.steps| ==> AllChecked(fs.open, |old(fs.steps)|, fs.steps[..birth])
      ensures ok ==>
        birth < complete && fs.state.Holds(i, TEXT) && fs.state.Names((fs.open[fd.value], MARKER), i) &&
        HeldSince(complete, fs.steps, i, TEXT) && AllChecked(fs.open, complete, fs.steps) &&
        AllSynced(fs.calls, |old(fs.calls)|, i, fs.open[fd.value], fs.open[parentFd.value])
      ensures Encodes(TEXT, "victor-incremental-body-qualification-v2\n") && MARKER == "QUALIFICATION_COMPLETE"
      ensures !ok && birth < |fs.steps| && fs.state.Names((fs.open[fd.value], MARKER), i) ==> Unidentified(fs.calls, i)
      ensures Answered(old(fs.outcomes), fs.outcomes, ok)
      ensures var marker := (fs.open[fd.value], MARKER);
        marker in still && marker in old(fs.state.entries) ==>
          !ok && published == old(published) && SameEntry(old(fs.state), fs.state, marker)
    {
      hide Rely, MarkerStep, MarkerSince, MarkerBorn, Quiet, HeldSince, LinksChecked;
      hide IsDirectory, AllSynced, Unidentified;
      assert Encodes(TEXT, "victor-incremental-body-qualification-v2\n");
      assert fd.value in Held() && parentFd.value in ancestorFds;
      ghost var start, s := fs.steps, fs.state;
      i, complete := 0, 0;
      var g := Guard({}, {}, still);
      ok := Verify(g);
      ghost var verified := fs.steps;
      QuietFacts(start, verified, s, fs.state, g);
      birth := |verified|;
      MarkerNothing(verified, i, (fs.open[fd.value], MARKER));
      if !ok { return; }
      ok, birth, i, complete := PlaceMarker(still);
      SplicePrefix(start, verified, fs.steps, birth);
      if birth < |fs.steps| {
        assert Continues(verified, fs.steps[..birth]);
        LinksLater(fs.open, fs.open, |start|, |start|, verified, fs.steps[..birth], Links());
      }
      if ok {
        published := true;
      }
    }
  }

  /** The trail follows the first components of the path from `top`, or nothing was opened. */
  ghost predicate Along(relative: string, casefold: string -> string, n: nat, steps: Steps, top: Inode,
                        trail: seq<Inode>, create: bool)
  {
    var split := SourcePaths.SourceParts(relative, casefold);
    trail == [] || (split.Some? && Descent(n, steps, top, split.value, trail, create))
  }

  /** The key is what the path leads to: its last component in the directory its other components lead to. */
  ghost predicate Leads(relative: string, casefold: string -> string, trail: seq<Inode>, key: Key) {
    var split := SourcePaths.SourceParts(relative, casefold);
    split.Some? && |trail| == |split.value| >= 1 && key == (trail[|trail| - 1], split.value[|trail| - 1])
  }

  /** The names under which directories of the path may be made. */
  ghost function PathKeys(relative: string, casefold: string -> string, trail: seq<Inode>, create: bool): set<Key> {
    var split := SourcePaths.SourceParts(relative, casefold);
    if split.Some? then TrailKeys(split.value, trail, create) else {}
  }

  lemma NotAlong(relative: string, casefold: string -> string, n: nat, steps: Steps, top: Inode, create: bool)
    ensures Along(relative, casefold, n, steps, top, [], create)
  {
  }

  lemma NoPathKeys(relative: string, casefold: string -> string, trail: seq<Inode>)
    ensures PathKeys(relative, casefold, trail, false) == {}
  {
  }

  lemma AlongLater(relative: string, casefold: string -> string, n: nat, m: nat, before: Steps, steps: Steps,
                   top: Inode, trail: seq<Inode>, create: bool)
    requires n <= m && Along(relative, casefold, m, before, top, trail, create) && Continues(before, steps)
    ensures Along(relative, casefold, n, steps, top, trail, create)
  {
    hide Reached;
    if trail != [] {
      var parts := SourcePaths.SourceParts(relative, casefold).value;
      DescentLater(n, m, before, steps, top, parts, trail, create);
    }
  }

  /** The temporary name, random in the script, is not the last component of the path. */
  ghost predicate Fresh(relative: string, casefold: string -> string, temporary: Name) {
    var split := SourcePaths.SourceParts(relative, casefold);
    split.Some? && split.value != [] ==> split.value[|split.value| - 1] != temporary
  }

  ghost predicate SyncedAt(calls: seq<Call>, k: int, i: Inode) {
    0 <= k < |calls| && calls[k].Fsync? && calls[k].i == i && calls[k].ok
  }

  /** The marker with its text, the output directory and its parent were synced, in this order. */
  ghost predicate AllSynced(calls: seq<Call>, n: nat, i: Inode, directory: Inode, parent: Inode) {
    exists k :: n <= k < |calls| && calls[k] == Fsync(i, Some(File(TEXT)), true) &&
      SyncedAt(calls, k + 1, directory) && SyncedAt(calls, k + 2, parent)
  }

  lemma SyncedWider(calls: seq<Call>, n: nat, m: nat, i: Inode, directory: Inode, parent: Inode)
    requires n <= m && AllSynced(calls, m, i, directory, parent)
    ensures AllSynced(calls, n, i, directory, parent)
  {
  }

  /** The file could not be identified: the last `os.fstat` was on it and failed. */
  ghost predicate Unidentified(calls: seq<Call>, i: Inode) {
    calls != [] && calls[|calls| - 1] == Fstat(i, false)
  }

  /** Beside the descriptors open before, exactly the listed ones are open. */
  ghost predicate OpenBeside(base: map<Fd, Inode>, open: map<Fd, Inode>, extra: seq<Fd>) {
    Distinct(extra) && Elements(extra) !! base.Keys && Elements(extra) <= open.Keys && open - Elements(extra) == base
  }

  lemma NothingBeside(base: map<Fd, Inode>)
    ensures OpenBeside(base, base, [])
  {
    assert base - Elements<Fd>([]) == base;
  }

  lemma OneMoreBeside(base: map<Fd, Inode>, open: map<Fd, Inode>, now: map<Fd, Inode>, extra: seq<Fd>, x: Fd)
    requires OpenBeside(base, open, extra) && x !in open && x in now && now - {x} == open
    ensures OpenBeside(base, now, extra + [x])
  {
    ElementsAppend(extra, x);
    Adopted(open, now, Elements(extra), x);
    assert x !in Elements(extra);
    assert x !in base by {
      assert base.Keys <= open.Keys;
    }
  }

  /** As `Reserved`; and while other processes leave the name alone, what was opened is what was made. */
  ghost predicate MadeAt(n: nat, steps: Steps, key: Key, made: Inode, found: Inode, still: set<Key>) {
    Reserved(n, steps, key, made, found) && (key in still ==> found == made)
  }

  lemma ReservedChecked(n: nat, m: nat, steps: Steps, key: Key, made: Inode, found: Inode)
    requires n <= m && Reserved(m, steps, key, made, found)
    ensures Checked(n, steps, key, found)
  {
    hide MakesDirectory;
  }

  lemma MadeLater(n: nat, from: nat, before: Steps, steps: Steps, key: Key, made: Inode, found: Inode, still: set<Key>)
    requires n <= from && MadeAt(from, before, key, made, found, still) && Continues(before, steps)
    ensures MadeAt(n, steps, key, made, found, still)
  {
    hide Reserved;
    ReservedLater(n, from, before, steps, key, made, found);
  }
}
