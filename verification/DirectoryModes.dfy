/**
 Who owns each directory after the walk and with which mode: the ones it creates, the one it
 repairs, and everything else (src/wudup/db_storage.py).
 */
module DirectoryModes {
  import opened Ordering
  import opened DirectoryWalk

  /** One look at a path, with the components still to go behind it. */
  datatype Look = Look(place: Path, rest: Path)

  /** The places the walk looks at, in order. */
  ghost function Trail(tree: Tree, directory: Path, pending: Path, links: nat, who: Account): seq<Look>
    requires links <= MAX_LINKS
    decreases MAX_LINKS - links, |pending|
  {
    if pending == [] then []
    else
      var component, rest := pending[0], pending[1..];
      if component == ".." then Trail(tree, Parent(directory), rest, links, who)
      else
        var candidate := directory + [component];
        var found := StatOrCreate(tree, candidate, who, rest != []);
        var node := found[candidate];
        [Look(candidate, rest)] +
        if node.Symlink? then
          if node.meta.uid !in who.trusted || links + 1 > MAX_LINKS then []
          else Trail(found, if node.absolute then [] else directory, node.target + rest, links + 1, who)
        else if rest == [] && NeedsRepair(node, who) && !MayChange(node, who) then []
        else
          var kept := Kept(found, candidate, rest, who);
          if CheckOk(kept[candidate], who, rest != []) then Trail(kept, candidate, rest, links, who) else []
  }

  ghost function FirstRest(trail: seq<Look>, p: Path): Option<Path> {
    if trail == [] then None else if trail[0].place == p then Some(trail[0].rest) else FirstRest(trail[1..], p)
  }

  /** The walk ends at `p`, with nothing to go. */
  ghost predicate EndsAt(trail: seq<Look>, p: Path) {
    trail != [] && trail[|trail| - 1] == Look(p, [])
  }

  // ---------- Owner and mode ----------

  /**
   A directory of a trusted account that is not sticky and that others may write to, or that root
   has to hand over, if the running account may change it.
   */
  ghost predicate ToRepair(node: Node, who: Account) {
    && node.Directory? && node.meta.uid in who.trusted && node.meta.mode & 0x200 == 0
    && (node.meta.mode & 0x012 != 0
        || (node.meta.mode == 0x1C0 && who.owner.Some? && who.euid == 0 && node.meta.uid != who.owner.value))
    && (who.euid == 0 || who.euid == node.meta.uid)
  }

  /** Mode 0700, handed to the configured owner by root. */
  ghost predicate IsRepair(before: Node, now: Node, who: Account) {
    && now.Directory? && now.meta.mode == 0x1C0
    && now.meta.uid == if who.euid == 0 && who.owner.Some? then who.owner.value else before.meta.uid
  }

  /** A new directory: 0755 on the way; 0700 at the end, handed to the configured owner by root. */
  ghost predicate IsNew(node: Node, rest: Path, who: Account) {
    && node.Directory?
    && node.meta.mode == (if rest != [] then 0x1ED else 0x1C0)
    && node.meta.uid == if rest == [] && who.euid == 0 && who.owner.Some? && 0 in who.trusted then who.owner.value
                        else who.euid
  }

  /** What has become of `p`. */
  ghost predicate NodeAfter(tree: Tree, trail: seq<Look>, after: Tree, who: Account, p: Path) {
    if p in tree then
      p in after && if EndsAt(trail, p) && ToRepair(tree[p], who) then IsRepair(tree[p], after[p], who)
                    else after[p] == tree[p]
    else
      (p in after <==> FirstRest(trail, p).Some?) && (p in after ==> IsNew(after[p], FirstRest(trail, p).value, who))
  }

  lemma Bits()
    ensures (0x1C0 as bv12) & 0x012 == 0 && (0x1C0 as bv12) & 0x200 == 0
    ensures (0x1ED as bv12) & 0x012 == 0 && (0x1ED as bv12) != 0x1C0
  {
  }

  lemma RepairIs(node: Node, who: Account)
    ensures ToRepair(node, who) <==> NeedsRepair(node, who) && MayChange(node, who)
    ensures ToRepair(node, who) ==> IsRepair(node, Repaired(node, who), who)
  {
  }

  lemma CreatedIs(who: Account, rest: Path)
    ensures rest != [] ==> IsNew(Created(who, true), rest, who) && !NeedsRepair(Created(who, true), who)
    ensures rest == [] ==>
              var node := Created(who, false);
              && MayChange(node, who)
              && IsNew(if NeedsRepair(node, who) then Repaired(node, who) else node, rest, who)
  {
    Bits();
  }

  /** One more look at the front, at a place that was there or has just been created on the way. */
  lemma LookedFirst(tree: Tree, found: Tree, look: Look, trail: seq<Look>, after: Tree, who: Account, p: Path)
    requires NodeAfter(found, trail, after, who, p)
    requires found == tree || (look.place !in tree && look.rest != [] && found == tree[look.place := Created(who, true)])
    requires look.place in found
    requires trail == [] && look.rest == [] && look.place in tree ==> !ToRepair(tree[look.place], who)
    ensures NodeAfter(tree, [look] + trail, after, who, p)
  {
    CreatedIs(who, look.rest);
    assert ([look] + trail)[1..] == trail;
    if trail != [] {
      assert ([look] + trail)[|trail|] == trail[|trail| - 1];
    }
    RepairIs(Created(who, true), who);
  }

  lemma LookedLast(tree: Tree, candidate: Path, who: Account, p: Path)
    requires candidate in tree ==> !tree[candidate].Symlink?
    requires var found := StatOrCreate(tree, candidate, who, false);
             !(NeedsRepair(found[candidate], who) && !MayChange(found[candidate], who))
    ensures var found := StatOrCreate(tree, candidate, who, false);
            NodeAfter(tree, [Look(candidate, [])], Kept(found, candidate, [], who), who, p)
  {
    CreatedIs(who, []);
    if candidate in tree { RepairIs(tree[candidate], who); }
    assert [Look(candidate, [])][1..] == [];
  }

  lemma Untouched(tree: Tree, who: Account, p: Path)
    ensures NodeAfter(tree, [], tree, who, p)
  {
  }

  /** The walk, from any point: every node of the tree afterwards. */
  lemma {:induction false} WalkNodes(tree: Tree, directory: Path, pending: Path, links: nat, who: Account, p: Path)
    requires links <= MAX_LINKS
    ensures NodeAfter(tree, Trail(tree, directory, pending, links, who),
                      Walk(tree, directory, pending, links, who).tree, who, p)
    decreases MAX_LINKS - links, |pending|
  {
    hide NodeAfter, NeedsRepair, CheckOk, MayChange, Repaired, Created, ToRepair;
    if pending == [] {
      Untouched(tree, who, p);
    } else if pending[0] == ".." {
      WalkNodes(tree, Parent(directory), pending[1..], links, who, p);
    } else {
      var component, rest := pending[0], pending[1..];
      var candidate := directory + [component];
      var found := StatOrCreate(tree, candidate, who, rest != []);
      var node := found[candidate];
      var look := Look(candidate, rest);
      CreatedMayChange(who, rest != []);
      Found(tree, candidate, who, rest);
      NotToRepair(node, who);
      if node.Symlink? {
        if node.meta.uid !in who.trusted || links + 1 > MAX_LINKS {
          Untouched(found, who, p);
          LookedFirst(tree, found, look, [], found, who, p);
        } else {
          var at := if node.absolute then [] else directory;
          WalkNodes(found, at, node.target + rest, links + 1, who, p);
          LookedFirst(tree, found, look, Trail(found, at, node.target + rest, links + 1, who),
                      Walk(found, at, node.target + rest, links + 1, who).tree, who, p);
        }
      } else if rest == [] && NeedsRepair(node, who) && !MayChange(node, who) {
        Untouched(found, who, p);
        LookedFirst(tree, found, look, [], found, who, p);
      } else if rest == [] {
        LookedLast(tree, candidate, who, p);
        NothingToGo(Kept(found, candidate, rest, who), candidate, links, who);
        assert [look] + [] == [look];
      } else if CheckOk(found[candidate], who, true) {
        WalkNodes(found, candidate, rest, links, who, p);
        LookedFirst(tree, found, look, Trail(found, candidate, rest, links, who),
                    Walk(found, candidate, rest, links, who).tree, who, p);
      } else {
        Untouched(found, who, p);
        LookedFirst(tree, found, look, [], found, who, p);
      }
    }
  }

  lemma NothingToGo(tree: Tree, directory: Path, links: nat, who: Account)
    requires links <= MAX_LINKS
    ensures Trail(tree, directory, [], links, who) == [] && Walk(tree, directory, [], links, who).tree == tree
  {
  }

  lemma CreatedMayChange(who: Account, ancestor: bool)
    ensures Created(who, ancestor).Directory? && MayChange(Created(who, ancestor), who)
  {
  }

  lemma NotToRepair(node: Node, who: Account)
    ensures node.Symlink? || (NeedsRepair(node, who) && !MayChange(node, who)) ==> !ToRepair(node, who)
  {
    RepairIs(node, who);
  }

  lemma Found(tree: Tree, candidate: Path, who: Account, rest: Path)
    ensures var found := StatOrCreate(tree, candidate, who, rest != []);
            && candidate in found && (candidate in tree ==> found == tree)
            && (candidate !in tree ==> found == tree[candidate := Created(who, rest != [])])
  {
  }

  // ---------- The call ----------

  /**
   After the call every node that was there is as before, but for the directory the walk ends at,
   which is repaired to mode 0700 if it has to be; every other node is a directory that the walk
   has created, with mode 0755 if components were still to go and with 0700 if not.
   */
  lemma NodesAfterCall(tree: Tree, path: Path, who: Account, p: Path)
    requires [] in tree
    ensures var trail := if CheckOk(tree[[]], who, path != []) then Trail(tree, [], path, 0, who) else [];
            NodeAfter(tree, trail, PrivateDirectory(tree, path, who).tree, who, p)
  {
    if CheckOk(tree[[]], who, path != []) {
      WalkNodes(tree, [], path, 0, who, p);
    } else {
      Untouched(tree, who, p);
    }
  }

  // ---------- Paths without `..` ----------

  ghost predicate NoUp(pending: Path) {
    ".." !in pending
  }

  ghost predicate NoUpLinks(tree: Tree) {
    forall p :: p in tree && tree[p].Symlink? ==> NoUp(tree[p].target)
  }

  /** Whatever is there has its parents there. */
  ghost predicate Rooted(tree: Tree) {
    forall p, k :: p in tree && 0 <= k <= |p| ==> p[..k] in tree
  }

  /** Below a directory without anything in it the walk goes down component by component. */
  lemma {:induction false} DescendsAlone(tree: Tree, directory: Path, pending: Path, links: nat, who: Account)
    requires links <= MAX_LINKS && NoUp(pending) && forall p :: p in tree && directory <= p ==> p == directory
    ensures var after := Walk(tree, directory, pending, links, who);
            after.result.Ok? ==> after.result.value == directory + pending
    decreases |pending|
  {
    hide CheckOk, NeedsRepair, MayChange, Repaired;
    if pending == [] {
      assert directory + pending == directory;
    } else {
      var component, rest := pending[0], pending[1..];
      var candidate := directory + [component];
      var found := StatOrCreate(tree, candidate, who, rest != []);
      var kept := Kept(found, candidate, rest, who);
      forall p | p in kept && candidate <= p ensures p == candidate {
        assert directory <= p;
      }
      DescendsAlone(kept, candidate, rest, links, who);
      assert candidate + rest == directory + pending;
    }
  }

  lemma RootedAfter(tree: Tree, directory: Path, component: string, node: Node)
    requires Rooted(tree) && directory in tree
    ensures Rooted(tree[directory + [component] := node])
  {
    var candidate := directory + [component];
    forall p, k | p in tree[candidate := node] && 0 <= k <= |p| ensures p[..k] in tree[candidate := node] {
      if p !in tree {
        if k <= |directory| { assert candidate[..k] == directory[..k]; } else { assert candidate[..k] == candidate; }
      }
    }
  }

  /** Without `..` in the path and in the links, a directory that the call returns and has created came last. */
  lemma {:induction false} NewResultCameLast(tree: Tree, directory: Path, pending: Path, links: nat, who: Account)
    requires links <= MAX_LINKS && NoUp(pending) && NoUpLinks(tree) && Rooted(tree) && directory in tree && [] in tree
    ensures var after := Walk(tree, directory, pending, links, who);
            after.result.Ok? && after.result.value !in tree ==>
              FirstRest(Trail(tree, directory, pending, links, who), after.result.value) == Some([])
    decreases MAX_LINKS - links, |pending|
  {
    hide CheckOk, NeedsRepair, MayChange, Repaired, Rooted;
    if pending != [] {
      var component, rest := pending[0], pending[1..];
      var candidate := directory + [component];
      var found := StatOrCreate(tree, candidate, who, rest != []);
      var node := found[candidate];
      RootedAfter(tree, directory, component, Created(who, rest != []));
      if node.Symlink? {
        if node.meta.uid in who.trusted && links + 1 <= MAX_LINKS {
          assert NoUp(tree[candidate].target);
          NewResultCameLast(found, if node.absolute then [] else directory, node.target + rest, links + 1, who);
        }
      } else if !(rest == [] && NeedsRepair(node, who) && !MayChange(node, who)) {
        var kept := Kept(found, candidate, rest, who);
        if CheckOk(kept[candidate], who, rest != []) {
          if rest == [] {
            LastComponent(kept, candidate, links, who);
          } else {
            if candidate !in tree { NewGoesDown(tree, found, candidate, rest, links, who); }
            NewResultCameLast(found, candidate, rest, links, who);
          }
        }
      }
    }
  }

  lemma NewGoesDown(tree: Tree, found: Tree, candidate: Path, rest: Path, links: nat, who: Account)
    requires links <= MAX_LINKS && NoUp(rest) && rest != [] && Rooted(tree) && candidate !in tree
    requires found.Keys == tree.Keys + {candidate}
    ensures Walk(found, candidate, rest, links, who).result != Ok(candidate)
  {
    hide Walk;
    forall p | p in found && candidate <= p ensures p == candidate {
      assert p[..|candidate|] == candidate;
    }
    DescendsAlone(found, candidate, rest, links, who);
  }

  /** So a new database directory is private and the directories created above it are not. */
  lemma NewDatabaseDirectory(tree: Tree, path: Path, who: Account, p: Path)
    requires [] in tree && Rooted(tree) && NoUp(path) && NoUpLinks(tree)
    requires PrivateDirectory(tree, path, who).result.Ok? && p in PrivateDirectory(tree, path, who).tree && p !in tree
    ensures var after := PrivateDirectory(tree, path, who);
            && after.tree[p].Directory?
            && after.tree[p].meta.mode == (if p == after.result.value then 0x1C0 else 0x1ED)
            && after.tree[p].meta.uid == if p == after.result.value && who.euid == 0 && who.owner.Some? && 0 in who.trusted
                                         then who.owner.value else who.euid
  {
    hide Trail, Walk;
    NodesAfterCall(tree, path, who, p);
    NewResultCameLast(tree, [], path, 0, who);
    LastIsResult(tree, [], path, 0, who, p);
  }

  lemma OneLook(candidate: Path, p: Path)
    ensures FirstRest([Look(candidate, [])], p) == if candidate == p then Some([]) else None
  {
    assert [Look(candidate, [])][1..] == [];
  }

  /** What is first looked at with nothing to go is where a walk that returns has ended. */
  lemma {:induction false} LastIsResult(tree: Tree, directory: Path, pending: Path, links: nat, who: Account, p: Path)
    requires links <= MAX_LINKS && p !in tree
    ensures var after := Walk(tree, directory, pending, links, who);
            FirstRest(Trail(tree, directory, pending, links, who), p) == Some([]) && after.result.Ok? ==>
              after.result.value == p
    decreases MAX_LINKS - links, |pending|
  {
    hide CheckOk, NeedsRepair, MayChange, Repaired;
    if pending != [] {
      if pending[0] == ".." {
        LastIsResult(tree, Parent(directory), pending[1..], links, who, p);
      } else {
        var component, rest := pending[0], pending[1..];
        var candidate := directory + [component];
        var found := StatOrCreate(tree, candidate, who, rest != []);
        var node := found[candidate];
        if node.Symlink? {
          if node.meta.uid in who.trusted && links + 1 <= MAX_LINKS {
            LastIsResult(found, if node.absolute then [] else directory, node.target + rest, links + 1, who, p);
          }
        } else if !(rest == [] && NeedsRepair(node, who) && !MayChange(node, who)) {
          var kept := Kept(found, candidate, rest, who);
          if CheckOk(kept[candidate], who, rest != []) {
            if rest == [] {
              LastComponent(kept, candidate, links, who);
              NothingToGo(kept, candidate, links, who);
              assert Trail(tree, directory, pending, links, who) == [Look(candidate, [])];
              OneLook(candidate, p);
            } else if candidate != p {
              LastIsResult(found, candidate, rest, links, who, p);
            }
          }
        }
      }
    }
  }

  /** What the check demands of the directory returned, and of those above it, bit by bit. */
  lemma ResultIsPrivate(tree: Tree, path: Path, who: Account, k: nat)
    requires [] in tree && AccountOk(who)
    requires var r := PrivateDirectory(tree, path, who).result; r.Ok? && k <= |r.value|
    ensures var after := PrivateDirectory(tree, path, who);
            && after.result.value[..k] in after.tree
            && var node := after.tree[after.result.value[..k]];
               && node.Directory? && node.meta.uid in who.trusted
               && (node.meta.mode & 0x012 == 0 || (k < |after.result.value| && node.meta.mode & 0x200 != 0))
  {
    hide Walk, LeadsTo, KindsOf, TrustedKinds;
    PrivateDirectoryIsSafe(tree, path, who);
    var d := PrivateDirectory(tree, path, who).result.value;
    assert d[..|d|] == d;
  }
}
