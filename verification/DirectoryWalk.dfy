/**
 The walk from the root to the private database directory: every alias and every directory on
 the way is checked before it is entered, missing directories are created, and at most forty
 symbolic links are followed.
 */
module DirectoryWalk {
  import opened Ordering

  /** The components below the root. */
  type Path = seq<string>

  const ROOT: Path := []

  datatype Meta = Meta(uid: nat, mode: bv12)

  datatype Node =
    | Directory(meta: Meta)
    | Symlink(meta: Meta, absolute: bool, target: Path)
    | Other(meta: Meta)

  type Tree = map<Path, Node>

  /** The accounts that may own directories, the one that runs, and the configured owner. */
  datatype Account = Account(trusted: set<nat>, euid: nat, owner: Option<nat>)

  datatype Error = Untrusted(path: Path) | BadLink(path: Path) | NotRepaired(path: Path)

  const MAX_LINKS := 40
  const OTHERS_WRITE: bv12 := 0x012   // 0o022
  const STICKY: bv12 := 0x200         // S_ISVTX
  const OWNER_ONLY: bv12 := 0x1C0     // 0o700
  const SHARED_READ: bv12 := 0x1ED    // 0o755

  ghost predicate AccountOk(who: Account) {
    who.euid in who.trusted && (who.owner.Some? ==> who.owner.value in who.trusted)
  }

  function Parent(p: Path): Path {
    if p == [] then [] else p[..|p| - 1]
  }

  /** `_check_database_directory` passes. */
  predicate CheckOk(node: Node, who: Account, ancestor: bool) {
    && node.Directory? && node.meta.uid in who.trusted
    && (node.meta.mode & OTHERS_WRITE == 0 || (ancestor && node.meta.mode & STICKY != 0))
  }

  function Created(who: Account, ancestor: bool): Node {
    Directory(Meta(who.euid, if ancestor then SHARED_READ else OWNER_ONLY))
  }

  function StatOrCreate(tree: Tree, path: Path, who: Account, ancestor: bool): Tree {
    if path in tree then tree else tree[path := Created(who, ancestor)]
  }

  predicate Handoff(meta: Meta, who: Account) {
    meta.mode == OWNER_ONLY && who.owner.Some? && who.euid == 0 && meta.uid != who.owner.value
  }

  predicate NeedsRepair(node: Node, who: Account) {
    && node.Directory? && node.meta.uid in who.trusted && node.meta.mode & STICKY == 0
    && (node.meta.mode & OTHERS_WRITE != 0 || Handoff(node.meta, who))
  }

  /** Only root or the owner of a directory may change it. */
  predicate MayChange(node: Node, who: Account) {
    who.euid == 0 || who.euid == node.meta.uid
  }

  function Repaired(node: Node, who: Account): Node {
    Directory(Meta(if who.owner.Some? && who.euid == 0 then who.owner.value else node.meta.uid, OWNER_ONLY))
  }

  // ---------- The walk ----------

  datatype Outcome = Outcome(tree: Tree, result: Result<Path, Error>)

  /** From a directory with the components still to go; links lengthen them. */
  function Walk(tree: Tree, directory: Path, pending: Path, links: nat, who: Account): Outcome
    requires links <= MAX_LINKS
    decreases MAX_LINKS - links, |pending|
  {
    if pending == [] then
      Outcome(tree, if directory in tree && CheckOk(tree[directory], who, false) then Ok(directory)
                    else Raise(Untrusted(directory)))
    else
      var component, rest := pending[0], pending[1..];
      if component == ".." then Walk(tree, Parent(directory), rest, links, who)
      else
        var candidate := directory + [component];
        var found := StatOrCreate(tree, candidate, who, rest != []);
        var node := found[candidate];
        if node.Symlink? then
          if node.meta.uid !in who.trusted || links + 1 > MAX_LINKS then Outcome(found, Raise(BadLink(candidate)))
          else Walk(found, if node.absolute then [] else directory, node.target + rest, links + 1, who)
        else if rest == [] && NeedsRepair(node, who) && !MayChange(node, who) then
          Outcome(found, Raise(NotRepaired(candidate)))
        else
          var kept := Kept(found, candidate, rest, who);
          if CheckOk(kept[candidate], who, rest != []) then Walk(kept, candidate, rest, links, who)
          else Outcome(kept, Raise(Untrusted(candidate)))
  }

  /** The tree after the last component was repaired if it needed that. */
  function Kept(tree: Tree, candidate: Path, rest: Path, who: Account): (r: Tree)
    requires candidate in tree
    ensures candidate in r
  {
    if rest == [] && NeedsRepair(tree[candidate], who) then tree[candidate := Repaired(tree[candidate], who)]
    else tree
  }

  function PrivateDirectory(tree: Tree, path: Path, who: Account): Outcome
    requires [] in tree
  {
    if CheckOk(tree[[]], who, path != []) then Walk(tree, [], path, 0, who)
    else Outcome(tree, Raise(Untrusted([])))
  }

  class Disk {
    var nodes: Tree

    constructor (nodes: Tree)
      ensures this.nodes == nodes
    {
      this.nodes := nodes;
    }

    /** The loop over the pending queue. */
    method PrivateDatabaseDirectory(path: Path, who: Account) returns (r: Result<Path, Error>)
      requires [] in nodes
      modifies this
      ensures Outcome(nodes, r) == PrivateDirectory(old(nodes), path, who)
    {
      var directory: Path, pending, links := [], path, 0;
      if !CheckOk(nodes[directory], who, pending != []) {
        return Raise(Untrusted(directory));
      }
      while pending != []
        invariant links <= MAX_LINKS
        invariant Walk(nodes, directory, pending, links, who) == Walk(old(nodes), [], path, 0, who)
        decreases MAX_LINKS - links, |pending|
      {
        var component := pending[0];
        pending := pending[1..];
        if component == ".." {
          directory := Parent(directory);
        } else {
          var candidate := directory + [component];
          nodes := StatOrCreate(nodes, candidate, who, pending != []);
          var node := nodes[candidate];
          if node.Symlink? {
            links := links + 1;
            if node.meta.uid !in who.trusted || links > MAX_LINKS {
              return Raise(BadLink(candidate));
            }
            if node.absolute {
              directory := [];
            }
            pending := node.target + pending;
          } else {
            if pending == [] && NeedsRepair(node, who) {
              if !MayChange(node, who) {
                return Raise(NotRepaired(candidate));
              }
              nodes := nodes[candidate := Repaired(node, who)];
            }
            if !CheckOk(nodes[candidate], who, pending != []) {
              return Raise(Untrusted(candidate));
            }
            directory := candidate;
          }
        }
      }
      return if directory in nodes && CheckOk(nodes[directory], who, false) then Ok(directory)
             else Raise(Untrusted(directory));
    }
  }

  // ---------- Every component is checked ----------

  /** Every directory from the root down to `p` is a real directory that passed the ancestor check. */
  ghost predicate PrefixesChecked(tree: Tree, p: Path, who: Account) {
    forall k :: 0 <= k <= |p| ==> p[..k] in tree && CheckOk(tree[p[..k]], who, true)
  }

  /** The directory itself passed the check without the allowance for sticky ancestors. */
  ghost predicate Passed(tree: Tree, p: Path, who: Account) {
    p in tree && CheckOk(tree[p], who, false)
  }

  /** What a walk may change: new nodes, and the directory that it returns. */
  ghost predicate OnlyAdds(tree: Tree, after: Outcome) {
    forall p :: p in tree ==>
      p in after.tree && (after.tree[p] == tree[p] || (after.result == Ok(p) && tree[p].Directory?))
  }

  lemma RepairedPasses(node: Node, who: Account)
    requires AccountOk(who) && NeedsRepair(node, who)
    ensures CheckOk(Repaired(node, who), who, false) && CheckOk(Repaired(node, who), who, true)
  {
    ModeBits();
  }

  lemma ModeBits()
    ensures OWNER_ONLY & OTHERS_WRITE == 0 && SHARED_READ & OTHERS_WRITE == 0
  {
  }

  lemma PrefixesOfParent(tree: Tree, p: Path, who: Account)
    requires PrefixesChecked(tree, p, who)
    ensures PrefixesChecked(tree, Parent(p), who) && PrefixesChecked(tree, [], who)
  {
    forall k | 0 <= k <= |Parent(p)|
      ensures Parent(p)[..k] in tree && CheckOk(tree[Parent(p)[..k]], who, true)
    {
      assert Parent(p)[..k] == p[..k];
    }
    assert p[..0] == [];
    forall k | 0 <= k <= 0 ensures ROOT[..k] in tree && CheckOk(tree[ROOT[..k]], who, true) {
      assert ROOT[..k] == p[..0];
    }
  }

  /** Nodes above a path keep what was checked when nothing but that path changes. */
  lemma PrefixesKept(tree: Tree, tree': Tree, p: Path, at: Path, who: Account)
    requires PrefixesChecked(tree, p, who) && |at| > |p|
    requires forall q :: q in tree && q != at ==> q in tree' && tree'[q] == tree[q]
    ensures PrefixesChecked(tree', p, who)
  {
  }

  lemma PrefixesExtended(tree: Tree, p: Path, component: string, who: Account)
    requires PrefixesChecked(tree, p, who)
    requires p + [component] in tree && CheckOk(tree[p + [component]], who, true)
    ensures PrefixesChecked(tree, p + [component], who)
  {
    var q := p + [component];
    forall k | 0 <= k <= |q| ensures q[..k] in tree && CheckOk(tree[q[..k]], who, true) {
      if k <= |p| {
        assert q[..k] == p[..k];
      } else {
        assert q[..k] == q;
      }
    }
  }

  /**
   A walk that returns a directory has checked it and every directory above it, none of which is
   a link, and it has changed no node that was there but the one that it returns.
   */
  lemma {:induction false} WalkChecksEverything(tree: Tree, directory: Path, pending: Path, links: nat, who: Account)
    requires AccountOk(who) && links <= MAX_LINKS && PrefixesChecked(tree, directory, who)
    ensures var after := Walk(tree, directory, pending, links, who);
            && OnlyAdds(tree, after)
            && (after.result.Ok? ==>
                  && PrefixesChecked(after.tree, after.result.value, who)
                  && Passed(after.tree, after.result.value, who))
    decreases MAX_LINKS - links, |pending|
  {
    if pending == [] {
      assert directory[..|directory|] == directory;
    } else if pending[0] == ".." {
      PrefixesOfParent(tree, directory, who);
      WalkChecksEverything(tree, Parent(directory), pending[1..], links, who);
    } else {
      var component, rest := pending[0], pending[1..];
      var candidate := directory + [component];
      var found := StatOrCreate(tree, candidate, who, rest != []);
      var node := found[candidate];
      PrefixesKept(tree, found, directory, candidate, who);
      if node.Symlink? {
        if node.meta.uid in who.trusted && links + 1 <= MAX_LINKS {
          PrefixesOfParent(found, directory, who);
          WalkChecksEverything(found, if node.absolute then [] else directory, node.target + rest, links + 1, who);
        }
      } else {
        CandidateChecked(found, directory, component, rest, links, who);
      }
    }
  }

  lemma CandidateChecked(found: Tree, directory: Path, component: string, rest: Path, links: nat, who: Account)
    requires AccountOk(who) && links <= MAX_LINKS && PrefixesChecked(found, directory, who)
    requires component != ".." && directory + [component] in found && !found[directory + [component]].Symlink?
    ensures var after := Walk(found, directory, [component] + rest, links, who);
            && OnlyAdds(found, after)
            && (after.result.Ok? ==>
                  && PrefixesChecked(after.tree, after.result.value, who)
                  && Passed(after.tree, after.result.value, who))
    decreases MAX_LINKS - links, |rest| + 1, 0
  {
    var candidate := directory + [component];
    var node := found[candidate];
    var pending := [component] + rest;
    assert pending[1..] == rest;
    if !(rest == [] && NeedsRepair(node, who) && !MayChange(node, who)) {
      var kept := Kept(found, candidate, rest, who);
      PrefixesKept(found, kept, directory, candidate, who);
      if rest == [] && NeedsRepair(node, who) {
        RepairedPasses(node, who);
      }
      if CheckOk(kept[candidate], who, rest != []) {
        PrefixesExtended(kept, directory, component, who);
        if rest == [] {
          LastComponent(kept, candidate, links, who);
        } else {
          WalkChecksEverything(kept, candidate, rest, links, who);
        }
      }
    }
  }

  lemma LastComponent(tree: Tree, candidate: Path, links: nat, who: Account)
    requires links <= MAX_LINKS && candidate in tree && CheckOk(tree[candidate], who, false)
    ensures Walk(tree, candidate, [], links, who) == Outcome(tree, Ok(candidate))
  {
  }

  // ---------- Recursive resolution ----------

  datatype Kind = IsDirectory | IsLink(absolute: bool, target: Path) | IsOther

  /** What stands at each path, as far as resolution cares. */
  type Kinds = Path -> Kind

  /** What the walk finds at a path, counting a missing component as the directory it becomes. */
  function KindAt(tree: Tree, p: Path): Kind {
    if p !in tree then IsDirectory
    else match tree[p]
      case Directory(_) => IsDirectory
      case Symlink(_, absolute, target) => IsLink(absolute, target)
      case Other(_) => IsOther
  }

  function KindsOf(tree: Tree): Kinds {
    p => KindAt(tree, p)
  }

  /** Only links of trusted owners lead on, and only directories that pass their check can be entered. */
  function TrustedKindAt(tree: Tree, who: Account, p: Path): Kind {
    if p !in tree then IsOther
    else match tree[p]
      case Directory(_) => if CheckOk(tree[p], who, true) then IsDirectory else IsOther
      case Symlink(meta, absolute, target) =>
        if meta.uid in who.trusted then IsLink(absolute, target) else IsOther
      case Other(_) => IsOther
  }

  function TrustedKinds(tree: Tree, who: Account): Kinds {
    p => TrustedKindAt(tree, who, p)
  }

  datatype Place = Place(directory: Path, links: nat)

  /** Path resolution by recursion: a link is resolved to a directory before the rest goes on from there. */
  function Resolve(kinds: Kinds, directory: Path, path: Path, links: nat): (r: Option<Place>)
    requires links <= MAX_LINKS
    ensures r.Some? ==> links <= r.value.links <= MAX_LINKS
    decreases MAX_LINKS - links, |path|
  {
    if path == [] then Some(Place(directory, links))
    else if path[0] == ".." then Resolve(kinds, Parent(directory), path[1..], links)
    else
      var candidate := directory + [path[0]];
      match kinds(candidate)
      case IsDirectory => Resolve(kinds, candidate, path[1..], links)
      case IsOther => None
      case IsLink(absolute, target) =>
        if links >= 40 then None
        else
          var there := Resolve(kinds, if absolute then [] else directory, target, links + 1);
          if there.None? then None
          else Resolve(kinds, there.value.directory, path[1..], there.value.links)
  }

  function ThenResolve(kinds: Kinds, p: Option<Place>, path: Path): Option<Place>
    requires p.Some? ==> p.value.links <= MAX_LINKS
  {
    if p.None? then None else Resolve(kinds, p.value.directory, path, p.value.links)
  }

  /** Resolving two paths one after the other is resolving them joined. */
  lemma {:induction false} ResolveJoined(kinds: Kinds, directory: Path, a: Path, b: Path, links: nat)
    requires links <= MAX_LINKS
    ensures Resolve(kinds, directory, a + b, links) == ThenResolve(kinds, Resolve(kinds, directory, a, links), b)
    decreases MAX_LINKS - links, |a|
  {
    if a == [] {
      assert a + b == b;
    } else {
      assert (a + b)[0] == a[0] && (a + b)[1..] == a[1..] + b;
      var candidate := directory + [a[0]];
      if a[0] == ".." {
        ResolveJoined(kinds, Parent(directory), a[1..], b, links);
      } else if kinds(candidate).IsDirectory? {
        ResolveJoined(kinds, candidate, a[1..], b, links);
      } else if kinds(candidate).IsLink? && links + 1 <= MAX_LINKS {
        var kind := kinds(candidate);
        var there := Resolve(kinds, if kind.absolute then [] else directory, kind.target, links + 1);
        if there.Some? {
          ResolveJoined(kinds, there.value.directory, a[1..], b, there.value.links);
        }
      }
    }
  }

  /** One step of resolution as the queue makes it. */
  lemma ResolveStep(kinds: Kinds, directory: Path, path: Path, links: nat)
    requires links <= MAX_LINKS && path != [] && path[0] != ".."
    ensures var candidate, rest := directory + [path[0]], path[1..];
            match kinds(candidate)
            case IsDirectory => Resolve(kinds, directory, path, links) == Resolve(kinds, candidate, rest, links)
            case IsOther => Resolve(kinds, directory, path, links).None?
            case IsLink(absolute, target) =>
              Resolve(kinds, directory, path, links)
              == if links + 1 > MAX_LINKS then None
                 else Resolve(kinds, if absolute then [] else directory, target + rest, links + 1)
  {
    var candidate := directory + [path[0]];
    if kinds(candidate).IsLink? && links + 1 <= MAX_LINKS {
      var from := if kinds(candidate).absolute then [] else directory;
      ResolveJoined(kinds, from, kinds(candidate).target, path[1..], links + 1);
    }
  }

  ghost predicate SameKinds(a: Kinds, b: Kinds) {
    forall p :: a(p) == b(p)
  }

  lemma {:induction false} ResolveSameKinds(a: Kinds, b: Kinds, directory: Path, path: Path, links: nat)
    requires links <= MAX_LINKS && SameKinds(a, b)
    ensures Resolve(a, directory, path, links) == Resolve(b, directory, path, links)
    decreases MAX_LINKS - links, |path|
  {
    if path != [] {
      var candidate := directory + [path[0]];
      var kind := a(candidate);
      assert kind == b(candidate);
      if path[0] == ".." {
        ResolveSameKinds(a, b, Parent(directory), path[1..], links);
      } else if kind.IsDirectory? {
        ResolveSameKinds(a, b, candidate, path[1..], links);
      } else if kind.IsLink? && links + 1 <= MAX_LINKS {
        var from := if kind.absolute then [] else directory;
        ResolveSameKinds(a, b, from, kind.target, links + 1);
        var there := Resolve(a, from, kind.target, links + 1);
        if there.Some? {
          ResolveSameKinds(a, b, there.value.directory, path[1..], there.value.links);
        }
      }
    }
  }

  lemma StepKeepsKinds(tree: Tree, candidate: Path, rest: Path, who: Account)
    ensures var found := StatOrCreate(tree, candidate, who, rest != []);
            SameKinds(KindsOf(tree), KindsOf(found)) && SameKinds(KindsOf(tree), KindsOf(Kept(found, candidate, rest, who)))
  {
  }

  /** The directory that a walk returns is where recursive resolution leads. */
  lemma {:induction false} WalkResolves(tree: Tree, directory: Path, pending: Path, links: nat, who: Account)
    requires links <= MAX_LINKS && Walk(tree, directory, pending, links, who).result.Ok?
    ensures Resolve(KindsOf(tree), directory, pending, links).Some?
    ensures Walk(tree, directory, pending, links, who).result.value
         == Resolve(KindsOf(tree), directory, pending, links).value.directory
    decreases MAX_LINKS - links, |pending|
  {
    if pending == [] {
    } else if pending[0] == ".." {
      WalkResolves(tree, Parent(directory), pending[1..], links, who);
    } else {
      var rest := pending[1..];
      var candidate := directory + [pending[0]];
      var found := StatOrCreate(tree, candidate, who, rest != []);
      var node := found[candidate];
      StepKeepsKinds(tree, candidate, rest, who);
      if node.Symlink? {
        var from := if node.absolute then [] else directory;
        assert KindAt(tree, candidate) == KindAt(found, candidate) == IsLink(node.absolute, node.target);
        WalkResolves(found, from, node.target + rest, links + 1, who);
        ResolveSameKinds(KindsOf(found), KindsOf(tree), from, node.target + rest, links + 1);
        ResolveStep(KindsOf(tree), directory, pending, links);
      } else {
        var kept := Kept(found, candidate, rest, who);
        assert KindAt(tree, candidate) == KindAt(kept, candidate) == IsDirectory;
        WalkResolves(kept, candidate, rest, links, who);
        ResolveSameKinds(KindsOf(kept), KindsOf(tree), candidate, rest, links);
      }
    }
  }

  /** A directory that passed its check still passes it when the walk is over, and a link is as it was. */
  lemma KindInTheEnd(tree: Tree, after: Outcome, p: Path, who: Account)
    requires OnlyAdds(tree, after) && p in tree
    requires after.result.Ok? ==> Passed(after.tree, after.result.value, who)
    requires (tree[p].Symlink? && tree[p].meta.uid in who.trusted) || CheckOk(tree[p], who, true)
    ensures TrustedKindAt(after.tree, who, p) == KindAt(tree, p)
  {
  }

  /** One step of a walk that succeeds. */
  lemma WalkStep(tree: Tree, directory: Path, pending: Path, links: nat, who: Account)
    requires links <= MAX_LINKS && pending != [] && pending[0] != ".."
    requires Walk(tree, directory, pending, links, who).result.Ok?
    ensures var candidate, rest := directory + [pending[0]], pending[1..];
            var found := StatOrCreate(tree, candidate, who, rest != []);
            var node, kept := found[candidate], Kept(found, candidate, rest, who);
            if node.Symlink? then
              && node.meta.uid in who.trusted && links + 1 <= MAX_LINKS
              && Walk(tree, directory, pending, links, who)
              == Walk(found, if node.absolute then [] else directory, node.target + rest, links + 1, who)
            else
              && CheckOk(kept[candidate], who, true)
              && Walk(tree, directory, pending, links, who) == Walk(kept, candidate, rest, links, who)
  {
  }

  ghost predicate LeadsTo(kinds: Kinds, directory: Path, path: Path, links: nat, result: Path)
    requires links <= MAX_LINKS
  {
    var place := Resolve(kinds, directory, path, links);
    place.Some? && place.value.directory == result
  }

  /** The walk over `after` has ended well, from a tree it only adds to. */
  ghost predicate Ended(tree: Tree, after: Outcome, who: Account) {
    after.result.Ok? && OnlyAdds(tree, after) && Passed(after.tree, after.result.value, who)
  }

  lemma FollowLink(tree: Tree, after: Outcome, directory: Path, pending: Path, links: nat, who: Account)
    requires links + 1 <= MAX_LINKS && pending != [] && pending[0] != ".." && Ended(tree, after, who)
    requires directory + [pending[0]] in tree
    requires var node := tree[directory + [pending[0]]];
             && node.Symlink? && node.meta.uid in who.trusted
             && LeadsTo(TrustedKinds(after.tree, who), if node.absolute then [] else directory,
                        node.target + pending[1..], links + 1, after.result.value)
    ensures LeadsTo(TrustedKinds(after.tree, who), directory, pending, links, after.result.value)
  {
    hide Resolve, CheckOk, OnlyAdds, Passed, TrustedKindAt;
    KindInTheEnd(tree, after, directory + [pending[0]], who);
    ResolveStep(TrustedKinds(after.tree, who), directory, pending, links);
  }

  lemma EnterDirectory(tree: Tree, after: Outcome, directory: Path, pending: Path, links: nat, who: Account)
    requires links <= MAX_LINKS && pending != [] && pending[0] != ".." && Ended(tree, after, who)
    requires directory + [pending[0]] in tree && CheckOk(tree[directory + [pending[0]]], who, true)
    requires LeadsTo(TrustedKinds(after.tree, who), directory + [pending[0]], pending[1..], links, after.result.value)
    ensures LeadsTo(TrustedKinds(after.tree, who), directory, pending, links, after.result.value)
  {
    hide Resolve, OnlyAdds, Passed, TrustedKindAt;
    KindInTheEnd(tree, after, directory + [pending[0]], who);
    ResolveStep(TrustedKinds(after.tree, who), directory, pending, links);
  }

  /**
   Resolution of the same path over trusted nodes alone leads there as well: the walk has followed
   only links of trusted owners and entered only directories that passed their check.
   */
  lemma {:induction false} WalkFollowsTrusted(tree: Tree, directory: Path, pending: Path, links: nat, who: Account)
    requires AccountOk(who) && links <= MAX_LINKS && PrefixesChecked(tree, directory, who)
    requires Walk(tree, directory, pending, links, who).result.Ok?
    ensures var after := Walk(tree, directory, pending, links, who);
            LeadsTo(TrustedKinds(after.tree, who), directory, pending, links, after.result.value)
    decreases MAX_LINKS - links, |pending|
  {
    if pending == [] {
    } else if pending[0] == ".." {
      PrefixesOfParent(tree, directory, who);
      WalkFollowsTrusted(tree, Parent(directory), pending[1..], links, who);
    } else {
      WalkStep(tree, directory, pending, links, who);
      hide Walk, Resolve, LeadsTo, CheckOk, PrefixesChecked, OnlyAdds, Passed;
      var rest := pending[1..];
      var candidate := directory + [pending[0]];
      var found := StatOrCreate(tree, candidate, who, rest != []);
      var node := found[candidate];
      PrefixesKept(tree, found, directory, candidate, who);
      var after := Walk(tree, directory, pending, links, who);
      if node.Symlink? {
        var from := if node.absolute then [] else directory;
        PrefixesOfParent(found, directory, who);
        WalkChecksEverything(found, from, node.target + rest, links + 1, who);
        WalkFollowsTrusted(found, from, node.target + rest, links + 1, who);
        FollowLink(found, after, directory, pending, links, who);
      } else {
        var kept := Kept(found, candidate, rest, who);
        PrefixesKept(found, kept, directory, candidate, who);
        PrefixesExtended(kept, directory, pending[0], who);
        WalkChecksEverything(kept, candidate, rest, links, who);
        WalkFollowsTrusted(kept, candidate, rest, links, who);
        EnterDirectory(kept, after, directory, pending, links, who);
      }
    }
  }

  /** Every node belongs to a trusted account and only that account can write to it. */
  ghost predicate AllTrusted(tree: Tree, who: Account) {
    forall p :: p in tree ==>
      tree[p].meta.uid in who.trusted && tree[p].meta.mode & OTHERS_WRITE == 0
  }

  ghost predicate Reached(tree: Tree, directory: Path) {
    directory in tree && tree[directory].Directory?
  }

  ghost predicate PrefixesReached(tree: Tree, directory: Path) {
    forall k :: 0 <= k <= |directory| ==> Reached(tree, directory[..k])
  }

  /** In a tree without untrusted nodes the walk succeeds exactly when the path can be resolved. */
  lemma {:induction false} WalkCompletes(tree: Tree, directory: Path, pending: Path, links: nat, who: Account)
    requires AccountOk(who) && links <= MAX_LINKS && AllTrusted(tree, who) && PrefixesReached(tree, directory)
    requires Resolve(KindsOf(tree), directory, pending, links).Some?
    ensures Walk(tree, directory, pending, links, who).result.Ok?
    decreases MAX_LINKS - links, |pending|
  {
    assert directory[..|directory|] == directory;
    if pending == [] {
    } else if pending[0] == ".." {
      ParentReached(tree, directory);
      WalkCompletes(tree, Parent(directory), pending[1..], links, who);
    } else {
      var rest := pending[1..];
      var candidate := directory + [pending[0]];
      var found := StatOrCreate(tree, candidate, who, rest != []);
      var node := found[candidate];
      StepKeepsKinds(tree, candidate, rest, who);
      ModeBits();
      assert AllTrusted(found, who);
      FoundReached(tree, found, directory, candidate);
      assert KindAt(tree, candidate) == KindAt(found, candidate);
      ResolveStep(KindsOf(tree), directory, pending, links);
      hide Resolve, PrefixesReached;
      if node.Symlink? {
        var from := if node.absolute then [] else directory;
        ResolveSameKinds(KindsOf(found), KindsOf(tree), from, node.target + rest, links + 1);
        RootReached(found, directory);
        WalkCompletes(found, from, node.target + rest, links + 1, who);
      } else {
        var kept := Kept(found, candidate, rest, who);
        assert AllTrusted(kept, who);
        assert KindAt(tree, candidate) == KindAt(kept, candidate);
        ResolveSameKinds(KindsOf(kept), KindsOf(tree), candidate, rest, links);
        KeptReached(found, kept, directory, candidate);
        ExtendReached(kept, directory, pending[0]);
        WalkCompletes(kept, candidate, rest, links, who);
      }
    }
  }

  lemma ParentReached(tree: Tree, p: Path)
    requires PrefixesReached(tree, p)
    ensures PrefixesReached(tree, Parent(p))
  {
    forall k | 0 <= k <= |Parent(p)| ensures Reached(tree, Parent(p)[..k]) {
      assert Parent(p)[..k] == p[..k];
    }
  }

  lemma RootReached(tree: Tree, p: Path)
    requires PrefixesReached(tree, p)
    ensures PrefixesReached(tree, [])
  {
    assert p[..0] == [];
    forall k | 0 <= k <= 0 ensures Reached(tree, ROOT[..k]) {
      assert ROOT[..k] == p[..0];
    }
  }

  lemma FoundReached(tree: Tree, found: Tree, p: Path, candidate: Path)
    requires PrefixesReached(tree, p)
    requires forall q :: q in tree ==> q in found && found[q] == tree[q]
    ensures PrefixesReached(found, p)
  {
    forall k | 0 <= k <= |p| ensures Reached(found, p[..k]) {
      assert Reached(tree, p[..k]);
    }
  }

  lemma KeptReached(tree: Tree, kept: Tree, p: Path, candidate: Path)
    requires PrefixesReached(tree, p) && |candidate| > |p|
    requires forall q :: q in tree && q != candidate ==> q in kept && kept[q] == tree[q]
    ensures PrefixesReached(kept, p)
  {
    forall k | 0 <= k <= |p| ensures Reached(kept, p[..k]) {
      assert Reached(tree, p[..k]);
    }
  }

  lemma ExtendReached(tree: Tree, p: Path, component: string)
    requires PrefixesReached(tree, p) && Reached(tree, p + [component])
    ensures PrefixesReached(tree, p + [component])
  {
    var q := p + [component];
    forall k | 0 <= k <= |q| ensures Reached(tree, q[..k]) {
      if k <= |p| {
        assert q[..k] == p[..k];
      } else {
        assert q[..k] == q;
      }
    }
  }

  // ---------- The call ----------

  /**
   The directory that the call returns is where recursive resolution of the path leads, also when
   only links of trusted owners are followed and only directories that pass their check are
   entered; it and every directory above it is a real one that passed its check, and no other node
   that was there has changed. A call that raises has changed none.
   */
  lemma PrivateDirectoryIsSafe(tree: Tree, path: Path, who: Account)
    requires [] in tree && AccountOk(who)
    ensures var after := PrivateDirectory(tree, path, who);
            && OnlyAdds(tree, after)
            && (after.result.Ok? ==>
                  && PrefixesChecked(after.tree, after.result.value, who)
                  && Passed(after.tree, after.result.value, who)
                  && LeadsTo(KindsOf(tree), [], path, 0, after.result.value)
                  && LeadsTo(TrustedKinds(after.tree, who), [], path, 0, after.result.value))
  {
    if CheckOk(tree[[]], who, path != []) {
      forall k | 0 <= k <= 0 ensures ROOT[..k] in tree && CheckOk(tree[ROOT[..k]], who, true) {
        assert ROOT[..k] == [];
      }
      WalkChecksEverything(tree, [], path, 0, who);
      if Walk(tree, [], path, 0, who).result.Ok? {
        WalkResolves(tree, [], path, 0, who);
        WalkFollowsTrusted(tree, [], path, 0, who);
      }
    }
  }

  /** With only trusted nodes the call succeeds if and only if the path resolves within forty links. */
  lemma PrivateDirectorySucceedsIff(tree: Tree, path: Path, who: Account)
    requires [] in tree && tree[[]].Directory? && AccountOk(who) && AllTrusted(tree, who)
    ensures PrivateDirectory(tree, path, who).result.Ok? <==> Resolve(KindsOf(tree), [], path, 0).Some?
  {
    forall k | 0 <= k <= 0 ensures Reached(tree, ROOT[..k]) {
      assert ROOT[..k] == [];
    }
    if Resolve(KindsOf(tree), [], path, 0).Some? {
      WalkCompletes(tree, [], path, 0, who);
    }
    if Walk(tree, [], path, 0, who).result.Ok? {
      WalkResolves(tree, [], path, 0, who);
    }
  }
}
