/**
  Deleting a remote file, symlink or directory tree with an explicit stack. Paths are lists of
  names. Every request to the server can fail, and a removal can be carried out although its
  reply is lost.
 */
module RemoteDelete {
  import opened Text
  import Swap = CommitSwap

  type Path = seq<string>

  datatype Kind = File | Link | Dir

  type Tree = map<Path, Kind>

  function Parent(path: Path): Path
    requires path != []
  {
    path[..|path| - 1]
  }

  /** Whatever exists lies in an existing directory, and "." and ".." are no entries. */
  ghost predicate IsTree(tree: Tree) {
    forall p :: p in tree && p != [] ==>
      Parent(p) in tree && tree[Parent(p)] == Dir && p[|p| - 1] != "." && p[|p| - 1] != ".."
  }

  /** `path` and everything below it. */
  ghost function Subtree(tree: Tree, path: Path): set<Path> {
    set p | p in tree && path <= p
  }

  ghost predicate IsEmptyDir(tree: Tree, path: Path) {
    path in tree && tree[path] == Dir && forall p :: p in tree ==> !(path < p)
  }

  /** The requests sent to the server, with what they met there. */
  datatype Request =
    | Listing(path: Path, met: Kind)
    | FileRemoval(path: Path, met: Kind)
    | DirRemoval(path: Path, wasEmpty: bool)

  /** Directories are listed and removed as directories, and only when empty; the rest as files. */
  predicate IsProper(request: Request) {
    match request
    case Listing(_, met) => met == Dir
    case FileRemoval(_, met) => met != Dir
    case DirRemoval(_, wasEmpty) => wasEmpty
  }

  ghost predicate AllProper(requests: seq<Request>) {
    forall i :: 0 <= i < |requests| ==> IsProper(requests[i])
  }

  ghost predicate AllDistinct(names: seq<string>) {
    forall i, j :: 0 <= i < j < |names| ==> names[i] != names[j]
  }

  function FateAt(fates: seq<Swap.Fate>, request: nat): Swap.Fate {
    if request < |fates| then fates[request] else Swap.Done
  }

  /** Every request in this range is carried out and answered. */
  ghost predicate AllDone(fates: seq<Swap.Fate>, from: nat, to: nat) {
    forall n :: from <= n < to ==> FateAt(fates, n) == Swap.Done
  }

  ghost predicate AtMostOneFails(fates: seq<Swap.Fate>, from: nat, to: nat) {
    forall i, j :: from <= i < j < to ==> FateAt(fates, i) == Swap.Done || FateAt(fates, j) == Swap.Done
  }

  lemma OneMoreDone(fates: seq<Swap.Fate>, from: nat, to: nat)
    requires from <= to
    ensures AllDone(fates, from, from)
    ensures AllDone(fates, from, to + 1) <==> AllDone(fates, from, to) && FateAt(fates, to) == Swap.Done
  {}

  class Server {
    const fates: seq<Swap.Fate>
    var tree: Tree
    var used: nat
    ghost var requests: seq<Request>

    constructor (initial: Tree, fates: seq<Swap.Fate>)
      ensures tree == initial && requests == [] && used == 0 && this.fates == fates
    {
      tree, requests, used, this.fates := initial, [], 0, fates;
    }

    method SymlinkMetadata(path: Path) returns (kind: Option<Kind>)
      modifies this`used
      ensures used == old(used) + 1
      ensures kind == if FateAt(fates, old(used)) == Swap.Done && path in tree then Some(tree[path]) else None
    {
      kind := if FateAt(fates, used) == Swap.Done && path in tree then Some(tree[path]) else None;
      used := used + 1;
    }

    method ReadDir(path: Path) returns (names: Option<seq<string>>)
      modifies this`requests, this`used
      ensures used == old(used) + 1
      ensures names.Some? <==> FateAt(fates, old(used)) == Swap.Done && path in tree && tree[path] == Dir
      ensures names.Some? ==> Lists(tree, path, names.value)
      ensures requests == old(requests) + if path in tree then [Listing(path, tree[path])] else []
      ensures AllProper(old(requests)) && (path in tree ==> tree[path] == Dir) ==> AllProper(requests)
    {
      requests := requests + if path in tree then [Listing(path, tree[path])] else [];
      used := used + 1;
      if FateAt(fates, used - 1) != Swap.Done || path !in tree || tree[path] != Dir {
        return None;
      }
      var entries := NamesOf(set p | p in tree && IsEntry(p, path) :: p[|p| - 1]);
      ListedEntries(tree, path, entries);
      names := Some([".", ".."] + entries);
    }

    method RemoveFile(path: Path) returns (ok: bool)
      modifies this
      ensures used == old(used) + 1
      ensures var takes := path in old(tree) && old(tree)[path] != Dir;
              && (ok <==> FateAt(fates, old(used)) == Swap.Done && takes)
              && tree == if FateAt(fates, old(used)) != Swap.Refused && takes then old(tree) - {path} else old(tree)
      ensures requests == old(requests) + if path in old(tree) then [FileRemoval(path, old(tree)[path])] else []
      ensures AllProper(old(requests)) && (path in old(tree) ==> old(tree)[path] != Dir) ==> AllProper(requests)
    {
      requests := requests + if path in tree then [FileRemoval(path, tree[path])] else [];
      var fate := FateAt(fates, used);
      used := used + 1;
      if fate == Swap.Refused || path !in tree || tree[path] == Dir {
        return false;
      }
      tree := tree - {path};
      ok := fate == Swap.Done;
    }

    method RemoveDir(path: Path) returns (ok: bool)
      modifies this
      ensures used == old(used) + 1
      ensures var takes := IsEmptyDir(old(tree), path);
              && (ok <==> FateAt(fates, old(used)) == Swap.Done && takes)
              && tree == if FateAt(fates, old(used)) != Swap.Refused && takes then old(tree) - {path} else old(tree)
      ensures requests == old(requests) + [DirRemoval(path, IsEmptyDir(old(tree), path))]
      ensures AllProper(old(requests)) && IsEmptyDir(old(tree), path) ==> AllProper(requests)
    {
      requests := requests + [DirRemoval(path, IsEmptyDir(tree, path))];
      var fate := FateAt(fates, used);
      used := used + 1;
      if fate == Swap.Refused || path !in tree || tree[path] != Dir || exists p | p in tree :: path < p {
        return false;
      }
      tree := tree - {path};
      ok := fate == Swap.Done;
    }
  }

  /** A listing: every entry once, and possibly "." and "..". */
  ghost predicate Lists(tree: Tree, path: Path, names: seq<string>) {
    && (AllDistinct(names))
    && (forall n :: n in names && n != "." && n != ".." <==> path + [n] in tree && n != "." && n != "..")
  }

  predicate IsEntry(p: Path, directory: Path) {
    p != [] && Parent(p) == directory && p[|p| - 1] != "." && p[|p| - 1] != ".."
  }

  lemma ListedEntries(tree: Tree, path: Path, entries: seq<string>)
    requires AllDistinct(entries)
    requires forall n :: n in entries <==> n in set p | p in tree && IsEntry(p, path) :: p[|p| - 1]
    ensures Lists(tree, path, [".", ".."] + entries)
  {
    var names := [".", ".."] + entries;
    assert forall i :: 2 <= i < |names| ==> names[i] == entries[i - 2] && names[i] in entries;
    forall n | n != "." && n != ".." ensures n in names <==> path + [n] in tree {
      if path + [n] in tree {
        assert IsEntry(path + [n], path);
      }
      if n in entries {
        var p :| p in tree && IsEntry(p, path) && p[|p| - 1] == n;
        assert p == path + [n];
      }
    }
  }

  lemma OneMoreName(names: seq<string>, name: string)
    requires AllDistinct(names) && name !in names
    ensures AllDistinct(names + [name])
  {}

  method NamesOf(names: set<string>) returns (listed: seq<string>)
    ensures forall n :: n in listed <==> n in names
    ensures AllDistinct(listed)
  {
    listed := [];
    assert AllDistinct(listed);
    hide AllDistinct;
    var rest := names;
    while rest != {}
      invariant rest <= names
      invariant forall n :: n in listed <==> n in names - rest
      invariant AllDistinct(listed)
    {
      var n :| n in rest;
      OneMoreName(listed, n);
      listed := listed + [n];
      rest := rest - {n};
    }
  }

  // ----- The loop invariant -----

  datatype Entry = Entry(path: Path, visited: bool)

  ghost predicate Covers(entry: Entry, p: Path) {
    entry.path == p || (!entry.visited && entry.path <= p)
  }

  ghost predicate CoveredFrom(stack: seq<Entry>, from: nat, p: Path) {
    exists i :: from <= i < |stack| && Covers(stack[i], p)
  }

  /** Entries are below the root, and an unvisited entry shares nothing with any other entry. */
  ghost predicate IsSeparate(stack: seq<Entry>) {
    forall i, j :: 0 <= i < |stack| && 0 <= j < |stack| && i != j ==> Apart(stack[i], stack[j])
  }

  ghost predicate EntriesBelow(root: Path, stack: seq<Entry>) {
    forall i :: 0 <= i < |stack| ==> root <= stack[i].path
  }

  ghost predicate VisitedAreDirs(tree: Tree, stack: seq<Entry>) {
    forall i :: 0 <= i < |stack| && stack[i].visited ==> stack[i].path in tree && tree[stack[i].path] == Dir
  }

  ghost predicate AllCovered(tree: Tree, root: Path, stack: seq<Entry>) {
    forall p :: p in tree && root <= p ==> CoveredFrom(stack, 0, p)
  }

  /** What is left in a directory awaiting its removal lies higher on the stack. */
  ghost predicate ContentsAbove(tree: Tree, stack: seq<Entry>) {
    forall i, p :: 0 <= i < |stack| && stack[i].visited && p in tree && stack[i].path < p ==>
      CoveredFrom(stack, i + 1, p)
  }

  /** What is on the stack accounts for all that is left below the root of the deletion. */
  ghost predicate IsPlan(tree: Tree, root: Path, stack: seq<Entry>) {
    && IsTree(tree)
    && EntriesBelow(root, stack)
    && VisitedAreDirs(tree, stack)
    && AllCovered(tree, root, stack)
    && ContentsAbove(tree, stack)
    && IsSeparate(stack)
  }

  /** Directories already expanded: closed under parents, and no unvisited entry is among them. */
  ghost predicate IsProgress(root: Path, stack: seq<Entry>, expanded: set<Path>) {
    && (forall p :: p in expanded && root < p ==> Parent(p) in expanded)
    && (forall i :: 0 <= i < |stack| && !stack[i].visited ==> stack[i].path !in expanded)
    && (forall i :: 0 <= i < |stack| && !stack[i].visited && root < stack[i].path ==> Parent(stack[i].path) in expanded)
  }

  ghost function TreePath(tree: Tree, top: Path, p: Path): (child: Path)
    requires IsTree(tree) && p in tree && top < p
    ensures child in tree && child <= p && |child| == |top| + 1 && top < child
    decreases |p|
  {
    if |p| == |top| + 1 then p else TreePath(tree, top, Parent(p))
  }

  lemma ParentOfChild(path: Path, child: Path)
    requires path < child && |child| == |path| + 1
    ensures Parent(child) == path
  {}

  lemma NothingBelowLeaf(tree: Tree, path: Path)
    requires IsTree(tree) && (path in tree ==> tree[path] != Dir)
    ensures forall p :: p in tree ==> !(path < p)
  {
    forall p | p in tree ensures !(path < p) {
      if path < p {
        var child := TreePath(tree, path, p);
        ParentOfChild(path, child);
        assert false;
      }
    }
  }

  /** Removing what nothing lies below keeps a tree a tree. */
  lemma RemoveKeepsTree(tree: Tree, path: Path)
    requires IsTree(tree) && forall p :: p in tree ==> !(path < p)
    ensures IsTree(tree - {path})
  {
    forall p | p in tree - {path} && p != []
      ensures Parent(p) in tree - {path}
    {
      assert Parent(p) < p;
    }
  }

  lemma CoveredWithoutTop(stack: seq<Entry>, from: nat, p: Path)
    requires stack != [] && CoveredFrom(stack, from, p) && !Covers(stack[|stack| - 1], p)
    ensures CoveredFrom(stack[..|stack| - 1], from, p)
  {
    hide Covers;
    var i :| from <= i < |stack| && Covers(stack[i], p);
    assert Covers(stack[..|stack| - 1][i], p);
  }

  lemma PopCovers(tree: Tree, root: Path, stack: seq<Entry>)
    requires stack != [] && AllCovered(tree, root, stack) && ContentsAbove(tree, stack)
    requires forall p :: p in tree ==> !(stack[|stack| - 1].path < p)
    ensures AllCovered(tree - {stack[|stack| - 1].path}, root, stack[..|stack| - 1])
    ensures ContentsAbove(tree - {stack[|stack| - 1].path}, stack[..|stack| - 1])
  {
    hide CoveredFrom;
    var last := |stack| - 1;
    var below, less := stack[..last], tree - {stack[last].path};
    forall p | p in less ensures p in tree && !Covers(stack[last], p) {}
    hide Covers;
    forall p | p in less && root <= p ensures CoveredFrom(below, 0, p) {
      CoveredWithoutTop(stack, 0, p);
    }
    forall i, p | 0 <= i < |below| && below[i].visited && p in less && below[i].path < p
      ensures CoveredFrom(below, i + 1, p)
    {
      assert stack[i] == below[i];
      CoveredWithoutTop(stack, i + 1, p);
    }
  }

  /** The entry on top has been dealt with: its path is gone, and nothing was below it. */
  lemma PopRemoved(tree: Tree, root: Path, stack: seq<Entry>)
    requires stack != [] && IsPlan(tree, root, stack)
    requires forall p :: p in tree ==> !(stack[|stack| - 1].path < p)
    ensures IsPlan(tree - {stack[|stack| - 1].path}, root, stack[..|stack| - 1])
  {
    hide AllCovered, ContentsAbove, IsTree;
    var last := |stack| - 1;
    var path, below, less := stack[last].path, stack[..last], tree - {stack[last].path};
    RemoveKeepsTree(tree, path);
    PopCovers(tree, root, stack);
    forall i, j | 0 <= i < |below| && 0 <= j < |below| && i != j ensures Apart(below[i], below[j]) {
      assert Apart(stack[i], stack[j]);
    }
    forall i | 0 <= i < |below| && below[i].visited ensures below[i].path in less {
      assert Apart(stack[i], stack[last]);
    }
  }

  lemma NothingCoversPastTop(stack: seq<Entry>, p: Path)
    ensures !CoveredFrom(stack, |stack|, p)
  {}

  lemma TopVisitedIsEmpty(tree: Tree, root: Path, stack: seq<Entry>)
    requires stack != [] && IsPlan(tree, root, stack) && stack[|stack| - 1].visited
    ensures IsEmptyDir(tree, stack[|stack| - 1].path)
  {
    hide CoveredFrom;
    forall p | p in tree ensures !(stack[|stack| - 1].path < p) {
      NothingCoversPastTop(stack, p);
    }
  }

  function Pushed(path: Path, names: seq<string>): (entries: seq<Entry>)
    ensures |entries| == |names|
    ensures forall i :: 0 <= i < |names| ==> entries[i] == Entry(path + [names[i]], false)
  {
    seq(|names|, i requires 0 <= i < |names| => Entry(path + [names[i]], false))
  }

  function Expanded(stack: seq<Entry>, names: seq<string>): (next: seq<Entry>)
    requires stack != []
    ensures |next| == |stack| + |names|
    ensures forall i :: 0 <= i < |stack| - 1 ==> next[i] == stack[i]
    ensures next[|stack| - 1] == Entry(stack[|stack| - 1].path, true)
    ensures forall i :: |stack| <= i < |next| ==>
              next[i] == Entry(stack[|stack| - 1].path + [names[i - |stack|]], false)
  {
    stack[..|stack| - 1] + [Entry(stack[|stack| - 1].path, true)] + Pushed(stack[|stack| - 1].path, names)
  }

  /** The names of all direct children of `path`. */
  ghost predicate NamesChildren(tree: Tree, path: Path, names: seq<string>) {
    forall p :: p in tree && path < p && |p| == |path| + 1 ==> p[|path|] in names
  }

  lemma ChildrenCover(tree: Tree, stack: seq<Entry>, names: seq<string>, p: Path)
    requires stack != [] && IsTree(tree) && p in tree && stack[|stack| - 1].path < p
    requires NamesChildren(tree, stack[|stack| - 1].path, names)
    ensures CoveredFrom(Expanded(stack, names), |stack|, p)
  {
    hide Expanded, IsTree;
    var path := stack[|stack| - 1].path;
    var child := TreePath(tree, path, p);
    var n :| 0 <= n < |names| && names[n] == child[|path|];
    assert child == path + [names[n]];
    assert Covers(Expanded(stack, names)[|stack| + n], p);
  }

  lemma StillCovered(tree: Tree, stack: seq<Entry>, names: seq<string>, from: nat, p: Path)
    requires stack != [] && IsTree(tree) && p in tree && from < |stack| && CoveredFrom(stack, from, p)
    requires NamesChildren(tree, stack[|stack| - 1].path, names)
    ensures CoveredFrom(Expanded(stack, names), from, p)
  {
    hide Expanded, IsTree, NamesChildren;
    var i :| from <= i < |stack| && Covers(stack[i], p);
    var next := Expanded(stack, names);
    if i < |stack| - 1 || p == stack[i].path {
      assert Covers(next[i], p);
    } else {
      ChildrenCover(tree, stack, names, p);
      var k :| |stack| <= k < |next| && Covers(next[k], p);
    }
  }

  /** A directory on top is replaced by its own removal under its children. */
  lemma PushChildren(tree: Tree, root: Path, stack: seq<Entry>, names: seq<string>)
    requires stack != [] && IsPlan(tree, root, stack) && !stack[|stack| - 1].visited
    requires var path := stack[|stack| - 1].path; path in tree && tree[path] == Dir && NamesChildren(tree, path, names)
    requires AllDistinct(names)
    ensures IsPlan(tree, root, Expanded(stack, names))
  {
    hide CoveredFrom, Expanded, IsSeparate, NamesChildren, IsTree;
    var next := Expanded(stack, names);
    forall p | p in tree && root <= p ensures CoveredFrom(next, 0, p) {
      StillCovered(tree, stack, names, 0, p);
    }
    forall i, p | 0 <= i < |next| && next[i].visited && p in tree && next[i].path < p
      ensures CoveredFrom(next, i + 1, p)
    {
      if i < |stack| - 1 {
        StillCovered(tree, stack, names, i + 1, p);
      } else {
        assert i == |stack| - 1;
        ChildrenCover(tree, stack, names, p);
      }
    }
    ExpandedBelow(root, stack, names);
    StaysSeparate(stack, names);
  }

  lemma ExpandedBelow(root: Path, stack: seq<Entry>, names: seq<string>)
    requires stack != [] && EntriesBelow(root, stack)
    ensures EntriesBelow(root, Expanded(stack, names))
  {
    hide Expanded;
    var next := Expanded(stack, names);
    forall i | 0 <= i < |next| ensures root <= next[i].path {
      assert i >= |stack| ==> stack[|stack| - 1].path <= next[i].path;
      assert root <= stack[|stack| - 1].path;
    }
  }

  predicate Apart(a: Entry, b: Entry) {
    a.path != b.path && (!a.visited ==> !(a.path <= b.path))
  }

  lemma ChildIsApart(a: Entry, path: Path, name: string)
    requires Apart(a, Entry(path, false)) && Apart(Entry(path, false), a)
    ensures Apart(a, Entry(path + [name], false)) && Apart(Entry(path + [name], false), a)
    ensures Apart(a, Entry(path, true)) && Apart(Entry(path, true), a)
  {
    var child := path + [name];
    assert path <= child;
    if a.path <= child && a.path != child {
      assert a.path == child[..|a.path|] == path[..|a.path|];
    }
  }

  lemma SiblingsAreApart(path: Path, names: seq<string>, i: nat, j: nat)
    requires i < |names| && j < |names| && names[i] != names[j]
    ensures Apart(Entry(path + [names[i]], false), Entry(path + [names[j]], false))
    ensures Apart(Entry(path, true), Entry(path + [names[j]], false))
    ensures Apart(Entry(path + [names[j]], false), Entry(path, true))
  {
    assert (path + [names[i]])[|path|] != (path + [names[j]])[|path|];
  }

  lemma ChildAndDirectoryAreApart(path: Path, name: string)
    ensures Apart(Entry(path, true), Entry(path + [name], false))
    ensures Apart(Entry(path + [name], false), Entry(path, true))
  {}

  lemma StaysSeparate(stack: seq<Entry>, names: seq<string>)
    requires stack != [] && IsSeparate(stack) && !stack[|stack| - 1].visited
    requires AllDistinct(names)
    ensures IsSeparate(Expanded(stack, names))
  {
    hide Expanded, Apart;
    var last := |stack| - 1;
    var path := stack[last].path;
    var next := Expanded(stack, names);
    forall i, j | 0 <= i < |next| && 0 <= j < |next| && i != j ensures Apart(next[i], next[j]) {
      if i < last && j < last {
        assert Apart(stack[i], stack[j]);
      } else if i < last {
        assert Apart(stack[i], stack[last]) && Apart(stack[last], stack[i]);
        ChildIsApart(stack[i], path, if j > last then names[j - |stack|] else "");
      } else if j < last {
        assert Apart(stack[j], stack[last]) && Apart(stack[last], stack[j]);
        ChildIsApart(stack[j], path, if i > last then names[i - |stack|] else "");
      } else if i > last && j > last {
        SiblingsAreApart(path, names, i - |stack|, j - |stack|);
      } else {
        ChildAndDirectoryAreApart(path, names[if i > last then i - |stack| else j - |stack|]);
      }
    }
  }

  lemma ProgressOfChildren(root: Path, stack: seq<Entry>, expanded: set<Path>, names: seq<string>)
    requires stack != [] && IsSeparate(stack) && IsProgress(root, stack, expanded) && !stack[|stack| - 1].visited
    requires root <= stack[|stack| - 1].path
    ensures IsProgress(root, Expanded(stack, names), expanded + {stack[|stack| - 1].path})
  {
    hide Expanded, IsSeparate;
    var path := stack[|stack| - 1].path;
    var next := Expanded(stack, names);
    forall i | 0 <= i < |next| && !next[i].visited
      ensures next[i].path !in expanded + {path} && (root < next[i].path ==> Parent(next[i].path) in expanded + {path})
    {
      if i >= |stack| {
        NewChild(root, path, names[i - |stack|], expanded);
      } else {
        OtherPath(stack, i);
      }
    }
  }

  lemma NewChild(root: Path, path: Path, name: string, expanded: set<Path>)
    requires root <= path && path !in expanded
    requires forall p :: p in expanded && root < p ==> Parent(p) in expanded
    ensures path + [name] !in expanded + {path} && Parent(path + [name]) == path
  {
    assert Parent(path + [name]) == path;
    assert root < path + [name];
  }

  lemma OtherPath(stack: seq<Entry>, i: nat)
    requires i < |stack| - 1 && IsSeparate(stack)
    ensures stack[i].path != stack[|stack| - 1].path
  {
    assert Apart(stack[i], stack[|stack| - 1]);
  }

  // ----- Deleting -----

  /** Only parts of the subtree at `root` are gone. */
  ghost predicate OnlyRemovedBelow(before: Tree, after: Tree, root: Path) {
    && after.Keys <= before.Keys
    && (forall p :: p in after ==> after[p] == before[p])
    && (forall p :: p in before && !(root <= p) ==> p in after)
  }

  function ChildNames(names: seq<string>): (children: seq<string>)
    ensures forall n :: n in children <==> n in names && n != "." && n != ".."
  {
    if names == [] then []
    else
      var rest := ChildNames(names[1..]);
      if names[0] == "." || names[0] == ".." then rest else rest + [names[0]]
  }

  lemma ChildNamesAreDistinct(names: seq<string>)
    requires AllDistinct(names)
    ensures AllDistinct(ChildNames(names))
  {
    if names != [] {
      forall i | 0 <= i < |names[1..]| ensures names[1..][i] == names[i + 1] != names[0] {}
      assert names[0] !in names[1..];
      ChildNamesAreDistinct(names[1..]);
    }
  }

  lemma ListingIsComplete(tree: Tree, path: Path, names: seq<string>)
    requires IsTree(tree) && Lists(tree, path, names)
    ensures NamesChildren(tree, path, ChildNames(names)) && AllDistinct(ChildNames(names))
  {
    hide ChildNames, AllDistinct;
    ChildNamesAreDistinct(names);
    forall p | p in tree && path < p && |p| == |path| + 1 ensures p[|path|] in ChildNames(names) {
      assert p == path + [p[|path|]];
    }
  }

  lemma StartsAsPlan(tree: Tree, root: Path)
    requires IsTree(tree)
    ensures IsPlan(tree, root, [Entry(root, false)]) && IsProgress(root, [Entry(root, false)], {})
  {
    forall p | p in tree && root <= p ensures CoveredFrom([Entry(root, false)], 0, p) {
      assert Covers([Entry(root, false)][0], p);
    }
  }

  lemma ProgressOfPop(root: Path, stack: seq<Entry>, expanded: set<Path>)
    requires stack != [] && IsProgress(root, stack, expanded)
    ensures IsProgress(root, stack[..|stack| - 1], expanded)
  {}

  lemma NothingRemains(tree: Tree, root: Path)
    requires AllCovered(tree, root, [])
    ensures forall p :: p in tree ==> !(root <= p)
  {
    hide CoveredFrom;
    forall p | p in tree ensures !(root <= p) {
      NothingCoversPastTop([], p);
    }
  }

  /** With nothing left on the stack, nothing is left at or below the root. */
  lemma NothingLeft(before: Tree, after: Tree, root: Path)
    requires IsPlan(after, root, []) && OnlyRemovedBelow(before, after, root)
    ensures after == before - Subtree(before, root)
  {
    hide IsTree, AllCovered, ContentsAbove, IsSeparate;
    NothingRemains(after, root);
    assert after.Keys == before.Keys - Subtree(before, root);
  }

  /** What is to be done is there. */
  ghost predicate AllThere(tree: Tree, stack: seq<Entry>) {
    forall i :: 0 <= i < |stack| ==> stack[i].path in tree
  }

  lemma RestIsThere(tree: Tree, stack: seq<Entry>)
    requires stack != [] && AllThere(tree, stack) && IsSeparate(stack)
    ensures AllThere(tree - {stack[|stack| - 1].path}, stack[..|stack| - 1])
  {
    forall i | 0 <= i < |stack| - 1 ensures stack[i].path in tree - {stack[|stack| - 1].path} {
      OtherPath(stack, i);
    }
  }

  lemma ChildrenAreThere(tree: Tree, stack: seq<Entry>, names: seq<string>)
    requires stack != [] && AllThere(tree, stack) && Lists(tree, stack[|stack| - 1].path, names)
    ensures AllThere(tree, Expanded(stack, ChildNames(names)))
  {
    hide Expanded;
    var path, children := stack[|stack| - 1].path, ChildNames(names);
    forall i | 0 <= i < |children| ensures path + [children[i]] in tree {
      assert children[i] in children;
    }
  }

  /** A deletion under way, `stack` holding what is still to be done. */
  ghost predicate Underway(before: Tree, tree: Tree, root: Path, stack: seq<Entry>, expanded: set<Path>) {
    && IsPlan(tree, root, stack)
    && IsProgress(root, stack, expanded)
    && OnlyRemovedBelow(before, tree, root)
    && (stack == [Entry(root, false)] || root in before)
    && (root in before ==> AllThere(tree, stack))
  }

  lemma UnderwayAfterRemoval(before: Tree, tree: Tree, root: Path, stack: seq<Entry>, expanded: set<Path>)
    requires stack != [] && Underway(before, tree, root, stack, expanded)
    requires stack[|stack| - 1].path in tree
    requires forall p :: p in tree ==> !(stack[|stack| - 1].path < p)
    ensures Underway(before, tree - {stack[|stack| - 1].path}, root, stack[..|stack| - 1], expanded)
  {
    hide IsPlan, IsProgress, OnlyRemovedBelow, AllThere, IsSeparate;
    PlanIsSeparate(tree, root, stack);
    if root in before {
      RestIsThere(tree, stack);
    }
    PopRemoved(tree, root, stack);
    ProgressOfPop(root, stack, expanded);
    RootOfEntry(tree, root, stack, |stack| - 1);
    OneMoreRemoved(before, tree, root, stack[|stack| - 1].path);
    if stack == [Entry(root, false)] {
      OnlyOldPaths(before, tree, root);
      assert AllThere(tree - {root}, []) by { NothingIsThere(tree - {root}); }
    }
  }

  lemma NothingIsThere(tree: Tree)
    ensures AllThere(tree, [])
  {}

  lemma OneMoreRemoved(before: Tree, tree: Tree, root: Path, path: Path)
    requires OnlyRemovedBelow(before, tree, root) && root <= path
    ensures OnlyRemovedBelow(before, tree - {path}, root)
  {}

  lemma OnlyOldPaths(before: Tree, tree: Tree, root: Path)
    requires OnlyRemovedBelow(before, tree, root) && root in tree
    ensures root in before
  {}

  lemma RootOfEntry(tree: Tree, root: Path, stack: seq<Entry>, i: nat)
    requires i < |stack| && IsPlan(tree, root, stack)
    ensures root <= stack[i].path && IsTree(tree)
  {}

  lemma UnderwayAfterListing(before: Tree, tree: Tree, root: Path, stack: seq<Entry>, expanded: set<Path>,
        names: seq<string>)
    requires stack != [] && Underway(before, tree, root, stack, expanded) && !stack[|stack| - 1].visited
    requires var path := stack[|stack| - 1].path; path in tree && tree[path] == Dir && Lists(tree, path, names)
    ensures Underway(before, tree, root, Expanded(stack, ChildNames(names)), expanded + {stack[|stack| - 1].path})
    ensures stack[|stack| - 1].path !in expanded
  {
    hide IsPlan, IsProgress, IsSeparate, Expanded, IsTree, NamesChildren, Lists, AllDistinct, ChildNames, AllThere;
    var path := stack[|stack| - 1].path;
    ListedIsThere(before, tree, root, stack, expanded);
    ChildrenAreThere(tree, stack, names);
    RootOfEntry(tree, root, stack, |stack| - 1);
    ListingIsComplete(tree, path, names);
    PushChildren(tree, root, stack, ChildNames(names));
    PlanIsSeparate(tree, root, stack);
    NotExpandedYet(root, stack, expanded);
    ProgressOfChildren(root, stack, expanded, ChildNames(names));
  }

  lemma ListedIsThere(before: Tree, tree: Tree, root: Path, stack: seq<Entry>, expanded: set<Path>)
    requires stack != [] && Underway(before, tree, root, stack, expanded) && stack[|stack| - 1].path in tree
    ensures root in before && AllThere(tree, stack)
  {
    hide IsPlan, IsProgress;
  }

  /** The next thing to be done is there, if the root was. */
  lemma TopIsThere(before: Tree, tree: Tree, root: Path, stack: seq<Entry>, expanded: set<Path>)
    requires stack != [] && Underway(before, tree, root, stack, expanded) && root in before
    ensures stack[|stack| - 1].path in tree
  {
    hide IsPlan, IsProgress;
  }

  lemma NotExpandedYet(root: Path, stack: seq<Entry>, expanded: set<Path>)
    requires stack != [] && IsProgress(root, stack, expanded) && !stack[|stack| - 1].visited
    ensures stack[|stack| - 1].path !in expanded
  {}

  lemma PlanIsSeparate(tree: Tree, root: Path, stack: seq<Entry>)
    requires IsPlan(tree, root, stack)
    ensures IsSeparate(stack)
  {}

  lemma VisitedIsEmpty(before: Tree, tree: Tree, root: Path, stack: seq<Entry>, expanded: set<Path>)
    requires stack != [] && Underway(before, tree, root, stack, expanded) && stack[|stack| - 1].visited
    ensures IsEmptyDir(tree, stack[|stack| - 1].path)
    ensures Underway(before, tree - {stack[|stack| - 1].path}, root, stack[..|stack| - 1], expanded)
  {
    TopVisitedIsEmpty(tree, root, stack);
    UnderwayAfterRemoval(before, tree, root, stack, expanded);
  }

  lemma ExpandedIs(stack: seq<Entry>, names: seq<string>)
    requires stack != []
    ensures Expanded(stack, names) ==
            stack[..|stack| - 1] + [Entry(stack[|stack| - 1].path, true)] + Pushed(stack[|stack| - 1].path, names)
  {}

  lemma Stopped(before: Tree, tree: Tree, root: Path, stack: seq<Entry>, expanded: set<Path>)
    requires Underway(before, tree, root, stack, expanded)
    ensures IsTree(tree) && OnlyRemovedBelow(before, tree, root)
    ensures stack == [] ==> root in before && tree == before - Subtree(before, root)
  {
    hide OnlyRemovedBelow;
    if stack == [] {
      NothingLeft(before, tree, root);
    }
  }

  lemma DoneInParts(fates: seq<Swap.Fate>, from: nat, middle: nat, to: nat)
    requires from <= middle <= to
    ensures AllDone(fates, from, to) <==> AllDone(fates, from, middle) && AllDone(fates, middle, to)
  {}

  /** The next step makes the tree smaller, or expands one directory more of the same tree. */
  ghost predicate IsShorter(tree: Tree, expanded: set<Path>, next: Tree, nextExpanded: set<Path>) {
    || next.Keys < tree.Keys
    || (next.Keys == tree.Keys && next.Keys - nextExpanded < tree.Keys - expanded)
  }

  lemma RemovalIsShorter(tree: Tree, expanded: set<Path>, path: Path)
    requires path in tree
    ensures IsShorter(tree, expanded, tree - {path}, expanded)
  {
    assert (tree - {path}).Keys == tree.Keys - {path};
  }

  lemma ListingIsShorter(tree: Tree, expanded: set<Path>, path: Path)
    requires path in tree && path !in expanded
    ensures IsShorter(tree, expanded, tree, expanded + {path})
  {
    assert path in tree.Keys - expanded && path !in tree.Keys - (expanded + {path});
  }

  /** What the loop does with the entry on top of the stack. */
  method DeleteNext(server: Server, root: Path, plan: seq<Entry>, ghost before: Tree, ghost expanded: set<Path>)
    returns (ok: bool, stack: seq<Entry>, ghost nowExpanded: set<Path>)
    requires plan != [] && Underway(before, server.tree, root, plan, expanded)
    modifies server
    ensures IsTree(server.tree) && OnlyRemovedBelow(before, server.tree, root)
    ensures ok ==> Underway(before, server.tree, root, stack, nowExpanded)
    ensures ok ==> IsShorter(old(server.tree), expanded, server.tree, nowExpanded)
    ensures server.used >= old(server.used)
    ensures ok ==> AllDone(server.fates, old(server.used), server.used)
    ensures root in before && AllDone(server.fates, old(server.used), server.used) ==> ok
    ensures AllProper(old(server.requests)) ==> AllProper(server.requests)
  {
    hide *;
    var entry := plan[|plan| - 1];
    stack, nowExpanded := plan[..|plan| - 1], expanded;
    ghost var tree := server.tree;
    Stopped(before, tree, root, plan, expanded);
    OneMoreDone(server.fates, server.used, server.used);
    OneMoreDone(server.fates, server.used, server.used + 1);
    if root in before {
      TopIsThere(before, tree, root, plan, expanded);
    }
    if entry.visited {
      VisitedIsEmpty(before, tree, root, plan, expanded);
      EmptyIsThere(tree, entry.path);
      RemovalIsShorter(tree, expanded, entry.path);
      ok := server.RemoveDir(entry.path);
      Stopped(before, tree - {entry.path}, root, stack, expanded);
      return;
    }
    var kind := server.SymlinkMetadata(entry.path);
    if kind.None? {
      return false, stack, nowExpanded;
    }
    if kind.value != Dir {
      NothingBelowLeaf(tree, entry.path);
      UnderwayAfterRemoval(before, tree, root, plan, expanded);
      RemovalIsShorter(tree, expanded, entry.path);
      ok := server.RemoveFile(entry.path);
      Stopped(before, tree - {entry.path}, root, stack, expanded);
      return;
    }
    var names := server.ReadDir(entry.path);
    if names.None? {
      return false, stack, nowExpanded;
    }
    UnderwayAfterListing(before, tree, root, plan, expanded, names.value);
    ListingIsShorter(tree, expanded, entry.path);
    stack := stack + [Entry(entry.path, true)] + Pushed(entry.path, ChildNames(names.value));
    ExpandedIs(plan, ChildNames(names.value));
    ok, nowExpanded := true, expanded + {entry.path};
  }

  lemma EmptyIsThere(tree: Tree, path: Path)
    requires IsEmptyDir(tree, path)
    ensures path in tree && tree[path] == Dir
  {}

  /**
    One pass over the stack. On success exactly the subtree is gone, and it succeeds exactly if the root
    is there and every request of the pass is carried out and answered.
   */
  method DeleteTree(server: Server, root: Path) returns (ok: bool)
    requires IsTree(server.tree)
    modifies server
    ensures IsTree(server.tree) && OnlyRemovedBelow(old(server.tree), server.tree, root)
    ensures ok ==> root in old(server.tree) && server.tree == old(server.tree) - Subtree(old(server.tree), root)
    ensures ok <==> root in old(server.tree) && AllDone(server.fates, old(server.used), server.used)
    ensures AllProper(old(server.requests)) ==> AllProper(server.requests)
    ensures server.used >= old(server.used)
  {
    ghost var before := server.tree;
    var stack := [Entry(root, false)];
    ghost var expanded: set<Path> := {};
    StartsAsPlan(server.tree, root);
    OneMoreDone(server.fates, server.used, server.used);
    assert Underway(before, before, root, stack, expanded);
    while stack != []
      invariant Underway(before, server.tree, root, stack, expanded)
      invariant server.used >= old(server.used) && AllDone(server.fates, old(server.used), server.used)
      invariant AllProper(old(server.requests)) ==> AllProper(server.requests)
      decreases server.tree.Keys, server.tree.Keys - expanded
    {
      hide Underway, AllDone, AllProper, IsTree, OnlyRemovedBelow, Subtree;
      ghost var done := server.used;
      ok, stack, expanded := DeleteNext(server, root, stack, before, expanded);
      DoneInParts(server.fates, old(server.used), done, server.used);
      if !ok {
        return;
      }
    }
    hide Underway, AllDone, AllProper, IsTree, OnlyRemovedBelow, Subtree;
    Stopped(before, server.tree, root, stack, expanded);
    ok := true;
  }

  lemma SecondPassFinishes(before: Tree, between: Tree, root: Path)
    requires OnlyRemovedBelow(before, between, root)
    ensures between - Subtree(between, root) == before - Subtree(before, root)
    ensures root in between ==> root in before
  {
    assert (between - Subtree(between, root)).Keys == (before - Subtree(before, root)).Keys;
  }

  /** A root that is gone leaves nothing to a second pass. */
  lemma GoneWithItsRoot(before: Tree, between: Tree, after: Tree, root: Path)
    requires IsTree(between) && OnlyRemovedBelow(before, between, root) && root !in between
    requires OnlyRemovedBelow(between, after, root)
    ensures after == before - Subtree(before, root)
  {
    hide IsTree;
    NothingBelowLeaf(between, root);
    assert forall p :: p in between && root <= p ==> root == p || root < p;
    assert after.Keys == before.Keys - Subtree(before, root);
  }

  lemma OnePassFails(fates: seq<Swap.Fate>, from: nat, middle: nat, to: nat)
    requires from <= middle <= to && AtMostOneFails(fates, from, to)
    ensures AllDone(fates, from, middle) || AllDone(fates, middle, to)
  {}

  lemma TwoPasses(before: Tree, between: Tree, after: Tree, root: Path)
    requires OnlyRemovedBelow(before, between, root) && OnlyRemovedBelow(between, after, root)
    ensures OnlyRemovedBelow(before, after, root)
  {}

  lemma NothingRemoved(tree: Tree, root: Path)
    ensures OnlyRemovedBelow(tree, tree, root)
  {}

  lemma RootIsGone(before: Tree, root: Path)
    ensures root !in before - Subtree(before, root)
  {
    if root in before {
      assert root in Subtree(before, root);
    }
  }

  /**
    The whole request: a failed pass is run once more from the start. Whatever happens, nothing
    but parts of the subtree is removed; success means that all of it is gone. The first pass ends after
    `middle` requests and leaves `between`; the request succeeds exactly if one of the passes finds its
    root and has every request answered, the second one over a channel that has to be opened anew. With
    at most one request going wrong everything is gone in the end, whatever the answer says.
   */
  method DeleteItem(server: Server, root: Path, connected: bool, reconnected: bool)
    returns (ok: bool, ghost between: Tree, ghost middle: nat)
    requires IsTree(server.tree)
    modifies server
    ensures IsTree(server.tree) && OnlyRemovedBelow(old(server.tree), server.tree, root)
    ensures ok ==> root in old(server.tree) && server.tree == old(server.tree) - Subtree(old(server.tree), root)
    ensures old(server.used) <= middle <= server.used && OnlyRemovedBelow(old(server.tree), between, root)
    ensures ok <==>
              && connected
              && (|| (root in old(server.tree) && AllDone(server.fates, old(server.used), middle))
                  || (reconnected && root in between && AllDone(server.fates, middle, server.used)))
    ensures !connected ==> server.tree == old(server.tree)
    ensures connected && reconnected && root in old(server.tree)
            && AtMostOneFails(server.fates, old(server.used), server.used) ==>
              server.tree == old(server.tree) - Subtree(old(server.tree), root)
    ensures AllProper(old(server.requests)) ==> AllProper(server.requests)
  {
    hide AllProper, IsTree, IsProper, OnlyRemovedBelow, AllDone, AtMostOneFails, Subtree;
    between, middle := server.tree, server.used;
    if !connected {
      NothingRemoved(server.tree, root);
      return false, between, middle;
    }
    ok := DeleteTree(server, root);
    between, middle := server.tree, server.used;
    if ok {
      RootIsGone(old(server.tree), root);
    } else if reconnected {
      SecondPassFinishes(old(server.tree), between, root);
      ok := DeleteTree(server, root);
      TwoPasses(old(server.tree), between, server.tree, root);
      if AtMostOneFails(server.fates, old(server.used), server.used) {
        OnePassFails(server.fates, old(server.used), middle, server.used);
        if root in old(server.tree) && root !in between {
          GoneWithItsRoot(old(server.tree), between, server.tree, root);
        }
      }
    }
  }

  // ----- A batch -----

  /** Whether the channel for an item is there, and whether it can be opened anew. */
  datatype Channel = Channel(connected: bool, reconnected: bool)

  /** No path of the batch is at or below another. */
  ghost predicate AreIndependent(roots: seq<Path>) {
    forall i, j :: 0 <= i < |roots| && 0 <= j < |roots| && i != j ==> !(roots[i] <= roots[j])
  }

  /** Only what lies at or below one of the roots is gone. */
  ghost predicate OnlyRemovedBelowAny(before: Tree, after: Tree, roots: seq<Path>) {
    && after.Keys <= before.Keys
    && (forall p :: p in after ==> after[p] == before[p])
    && (forall p :: p in before && IsOutside(roots, p) ==> p in after)
  }

  ghost predicate IsOutside(roots: seq<Path>, p: Path) {
    forall i :: 0 <= i < |roots| ==> !(roots[i] <= p)
  }

  /** What was reported as deleted is gone. */
  ghost predicate ReportedAreGone(tree: Tree, roots: seq<Path>, outcomes: seq<bool>)
    requires |outcomes| <= |roots|
  {
    forall i, p :: 0 <= i < |outcomes| && outcomes[i] && p in tree ==> !(roots[i] <= p)
  }

  ghost predicate AllTrue(outcomes: seq<bool>) {
    forall i :: 0 <= i < |outcomes| ==> outcomes[i]
  }

  ghost predicate AllConnected(channels: seq<Channel>) {
    forall i :: 0 <= i < |channels| ==> channels[i].connected
  }

  lemma OneMoreItem(before: Tree, between: Tree, after: Tree, roots: seq<Path>, outcomes: seq<bool>, ok: bool)
    requires |outcomes| < |roots|
    requires var done := roots[..|outcomes|];
             OnlyRemovedBelowAny(before, between, done) && ReportedAreGone(between, roots, outcomes)
    requires OnlyRemovedBelow(between, after, roots[|outcomes|])
    requires ok ==> after == between - Subtree(between, roots[|outcomes|])
    ensures OnlyRemovedBelowAny(before, after, roots[..|outcomes| + 1])
    ensures ReportedAreGone(after, roots, outcomes + [ok])
  {
    var n := |outcomes|;
    forall p | p in before && IsOutside(roots[..n + 1], p) ensures p in after {
      assert forall i :: 0 <= i < n ==> roots[..n][i] == roots[..n + 1][i];
      assert !(roots[..n + 1][n] <= p);
    }
  }

  /** Nothing stands in the way of the batch: every item is there, apart from the others, and answered. */
  ghost predicate IsUntroubled(before: Tree, roots: seq<Path>, channels: seq<Channel>, fates: seq<Swap.Fate>,
                               from: nat, to: nat) {
    && AreIndependent(roots) && AllConnected(channels) && AllDone(fates, from, to)
    && forall i :: 0 <= i < |roots| ==> roots[i] in before
  }

  lemma UntroubledSoFar(before: Tree, roots: seq<Path>, channels: seq<Channel>, fates: seq<Swap.Fate>, from: nat,
          done: nat, middle: nat, to: nat, n: nat)
    requires from <= done <= middle <= to && n < |roots| == |channels|
    requires IsUntroubled(before, roots, channels, fates, from, to)
    ensures IsUntroubled(before, roots, channels, fates, from, done) && AllDone(fates, done, middle)
    ensures AreIndependent(roots) && roots[n] in before && channels[n].connected
  {
    DoneInParts(fates, from, done, to);
    DoneInParts(fates, done, middle, to);
  }

  lemma OneMoreTrue(outcomes: seq<bool>)
    requires AllTrue(outcomes)
    ensures AllTrue(outcomes + [true])
  {}

  lemma NoItems(before: Tree, roots: seq<Path>)
    ensures OnlyRemovedBelowAny(before, before, roots[..0]) && ReportedAreGone(before, roots, []) && AllTrue([])
  {}

  lemma StillThere(before: Tree, tree: Tree, roots: seq<Path>, n: nat)
    requires n < |roots| && AreIndependent(roots) && roots[n] in before
    requires OnlyRemovedBelowAny(before, tree, roots[..n])
    ensures roots[n] in tree
  {
    forall i | 0 <= i < n ensures !(roots[..n][i] <= roots[n]) {
      assert !(roots[i] <= roots[n]);
    }
  }

  /**
    Every item is tried, whatever became of those before it: what is reported as deleted is gone, nothing
    outside the items is touched, and with every request answered all items that were there are deleted,
    if none is below another.
   */
  method DeleteItems(server: Server, roots: seq<Path>, channels: seq<Channel>) returns (outcomes: seq<bool>)
    requires IsTree(server.tree) && |channels| == |roots|
    modifies server
    ensures |outcomes| == |roots| && IsTree(server.tree)
    ensures OnlyRemovedBelowAny(old(server.tree), server.tree, roots)
    ensures ReportedAreGone(server.tree, roots, outcomes)
    ensures IsUntroubled(old(server.tree), roots, channels, server.fates, old(server.used), server.used) ==>
              AllTrue(outcomes)
    ensures AllProper(old(server.requests)) ==> AllProper(server.requests)
  {
    outcomes := [];
    ghost var before := server.tree;
    NoItems(before, roots);
    for n := 0 to |roots|
      invariant |outcomes| == n && IsTree(server.tree) && old(server.used) <= server.used
      invariant OnlyRemovedBelowAny(before, server.tree, roots[..n])
      invariant ReportedAreGone(server.tree, roots, outcomes)
      invariant IsUntroubled(before, roots, channels, server.fates, old(server.used), server.used) ==>
                  AllTrue(outcomes)
      invariant AllProper(old(server.requests)) ==> AllProper(server.requests)
    {
      hide *;
      ghost var between, done := server.tree, server.used;
      var ok;
      ghost var first, middle;
      ok, first, middle := DeleteItem(server, roots[n], channels[n].connected, channels[n].reconnected);
      OneMoreItem(before, between, server.tree, roots, outcomes, ok);
      if IsUntroubled(before, roots, channels, server.fates, old(server.used), server.used) {
        UntroubledSoFar(before, roots, channels, server.fates, old(server.used), done, middle, server.used, n);
        StillThere(before, between, roots, n);
        OneMoreTrue(outcomes);
      }
      outcomes := outcomes + [ok];
    }
    assert roots[..|roots|] == roots;
  }
}
