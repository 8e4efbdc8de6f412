/** The host scanner: the walk over one configured path with its `sizes` map and
    the shared big-file collector, and `Scan` over all configured paths. */
module HostWalk {
  import opened Seqs
  import opened Ordering
  import opened Paths
  import opened FileTree
  import opened Attribution
  import opened Samples
  import opened BigFiles

  const BIG_FILES_TOP := 20

  function ToBigFile(f: FileAt): BigFile { BigFile(f.text, f.size) }

  /** The files the walk keeps: those left by ignore-pruning. */
  function Surviving(root: Option<Node>, p: PathCfg, ignored: string -> bool): seq<FileAt> {
    if root.None? then [] else Found(root.value, ignored, Root(p), p.path)
  }

  /** The files left of one subtree by ignore-pruning. */
  function Found(t: Node, ignored: string -> bool, at: Path, text: string): seq<FileAt> {
    match Prune(t, ignored)
    case None => []
    case Some(kept) => Files(kept, at, text)
  }

  lemma FoundInKids(kids: seq<Node>, ignored: string -> bool, at: Path, text: string)
    requires kids != []
    ensures FilesOfKids(PruneKids(kids, ignored), at, text)
      == Found(kids[0], ignored, Child(at, kids[0].name), JoinPath(text, kids[0].name))
         + FilesOfKids(PruneKids(kids[1..], ignored), at, text)
  {
    var rest := PruneKids(kids[1..], ignored);
    match Prune(kids[0], ignored) {
      case None =>
      case Some(kept) =>
        assert kept.name == kids[0].name;
        assert ([kept] + rest)[1..] == rest;
    }
  }

  // ---------- Which files survive ----------

  predicate ReadableFile(t: Option<Node>, size: int) {
    t.Some? && t.value.File? && t.value.size == Some(size)
  }

  /** Following `names` from `t` leads to a readable file of this size, and no name
      on the way is ignored. */
  predicate Reached(t: Node, ignored: string -> bool, names: seq<string>, size: int) {
    && ReadableFile(Find(t, names), size)
    && !ignored(t.name) && forall i :: 0 <= i < |names| ==> !ignored(names[i])
  }

  predicate ReachedKid(kids: seq<Node>, ignored: string -> bool, names: seq<string>, size: int) {
    && names != [] && ReadableFile(FindKid(kids, names), size)
    && forall i :: 0 <= i < |names| ==> !ignored(names[i])
  }

  /** `files` holds a file of this size at `names` below `at`. */
  predicate Holds(files: seq<FileAt>, at: Path, names: seq<string>, size: int) {
    exists f :: f in files && f.at == at.(comps := at.comps + names) && f.size == size
  }

  lemma HoldsInParts(a: seq<FileAt>, b: seq<FileAt>, at: Path, names: seq<string>, size: int)
    ensures Holds(a + b, at, names, size) <==> Holds(a, at, names, size) || Holds(b, at, names, size)
  {
  }

  lemma HoldsInKid(t: Node, ignored: string -> bool, at: Path, name: string, text: string, names: seq<string>, size: int)
    ensures Holds(Found(t, ignored, Child(at, name), text), at, names, size)
       <==> names != [] && names[0] == name && Holds(Found(t, ignored, Child(at, name), text), Child(at, name), names[1..], size)
  {
    var files := Found(t, ignored, Child(at, name), text);
    if Prune(t, ignored).Some? {
      FilesExtend(Prune(t, ignored).value, Child(at, name), text);
    }
    forall f | f in files ensures at.comps + [name] <= f.at.comps {
    }
    forall f | f in files && f.at == at.(comps := at.comps + names)
      ensures names != [] && names[0] == name && f.at == Child(at, name).(comps := Child(at, name).comps + names[1..])
    {
      assert at.comps + [name] <= at.comps + names;
      assert (at.comps + names)[|at.comps|] == (at.comps + [name])[|at.comps|];
      assert names == [name] + names[1..];
    }
    if names != [] && names[0] == name {
      assert at.comps + names == at.comps + [name] + names[1..];
    }
  }

  /** A file survives exactly when it can be read and no name on its way is ignored. */
  lemma {:induction false} SurvivesIff(t: Node, ignored: string -> bool, at: Path, text: string, names: seq<string>, size: int)
    requires WellFormed(t)
    ensures Holds(Found(t, ignored, at, text), at, names, size) <==> Reached(t, ignored, names, size)
    decreases t, 1
  {
    assert at.comps + [] == at.comps;
    match t
    case File(_, _) =>
      if names != [] {
        assert at.comps + names != at.comps;
      }
    case Dir(_, kids) =>
      if !ignored(t.name) {
        KidSurvivesIff(kids, ignored, at, text, names, size);
      }
  }

  lemma {:induction false} KidSurvivesIff(kids: seq<Node>, ignored: string -> bool, at: Path, text: string, names: seq<string>, size: int)
    requires WellFormedKids(kids)
    ensures Holds(FilesOfKids(PruneKids(kids, ignored), at, text), at, names, size) <==> ReachedKid(kids, ignored, names, size)
    decreases kids, 0
  {
    if kids != [] {
      var kid := kids[0];
      var text0 := JoinPath(text, kid.name);
      var found := Found(kid, ignored, Child(at, kid.name), text0);
      FoundInKids(kids, ignored, at, text);
      HoldsInParts(found, FilesOfKids(PruneKids(kids[1..], ignored), at, text), at, names, size);
      HoldsInKid(kid, ignored, at, kid.name, text0, names, size);
      KidSurvivesIff(kids[1..], ignored, at, text, names, size);
      if names != [] && names[0] == kid.name {
        SurvivesIff(kid, ignored, Child(at, kid.name), text0, names[1..], size);
        NoOtherKid(kids[1..], names);
        ReachedThrough(kid, ignored, names, size);
      }
    }
  }

  lemma {:induction false} NoOtherKid(kids: seq<Node>, names: seq<string>)
    requires names != [] && forall i :: 0 <= i < |kids| ==> kids[i].name != names[0]
    ensures FindKid(kids, names) == None
    decreases |kids|
  {
    if kids != [] {
      NoOtherKid(kids[1..], names);
    }
  }

  lemma ReachedThrough(kid: Node, ignored: string -> bool, names: seq<string>, size: int)
    requires names != [] && names[0] == kid.name
    ensures Reached(kid, ignored, names[1..], size)
       <==> ReadableFile(Find(kid, names[1..]), size)
            && forall i :: 0 <= i < |names| ==> !ignored(names[i])
  {
    if forall i :: 0 <= i < |names[1..]| ==> !ignored(names[1..][i]) {
      forall i | 0 < i < |names| ensures ignored(names[i]) == ignored(names[1..][i - 1]) {
      }
    }
    assert forall i :: 0 <= i < |names[1..]| ==> names[1..][i] == names[i + 1];
  }

  ghost predicate Apart(files: seq<FileAt>) {
    forall i, j :: 0 <= i < j < |files| ==> files[i].at != files[j].at
  }

  /** Below a root directory every file carries its clean path string, and no two
      files are at the same place. */
  lemma {:induction false} FilesAreApart(t: Node, at: Path, text: string)
    requires WellFormed(t) && text != "" && Parse(text) == at
    ensures var files := Files(t, at, text);
      && (forall f :: f in files ==> f.text == if t.Dir? then Render(f.at) else text)
      && Apart(files)
    decreases t, 1
  {
    if t.Dir? {
      KidFilesAreApart(t.kids, at, text);
    }
  }

  lemma {:induction false} KidFilesAreApart(kids: seq<Node>, at: Path, text: string)
    requires WellFormedKids(kids) && text != "" && Parse(text) == at
    ensures var files := FilesOfKids(kids, at, text);
      && (forall f :: f in files ==> f.text == Render(f.at))
      && Apart(files)
    decreases kids, 0
  {
    if kids != [] {
      var kid, text0 := kids[0], JoinPath(text, kids[0].name);
      var first, rest := Files(kid, Child(at, kid.name), text0), FilesOfKids(kids[1..], at, text);
      JoinNotEmpty(text, kid.name);
      FilesAreApart(kid, Child(at, kid.name), text0);
      FilesExtend(kid, Child(at, kid.name), text0);
      KidFilesAreApart(kids[1..], at, text);
      forall f, g | f in first && g in rest ensures f.at != g.at {
        FileUnderSomeKid(kids[1..], at, text, g);
        var k :| 0 <= k < |kids[1..]| && at.comps + [kids[1..][k].name] <= g.at.comps;
        assert kids[1..][k].name != kid.name;
        assert f.at.comps[|at.comps|] == (at.comps + [kid.name])[|at.comps|];
        assert g.at.comps[|at.comps|] == (at.comps + [kids[1..][k].name])[|at.comps|];
      }
      ApartInParts(first, rest);
    }
  }

  lemma ApartInParts(a: seq<FileAt>, b: seq<FileAt>)
    requires Apart(a) && Apart(b) && forall f, g :: f in a && g in b ==> f.at != g.at
    ensures Apart(a + b)
  {
    forall i, j | 0 <= i < j < |a + b| ensures (a + b)[i].at != (a + b)[j].at {
      assert i < |a| <= j ==> a[i] in a && b[j - |a|] in b;
    }
  }

  lemma {:induction false} FileUnderSomeKid(kids: seq<Node>, at: Path, text: string, f: FileAt)
    requires f in FilesOfKids(kids, at, text)
    ensures exists k :: 0 <= k < |kids| && at.comps + [kids[k].name] <= f.at.comps
    decreases |kids|
  {
    var text0 := JoinPath(text, kids[0].name);
    if f in Files(kids[0], Child(at, kids[0].name), text0) {
      FilesExtend(kids[0], Child(at, kids[0].name), text0);
      assert at.comps + [kids[0].name] <= f.at.comps;
    } else {
      FileUnderSomeKid(kids[1..], at, text, f);
      var k :| 0 <= k < |kids[1..]| && at.comps + [kids[1..][k].name] <= f.at.comps;
      assert kids[k + 1] == kids[1..][k];
    }
  }

  lemma JoinNotEmpty(text: string, name: string)
    requires text != "" && EntryName(name)
    ensures JoinPath(text, name) != "" && Parse(JoinPath(text, name)) == Child(Parse(text), name)
    ensures JoinPath(text, name) == Render(Child(Parse(text), name))
  {
    JoinAddsComponent(text, name);
    if JoinPath(text, name) == "" {
      ParseSlash();
    }
  }

  /** `None` stands for a root that cannot be stat'ed or is itself ignored. */
  function PruneRoot(root: Option<Node>, ignored: string -> bool): Option<Node> {
    if root.None? then None else Prune(root.value, ignored)
  }

  /** What the file system guarantees about a root, and, if any file survives, the
      condition under which the ancestor loop ends for it (`AncestorLoopEndsIff`). */
  ghost predicate Walkable(p: PathCfg, root: Option<Node>, ignored: string -> bool) {
    root.Some? ==>
      && p.path != ""
      && WellFormed(root.value)
      && (root.value.File? ==> EndsInEntry(p.path))
      && (Surviving(root, p, ignored) != [] ==>
            LoopEnds(ShapeOf(p), if root.value.Dir? then |Root(p).comps| + 1 else |Root(p).comps|))
  }

  /** What the ancestor loop leaves tallies one file more. */
  lemma ChargedTallies(p: PathCfg, was: map<string, int>, now: map<string, int>, files: seq<FileAt>, f: FileAt)
    requires Tallies(was, p, files) && Below(p, f.at)
    requires now == ChargedUpTo(was, p, f.at, f.size, Lowest(ShapeOf(p), |f.at.comps|))
    ensures Tallies(now, p, files + [f])
  {
    ChargedIsAdded(was, p, f.at, f.size, Lowest(ShapeOf(p), |f.at.comps|));
    TalliesOneMore(was, now, p, files, f);
  }

  class Walk {
    const p: PathCfg
    const ignored: string -> bool
    const bigs: BigFilesHeap
    var sizes: map<string, int>
    ghost var files: seq<FileAt>  // every file charged so far

    ghost predicate Valid()
      reads this, bigs, bigs.data
    {
      bigs.Valid() && Tallies(sizes, p, files)
    }

    constructor (p: PathCfg, ignored: string -> bool, bigs: BigFilesHeap)
      requires bigs.Valid()
      ensures Valid() && this.p == p && this.ignored == ignored && this.bigs == bigs && files == []
    {
      this.p, this.ignored, this.bigs := p, ignored, bigs;
      sizes, files := map[], [];
    }

    /** The walk callback on a readable regular entry. */
    method VisitFile(text: string, size: int, ghost at: Path)
      requires Valid() && Chargeable(p, text, at)
      modifies this, bigs, bigs.data
      ensures Valid() && (bigs.data == old(bigs.data) || fresh(bigs.data))
      ensures files == old(files) + [FileAt(at, text, size)]
      ensures bigs.seen == old(bigs.seen) + [BigFile(text, size)]
    {
      bigs.Consider(text, size);
      ghost var was := sizes;
      sizes := ChargeAncestors(p, sizes, text, size, at, ShapeOf(p));
      ChargedTallies(p, was, sizes, files, FileAt(at, text, size));
      files := files + [FileAt(at, text, size)];
    }

    /** `filepath.WalkDir` from one entry, with the callback's pruning. */
    method Visit(t: Node, text: string, ghost at: Path)
      requires Valid() && WellFormed(t) && VisitReady(p, t, ignored, text, at)
      modifies this, bigs, bigs.data
      ensures Valid() && (bigs.data == old(bigs.data) || fresh(bigs.data))
      ensures files == old(files) + Found(t, ignored, at, text)
      ensures bigs.seen == old(bigs.seen) + Map(Found(t, ignored, at, text), ToBigFile)
      decreases t, 1
    {
      if ignored(t.name) {
        return;
      }
      match t {
        case File(_, None) =>
        case File(_, Some(size)) =>
          VisitFile(text, size, at);
          assert Map([FileAt(at, text, size)], ToBigFile) == [BigFile(text, size)];
        case Dir(_, kids) =>
          VisitKids(kids, text, at);
      }
    }

    method VisitKids(kids: seq<Node>, text: string, ghost at: Path)
      requires Valid() && WellFormedKids(kids) && InsideWalk(p, text, at)
      requires EndsUnlessEmpty(p, FilesOfKids(PruneKids(kids, ignored), at, text), |at.comps| + 1)
      modifies this, bigs, bigs.data
      ensures Valid() && (bigs.data == old(bigs.data) || fresh(bigs.data))
      ensures files == old(files) + FilesOfKids(PruneKids(kids, ignored), at, text)
      ensures bigs.seen == old(bigs.seen) + Map(FilesOfKids(PruneKids(kids, ignored), at, text), ToBigFile)
      decreases kids, 0
    {
      if kids == [] {
        return;
      }
      ghost var at0 := Child(at, kids[0].name);
      var text0 := JoinPath(text, kids[0].name);
      FoundInKids(kids, ignored, at, text);
      KidReady(p, kids[0], ignored, text, at);
      ghost var first := Found(kids[0], ignored, at0, text0);
      ghost var rest := FilesOfKids(PruneKids(kids[1..], ignored), at, text);
      ghost var files0, seen0 := files, bigs.seen;
      Visit(kids[0], text0, at0);
      VisitKids(kids[1..], text, at);
      MapAppend(first, rest, ToBigFile);
      AppendAssociates(files0, first, rest);
      AppendAssociates(seen0, Map(first, ToBigFile), Map(rest, ToBigFile));
    }
  }

  /** A directory inside the walk, with the path string handed to the callback. */
  ghost predicate InsideWalk(p: PathCfg, text: string, at: Path) {
    && text != "" && Parse(text) == at && Normal(at)
    && at.rooted == Root(p).rooted && Root(p).comps <= at.comps
  }

  /** The ancestor loop ends for the listed files, if there are any. */
  ghost predicate EndsUnlessEmpty(p: PathCfg, files: seq<FileAt>, n: nat) {
    files != [] ==> LoopEnds(ShapeOf(p), n)
  }

  /** A file inside the walk, with the path string handed to the callback. */
  ghost predicate FileInside(p: PathCfg, text: string, at: Path) {
    Below(p, at) && DirOf(text) == AncestorDir(at, |at.comps| - 1)
  }

  /** One whose ancestor loop ends. */
  ghost predicate Chargeable(p: PathCfg, text: string, at: Path) {
    FileInside(p, text, at) && LoopEnds(ShapeOf(p), |at.comps|)
  }

  ghost predicate VisitReady(p: PathCfg, t: Node, ignored: string -> bool, text: string, at: Path) {
    && (if t.Dir? then InsideWalk(p, text, at) else FileInside(p, text, at))
    && EndsUnlessEmpty(p, Found(t, ignored, at, text), if t.Dir? then |at.comps| + 1 else |at.comps|)
  }

  lemma KidReady(p: PathCfg, kid: Node, ignored: string -> bool, text: string, at: Path)
    requires InsideWalk(p, text, at) && EntryName(kid.name)
    requires EndsUnlessEmpty(p, Found(kid, ignored, Child(at, kid.name), JoinPath(text, kid.name)), |at.comps| + 1)
    ensures VisitReady(p, kid, ignored, JoinPath(text, kid.name), Child(at, kid.name))
  {
    JoinAddsComponent(text, kid.name);
    var c := Child(at, kid.name);
    DirIsParent(c);
    assert Render(c) != "" by {
      if Render(c) == "" {
        ParseSlash();
      }
    }
  }

  lemma RootReady(p: PathCfg, t: Node, ignored: string -> bool)
    requires Walkable(p, Some(t), ignored)
    ensures VisitReady(p, t, ignored, p.path, Root(p))
  {
    RootNormal(p);
    if t.File? {
      DirOfEntry(p.path);
    }
  }

  // ---------- The recursive disk-usage report ----------

  /** The report entry for directory `d`, given the pruned tree `t` at the root:
      its recursive usage, if it lies in the tree, within the depth cap, and holds
      a file. The last case is the extra "/" entry of `ChargesSlash`. */
  function DuEntry(p: PathCfg, t: Node, d: Path): Option<int> {
    if !InCap(p, d) || d.rooted != Root(p).rooted then None
    else if Root(p).comps <= d.comps then DuAt(t, d.comps[|Root(p).comps|..])
    else if d.comps == [] && ReportsSlash(p, t) then Du(t)
    else None
  }

  /** Roots such as "/srv/" or a file such as "/swap" also report "/". */
  predicate ReportsSlash(p: PathCfg, t: Node) {
    Root(p).rooted && |Root(p).comps| == 1 && (p.path != Clean(p.path) || t.File?)
  }

  /** `sizes` is the disk-usage report of the pruned tree: exactly the clean path
      strings with a report entry, each with that entry. */
  ghost predicate IsDuReport(sizes: map<string, int>, p: PathCfg, pruned: Option<Node>) {
    forall s: string :: Lookup(sizes, s)
      == if s == Clean(s) && pruned.Some? then DuEntry(p, pruned.value, Parse(s)) else None
  }

  lemma ChargedIsDu(p: PathCfg, t: Node, d: Path)
    requires WellFormed(t)
    requires t.File? ==> EndsInEntry(p.path)
    ensures ChargedTotal(p, Files(t, Root(p), p.path), d) == DuEntry(p, t, d)
  {
    var r := Root(p);
    var files := Files(t, r, p.path);
    if t.File? {
      DirOfEntry(p.path);
    }
    FilesExtend(t, r, p.path);
    var lowest: nat := if ReportsSlash(p, t) then 0 else |r.comps|;
    forall f | f in files ensures Lowest(ShapeOf(p), |f.at.comps|) == lowest {
    }
    ChargedIsUnder(p, files, d, lowest);
    if InCap(p, d) && lowest <= |d.comps| {
      if d.rooted == r.rooted && r.comps <= d.comps {
        TotalBelow(t, r, p.path, d);
      } else if d.rooted == r.rooted && d.comps < r.comps {
        assert d.comps == [];
        TotalAbove(t, r, p.path, d);
      } else {
        forall f | f in files ensures !Under(d, f.at) {
          if d.comps < f.at.comps {
            assert |d.comps| <= |r.comps| ==> d.comps == f.at.comps[..|d.comps|] == r.comps[..|d.comps|];
          }
        }
        TotalElsewhere(files, d);
      }
    }
  }

  lemma TalliesAreDu(p: PathCfg, root: Option<Node>, ignored: string -> bool, sizes: map<string, int>)
    requires Walkable(p, root, ignored)
    requires Tallies(sizes, p, Surviving(root, p, ignored))
    ensures IsDuReport(sizes, p, PruneRoot(root, ignored))
  {
    var pruned := PruneRoot(root, ignored);
    if pruned.Some? {
      PruneWellFormed(root.value, ignored);
    }
    forall s: string ensures Lookup(sizes, s)
      == if s == Clean(s) && pruned.Some? then DuEntry(p, pruned.value, Parse(s)) else None
    {
      if pruned.Some? {
        ChargedIsDu(p, pruned.value, Parse(s));
      }
    }
  }

  function TotalSize(files: seq<FileAt>): int {
    if files == [] then 0 else TotalSize(files[..|files| - 1]) + files[|files| - 1].size
  }

  lemma {:induction false} AllUnder(files: seq<FileAt>, d: Path)
    requires forall f :: f in files ==> Under(d, f.at)
    ensures UnderTotal(files, d) == if files == [] then None else Some(TotalSize(files))
    decreases |files|
  {
    if files != [] {
      AllUnder(files[..|files| - 1], d);
      assert files[|files| - 1] in files;
    }
  }

  /** At a root directory the map's entry for the root is the total size of all
      surviving files, if there are any. */
  lemma RootEntryIsTotal(p: PathCfg, root: Option<Node>, ignored: string -> bool, sizes: map<string, int>)
    requires root.Some? && root.value.Dir? && p.maxDepth >= 0
    requires Tallies(sizes, p, Surviving(root, p, ignored))
    ensures var files := Surviving(root, p, ignored);
      Lookup(sizes, Clean(p.path)) == if files == [] then None else Some(TotalSize(files))
  {
    var files := Surviving(root, p, ignored);
    CleanIdempotent(p.path);
    RootNormal(p);
    ParseRender(Root(p));
    var pruned := PruneRoot(root, ignored);
    if pruned.Some? {
      FilesExtend(pruned.value, Root(p), p.path);
      ChargedIsUnder(p, files, Root(p), Lowest(ShapeOf(p), |Root(p).comps| + 1));
      AllUnder(files, Root(p));
    }
  }

  /** `s` names neither the configured path nor anything below it. */
  predicate Outside(p: PathCfg, s: string) {
    Parse(s).rooted != Root(p).rooted || !(Root(p).comps <= Parse(s).comps)
  }

  /** The roots that report a directory outside them: absolute ones with one
      component, not written cleanly or themselves a file. The entry is "/", with
      the total of all surviving files. */
  predicate AddsSlash(p: PathCfg, root: Node) {
    ReportsSlash(p, root) && p.maxDepth >= 0
  }

  /** The report has an entry outside the root if and only if a file survives and
      the root is of that kind; then it is exactly "/". */
  lemma OutsideEntryIff(p: PathCfg, root: Option<Node>, ignored: string -> bool, sizes: map<string, int>)
    requires Walkable(p, root, ignored) && IsDuReport(sizes, p, PruneRoot(root, ignored))
    ensures var files := Surviving(root, p, ignored);
      && ((exists s :: s in sizes && Outside(p, s)) <==> files != [] && AddsSlash(p, root.value))
      && (forall s :: s in sizes && Outside(p, s) ==> s == "/" && sizes[s] == TotalSize(files))
  {
    var files := Surviving(root, p, ignored);
    if PruneRoot(root, ignored).Some? {
      SlashTotal(p, PruneRoot(root, ignored).value);
    }
    forall s | s in sizes && Outside(p, s)
      ensures files != [] && AddsSlash(p, root.value) && s == "/" && sizes[s] == TotalSize(files)
    {
      OutsideIsSlash(p, PruneRoot(root, ignored), sizes, s);
    }
    if files != [] && AddsSlash(p, root.value) {
      ParseSlash();
      assert Lookup(sizes, "/") == Some(TotalSize(files));
      assert "/" in sizes && Outside(p, "/");
    }
  }

  /** What "/" collects from a root it is the parent of. */
  lemma SlashTotal(p: PathCfg, t: Node)
    ensures ReportsSlash(p, t) ==>
      var files := Files(t, Root(p), p.path);
      Du(t) == if files == [] then None else Some(TotalSize(files))
  {
    if ReportsSlash(p, t) {
      FilesExtend(t, Root(p), p.path);
      AllUnder(Files(t, Root(p), p.path), Path(true, []));
      TotalAbove(t, Root(p), p.path, Path(true, []));
    }
  }

  lemma OutsideIsSlash(p: PathCfg, pruned: Option<Node>, sizes: map<string, int>, s: string)
    requires IsDuReport(sizes, p, pruned) && s in sizes && Outside(p, s)
    ensures s == "/" && pruned.Some? && ReportsSlash(p, pruned.value) && p.maxDepth >= 0
    ensures Some(sizes[s]) == Du(pruned.value)
  {
    assert Lookup(sizes, s) == Some(sizes[s]);
    assert Parse(s) == Path(true, []);
  }

  /** "/srv/" reports "/" as well as "/srv"; "/srv" does not. */
  lemma TrailingSlashReportsParent(t: Node)
    requires t.Dir?
    ensures DuEntry(PathCfg("/srv/", 0), t, Path(true, [])) == Du(t)
    ensures DuEntry(PathCfg("/srv", 0), t, Path(true, [])) == None
  {
    var srv := "srv";
    var clean := "/" + srv;
    assert "/srv" == clean && "/srv/" == clean + "/";
    SplitJoined("", srv);
    assert "" + "/" + srv == clean;
    SplitOne("");
    SplitOne(srv);
    assert Split(clean) == ["", srv];
    assert ["", srv][1..] == [srv] && [srv][1..] == [];
    assert Resolve(true, [srv], []) == [srv];
    assert Parse(clean) == Path(true, [srv]);
    TrailingSep(clean);
    assert Render(Path(true, [srv])) == clean;
  }

  /** A relative root written "x/" never gets out of the ancestor loop. */
  lemma RelativeTrailingSlashSticks(file: string)
    requires EntryName(file)
    ensures !Ends(PathCfg("x/", 0), Path(false, ["x", file]))
    ensures Ends(PathCfg("x", 0), Path(false, ["x", file]))
  {
    var x := "x";
    DirOfName(x);
    TrailingSep(x);
    assert "x/" == x + "/";
    assert Render(Path(false, [x])) == x;
    AncestorLoopEndsIff(PathCfg("x/", 0), Path(false, [x, file]));
    AncestorLoopEndsIff(PathCfg("x", 0), Path(false, [x, file]));
  }

  // ---------- walkPath and Scan ----------

  ghost predicate OneEach(out: seq<Sample>) {
    forall i, j :: 0 <= i < j < |out| ==> out[i].key != out[j].key
  }

  ghost predicate ListsKey(out: seq<Sample>, dir: string) {
    exists i :: 0 <= i < |out| && out[i].key == dir
  }

  /** One sample per entry of `sizes`, in some order. */
  ghost predicate Lists(out: seq<Sample>, sizes: map<string, int>, now: int) {
    && OneEach(out)
    && (forall s :: s in out ==>
          s.key in sizes && s.bytes == sizes[s.key] && s.title == s.key && s.kind == "host_path" && s.extra == "" && s.takenAt == now)
    && (forall dir :: dir in sizes ==> ListsKey(out, dir))
  }

  method ListSizes(sizes: map<string, int>, now: int) returns (out: seq<Sample>)
    ensures Lists(out, sizes, now)
  {
    out := [];
    ghost var done: map<string, int> := map[];
    var todo := sizes.Keys;
    while todo != {}
      invariant todo <= sizes.Keys && done.Keys == sizes.Keys - todo
      invariant forall dir :: dir in done ==> done[dir] == sizes[dir]
      invariant Lists(out, done, now)
      decreases todo
    {
      var dir :| dir in todo;
      ListsOneMore(out, done, dir, sizes[dir], now);
      out := out + [Sample("host_path", dir, dir, sizes[dir], "", now)];
      done := done[dir := sizes[dir]];
      todo := todo - {dir};
    }
    assert done == sizes;
  }

  lemma ListsOneMore(out: seq<Sample>, done: map<string, int>, dir: string, bytes: int, now: int)
    requires Lists(out, done, now) && dir !in done
    ensures Lists(out + [Sample("host_path", dir, dir, bytes, "", now)], done[dir := bytes], now)
  {
    var more := out + [Sample("host_path", dir, dir, bytes, "", now)];
    forall i, j | 0 <= i < j < |more| ensures more[i].key != more[j].key {
      assert out[i] in out;
    }
    assert more[|out|].key == dir;
    forall d | d in done ensures ListsKey(more, d) {
      var i :| 0 <= i < |out| && out[i].key == d;
      assert more[i].key == d;
    }
  }

  /** `out` is the disk-usage report of one path: a sample for exactly the clean
      directory strings with a report entry, each with that many bytes. */
  ghost predicate ListsReport(out: seq<Sample>, p: PathCfg, root: Option<Node>, ignored: string -> bool, now: int) {
    && OneEach(out)
    && (forall s :: s in out ==>
          && s.kind == "host_path" && s.title == s.key && s.extra == "" && s.takenAt == now
          && HasEntry(p, PruneRoot(root, ignored), s.key, s.bytes))
    && (forall dir, bytes :: HasEntry(p, PruneRoot(root, ignored), dir, bytes) ==> ListsKey(out, dir))
  }

  /** The recursive disk-usage report says `bytes` for the directory string `dir`. */
  ghost predicate HasEntry(p: PathCfg, pruned: Option<Node>, dir: string, bytes: int) {
    dir == Clean(dir) && pruned.Some? && DuEntry(p, pruned.value, Parse(dir)) == Some(bytes)
  }

  lemma ReportListed(out: seq<Sample>, sizes: map<string, int>, p: PathCfg, root: Option<Node>, ignored: string -> bool, now: int)
    requires Lists(out, sizes, now) && IsDuReport(sizes, p, PruneRoot(root, ignored))
    ensures ListsReport(out, p, root, ignored, now)
  {
    var pruned := PruneRoot(root, ignored);
    forall s | s in out ensures HasEntry(p, pruned, s.key, s.bytes) {
      assert Lookup(sizes, s.key) == Some(s.bytes);
    }
    forall dir, bytes | HasEntry(p, pruned, dir, bytes) ensures ListsKey(out, dir) {
      assert Lookup(sizes, dir) == Some(bytes);
    }
  }

  method WalkPath(p: PathCfg, root: Option<Node>, ignored: string -> bool, now: int, bigs: BigFilesHeap)
    returns (out: seq<Sample>)
    requires bigs.Valid() && Walkable(p, root, ignored)
    modifies bigs, bigs.data
    ensures bigs.Valid() && (bigs.data == old(bigs.data) || fresh(bigs.data))
    ensures ListsReport(out, p, root, ignored, now)
    ensures bigs.seen == old(bigs.seen) + Map(Surviving(root, p, ignored), ToBigFile)
  {
    var w := new Walk(p, ignored, bigs);
    if root.Some? {
      RootReady(p, root.value, ignored);
      w.Visit(root.value, p.path, Root(p));
    }
    assert w.files == Surviving(root, p, ignored);
    TalliesAreDu(p, root, ignored, w.sizes);
    out := ListSizes(w.sizes, now);
    ReportListed(out, w.sizes, p, root, ignored, now);
  }

  /** Every surviving file of every configured path, in walk order. */
  function AllSurviving(paths: seq<(PathCfg, Option<Node>)>, ignored: string -> bool): seq<FileAt> {
    if paths == [] then []
    else
      var last := paths[|paths| - 1];
      AllSurviving(paths[..|paths| - 1], ignored) + Surviving(last.1, last.0, ignored)
  }

  /** `out` lists the reports of all paths, one after the other. */
  ghost predicate ListsReports(out: seq<Sample>, paths: seq<(PathCfg, Option<Node>)>, ignored: string -> bool, now: int)
    decreases |paths|
  {
    if paths == [] then out == []
    else
      var last := paths[|paths| - 1];
      exists cut: nat :: cut <= |out|
        && ListsReports(out[..cut], paths[..|paths| - 1], ignored, now)
        && ListsReport(out[cut..], last.0, last.1, ignored, now)
  }

  lemma ReportsOneMore(out: seq<Sample>, more: seq<Sample>, paths: seq<(PathCfg, Option<Node>)>, i: nat,
                       ignored: string -> bool, now: int)
    requires i < |paths| && ListsReports(out, paths[..i], ignored, now)
    requires ListsReport(more, paths[i].0, paths[i].1, ignored, now)
    ensures ListsReports(out + more, paths[..i + 1], ignored, now)
  {
    assert paths[..i + 1][..i] == paths[..i];
    assert (out + more)[..|out|] == out && (out + more)[|out|..] == more;
  }

  /** Every sample is a report entry of some path, and every report entry of every
      path has a sample with those bytes. */
  ghost predicate ReportsEach(out: seq<Sample>, paths: seq<(PathCfg, Option<Node>)>, ignored: string -> bool) {
    && (forall s :: s in out ==> s.title == s.key && InSomeReport(paths, ignored, s.key, s.bytes))
    && (forall dir, bytes :: InSomeReport(paths, ignored, dir, bytes) ==> ListsEntry(out, dir, bytes))
  }

  ghost predicate InSomeReport(paths: seq<(PathCfg, Option<Node>)>, ignored: string -> bool, dir: string, bytes: int) {
    exists i :: 0 <= i < |paths| && HasEntry(paths[i].0, PruneRoot(paths[i].1, ignored), dir, bytes)
  }

  ghost predicate ListsEntry(out: seq<Sample>, dir: string, bytes: int) {
    exists s :: s in out && s.key == dir && s.bytes == bytes
  }

  lemma InReportLast(init: seq<(PathCfg, Option<Node>)>, last: (PathCfg, Option<Node>), ignored: string -> bool, dir: string, bytes: int)
    ensures InSomeReport(init + [last], ignored, dir, bytes)
       <==> InSomeReport(init, ignored, dir, bytes) || HasEntry(last.0, PruneRoot(last.1, ignored), dir, bytes)
  {
    var paths := init + [last];
    assert forall i :: 0 <= i < |init| ==> paths[i] == init[i];
    assert paths[|init|] == last;
  }

  lemma EntryListed(out: seq<Sample>, p: PathCfg, root: Option<Node>, ignored: string -> bool, now: int, dir: string, bytes: int)
    requires ListsReport(out, p, root, ignored, now) && HasEntry(p, PruneRoot(root, ignored), dir, bytes)
    ensures ListsEntry(out, dir, bytes)
  {
    var i :| 0 <= i < |out| && out[i].key == dir;
    assert HasEntry(p, PruneRoot(root, ignored), out[i].key, out[i].bytes);
    assert out[i] in out;
  }

  lemma {:induction false} ReportsAreEach(out: seq<Sample>, paths: seq<(PathCfg, Option<Node>)>, ignored: string -> bool, now: int)
    requires ListsReports(out, paths, ignored, now)
    ensures forall s :: s in out ==> s.kind == "host_path" && s.takenAt == now
    ensures ReportsEach(out, paths, ignored)
    decreases |paths|
  {
    if paths != [] {
      var init, last := paths[..|paths| - 1], paths[|paths| - 1];
      var cut: nat :| cut <= |out| && ListsReports(out[..cut], init, ignored, now)
        && ListsReport(out[cut..], last.0, last.1, ignored, now);
      ReportsAreEach(out[..cut], init, ignored, now);
      assert paths == init + [last] && out == out[..cut] + out[cut..];
      ReportsJoin(out[..cut], out[cut..], init, last, ignored, now);
    }
  }

  lemma ReportsJoin(a: seq<Sample>, b: seq<Sample>, init: seq<(PathCfg, Option<Node>)>, last: (PathCfg, Option<Node>),
                    ignored: string -> bool, now: int)
    requires ReportsEach(a, init, ignored) && ListsReport(b, last.0, last.1, ignored, now)
    ensures ReportsEach(a + b, init + [last], ignored)
  {
    forall s | s in a + b ensures s.title == s.key && InSomeReport(init + [last], ignored, s.key, s.bytes) {
      InReportLast(init, last, ignored, s.key, s.bytes);
    }
    forall dir, bytes | InSomeReport(init + [last], ignored, dir, bytes) ensures ListsEntry(a + b, dir, bytes) {
      InReportLast(init, last, ignored, dir, bytes);
      if InSomeReport(init, ignored, dir, bytes) {
        var s :| s in a && s.key == dir && s.bytes == bytes;
        assert s in a + b;
      } else {
        EntryListed(b, last.0, last.1, ignored, now, dir, bytes);
        var s :| s in b && s.key == dir && s.bytes == bytes;
        assert s in a + b;
      }
    }
  }

  /** What the loop of `Scan` has done after some paths: their reports are listed
      and the collector has seen their surviving files. */
  ghost predicate Scanned(out: seq<Sample>, seen: seq<BigFile>, paths: seq<(PathCfg, Option<Node>)>,
                          ignored: string -> bool, now: int) {
    && ListsReports(out, paths, ignored, now)
    && seen == Map(AllSurviving(paths, ignored), ToBigFile)
  }

  lemma ScannedOneMore(out: seq<Sample>, more: seq<Sample>, seen: seq<BigFile>, paths: seq<(PathCfg, Option<Node>)>, i: nat,
                       ignored: string -> bool, now: int)
    requires i < |paths| && Scanned(out, seen, paths[..i], ignored, now)
    requires ListsReport(more, paths[i].0, paths[i].1, ignored, now)
    ensures Scanned(out + more, seen + Map(Surviving(paths[i].1, paths[i].0, ignored), ToBigFile), paths[..i + 1], ignored, now)
  {
    assert paths[..i + 1][..i] == paths[..i];
    MapAppend(AllSurviving(paths[..i], ignored), Surviving(paths[i].1, paths[i].0, ignored), ToBigFile);
    ReportsOneMore(out, more, paths, i, ignored, now);
  }

  function FileSize(f: FileAt): int { f.size }

  /** The loop of `Scan` over the configured paths, feeding one collector. */
  method ScanPaths(paths: seq<(PathCfg, Option<Node>)>, ignored: string -> bool, now: int, bigs: BigFilesHeap)
    returns (out: seq<Sample>)
    requires bigs.Valid() && bigs.seen == []
    requires forall i :: 0 <= i < |paths| ==> Walkable(paths[i].0, paths[i].1, ignored)
    modifies bigs, bigs.data
    ensures bigs.Valid() && bigs.seen == Map(AllSurviving(paths, ignored), ToBigFile)
    ensures forall s :: s in out ==> s.kind == "host_path" && s.takenAt == now
    ensures ListsReports(out, paths, ignored, now)
    ensures ReportsEach(out, paths, ignored)
  {
    out := [];
    var i := 0;
    while i < |paths|
      invariant 0 <= i <= |paths|
      invariant bigs.Valid() && (bigs.data == old(bigs.data) || fresh(bigs.data))
      invariant Scanned(out, bigs.seen, paths[..i], ignored, now)
    {
      ghost var seen := bigs.seen;
      var listed := WalkPath(paths[i].0, paths[i].1, ignored, now, bigs);
      ScannedOneMore(out, listed, seen, paths, i, ignored, now);
      out := out + listed;
      i := i + 1;
    }
    assert paths[..i] == paths;
    ReportsAreEach(out, paths, ignored, now);
  }

  /** `HostScanner.Scan`; `mounts` are the samples `statFS` produced. */
  method Scan(paths: seq<(PathCfg, Option<Node>)>, mounts: seq<Sample>, ignored: string -> bool, now: int)
    returns (out: seq<Sample>)
    requires forall i :: 0 <= i < |paths| ==> Walkable(paths[i].0, paths[i].1, ignored)
    requires forall s :: s in mounts ==> s.kind == "fs" && s.takenAt == now
    ensures forall s :: s in out ==> s.takenAt == now
    ensures ListsReports(OfKind(out, "host_path"), paths, ignored, now)
    ensures ReportsEach(OfKind(out, "host_path"), paths, ignored)
    ensures OfKind(out, "fs") == mounts
    ensures Map(OfKind(out, "big_file"), BytesOf) == Largest(Map(AllSurviving(paths, ignored), FileSize), 20)
    ensures TopFilesOf(OfKind(out, "big_file"), Map(AllSurviving(paths, ignored), ToBigFile), 20)
    ensures forall s :: s in OfKind(out, "big_file") ==> IsSurvivor(s, AllSurviving(paths, ignored))
  {
    var bigs := new BigFilesHeap(BIG_FILES_TOP);
    var dirs := ScanPaths(paths, ignored, now, bigs);
    var bigSamples := ListBigFiles(bigs, now);
    out := dirs + mounts + bigSamples;
    ScanKinds(dirs, mounts, bigSamples);
    ghost var files := AllSurviving(paths, ignored);
    assert Sizes(Map(files, ToBigFile)) == Map(files, FileSize);
    TopFilesSurvive(bigSamples, files);
  }

  /** The sample names a surviving file, by the path string the walk gave it. */
  ghost predicate IsSurvivor(s: Sample, files: seq<FileAt>) {
    exists f :: f in files && s.key == f.text && s.title == f.text && s.bytes == f.size
  }

  lemma TopFilesSurvive(out: seq<Sample>, files: seq<FileAt>)
    requires TopFilesOf(out, Map(files, ToBigFile), 20)
    ensures forall s :: s in out ==> IsSurvivor(s, files)
  {
    forall s | s in out ensures IsSurvivor(s, files) {
      var f :| f in Map(files, ToBigFile) && Names(s, f);
      var i :| 0 <= i < |files| && Map(files, ToBigFile)[i] == f;
      assert files[i] in files;
    }
  }

  ghost predicate Names(s: Sample, f: BigFile) {
    s.key == f.path && s.title == f.path && s.bytes == f.size
  }

  /** `out` names `n` of the files, or all if there are fewer, in descending order of
      bytes, and whatever is larger than a named one is named. */
  ghost predicate TopFilesOf(out: seq<Sample>, files: seq<BigFile>, n: nat) {
    && |out| == (if |files| < n then |files| else n)
    && (forall i, j :: 0 <= i < j < |out| ==> out[i].bytes >= out[j].bytes)
    && (forall s :: s in out ==> exists f :: f in files && Names(s, f))
    && (forall s, f :: s in out && f in files && f.size > s.bytes ==> exists t :: t in out && Names(t, f))
  }

  /** The "big_file" samples of `Scan`. */
  method ListBigFiles(bigs: BigFilesHeap, now: int) returns (out: seq<Sample>)
    requires bigs.Valid() && bigs.cap >= 0
    ensures forall s :: s in out ==> s.kind == "big_file" && s.takenAt == now
    ensures Map(out, BytesOf) == Largest(Sizes(bigs.seen), bigs.cap)
    ensures TopFilesOf(out, bigs.seen, bigs.cap)
  {
    var sorted := bigs.Sorted();
    out := BigFileSamples(sorted[..], now);
    assert Map(out, BytesOf) == Sizes(sorted[..]);
    RetainsPermuted(bigs.Held(), sorted[..], bigs.dropped, bigs.seen, bigs.cap);
    TopFilesListed(sorted[..], bigs.dropped, bigs.seen, bigs.cap, now);
  }

  function BigFileSamples(files: seq<BigFile>, now: int): (r: seq<Sample>)
    ensures |r| == |files|
    ensures forall i :: 0 <= i < |r| ==> Names(r[i], files[i]) && r[i].kind == "big_file" && r[i].takenAt == now
  {
    seq(|files|, i requires 0 <= i < |files| =>
      Sample("big_file", files[i].path, files[i].path, files[i].size, "", now))
  }

  lemma TopFilesListed(sorted: seq<BigFile>, dropped: seq<BigFile>, seen: seq<BigFile>, cap: int, now: int)
    requires Retains(sorted, dropped, seen, cap) && DescendingBy(sorted, SizeKey) && cap >= 0
    ensures TopFilesOf(BigFileSamples(sorted, now), seen, cap)
  {
    var out := BigFileSamples(sorted, now);
    forall i, j | 0 <= i < j < |out| ensures out[i].bytes >= out[j].bytes {
      assert SizeKey(sorted[i]) >= SizeKey(sorted[j]);
    }
    forall s | s in out ensures exists f :: f in seen && Names(s, f) {
      var i :| 0 <= i < |out| && out[i] == s;
      SplitMember(sorted, dropped, seen, sorted[i]);
    }
    forall s, f | s in out && f in seen && f.size > s.bytes ensures exists t :: t in out && Names(t, f) {
      var i :| 0 <= i < |out| && out[i] == s;
      SplitMember(sorted, dropped, seen, f);
      assert sorted[i] in sorted;
      var k :| 0 <= k < |sorted| && sorted[k] == f;
      assert out[k] in out;
    }
  }

  lemma SplitMember(a: seq<BigFile>, b: seq<BigFile>, all: seq<BigFile>, f: BigFile)
    requires multiset(a) + multiset(b) == multiset(all)
    ensures f in all <==> f in a || f in b
  {
    assert f in multiset(all) <==> f in multiset(a) + multiset(b);
  }

  lemma ScanKinds(dirs: seq<Sample>, mounts: seq<Sample>, bigSamples: seq<Sample>)
    requires forall s :: s in dirs ==> s.kind == "host_path"
    requires forall s :: s in mounts ==> s.kind == "fs"
    requires forall s :: s in bigSamples ==> s.kind == "big_file"
    ensures OfKind(dirs + mounts + bigSamples, "host_path") == dirs
    ensures OfKind(dirs + mounts + bigSamples, "fs") == mounts
    ensures OfKind(dirs + mounts + bigSamples, "big_file") == bigSamples
  {
    DifferentKinds();
    ScanKind(dirs, mounts, bigSamples, "host_path");
    OfKindAll(dirs, "host_path");
    OfKindNone(mounts, "fs", "host_path");
    OfKindNone(bigSamples, "big_file", "host_path");
    ScanKind(dirs, mounts, bigSamples, "fs");
    OfKindNone(dirs, "host_path", "fs");
    OfKindAll(mounts, "fs");
    OfKindNone(bigSamples, "big_file", "fs");
    ScanKind(dirs, mounts, bigSamples, "big_file");
    OfKindNone(dirs, "host_path", "big_file");
    OfKindNone(mounts, "fs", "big_file");
    OfKindAll(bigSamples, "big_file");
  }

  lemma DifferentKinds()
    ensures "host_path" != "fs" && "fs" != "big_file" && "host_path" != "big_file"
  {
    assert |"host_path"| == 9 && |"fs"| == 2 && |"big_file"| == 8;
  }

  lemma ScanKind(a: seq<Sample>, b: seq<Sample>, c: seq<Sample>, kind: string)
    ensures OfKind(a + b + c, kind) == OfKind(a, kind) + OfKind(b, kind) + OfKind(c, kind)
  {
    OfKindAppend(a + b, c, kind);
    OfKindAppend(a, b, kind);
  }
}
