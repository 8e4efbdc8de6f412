/** Which directories a file's size is added to: the ancestor loop of `walkPath`
    over path strings, when it ends, and what it adds up to. */
module Attribution {
  import opened Seqs
  import opened Paths
  import opened FileTree

  datatype PathCfg = PathCfg(path: string, maxDepth: int)

  function Root(p: PathCfg): Path { Parse(p.path) }

  /** The depth cap, as the code computes it: 0 means no cap. */
  predicate InCap(p: PathCfg, d: Path) {
    p.maxDepth == 0 || Depth(d) - Depth(Root(p)) <= p.maxDepth
  }

  /** In components: the cap limits how many levels a directory lies below the root,
      where "/" counts as one level like its entries. */
  lemma CapCountsLevels(p: PathCfg, d: Path)
    requires d.rooted == Root(p).rooted && Root(p).comps <= d.comps
    ensures var below := |d.comps| - if Root(p).comps == [] && d.comps != [] then 1 else |Root(p).comps|;
      InCap(p, d) <==> p.maxDepth == 0 || below <= p.maxDepth
  {
  }

  /** What the loop can tell about the configured root: whether it is absolute,
      how many components it has, and whether it is written cleanly. */
  datatype Shape = Shape(rooted: bool, levels: nat, clean: bool)

  function ShapeOf(p: PathCfg): Shape {
    Shape(Root(p).rooted, |Root(p).comps|, p.path == Clean(p.path))
  }

  /** A file at or below the configured root. */
  ghost predicate Below(p: PathCfg, f: Path) {
    Normal(f) && f.comps != [] && f.rooted == Root(p).rooted && Root(p).comps <= f.comps
  }

  // ---------- The levels the loop visits for a file with `n` components ----------

  /** Separators cannot tell "/" from "/a", so a rooted one-component root that
      is not written cleanly (or is itself a file) also charges "/". */
  predicate ChargesSlash(sh: Shape, n: nat) {
    sh.rooted && sh.levels == 1 && (!sh.clean || n == 1)
  }

  /** The shallowest level the loop charges. */
  function Lowest(sh: Shape, n: nat): nat {
    if ChargesSlash(sh, n) then 0 else sh.levels
  }

  /** When the loop ends. */
  predicate LoopEnds(sh: Shape, n: nat) {
    sh.rooted || 2 <= sh.levels || (sh.clean && sh.levels < n)
  }

  /** The level of the next iteration, or `None` where the loop breaks. */
  function NextLevel(sh: Shape, k: nat): Option<nat> {
    if LevelDepth(sh.rooted, k) < LevelDepth(sh.rooted, sh.levels) then None
    else if (sh.clean && k == sh.levels) || (sh.rooted && k == 0) then None
    else Some(if k == 0 then 0 else k - 1)
  }

  /** The levels the loop can be at when it ends. */
  predicate OnTheWayUp(sh: Shape, n: nat, k: nat) {
    && sh.levels <= n && sh.levels <= k + 1 && k < n && Lowest(sh, n) <= k + 1
    && (k < sh.levels ==>
          || (k < Lowest(sh, n) && LevelDepth(sh.rooted, k) < LevelDepth(sh.rooted, sh.levels))
          || (sh.rooted && k == 0 == Lowest(sh, n)))
  }

  lemma StartsOnTheWayUp(sh: Shape, n: nat)
    requires LoopEnds(sh, n) && sh.levels <= n && 0 < n
    ensures OnTheWayUp(sh, n, n - 1)
  {
  }

  /** One iteration either breaks just above the lowest charged level or climbs. */
  lemma Climb(sh: Shape, n: nat, k: nat)
    requires LoopEnds(sh, n) && OnTheWayUp(sh, n, k)
    ensures LevelDepth(sh.rooted, k) < LevelDepth(sh.rooted, sh.levels) <==> k < Lowest(sh, n)
    ensures match NextLevel(sh, k)
            case None => k <= Lowest(sh, n)
            case Some(j) => k > 0 && j == k - 1 && OnTheWayUp(sh, n, j)
  {
  }

  // ---------- The loop's control flow over path strings ----------

  /** The `dir` of the next iteration, or `None` where the loop breaks. */
  function NextDir(p: PathCfg, dir: string): Option<string> {
    if SepCount(dir) - SepCount(Clean(p.path)) < 0 then None
    else if dir == p.path || dir == "/" then None
    else Some(DirOf(dir))
  }

  /** The ancestor of `f` with `k` components. */
  function Ancestor(f: Path, k: nat): Path
    requires k <= |f.comps|
  {
    f.(comps := f.comps[..k])
  }

  function AncestorDir(f: Path, k: nat): string
    requires k <= |f.comps|
  {
    Render(Ancestor(f, k))
  }

  lemma AncestorNormal(f: Path, k: nat)
    requires Normal(f) && k <= |f.comps|
    ensures Normal(Ancestor(f, k)) && Parse(AncestorDir(f, k)) == Ancestor(f, k)
  {
    ParseRender(Ancestor(f, k));
  }

  lemma RootNormal(p: PathCfg)
    ensures Normal(Root(p))
    ensures SepCount(Clean(p.path)) == Depth(Root(p))
  {
    ParseNormal(p.path);
    DepthIsSepCount(Root(p));
  }

  lemma RenderSlash(d: Path)
    requires Normal(d)
    ensures Render(d) == "/" <==> d == Path(true, [])
  {
    assert Render(Path(true, [])) == "/";
    if Render(d) == "/" {
      RenderInjective(d, Path(true, []));
    }
  }

  /** Comparing `dir` with the configured string succeeds exactly at a clean root. */
  lemma RenderRoot(p: PathCfg, d: Path)
    requires Normal(d)
    ensures Render(d) == p.path <==> p.path == Clean(p.path) && d == Root(p)
  {
    RootNormal(p);
    ParseRender(d);
  }

  lemma DirOfAncestor(f: Path, k: nat)
    requires Normal(f) && k <= |f.comps|
    ensures DirOf(AncestorDir(f, k)) == AncestorDir(f, if k == 0 then 0 else k - 1)
  {
    AncestorNormal(f, k);
    DirIsParent(Ancestor(f, k));
    assert k > 0 ==> f.comps[..k][..k - 1] == f.comps[..k - 1];
  }

  /** The string comparisons of one iteration, in terms of levels. */
  lemma IterationAt(p: PathCfg, f: Path, k: nat, dir: string)
    requires Below(p, f) && |Root(p).comps| <= k + 1 && k < |f.comps| && dir == AncestorDir(f, k)
    ensures var sh := ShapeOf(p);
      && SepCount(dir) - SepCount(Clean(p.path)) == LevelDepth(sh.rooted, k) - LevelDepth(sh.rooted, sh.levels)
      && (dir == p.path <==> sh.clean && k == sh.levels)
      && (dir == "/" <==> sh.rooted && k == 0)
      && DirOf(dir) == AncestorDir(f, if k == 0 then 0 else k - 1)
      && (InCap(p, Ancestor(f, k)) <==> p.maxDepth == 0 || SepCount(dir) - SepCount(Clean(p.path)) <= p.maxDepth)
  {
    var d := Ancestor(f, k);
    AncestorNormal(f, k);
    RootNormal(p);
    DepthIsSepCount(d);
    RenderSlash(d);
    RenderRoot(p, d);
    DirOfAncestor(f, k);
    assert d == Root(p) <==> k == |Root(p).comps|;
  }

  lemma NextDirAt(p: PathCfg, f: Path, k: nat)
    requires Below(p, f) && |Root(p).comps| <= k + 1 && k < |f.comps|
    ensures NextDir(p, AncestorDir(f, k))
         == match NextLevel(ShapeOf(p), k) case None => None case Some(j) => Some(AncestorDir(f, if k == 0 then 0 else k - 1))
  {
    IterationAt(p, f, k, AncestorDir(f, k));
  }

  // ---------- When the loop ends ----------

  /** A loop driven by `step` from `dir` breaks within `n` iterations. */
  predicate BreaksWithin(step: string -> Option<string>, dir: string, n: nat)
    decreases n
  {
    n > 0 && match step(dir)
             case None => true
             case Some(up) => BreaksWithin(step, up, n - 1)
  }

  /** From `dirs[j]` the loop breaks or moves to the entry before it. */
  predicate BreaksOrClimbs(step: string -> Option<string>, dirs: seq<string>, j: nat)
    requires j < |dirs|
  {
    step(dirs[j]).None? || (j > 0 && step(dirs[j]) == Some(dirs[j - 1]))
  }

  /** A loop that climbs a list of directories from `k` until it breaks no
      further up than `low`. */
  lemma {:induction false} ClimbingBreaks(step: string -> Option<string>, dirs: seq<string>, low: nat, k: nat)
    requires low <= k < |dirs|
    requires forall j: nat :: low <= j <= k ==> BreaksOrClimbs(step, dirs, j)
    requires step(dirs[low]).None?
    ensures BreaksWithin(step, dirs[k], k - low + 1)
    decreases k
  {
    assert BreaksOrClimbs(step, dirs, k);
    if k > low && step(dirs[k]).Some? {
      ClimbingBreaks(step, dirs, low, k - 1);
    }
  }

  /** A loop that never leaves a list of directories none of which breaks. */
  lemma {:induction false} StuckNeverBreaks(step: string -> Option<string>, dirs: seq<string>, k: nat, n: nat)
    requires k < |dirs|
    requires forall j :: 0 <= j < |dirs| ==> step(dirs[j]) == Some(dirs[if j == 0 then 0 else j - 1])
    ensures !BreaksWithin(step, dirs[k], n)
    decreases n
  {
    if n > 0 {
      StuckNeverBreaks(step, dirs, if k == 0 then 0 else k - 1, n - 1);
    }
  }

  function Loop(p: PathCfg): string -> Option<string> {
    dir => NextDir(p, dir)
  }

  /** The ancestor loop started for `f` breaks after finitely many iterations. */
  ghost predicate Ends(p: PathCfg, f: Path) {
    exists n: nat :: BreaksWithin(Loop(p), Render(Parent(f)), n)
  }

  /** The directory strings of all of `f`'s proper ancestors, by level. */
  function AncestorDirs(f: Path): (dirs: seq<string>)
    ensures |dirs| == |f.comps|
    ensures forall i :: 0 <= i < |dirs| ==> dirs[i] == AncestorDir(f, i)
  {
    seq(|f.comps|, i requires 0 <= i < |f.comps| => AncestorDir(f, i))
  }

  /** The last level the loop visits. */
  lemma {:induction false} LastLevel(sh: Shape, n: nat, k: nat) returns (low: nat)
    requires LoopEnds(sh, n) && OnTheWayUp(sh, n, k)
    ensures low <= k && NextLevel(sh, low).None?
    ensures forall j: nat :: low <= j <= k ==> OnTheWayUp(sh, n, j)
    decreases k
  {
    Climb(sh, n, k);
    if NextLevel(sh, k).None? {
      low := k;
    } else {
      low := LastLevel(sh, n, k - 1);
    }
  }

  lemma ClimbsAt(p: PathCfg, f: Path, j: nat)
    requires Below(p, f) && LoopEnds(ShapeOf(p), |f.comps|) && OnTheWayUp(ShapeOf(p), |f.comps|, j)
    ensures BreaksOrClimbs(Loop(p), AncestorDirs(f), j)
    ensures NextLevel(ShapeOf(p), j).None? ==> Loop(p)(AncestorDirs(f)[j]).None?
  {
    NextDirAt(p, f, j);
    Climb(ShapeOf(p), |f.comps|, j);
  }

  lemma EndsWhenItShould(p: PathCfg, f: Path)
    requires Below(p, f) && LoopEnds(ShapeOf(p), |f.comps|)
    ensures Ends(p, f)
  {
    var sh, n := ShapeOf(p), |f.comps|;
    var k: nat := n - 1;
    StartsOnTheWayUp(sh, n);
    var low := LastLevel(sh, n, k);
    assert Parent(f) == Ancestor(f, k);
    forall j: nat | low <= j <= k ensures BreaksOrClimbs(Loop(p), AncestorDirs(f), j) {
      ClimbsAt(p, f, j);
    }
    ClimbsAt(p, f, low);
    ClimbingBreaks(Loop(p), AncestorDirs(f), low, k);
  }

  /** Where `LoopEnds` fails, the loop sticks at ".". */
  lemma SticksOtherwise(p: PathCfg, f: Path, n: nat)
    requires Below(p, f) && !LoopEnds(ShapeOf(p), |f.comps|)
    ensures !BreaksWithin(Loop(p), Render(Parent(f)), n)
  {
    var k: nat := |f.comps| - 1;
    var dirs := AncestorDirs(f);
    assert Parent(f) == Ancestor(f, k);
    forall j | 0 <= j < |dirs| ensures Loop(p)(dirs[j]) == Some(dirs[if j == 0 then 0 else j - 1]) {
      NextDirAt(p, f, j);
    }
    StuckNeverBreaks(Loop(p), dirs, k, n);
  }

  /** The loop ends if and only if the root is absolute, has two components, or
      is a cleanly written directory. */
  lemma AncestorLoopEndsIff(p: PathCfg, f: Path)
    requires Below(p, f)
    ensures Ends(p, f) <==> LoopEnds(ShapeOf(p), |f.comps|)
  {
    if LoopEnds(ShapeOf(p), |f.comps|) {
      EndsWhenItShould(p, f);
    } else if Ends(p, f) {
      var n: nat :| BreaksWithin(Loop(p), Render(Parent(f)), n);
      SticksOtherwise(p, f, n);
    }
  }

  // ---------- What the loop adds to the `sizes` map ----------

  predicate Charges(p: PathCfg, f: Path, d: Path) {
    Under(d, f) && Lowest(ShapeOf(p), |f.comps|) <= |d.comps| && InCap(p, d)
  }

  function Lookup(sizes: map<string, int>, s: string): Option<int> {
    if s in sizes then Some(sizes[s]) else None
  }

  /** `s` names an ancestor of `f` within the cap that is deeper than `k` levels. */
  predicate ChargedBeyond(p: PathCfg, f: Path, s: string, k: int) {
    s == Clean(s) && Under(Parse(s), f) && InCap(p, Parse(s)) && k < |Parse(s).comps|
  }

  ghost predicate Added(was: map<string, int>, now: map<string, int>, p: PathCfg, f: Path, size: int, k: int) {
    forall s: string :: Lookup(now, s) == Plus(Lookup(was, s), if ChargedBeyond(p, f, s, k) then Some(size) else None)
  }

  /** `sizes` after one directory was charged, if it lies within the cap. */
  function Charged(sizes: map<string, int>, p: PathCfg, d: Path, size: int): map<string, int> {
    if InCap(p, d) then sizes[Render(d) := (if Render(d) in sizes then sizes[Render(d)] else 0) + size] else sizes
  }

  /** `sizes` after the levels of `f` from its own directory up to `k` were charged. */
  function ChargedUpTo(sizes: map<string, int>, p: PathCfg, f: Path, size: int, k: nat): map<string, int>
    requires k <= |f.comps|
    decreases |f.comps| - k
  {
    if k == |f.comps| then sizes
    else Charged(ChargedUpTo(sizes, p, f, size, k + 1), p, Ancestor(f, k), size)
  }

  /** The loop body's update of `sizes[dir]` charges one more level. */
  lemma ChargeStep(sizes: map<string, int>, p: PathCfg, f: Path, size: int, k: nat,
                   now: map<string, int>, dir: string, within: bool, next: map<string, int>)
    requires k < |f.comps| && now == ChargedUpTo(sizes, p, f, size, k + 1)
    requires dir == AncestorDir(f, k) && within == InCap(p, Ancestor(f, k))
    requires next == if within then now[dir := (if dir in now then now[dir] else 0) + size] else now
    ensures next == ChargedUpTo(sizes, p, f, size, k)
  {
  }

  /** One level more: its own directory string joins the charged ones. */
  lemma OneLevelMore(p: PathCfg, f: Path, k: nat, s: string)
    requires Below(p, f) && k < |f.comps|
    ensures ChargedBeyond(p, f, s, k - 1)
       <==> ChargedBeyond(p, f, s, k) || (s == AncestorDir(f, k) && InCap(p, Ancestor(f, k)))
    ensures s == AncestorDir(f, k) ==> !ChargedBeyond(p, f, s, k)
  {
    AncestorNormal(f, k);
    if s == Clean(s) && Under(Parse(s), f) && |Parse(s).comps| == k {
      assert Parse(s) == Ancestor(f, k);
    }
  }

  lemma AddedAt(was: map<string, int>, now: map<string, int>, p: PathCfg, f: Path, size: int, k: nat, s: string)
    requires Below(p, f) && k < |f.comps|
    requires Lookup(now, s) == Plus(Lookup(was, s), if ChargedBeyond(p, f, s, k) then Some(size) else None)
    ensures Lookup(Charged(now, p, Ancestor(f, k), size), s)
         == Plus(Lookup(was, s), if ChargedBeyond(p, f, s, k - 1) then Some(size) else None)
  {
    OneLevelMore(p, f, k, s);
  }

  lemma AddedOne(was: map<string, int>, now: map<string, int>, p: PathCfg, f: Path, size: int, k: nat)
    requires Below(p, f) && k < |f.comps| && Added(was, now, p, f, size, k)
    ensures Added(was, Charged(now, p, Ancestor(f, k), size), p, f, size, k - 1)
  {
    forall s: string
      ensures Lookup(Charged(now, p, Ancestor(f, k), size), s)
           == Plus(Lookup(was, s), if ChargedBeyond(p, f, s, k - 1) then Some(size) else None)
    {
      AddedAt(was, now, p, f, size, k, s);
    }
  }

  /** What the loop adds, key by key. */
  lemma {:induction false} ChargedIsAdded(sizes: map<string, int>, p: PathCfg, f: Path, size: int, k: nat)
    requires Below(p, f) && k <= |f.comps|
    ensures Added(sizes, ChargedUpTo(sizes, p, f, size, k), p, f, size, k - 1)
    decreases |f.comps| - k
  {
    if k < |f.comps| {
      ChargedIsAdded(sizes, p, f, size, k + 1);
      AddedOne(sizes, ChargedUpTo(sizes, p, f, size, k + 1), p, f, size, k);
    }
  }

  /** One iteration, in the terms the loop needs. */
  lemma IterationClimbs(p: PathCfg, sh: Shape, f: Path, k: nat, dir: string, depth: int)
    requires Below(p, f) && sh == ShapeOf(p) && LoopEnds(sh, |f.comps|) && OnTheWayUp(sh, |f.comps|, k)
    requires dir == AncestorDir(f, k) && depth == SepCount(dir) - SepCount(Clean(p.path))
    ensures if depth < 0 then k == Lowest(sh, |f.comps|) - 1 else k >= Lowest(sh, |f.comps|)
    ensures InCap(p, Ancestor(f, k)) <==> p.maxDepth == 0 || depth <= p.maxDepth
    ensures depth >= 0 ==> if dir == p.path || dir == "/" then k == Lowest(sh, |f.comps|)
      else k > 0 && OnTheWayUp(sh, |f.comps|, k - 1) && DirOf(dir) == AncestorDir(f, k - 1)
  {
    IterationAt(p, f, k, dir);
    Climb(sh, |f.comps|, k);
  }

  /** The loop's state: about to charge `next` at level `k`, or done. */
  ghost predicate Charging(p: PathCfg, sh: Shape, f: Path, size: int, sizes0: map<string, int>,
                           sizes: map<string, int>, next: Option<string>, k: nat) {
    && Below(p, f) && sh == ShapeOf(p) && LoopEnds(sh, |f.comps|) && sh.levels <= |f.comps|
    && match next
       case None => sizes == ChargedUpTo(sizes0, p, f, size, Lowest(sh, |f.comps|))
       case Some(dir) =>
         && OnTheWayUp(sh, |f.comps|, k) && dir == AncestorDir(f, k)
         && sizes == ChargedUpTo(sizes0, p, f, size, k + 1)
  }

  /** The first way out of the loop: `dir` lies above the root. */
  lemma BreaksAboveTheRoot(p: PathCfg, sh: Shape, f: Path, size: int, sizes0: map<string, int>,
                           sizes: map<string, int>, dir: string, k: nat, depth: int)
    requires Charging(p, sh, f, size, sizes0, sizes, Some(dir), k)
    requires depth == SepCount(dir) - SepCount(Clean(p.path)) && depth < 0
    ensures Charging(p, sh, f, size, sizes0, sizes, None, 0)
  {
    IterationClimbs(p, sh, f, k, dir, depth);
    assert k + 1 == Lowest(sh, |f.comps|);
  }

  /** Otherwise the level of `dir` is charged, and the loop breaks or climbs. */
  lemma ChargedThenClimbs(p: PathCfg, sh: Shape, f: Path, size: int, sizes0: map<string, int>,
                          sizes: map<string, int>, dir: string, k: nat, depth: int,
                          out: map<string, int>, next: Option<string>, up: nat)
    requires Charging(p, sh, f, size, sizes0, sizes, Some(dir), k)
    requires depth == SepCount(dir) - SepCount(Clean(p.path)) && depth >= 0
    requires out == if p.maxDepth == 0 || depth <= p.maxDepth
                    then sizes[dir := (if dir in sizes then sizes[dir] else 0) + size] else sizes
    requires next == if dir == p.path || dir == "/" then None else Some(DirOf(dir))
    requires up == if k == 0 then 0 else k - 1
    ensures Charging(p, sh, f, size, sizes0, out, next, up) && (next.Some? ==> up < k)
  {
    IterationClimbs(p, sh, f, k, dir, depth);
    ChargeStep(sizes0, p, f, size, k, sizes, dir, p.maxDepth == 0 || depth <= p.maxDepth, out);
  }

  /** One iteration of the ancestor loop: the updated map, and the next directory
      unless the loop breaks. */
  method ChargeLevel(p: PathCfg, rootDepth: int, dir: string, sizes: map<string, int>, size: int,
                     ghost sizes0: map<string, int>, ghost f: Path, ghost sh: Shape, ghost k: nat)
    returns (out: map<string, int>, next: Option<string>, ghost up: nat)
    requires Charging(p, sh, f, size, sizes0, sizes, Some(dir), k) && rootDepth == SepCount(Clean(p.path))
    ensures Charging(p, sh, f, size, sizes0, out, next, up) && (next.Some? ==> up < k)
  {
    var depth := SepCount(dir) - rootDepth;
    if depth < 0 {
      BreaksAboveTheRoot(p, sh, f, size, sizes0, sizes, dir, k, depth);
      return sizes, None, 0;
    }
    out := sizes;
    if p.maxDepth == 0 || depth <= p.maxDepth {
      out := sizes[dir := (if dir in sizes then sizes[dir] else 0) + size];
    }
    next, up := None, if k == 0 then 0 else k - 1;
    if dir != p.path && dir != "/" {
      next := Some(DirOf(dir));
    }
    ChargedThenClimbs(p, sh, f, size, sizes0, sizes, dir, k, depth, out, next, up);
  }

  lemma ChargingStarts(p: PathCfg, sh: Shape, f: Path, size: int, sizes0: map<string, int>, dir: string)
    requires Below(p, f) && sh == ShapeOf(p) && LoopEnds(sh, |f.comps|) && dir == AncestorDir(f, |f.comps| - 1)
    ensures Charging(p, sh, f, size, sizes0, sizes0, Some(dir), |f.comps| - 1)
  {
    StartsOnTheWayUp(sh, |f.comps|);
  }

  /** The ancestor loop of the walk callback, for a file whose path string is
      `text`: it charges every level within the cap from the file's own
      directory up to the lowest one. */
  method ChargeAncestors(p: PathCfg, sizes0: map<string, int>, text: string, size: int, ghost f: Path, ghost sh: Shape)
    returns (sizes: map<string, int>)
    requires Below(p, f) && sh == ShapeOf(p) && LoopEnds(sh, |f.comps|) && sh.levels <= |f.comps|
    requires DirOf(text) == AncestorDir(f, |f.comps| - 1)
    ensures sizes == ChargedUpTo(sizes0, p, f, size, Lowest(sh, |f.comps|))
  {
    sizes := sizes0;
    var rootDepth := SepCount(Clean(p.path));
    var dir := DirOf(text);
    ghost var k: nat := |f.comps| - 1;
    ChargingStarts(p, sh, f, size, sizes0, dir);
    var next := Some(dir);
    while next.Some?
      invariant Charging(p, sh, f, size, sizes0, sizes, next, k)
      decreases if next.None? then 0 else k + 1
    {
      sizes, next, k := ChargeLevel(p, rootDepth, next.value, sizes, size, sizes0, f, sh, k);
    }
  }

  // ---------- Totals over a list of files ----------

  function ChargedTotal(p: PathCfg, files: seq<FileAt>, d: Path): Option<int> {
    if files == [] then None
    else
      var last := files[|files| - 1];
      Plus(ChargedTotal(p, files[..|files| - 1], d), if Charges(p, last.at, d) then Some(last.size) else None)
  }

  /** `sizes` holds, under every clean directory string, the bytes charged to it. */
  ghost predicate Tallies(sizes: map<string, int>, p: PathCfg, files: seq<FileAt>) {
    forall s: string :: Lookup(sizes, s) == if s == Clean(s) then ChargedTotal(p, files, Parse(s)) else None
  }

  lemma TalliesOneMore(was: map<string, int>, now: map<string, int>, p: PathCfg, files: seq<FileAt>, f: FileAt)
    requires Tallies(was, p, files)
    requires Added(was, now, p, f.at, f.size, Lowest(ShapeOf(p), |f.at.comps|) - 1)
    ensures Tallies(now, p, files + [f])
  {
    assert (files + [f])[..|files|] == files;
    var k := Lowest(ShapeOf(p), |f.at.comps|) - 1;
    forall s: string
      ensures Lookup(now, s) == if s == Clean(s) then ChargedTotal(p, files + [f], Parse(s)) else None
    {
      assert Lookup(was, s) == if s == Clean(s) then ChargedTotal(p, files, Parse(s)) else None;
      assert Lookup(now, s) == Plus(Lookup(was, s), if ChargedBeyond(p, f.at, s, k) then Some(f.size) else None);
    }
  }

  /** When every file has the same lowest charged level, the total charged to a
      directory is the bytes under it, or nothing. */
  lemma {:induction false} ChargedIsUnder(p: PathCfg, files: seq<FileAt>, d: Path, lowest: nat)
    requires forall f :: f in files ==> Lowest(ShapeOf(p), |f.at.comps|) == lowest
    ensures ChargedTotal(p, files, d) == if lowest <= |d.comps| && InCap(p, d) then UnderTotal(files, d) else None
    decreases |files|
  {
    if files != [] {
      ChargedIsUnder(p, files[..|files| - 1], d, lowest);
      assert files[|files| - 1] in files;
    }
  }
}
