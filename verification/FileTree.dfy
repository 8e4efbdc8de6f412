/** Directory trees as the walk sees them, their ignore-pruning, their recursive
    disk usage, and the bytes found under a directory path. */
module FileTree {
  import opened Seqs
  import opened Paths

  /** A file whose size is `None` is one whose `Info()` fails. A directory holds
      the entries its listing returned (possibly only some, if the read failed). */
  datatype Node =
    | File(name: string, size: Option<int>)
    | Dir(name: string, kids: seq<Node>)

  /** One file reached by the walk: where it is, the path string handed to the
      callback, and its size. */
  datatype FileAt = FileAt(at: Path, text: string, size: int)

  ghost predicate WellFormed(t: Node) {
    t.Dir? ==> WellFormedKids(t.kids)
  }

  /** Entries of a directory have proper, distinct names. */
  ghost predicate WellFormedKids(kids: seq<Node>) {
    && (forall i :: 0 <= i < |kids| ==> EntryName(kids[i].name) && WellFormed(kids[i]))
    && (forall i, j :: 0 <= i < j < |kids| ==> kids[i].name != kids[j].name)
  }

  // ---------- Pruning ----------

  function Prune(t: Node, ignored: string -> bool): Option<Node>
    decreases t, 1
  {
    if ignored(t.name) then None
    else if t.File? then Some(t)
    else Some(Dir(t.name, PruneKids(t.kids, ignored)))
  }

  function PruneKids(kids: seq<Node>, ignored: string -> bool): seq<Node>
    decreases kids, 0
  {
    if kids == [] then []
    else
      var rest := PruneKids(kids[1..], ignored);
      match Prune(kids[0], ignored)
      case None => rest
      case Some(k) => [k] + rest
  }

  lemma {:induction false} PruneKeepsNames(kids: seq<Node>, ignored: string -> bool, x: Node)
    requires x in PruneKids(kids, ignored)
    ensures exists i :: 0 <= i < |kids| && kids[i].name == x.name && Prune(kids[i], ignored) == Some(x)
    decreases |kids|
  {
    if x in PruneKids(kids[1..], ignored) {
      PruneKeepsNames(kids[1..], ignored, x);
      var i :| 0 <= i < |kids[1..]| && kids[1..][i].name == x.name && Prune(kids[1..][i], ignored) == Some(x);
      assert kids[i + 1].name == x.name;
    } else {
      assert kids[0].name == x.name;
    }
  }

  lemma {:induction false} PruneWellFormed(t: Node, ignored: string -> bool)
    requires WellFormed(t)
    ensures Prune(t, ignored).Some? ==> WellFormed(Prune(t, ignored).value)
    decreases t, 1
  {
    if t.Dir? {
      PruneKidsWellFormed(t.kids, ignored);
    }
  }

  lemma {:induction false} PruneKidsWellFormed(kids: seq<Node>, ignored: string -> bool)
    requires WellFormedKids(kids)
    ensures WellFormedKids(PruneKids(kids, ignored))
    decreases kids, 0
  {
    if kids != [] {
      PruneWellFormed(kids[0], ignored);
      PruneKidsWellFormed(kids[1..], ignored);
      var rest := PruneKids(kids[1..], ignored);
      forall i | 0 <= i < |rest| ensures rest[i].name != kids[0].name {
        PruneKeepsNames(kids[1..], ignored, rest[i]);
      }
    }
  }

  // ---------- Disk usage ----------

  /** Sums where `None` means "no file at all", unlike a total of 0. */
  function Plus(a: Option<int>, b: Option<int>): Option<int> {
    if a.None? then b else if b.None? then a else Some(a.value + b.value)
  }

  /** Recursive disk usage: the total size of the readable files below `t`. */
  function Du(t: Node): Option<int>
    decreases t, 1
  {
    if t.File? then t.size else DuKids(t.kids)
  }

  function DuKids(kids: seq<Node>): Option<int>
    decreases kids, 0
  {
    if kids == [] then None else Plus(Du(kids[0]), DuKids(kids[1..]))
  }

  /** The node reached from `t` by following entry names. */
  function Find(t: Node, names: seq<string>): Option<Node>
    decreases t, 1
  {
    if names == [] then Some(t) else if t.File? then None else FindKid(t.kids, names)
  }

  function FindKid(kids: seq<Node>, names: seq<string>): Option<Node>
    requires names != []
    decreases kids, 0
  {
    if kids == [] then None
    else if kids[0].name == names[0] then Find(kids[0], names[1..])
    else FindKid(kids[1..], names)
  }

  /** The usage of the directory at `names`, if there is one that holds a file. */
  function DuAt(t: Node, names: seq<string>): Option<int> {
    match Find(t, names)
    case Some(Dir(_, kids)) => DuKids(kids)
    case _ => None
  }

  // ---------- The walk's file list ----------

  /** The readable files of `t` in walk order. */
  function Files(t: Node, at: Path, text: string): seq<FileAt>
    decreases t, 1
  {
    match t
    case File(_, None) => []
    case File(_, Some(size)) => [FileAt(at, text, size)]
    case Dir(_, kids) => FilesOfKids(kids, at, text)
  }

  function FilesOfKids(kids: seq<Node>, at: Path, text: string): seq<FileAt>
    decreases kids, 0
  {
    if kids == [] then []
    else
      Files(kids[0], Child(at, kids[0].name), JoinPath(text, kids[0].name))
      + FilesOfKids(kids[1..], at, text)
  }

  /** The walk goes through the entries of a directory in the order of its listing. */
  lemma {:induction false} FilesInListingOrder(a: seq<Node>, b: seq<Node>, at: Path, text: string)
    ensures FilesOfKids(a + b, at, text) == FilesOfKids(a, at, text) + FilesOfKids(b, at, text)
    decreases |a|
  {
    if a == [] {
      assert a + b == b;
    } else {
      assert (a + b)[1..] == a[1..] + b;
      FilesInListingOrder(a[1..], b, at, text);
    }
  }

  /** `d` is a proper ancestor directory of `f`. */
  predicate Under(d: Path, f: Path) {
    d.rooted == f.rooted && d.comps < f.comps
  }

  /** Bytes of the listed files that lie under directory `d`. */
  function UnderTotal(files: seq<FileAt>, d: Path): Option<int> {
    if files == [] then None
    else
      var last := files[|files| - 1];
      Plus(UnderTotal(files[..|files| - 1], d), if Under(d, last.at) then Some(last.size) else None)
  }

  lemma {:induction false} UnderTotalAppend(a: seq<FileAt>, b: seq<FileAt>, d: Path)
    ensures UnderTotal(a + b, d) == Plus(UnderTotal(a, d), UnderTotal(b, d))
    decreases |b|
  {
    if b == [] {
      assert a + b == a;
    } else {
      assert (a + b)[..|a + b| - 1] == a + b[..|b| - 1];
      UnderTotalAppend(a, b[..|b| - 1], d);
    }
  }

  lemma {:induction false} FilesExtend(t: Node, at: Path, text: string)
    ensures forall f :: f in Files(t, at, text) ==>
      f.at.rooted == at.rooted && (if t.Dir? then at.comps < f.at.comps else f.at == at)
    decreases t, 1
  {
    if t.Dir? {
      FilesOfKidsExtend(t.kids, at, text);
    }
  }

  lemma {:induction false} FilesOfKidsExtend(kids: seq<Node>, at: Path, text: string)
    ensures forall f :: f in FilesOfKids(kids, at, text) ==> f.at.rooted == at.rooted && at.comps < f.at.comps
    decreases kids, 0
  {
    if kids != [] {
      FilesExtend(kids[0], Child(at, kids[0].name), JoinPath(text, kids[0].name));
      FilesOfKidsExtend(kids[1..], at, text);
    }
  }

  /** Everything below `at` counts for every directory at or above it. */
  lemma {:induction false} TotalAbove(t: Node, at: Path, text: string, d: Path)
    requires d.rooted == at.rooted && d.comps <= at.comps && (t.File? ==> d.comps < at.comps)
    ensures UnderTotal(Files(t, at, text), d) == Du(t)
    decreases t, 1
  {
    match t
    case File(_, None) =>
    case File(_, Some(size)) =>
      assert [FileAt(at, text, size)][..0] == [];
    case Dir(_, kids) => TotalAboveKids(kids, at, text, d);
  }

  lemma {:induction false} TotalAboveKids(kids: seq<Node>, at: Path, text: string, d: Path)
    requires d.rooted == at.rooted && d.comps <= at.comps
    ensures UnderTotal(FilesOfKids(kids, at, text), d) == DuKids(kids)
    decreases kids, 0
  {
    if kids != [] {
      var at0, text0 := Child(at, kids[0].name), JoinPath(text, kids[0].name);
      TotalAbove(kids[0], at0, text0, d);
      TotalAboveKids(kids[1..], at, text, d);
      UnderTotalAppend(Files(kids[0], at0, text0), FilesOfKids(kids[1..], at, text), d);
    }
  }

  lemma {:induction false} TotalElsewhere(files: seq<FileAt>, d: Path)
    requires forall f :: f in files ==> !Under(d, f.at)
    ensures UnderTotal(files, d) == None
    decreases |files|
  {
    if files != [] {
      TotalElsewhere(files[..|files| - 1], d);
      assert files[|files| - 1] in files;
    }
  }

  /** Strictly below `at`, only the subtree the names lead to counts. */
  lemma {:induction false} TotalBelow(t: Node, at: Path, text: string, d: Path)
    requires WellFormed(t) && d.rooted == at.rooted && at.comps <= d.comps
    ensures UnderTotal(Files(t, at, text), d) == DuAt(t, d.comps[|at.comps|..])
    decreases t, 1
  {
    var names := d.comps[|at.comps|..];
    if names == [] && t.Dir? {
      TotalAbove(t, at, text, d);
    } else if t.File? {
      FilesExtend(t, at, text);
      TotalElsewhere(Files(t, at, text), d);
    } else {
      TotalBelowKids(t.kids, at, text, d);
    }
  }

  /** Going one entry further down a path. */
  lemma NamesBelow(at: Path, name: string, d: Path)
    requires at.comps < d.comps && d.comps[|at.comps|] == name
    ensures Child(at, name).comps <= d.comps
    ensures d.comps[|at.comps| + 1..] == d.comps[|at.comps|..][1..]
  {
  }

  lemma {:induction false} TotalBelowKids(kids: seq<Node>, at: Path, text: string, d: Path)
    requires WellFormedKids(kids) && d.rooted == at.rooted && at.comps < d.comps
    ensures UnderTotal(FilesOfKids(kids, at, text), d)
         == match FindKid(kids, d.comps[|at.comps|..]) case Some(Dir(_, below)) => DuKids(below) case _ => None
    decreases kids, 0
  {
    if kids != [] {
      var names := d.comps[|at.comps|..];
      var at0, text0 := Child(at, kids[0].name), JoinPath(text, kids[0].name);
      UnderTotalAppend(Files(kids[0], at0, text0), FilesOfKids(kids[1..], at, text), d);
      if kids[0].name == names[0] {
        NamesBelow(at, kids[0].name, d);
        TotalBelow(kids[0], at0, text0, d);
        OthersElsewhere(kids[1..], at, text, d);
      } else {
        KidElsewhere(kids[0], at, text, d);
        TotalBelowKids(kids[1..], at, text, d);
      }
    }
  }

  lemma DivergedPaths(at: seq<string>, name: string, f: seq<string>, d: seq<string>)
    requires at + [name] <= f && at < d && d[|at|] != name
    ensures !(d < f)
  {
    assert f[|at|] == (at + [name])[|at|];
  }

  /** An entry with another name than the one `d` goes through holds nothing of it. */
  lemma KidElsewhere(kid: Node, at: Path, text: string, d: Path)
    requires at.comps < d.comps && d.comps[|at.comps|] != kid.name
    ensures UnderTotal(Files(kid, Child(at, kid.name), JoinPath(text, kid.name)), d) == None
  {
    var files := Files(kid, Child(at, kid.name), JoinPath(text, kid.name));
    FilesExtend(kid, Child(at, kid.name), JoinPath(text, kid.name));
    forall f | f in files ensures !Under(d, f.at) {
      DivergedPaths(at.comps, kid.name, f.at.comps, d.comps);
    }
    TotalElsewhere(files, d);
  }

  lemma {:induction false} OthersElsewhere(kids: seq<Node>, at: Path, text: string, d: Path)
    requires at.comps < d.comps
    requires forall i :: 0 <= i < |kids| ==> kids[i].name != d.comps[|at.comps|]
    ensures UnderTotal(FilesOfKids(kids, at, text), d) == None
    decreases |kids|
  {
    if kids != [] {
      var at0, text0 := Child(at, kids[0].name), JoinPath(text, kids[0].name);
      UnderTotalAppend(Files(kids[0], at0, text0), FilesOfKids(kids[1..], at, text), d);
      KidElsewhere(kids[0], at, text, d);
      OthersElsewhere(kids[1..], at, text, d);
    }
  }
}
