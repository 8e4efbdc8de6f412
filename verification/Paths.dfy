/** The part of Go's path/filepath (Unix) the directory walk relies on, over the
    real path strings, with the component view its facts are proved in. */
module Paths {

  const SEPARATOR := '/'

  /** A cleaned path: rooted or not, and its components. */
  datatype Path = Path(rooted: bool, comps: seq<string>)

  /** `strings.Count(s, "/")`. */
  function SepCount(s: string): nat {
    if s == "" then 0 else (if s[0] == SEPARATOR then 1 else 0) + SepCount(s[1..])
  }

  function Split(s: string): (parts: seq<string>)
    ensures parts != []
  {
    if s == "" then [""] else SplitCons(s[0], Split(s[1..]))
  }

  /** The split of a string, from its first character and the split of the rest. */
  function SplitCons(c: char, rest: seq<string>): (parts: seq<string>)
    requires rest != []
    ensures parts != []
  {
    if c == SEPARATOR then [""] + rest else [[c] + rest[0]] + rest[1..]
  }

  function Join(comps: seq<string>): string {
    if comps == [] then "" else if |comps| == 1 then comps[0] else comps[0] + "/" + Join(comps[1..])
  }

  /** Drops "" and ".", and lets ".." cancel the component before it. */
  function Resolve(rooted: bool, parts: seq<string>, acc: seq<string>): seq<string> {
    if parts == [] then acc
    else Resolve(rooted, parts[1..], ResolvePart(rooted, parts[0], acc))
  }

  function ResolvePart(rooted: bool, part: string, acc: seq<string>): seq<string> {
    if part == "" || part == "." then acc
    else if part == ".." && acc != [] && acc[|acc| - 1] != ".." then acc[..|acc| - 1]
    else if part == ".." && rooted then acc
    else acc + [part]
  }

  function Parse(s: string): Path {
    var rooted := s != "" && s[0] == SEPARATOR;
    Path(rooted, Resolve(rooted, Split(s), []))
  }

  function Render(p: Path): string {
    if p.rooted then "/" + Join(p.comps) else if p.comps == [] then "." else Join(p.comps)
  }

  /** `filepath.Clean`. */
  function Clean(s: string): string { Render(Parse(s)) }

  /** The prefix of `s` up to and including its last separator. */
  function ThroughLastSep(s: string): string {
    if s == "" || s[|s| - 1] == SEPARATOR then s else ThroughLastSep(s[..|s| - 1])
  }

  /** `filepath.Dir`. */
  function DirOf(s: string): string { Clean(ThroughLastSep(s)) }

  /** `filepath.Join(dir, name)` for a non-empty `dir`. */
  function JoinPath(dir: string, name: string): string { Clean(dir + "/" + name) }

  function Parent(p: Path): Path {
    if p.comps == [] then p else p.(comps := p.comps[..|p.comps| - 1])
  }

  function Child(p: Path, name: string): Path { p.(comps := p.comps + [name]) }

  /** A directory entry's name. */
  ghost predicate EntryName(name: string) {
    Component(name) && name != ".."
  }

  ghost predicate Component(name: string) {
    name != "" && SEPARATOR !in name && name != "."
  }

  /** The component lists `Resolve` produces: ".." survives only at the front
      of a path that is not rooted. */
  ghost predicate Normal(p: Path) {
    && (forall i :: 0 <= i < |p.comps| ==> Component(p.comps[i]))
    && (forall i :: 0 <= i < |p.comps| && p.comps[i] == ".." ==>
          !p.rooted && forall j :: 0 <= j < i ==> p.comps[j] == "..")
  }

  lemma SplitConsAppend(c: char, rest: seq<string>, tail: seq<string>)
    requires rest != []
    ensures SplitCons(c, rest + tail) == SplitCons(c, rest) + tail
  {
    assert (rest + tail)[0] == rest[0] && (rest + tail)[1..] == rest[1..] + tail;
  }

  lemma {:induction false} SplitJoined(a: string, b: string)
    ensures Split(a + "/" + b) == Split(a) + Split(b)
    decreases |a|
  {
    var s := a + "/" + b;
    if a == "" {
      assert s[1..] == b;
      assert SplitCons('/', Split(b)) == [""] + Split(b);
    } else {
      SplitJoined(a[1..], b);
      assert s[1..] == a[1..] + "/" + b && s[0] == a[0];
      SplitConsAppend(a[0], Split(a[1..]), Split(b));
    }
  }

  lemma {:induction false} SplitOne(name: string)
    requires SEPARATOR !in name
    ensures Split(name) == [name]
    decreases |name|
  {
    if name != "" {
      SplitOne(name[1..]);
      assert name == [name[0]] + name[1..];
    }
  }

  lemma {:induction false} SplitComps(comps: seq<string>)
    requires comps != [] && forall i :: 0 <= i < |comps| ==> SEPARATOR !in comps[i]
    ensures Split(Join(comps)) == comps
    decreases |comps|
  {
    SplitOne(comps[0]);
    if |comps| > 1 {
      SplitComps(comps[1..]);
      SplitJoined(comps[0], Join(comps[1..]));
    }
  }

  lemma {:induction false} ResolveAppend(rooted: bool, a: seq<string>, b: seq<string>, acc: seq<string>)
    ensures Resolve(rooted, a + b, acc) == Resolve(rooted, b, Resolve(rooted, a, acc))
    decreases |a|
  {
    if a == [] {
      assert a + b == b;
    } else {
      assert (a + b)[1..] == a[1..] + b;
      ResolveAppend(rooted, a[1..], b, ResolvePart(rooted, a[0], acc));
    }
  }

  lemma {:induction false} ResolveNormal(rooted: bool, parts: seq<string>, acc: seq<string>)
    requires Normal(Path(rooted, acc)) && forall i :: 0 <= i < |parts| ==> SEPARATOR !in parts[i]
    ensures Normal(Path(rooted, Resolve(rooted, parts, acc)))
    decreases |parts|
  {
    if parts != [] {
      ResolveNormal(rooted, parts[1..], ResolvePart(rooted, parts[0], acc));
    }
  }

  /** A normal component list resolves to itself. */
  lemma {:induction false} ResolveFixed(rooted: bool, parts: seq<string>, acc: seq<string>)
    requires Normal(Path(rooted, acc + parts))
    ensures Resolve(rooted, parts, acc) == acc + parts
    decreases |parts|
  {
    if parts != [] {
      assert (acc + parts)[|acc|] == parts[0];
      assert acc + parts == acc + [parts[0]] + parts[1..];
      if parts[0] == ".." && acc != [] {
        assert (acc + parts)[|acc| - 1] == acc[|acc| - 1];
      }
      ResolveFixed(rooted, parts[1..], acc + [parts[0]]);
    }
  }

  lemma {:induction false} SplitHasNoSep(s: string)
    ensures forall i :: 0 <= i < |Split(s)| ==> SEPARATOR !in Split(s)[i]
    decreases |s|
  {
    if s != "" {
      SplitHasNoSep(s[1..]);
    }
  }

  lemma ParseNormal(s: string)
    ensures Normal(Parse(s))
  {
    SplitHasNoSep(s);
    ResolveNormal(Parse(s).rooted, Split(s), []);
  }

  lemma JoinStart(comps: seq<string>)
    requires comps != [] && comps[0] != ""
    ensures Join(comps) != "" && Join(comps)[0] == comps[0][0]
  {
  }

  lemma ParseSlash()
    ensures Parse("/") == Path(true, [])
    ensures Parse("") == Path(false, [])
  {
    assert Split("/") == ["", ""] by { assert "/"[1..] == ""; }
    assert ["", ""][1..] == [""] && [""][1..] == [];
  }

  lemma ParseRenderEmpty(rooted: bool)
    ensures Parse(Render(Path(rooted, []))) == Path(rooted, [])
  {
    ParseSlash();
    if rooted {
      assert Render(Path(rooted, [])) == "/";
    } else {
      SplitOne(".");
      assert ["."][1..] == [];
    }
  }

  lemma ParseRenderComps(p: Path)
    requires Normal(p) && p.comps != []
    ensures Parse(Render(p)) == p
  {
    var s := Render(p);
    ResolveFixed(p.rooted, p.comps, []);
    assert [] + p.comps == p.comps;
    SplitComps(p.comps);
    JoinStart(p.comps);
    if p.rooted {
      assert s[1..] == Join(p.comps);
      assert Split(s) == [""] + p.comps;
      assert ([""] + p.comps)[1..] == p.comps;
    } else {
      assert s[0] == p.comps[0][0] && p.comps[0][0] in p.comps[0];
    }
  }

  /** Rendering and parsing are inverse on normal paths, so `Clean` is idempotent. */
  lemma ParseRender(p: Path)
    requires Normal(p)
    ensures Parse(Render(p)) == p
  {
    if p.comps == [] {
      ParseRenderEmpty(p.rooted);
    } else {
      ParseRenderComps(p);
    }
  }

  lemma CleanIdempotent(s: string)
    ensures Clean(Clean(s)) == Clean(s)
  {
    ParseNormal(s);
    ParseRender(Parse(s));
  }

  /** Distinct normal paths have distinct strings. */
  lemma RenderInjective(p: Path, q: Path)
    requires Normal(p) && Normal(q) && Render(p) == Render(q)
    ensures p == q
  {
    ParseRender(p);
    ParseRender(q);
  }

  /** Joining an entry name to any non-empty path adds one component. */
  lemma JoinAddsComponent(dir: string, name: string)
    requires dir != "" && EntryName(name)
    ensures Parse(dir + "/" + name) == Child(Parse(dir), name)
    ensures Normal(Child(Parse(dir), name))
    ensures JoinPath(dir, name) == Render(Child(Parse(dir), name))
    ensures Parse(JoinPath(dir, name)) == Child(Parse(dir), name)
  {
    SplitJoined(dir, name);
    SplitOne(name);
    var rooted := Parse(dir).rooted;
    assert (dir + "/" + name)[0] == dir[0];
    ResolveAppend(rooted, Split(dir), [name], []);
    assert [name][1..] == [];
    ParseNormal(dir + "/" + name);
    ParseRender(Child(Parse(dir), name));
  }

  /** The rules of `Clean`, for what may follow any non-empty path: a further
      separator or "." changes nothing, a name is one component more, and ".." takes
      the last one away, stays at "/", and piles up at the start of a relative path. */
  lemma CleanRules(s: string, name: string)
    requires s != "" && EntryName(name)
    ensures Parse(s + "/") == Parse(s) && Parse(s + "/.") == Parse(s)
    ensures Parse(s + "/" + name) == Child(Parse(s), name)
    ensures var p := Parse(s);
      Parse(s + "/..")
      == if p.comps != [] && p.comps[|p.comps| - 1] != ".." then p.(comps := p.comps[..|p.comps| - 1])
         else if p.rooted then p
         else p.(comps := p.comps + [".."])
  {
    JoinAddsComponent(s, name);
    FollowedBy(s, "");
    FollowedBy(s, ".");
    FollowedBy(s, "..");
    assert s + "/" + "" == s + "/" && s + "/" + "." == s + "/." && s + "/" + ".." == s + "/..";
  }

  lemma FollowedBy(s: string, part: string)
    requires s != "" && SEPARATOR !in part
    ensures Parse(s + "/" + part) == Parse(s).(comps := ResolvePart(Parse(s).rooted, part, Parse(s).comps))
  {
    SplitJoined(s, part);
    SplitOne(part);
    assert (s + "/" + part)[0] == s[0];
    ResolveAppend(Parse(s).rooted, Split(s), [part], []);
    assert [part][1..] == [];
  }

  /** A cleaned path string is its parent's, one separator and the last component. */
  lemma RenderChild(p: Path, name: string)
    requires p.comps != []
    ensures Render(Child(p, name)) == Render(p) + "/" + name
  {
    JoinLast(Child(p, name).comps);
    assert Child(p, name).comps[..|p.comps|] == p.comps;
  }

  /** And what any path starts from. */
  lemma CleanStarts(name: string)
    requires EntryName(name)
    ensures Clean("") == "." && Clean(".") == "." && Clean("/") == "/" && Clean("..") == ".."
    ensures Clean(name) == name && Clean("/" + name) == "/" + name
  {
    ParseSlash();
    ParseRender(Path(false, []));
    ParseRender(Path(false, [".."]));
    ParseRender(Path(false, [name]));
    ParseRender(Path(true, [name]));
    assert Render(Path(false, [".."])) == ".." && Render(Path(false, [name])) == name;
    assert Render(Path(true, [name])) == "/" + name;
  }

  lemma {:induction false} SepCountAppend(a: string, b: string)
    ensures SepCount(a + b) == SepCount(a) + SepCount(b)
    decreases |a|
  {
    if a == "" {
      assert a + b == b;
    } else {
      assert (a + b)[1..] == a[1..] + b;
      SepCountAppend(a[1..], b);
    }
  }

  lemma {:induction false} NoSepCount(s: string)
    requires SEPARATOR !in s
    ensures SepCount(s) == 0
    decreases |s|
  {
    if s != "" {
      NoSepCount(s[1..]);
    }
  }

  lemma {:induction false} JoinSepCount(comps: seq<string>)
    requires forall i :: 0 <= i < |comps| ==> SEPARATOR !in comps[i]
    ensures SepCount(Join(comps)) == if comps == [] then 0 else |comps| - 1
    decreases |comps|
  {
    if comps != [] {
      NoSepCount(comps[0]);
      if |comps| > 1 {
        JoinSepCount(comps[1..]);
        SepCountAppend(comps[0] + "/", Join(comps[1..]));
        SepCountAppend(comps[0], "/");
        assert SepCount("/") == 1 by { assert "/"[1..] == ""; }
      }
    }
  }

  /** The separators of a cleaned path: "/" has as many as "/a". */
  function Depth(p: Path): nat { LevelDepth(p.rooted, |p.comps|) }

  function LevelDepth(rooted: bool, level: nat): nat {
    if rooted then (if level == 0 then 1 else level) else if level == 0 then 0 else level - 1
  }

  lemma DepthIsSepCount(p: Path)
    requires Normal(p)
    ensures SepCount(Render(p)) == Depth(p)
  {
    JoinSepCount(p.comps);
    if p.rooted {
      SepCountAppend("/", Join(p.comps));
      assert SepCount("/") == 1 by { assert "/"[1..] == ""; }
    } else if p.comps == [] {
      assert SepCount(".") == 0 by { assert "."[1..] == ""; }
    }
  }

  lemma {:induction false} LastSepOf(prefix: string, name: string)
    requires SEPARATOR !in name
    ensures ThroughLastSep(prefix + "/" + name) == prefix + "/"
    ensures ThroughLastSep(name) == ""
    decreases |name|
  {
    if name == "" {
      assert prefix + "/" + name == prefix + "/";
    } else {
      var init := name[..|name| - 1];
      LastSepOf(prefix, init);
      assert (prefix + "/" + name)[..|prefix + "/" + name| - 1] == prefix + "/" + init;
      assert (prefix + "/" + name)[|prefix + "/" + name| - 1] == name[|name| - 1];
      assert name[|name| - 1] in name;
    }
  }

  lemma {:induction false} JoinLast(comps: seq<string>)
    requires |comps| > 1
    ensures Join(comps) == Join(comps[..|comps| - 1]) + "/" + comps[|comps| - 1]
    decreases |comps|
  {
    if |comps| > 2 {
      JoinLast(comps[1..]);
      assert comps[1..][..|comps| - 2] == comps[..|comps| - 1][1..];
    }
  }

  /** `Clean` of a path with a trailing separator drops the separator. */
  lemma TrailingSep(s: string)
    requires s != ""
    ensures Parse(s + "/") == Parse(s)
  {
    assert s + "/" + "" == s + "/";
    SplitJoined(s, "");
    var rooted := Parse(s).rooted;
    assert (s + "/")[0] == s[0];
    ResolveAppend(rooted, Split(s), [""], []);
    assert [""][1..] == [];
  }

  lemma ParentNormal(p: Path)
    requires Normal(p)
    ensures Normal(Parent(p))
  {
  }

  lemma DirOfShort(p: Path)
    requires Normal(p) && |p.comps| <= 1
    ensures DirOf(Render(p)) == Render(Parent(p))
  {
    ParseSlash();
    if p.comps == [] {
      if p.rooted {
        assert Render(p) == "/";
      } else {
        LastSepOf("", ".");
      }
    } else {
      LastSepOf("", p.comps[0]);
      assert "" + "/" + p.comps[0] == "/" + p.comps[0] && "" + "/" == "/";
    }
  }

  lemma DirOfLong(p: Path)
    requires Normal(p) && |p.comps| > 1
    ensures DirOf(Render(p)) == Render(Parent(p))
  {
    var n := |p.comps|;
    JoinLast(p.comps);
    var up := Render(Parent(p));
    JoinStart(p.comps[..n - 1]);
    assert Render(p) == up + "/" + p.comps[n - 1];
    LastSepOf(up, p.comps[n - 1]);
    TrailingSep(up);
    ParentNormal(p);
    ParseRender(Parent(p));
  }

  /** `filepath.Dir` of a cleaned path is its parent; "/" and "." are their own. */
  lemma DirIsParent(p: Path)
    requires Normal(p)
    ensures DirOf(Render(p)) == Render(Parent(p))
  {
    if |p.comps| <= 1 {
      DirOfShort(p);
    } else {
      DirOfLong(p);
    }
  }

  /** `s` ends in a proper entry name: not in "/", "." or "..". */
  ghost predicate EndsInEntry(s: string) {
    exists name :: EntryName(name) && (s == name || exists prefix :: s == prefix + "/" + name)
  }

  lemma DirOfName(name: string)
    requires EntryName(name)
    ensures Parse(name) == Path(false, [name]) && DirOf(name) == Render(Path(false, []))
  {
    SplitOne(name);
    LastSepOf("", name);
    ParseSlash();
    assert name[0] in name && [name][1..] == [];
    assert Resolve(false, [name], []) == [name];
  }

  lemma DirOfTopName(name: string)
    requires EntryName(name)
    ensures Parse("/" + name) == Path(true, [name]) && DirOf("/" + name) == Render(Path(true, []))
  {
    var s := "/" + name;
    assert s == "" + "/" + name;
    SplitOne(name);
    SplitOne("");
    SplitJoined("", name);
    LastSepOf("", name);
    ParseSlash();
    assert "" + "/" == "/";
    assert Split(s) == ["", name] && ["", name][1..] == [name] && [name][1..] == [];
    assert Resolve(true, [name], []) == [name];
  }

  /** Then its directory is the parent of its cleaned form, clean or not. */
  lemma DirOfEntry(s: string)
    requires EndsInEntry(s)
    ensures Parse(s).comps != [] && DirOf(s) == Render(Parent(Parse(s)))
  {
    var name :| EntryName(name) && (s == name || exists prefix :: s == prefix + "/" + name);
    if s == name {
      DirOfName(name);
    } else {
      var prefix :| s == prefix + "/" + name;
      if prefix == "" {
        assert s == "/" + name;
        DirOfTopName(name);
      } else {
        LastSepOf(prefix, name);
        JoinAddsComponent(prefix, name);
        TrailingSep(prefix);
        assert Parent(Child(Parse(prefix), name)) == Parse(prefix);
      }
    }
  }
}
