/** Absolute slash-separated paths, the containment test, and the symlink loop before a mount. */
module Paths {
  import opened Options
  import opened Text

  type Names = seq<string>

  predicate IsAbs(p: string) { |p| > 0 && p[0] == '/' }

  // ---------------------------------------------------------------- cleaning

  /** Lexical processing of path elements: drop empty and dot elements, let dot-dot remove its predecessor. */
  function Normalize(done: Names, parts: Names): Names
    decreases |parts|
  {
    if parts == [] then done
    else if parts[0] == "" || parts[0] == "." then Normalize(done, parts[1..])
    else if parts[0] == ".." then Normalize(if done == [] then [] else done[..|done| - 1], parts[1..])
    else Normalize(done + [parts[0]], parts[1..])
  }

  /** The names of a cleaned absolute path, outermost first. */
  function Components(p: string): Names
    requires IsAbs(p)
  {
    Normalize([], Split(p, '/'))
  }

  function Render(names: Names): (p: string)
    ensures IsAbs(p)
  {
    "/" + Join(names, '/')
  }

  /** `filepath.Clean` on an absolute path. */
  function Clean(p: string): (r: string)
    requires IsAbs(p)
    ensures IsAbs(r)
  {
    Render(Components(p))
  }

  ghost predicate IsName(s: string) {
    s != "" && s != "." && s != ".." && '/' !in s
  }

  ghost predicate AreNames(names: Names) {
    forall i :: 0 <= i < |names| ==> IsName(names[i])
  }

  lemma {:induction false} NormalizeNames(done: Names, parts: Names)
    requires AreNames(done) && Free(parts, '/')
    ensures AreNames(Normalize(done, parts))
    decreases |parts|
  {
    if parts != [] {
      assert '/' !in parts[0];
      assert Free(parts[1..], '/');
      if parts[0] == "" || parts[0] == "." {
        NormalizeNames(done, parts[1..]);
      } else if parts[0] == ".." {
        NormalizeNames(if done == [] then [] else done[..|done| - 1], parts[1..]);
      } else {
        NormalizeNames(done + [parts[0]], parts[1..]);
      }
    }
  }

  lemma ComponentsAreNames(p: string)
    requires IsAbs(p)
    ensures AreNames(Components(p))
  {
    SplitFree(p, '/');
    NormalizeNames([], Split(p, '/'));
  }

  lemma {:induction false} NormalizeOfNames(done: Names, names: Names)
    requires AreNames(names)
    ensures Normalize(done, names) == done + names
    decreases |names|
  {
    if names == [] {
      assert done + names == done;
    } else {
      assert IsName(names[0]) && AreNames(names[1..]);
      NormalizeOfNames(done + [names[0]], names[1..]);
      assert done + [names[0]] + names[1..] == done + names;
    }
  }

  lemma {:induction false} NormalizeAppend(done: Names, a: Names, b: Names)
    ensures Normalize(done, a + b) == Normalize(Normalize(done, a), b)
    decreases |a|
  {
    if a == [] {
      assert a + b == b;
    } else {
      assert (a + b)[0] == a[0] && (a + b)[1..] == a[1..] + b;
      if a[0] == "" || a[0] == "." {
        NormalizeAppend(done, a[1..], b);
      } else if a[0] == ".." {
        NormalizeAppend(if done == [] then [] else done[..|done| - 1], a[1..], b);
      } else {
        NormalizeAppend(done + [a[0]], a[1..], b);
      }
    }
  }

  lemma RenderSplit(names: Names)
    requires AreNames(names) && names != []
    ensures Split(Render(names), '/') == [""] + names
  {
    SplitJoin(names, '/');
    assert Render(names) == [] + ['/'] + Join(names, '/');
    SplitAppend([], Join(names, '/'), '/');
  }

  /** Rendering names and taking the components gives the names back: cleaned paths are canonical. */
  lemma ComponentsOfRender(names: Names)
    requires AreNames(names)
    ensures Components(Render(names)) == names
  {
    if names == [] {
      assert Split("/", '/') == ["", ""] by {
        assert "/"[1..] == "";
      }
      assert ["", ""][1..] == [""] && [""][1..] == [];
    } else {
      RenderSplit(names);
      assert ([""] + names)[1..] == names;
      NormalizeOfNames([], names);
      assert [] + names == names;
    }
  }

  lemma CleanComponents(p: string)
    requires IsAbs(p)
    ensures Components(Clean(p)) == Components(p)
  {
    ComponentsAreNames(p);
    ComponentsOfRender(Components(p));
  }

  /** `filepath.Join` of an absolute path and one more element or relative path. */
  function JoinPath(base: string, rest: string): (r: string)
    requires IsAbs(base)
    ensures IsAbs(r)
  {
    Clean(base + "/" + rest)
  }

  lemma JoinComponents(base: string, rest: string)
    requires IsAbs(base)
    ensures Components(JoinPath(base, rest)) == Normalize(Components(base), Split(rest, '/'))
  {
    var p := base + "/" + rest;
    assert p == base + ['/'] + rest;
    SplitAppend(base, rest, '/');
    NormalizeAppend([], Split(base, '/'), Split(rest, '/'));
    CleanComponents(p);
  }

  /** What cleaning does with each kind of element. */
  lemma CleanElements(p: string, name: string)
    requires IsAbs(p) && IsName(name)
    ensures Components("/") == []
    ensures Components(p + "/") == Components(p) == Components(p + "/.")
    ensures Components(p + "/" + name) == Components(p) + [name]
    ensures var names := Components(p);
            Components(p + "/..") == if names == [] then [] else names[..|names| - 1]
  {
    ComponentsOfRender([]);
    assert Render([]) == "/";
    MoreElement(p, "");
    MoreElement(p, ".");
    MoreElement(p, "..");
    MoreElement(p, name);
    assert p + "/" + "" == p + "/" && p + "/" + "." == p + "/." && p + "/" + ".." == p + "/..";
    NormalizeOfNames(Components(p), [name]);
  }

  lemma MoreElement(p: string, element: string)
    requires IsAbs(p) && '/' !in element
    ensures Components(p + "/" + element) == Normalize(Components(p), [element])
  {
    assert p + "/" + element == p + ['/'] + element;
    SplitAppend(p, element, '/');
    SplitNone(element, '/');
    NormalizeAppend([], Split(p, '/'), [element]);
  }

  /** `filepath.Base`: the last name of a path. */
  function Base(p: string): string {
    if p == "" then "." else LastNonEmpty(Split(p, '/'))
  }

  function LastNonEmpty(parts: Names): string {
    if parts == [] then "/"
    else if parts[|parts| - 1] != "" then parts[|parts| - 1]
    else LastNonEmpty(parts[..|parts| - 1])
  }

  lemma BaseOfJoin(root: string, name: string)
    requires IsAbs(root) && IsName(name)
    ensures Base(JoinPath(root, name)) == name
  {
    var names := Components(root);
    JoinComponents(root, name);
    SplitNone(name, '/');
    NormalizeOfNames(names, [name]);
    ComponentsAreNames(root);
    ComponentsAreNames(JoinPath(root, name));
    var all := names + [name];
    assert Components(root + "/" + name) == all by { CleanComponents(root + "/" + name); }
    RenderSplit(all);
    assert ([""] + all)[|all|] == name;
  }

  // ---------------------------------------------------------------- containment

  predicate HasPrefix(s: string, prefix: string) { prefix <= s }

  predicate IsOrUnderDir(path: string, baseDir: string)
    requires IsAbs(path) && IsAbs(baseDir)
  {
    var path, baseDir := Clean(path), Clean(baseDir);
    baseDir == "/" || path == baseDir || HasPrefix(path, baseDir + "/")
  }

  lemma {:induction false} JoinAppend(a: Names, b: Names)
    requires a != [] && b != []
    ensures Join(a + b, '/') == Join(a, '/') + ['/'] + Join(b, '/')
  {
    if |a| == 1 {
      assert (a + b)[1..] == b;
    } else {
      assert (a + b)[1..] == a[1..] + b;
      JoinAppend(a[1..], b);
    }
  }

  lemma UnderByText(base: Names, path: Names)
    requires AreNames(base) && AreNames(path) && base != []
    requires Render(base) + "/" <= Render(path)
    ensures base <= path
  {
    var rest := Render(path)[|Render(base)| + 1..];
    assert Render(path) == Render(base) + ['/'] + rest;
    SplitAppend(Render(base), rest, '/');
    RenderSplit(base);
    if path != [] {
      RenderSplit(path);
      assert [""] + path == [""] + (base + Split(rest, '/'));
      assert ([""] + path)[1..] == path;
      assert ([""] + (base + Split(rest, '/')))[1..] == base + Split(rest, '/');
    }
  }

  /** The test on strings is containment of component lists. */
  lemma UnderIffPrefix(path: string, baseDir: string)
    requires IsAbs(path) && IsAbs(baseDir)
    ensures IsOrUnderDir(path, baseDir) <==> Components(baseDir) <= Components(path)
  {
    var p, b := Components(path), Components(baseDir);
    ComponentsAreNames(path);
    ComponentsAreNames(baseDir);
    ComponentsOfRender(p);
    ComponentsOfRender(b);
    if Render(b) == "/" {
      ComponentsOfRender([]);
      assert Render([]) == "/";
    } else {
      assert b != [];
      if HasPrefix(Render(p), Render(b) + "/") {
        UnderByText(b, p);
      }
      if b <= p && b != p {
        assert p == b + p[|b|..];
        JoinAppend(b, p[|b|..]);
      }
    }
  }

  // ---------------------------------------------------------------- symlinks

  /** The outcome of following symlinks. */
  datatype Resolved<T> = NotExist | Failed | Found(target: T)

  /** What `filepath.EvalSymlinks` answers, path by path. */
  type FileSystem = string -> Resolved<string>

  ghost predicate Rooted(fs: FileSystem) {
    forall p :: IsAbs(p) && fs(p).Found? ==> IsAbs(fs(p).target)
  }

  /** The answers in each iteration of the loop; between two iterations the files may change. */
  type Answers = nat -> FileSystem

  ghost predicate AllRooted(answers: Answers) {
    forall n :: Rooted(answers(n))
  }

  /** Nothing changes. */
  function Always(fs: FileSystem): (answers: Answers)
    ensures Rooted(fs) ==> AllRooted(answers)
    ensures forall n :: answers(n) == fs
  {
    n => fs
  }

  /** The rest of the loop from iteration `n` on, at `cur` with the elements `parts` to go. */
  ghost function ResolveFrom(answers: Answers, n: nat, cur: string, parts: Names): (r: Option<string>)
    requires IsAbs(cur) && AllRooted(answers)
    ensures r.Some? ==> IsAbs(r.value)
    decreases |parts|
  {
    if parts == [] then Some(cur) else
      var here := JoinPath(cur, parts[0]);
      match answers(n)(here)
      case NotExist => Some(JoinPath(here, Join(parts[1..], '/')))
      case Failed => None
      case Found(target) =>
        assert Rooted(answers(n));
        ResolveFrom(answers, n + 1, target, parts[1..])
  }

  ghost function Resolve(answers: Answers, path: string): (r: Option<string>)
    requires IsAbs(path) && AllRooted(answers)
    ensures r.Some? ==> IsAbs(r.value)
  {
    ResolveFrom(answers, 0, "/", Split(Clean(path), '/'))
  }

  method EvalAnySymlinks(answers: Answers, path: string) returns (r: Option<string>)
    requires IsAbs(path) && AllRooted(answers)
    ensures r == Resolve(answers, path)
  {
    var curPath := "/";
    var pathSplit := Split(Clean(path), '/');
    var n := 0;
    while |pathSplit| > 0
      invariant IsAbs(curPath) && ResolveFrom(answers, n, curPath, pathSplit) == Resolve(answers, path)
      decreases |pathSplit|
    {
      curPath := JoinPath(curPath, pathSplit[0]);
      pathSplit := pathSplit[1..];
      assert Rooted(answers(n));
      match answers(n)(curPath) {
        case NotExist => return Some(JoinPath(curPath, Join(pathSplit, '/')));
        case Failed => return None;
        case Found(target) => curPath := target;
      }
      n := n + 1;
    }
    r := Some(curPath);
  }

  const BANNED: seq<string> := ["/proc", "/sys", "/dev"]

  ghost const BANNED_NAMES: seq<string> := ["proc", "sys", "dev"]

  lemma TopLevel(path: string, name: string)
    requires IsAbs(path) && IsName(name)
    ensures IsOrUnderDir(path, "/" + name) <==> Components(path) != [] && Components(path)[0] == name
  {
    assert Render([name]) == "/" + name;
    ComponentsOfRender([name]);
    UnderIffPrefix(path, "/" + name);
  }

  lemma BannedComponent(path: string, k: nat)
    requires IsAbs(path) && k < |BANNED|
    ensures IsAbs(BANNED[k])
    ensures IsOrUnderDir(path, BANNED[k]) <==> Components(path) != [] && Components(path)[0] == BANNED_NAMES[k]
  {
    hide IsOrUnderDir, Components;
    TopLevel(path, BANNED_NAMES[k]);
    assert "/" + BANNED_NAMES[k] == BANNED[k];
  }

  /** A mount destination is accepted exactly when it resolves, and to a path outside the banned directories. */
  method IsSystemDir(answers: Answers, path: string) returns (rejected: bool)
    requires IsAbs(path) && AllRooted(answers)
    ensures !rejected <==>
            && Resolve(answers, path).Some?
            && var names := Components(Resolve(answers, path).value);
               names == [] || names[0] !in ["proc", "sys", "dev"]
  {
    hide IsOrUnderDir, Components;
    var resolvedDest := EvalAnySymlinks(answers, path);
    if resolvedDest.None? {
      return true;
    }
    ghost var names := Components(resolvedDest.value);
    for i := 0 to |BANNED|
      invariant names == [] || names[0] !in BANNED_NAMES[..i]
    {
      BannedComponent(resolvedDest.value, i);
      if IsOrUnderDir(resolvedDest.value, BANNED[i]) {
        return true;
      }
    }
    return false;
  }

  /** A file system without symlinks: what exists resolves to itself. */
  ghost predicate NoSymlinks(fs: FileSystem) {
    forall p :: IsAbs(p) ==> fs(p).NotExist? || fs(p) == Found(Clean(p))
  }

  lemma {:induction false} ResolveFromPlain(fs: FileSystem, n: nat, cur: string, parts: Names)
    requires IsAbs(cur) && Rooted(fs) && NoSymlinks(fs) && Free(parts, '/')
    ensures var r := ResolveFrom(Always(fs), n, cur, parts);
            r.Some? && Components(r.value) == Normalize(Components(cur), parts)
    decreases |parts|
  {
    if parts != [] {
      var here := JoinPath(cur, parts[0]);
      var rest := parts[1..];
      assert '/' !in parts[0];
      SplitNone(parts[0], '/');
      JoinComponents(cur, parts[0]);
      NormalizeAppend(Components(cur), [parts[0]], rest);
      assert [parts[0]] + rest == parts;
      assert Free(rest, '/');
      if fs(here).NotExist? {
        JoinComponents(here, Join(rest, '/'));
        if rest == [] {
          assert Split("", '/') == [""];
          assert [""][1..] == [];
        } else {
          SplitJoin(rest, '/');
        }
      } else {
        CleanComponents(here);
        ResolveFromPlain(fs, n + 1, Clean(here), rest);
      }
    }
  }

  /** Without symlinks the loop is lexical cleaning, wherever the path stops existing. */
  lemma ResolvePlain(fs: FileSystem, path: string)
    requires IsAbs(path) && Rooted(fs) && NoSymlinks(fs)
    ensures var r := Resolve(Always(fs), path); r.Some? && Components(r.value) == Components(path)
  {
    SplitFree(Clean(path), '/');
    ComponentsOfRender([]);
    assert Render([]) == "/";
    ResolveFromPlain(fs, 0, "/", Split(Clean(path), '/'));
    CleanComponents(path);
  }

  /** A cleaned path and what it resolves to have the same entries, and the root is itself. */
  ghost predicate Coherent(fs: FileSystem) {
    && fs("/") == Found("/")
    && forall p, name ::
         IsAbs(p) && p == Clean(p) && IsName(name) && fs(p).Found? && IsAbs(fs(p).target) ==>
           fs(JoinPath(p, name)) == fs(JoinPath(fs(p).target, name))
  }

  /** The first `k` names of a path resolve, and with one more name, if any is left, they do not. */
  ghost predicate ExistsUpTo(fs: FileSystem, names: Names, k: nat)
    requires k <= |names|
  {
    && (forall j :: 0 <= j <= k ==> fs(Render(names[..j])).Found?)
    && (k < |names| ==> !fs(Render(names[..k + 1])).Found?)
  }

  /** What the first `k` names resolve to. */
  ghost function Target(fs: FileSystem, names: Names, k: nat): (r: string)
    requires Rooted(fs) && k <= |names| && fs(Render(names[..k])).Found?
    ensures IsAbs(r)
  {
    fs(Render(names[..k])).target
  }

  lemma JoinName(names: Names, name: string)
    requires AreNames(names) && IsName(name)
    ensures JoinPath(Render(names), name) == Render(names + [name])
  {
    JoinComponents(Render(names), name);
    ComponentsOfRender(names);
    SplitNone(name, '/');
    NormalizeOfNames(names, [name]);
    assert Components(Render(names) + "/" + name) == names + [name] by {
      var p := Render(names) + "/" + name;
      assert p == Render(names) + ['/'] + name;
      SplitAppend(Render(names), name, '/');
      NormalizeAppend([], Split(Render(names), '/'), [name]);
    }
  }

  lemma {:induction false} ResolveFromExisting(fs: FileSystem, n: nat, names: Names, j: nat, k: nat)
    requires Rooted(fs) && Coherent(fs) && AreNames(names) && j <= k <= |names| && ExistsUpTo(fs, names, k)
    ensures fs(Render(names[..j])).Found? && fs(Render(names[..k])).Found?
    ensures var r := ResolveFrom(Always(fs), n, Target(fs, names, j), names[j..]);
            && (r.None? <==> k < |names| && fs(Render(names[..k + 1])).Failed?)
            && (k == |names| ==> r.value == Target(fs, names, k))
            && (r.Some? ==> Components(r.value) == Components(Target(fs, names, k)) + names[k..])
    decreases |names| - j
  {
    hide Components, JoinPath, Render;
    var cur := Target(fs, names, j);
    if j < |names| {
      var name, rest := names[j], names[j + 1..];
      assert names[j..][0] == name && names[j..][1..] == rest;
      assert names[..j] + [name] == names[..j + 1];
      assert IsName(name) && AreNames(names[..j]);
      JoinName(names[..j], name);
      ComponentsOfRender(names[..j]);
      assert fs(JoinPath(cur, name)) == fs(Render(names[..j + 1]));
      if j < k {
        ResolveFromExisting(fs, n + 1, names, j + 1, k);
      } else if fs(JoinPath(cur, name)).NotExist? {
        LexicalRest(cur, name, rest);
        assert [name] + rest == names[k..];
      }
    }
  }

  /** Appending names to a path appends them to its components. */
  lemma LexicalRest(cur: string, name: string, rest: Names)
    requires IsAbs(cur) && IsName(name) && AreNames(rest)
    ensures Components(JoinPath(JoinPath(cur, name), Join(rest, '/'))) == Components(cur) + ([name] + rest)
  {
    hide Components, JoinPath;
    var here := JoinPath(cur, name);
    JoinComponents(cur, name);
    SplitNone(name, '/');
    NormalizeOfNames(Components(cur), [name]);
    JoinComponents(here, Join(rest, '/'));
    if rest == [] {
      assert Split("", '/') == [""] && [""][1..] == [];
      assert Normalize(Components(here), [""]) == Components(here);
    } else {
      SplitJoin(rest, '/');
      NormalizeOfNames(Components(here), rest);
    }
  }

  /**
   * The loop resolves the part of the path that exists as a whole resolution of that part would, and appends the
   * names that do not exist; it fails exactly when the first name that does not resolve fails otherwise.
   */
  lemma ResolveExisting(fs: FileSystem, path: string, k: nat)
    requires IsAbs(path) && Rooted(fs) && Coherent(fs)
    requires k <= |Components(path)| && ExistsUpTo(fs, Components(path), k)
    ensures var names, r := Components(path), Resolve(Always(fs), path);
            && fs(Render(names[..k])).Found?
            && (r.None? <==> k < |names| && fs(Render(names[..k + 1])).Failed?)
            && (k == |names| ==> r.value == Target(fs, names, k))
            && (r.Some? ==> Components(r.value) == Components(Target(fs, names, k)) + names[k..])
  {
    var names := Components(path);
    ComponentsAreNames(path);
    RootJoin();
    assert names[..0] == [] && Render([]) == "/";
    if names == [] {
      assert Split("/", '/') == ["", ""] by { assert "/"[1..] == ""; }
      assert ["", ""][1..] == [""] && [""][1..] == [];
    } else {
      RenderSplit(names);
      assert ([""] + names)[1..] == names && names[0..] == names;
      ResolveFromExisting(fs, 1, names, 0, k);
    }
  }

  lemma RootJoin()
    ensures JoinPath("/", "") == "/"
  {
    ComponentsOfRender([]);
    assert Render([]) == "/";
    assert Split("", '/') == [""] && [""][1..] == [];
    JoinComponents("/", "");
    ComponentsAreNames(JoinPath("/", ""));
    assert "/" + "/" + "" == "//";
    assert "//"[1..] == "/" && "/"[1..] == "";
    assert Split("//", '/') == ["", "", ""];
    assert ["", "", ""][1..] == ["", ""] && ["", ""][1..] == [""];
  }

  // ---------------------------------------------------------------- file systems with symlinks

  /** What a directory holds under a name. A link is to the entry it finally leads to, or `Broken`. */
  datatype Entry = Dir | File | Link(target: Names) | Broken

  /** The entries, each under the names of its directory and its own; a link that leads nowhere is not an entry. */
  type Tree = map<Names, Entry>

  /** Looking up one name in a directory that was reached. */
  function Step(tree: Tree, dir: Names, name: string): Resolved<Names> {
    var at := dir + [name];
    if dir != [] && !(dir in tree && tree[dir].Dir?) then Failed
    else if at !in tree then NotExist
    else match tree[at]
      case Dir => Found(at)
      case File => Found(at)
      case Link(target) => Found(target)
      case Broken => Failed
  }

  /** Following symlinks from the root, name by name. */
  function Walk(tree: Tree, names: Names): Resolved<Names>
    decreases |names|
  {
    if names == [] then Found([]) else
      var w := Walk(tree, names[..|names| - 1]);
      if w.Found? then Step(tree, w.target, names[|names| - 1]) else w
  }

  function Rendered(w: Resolved<Names>): Resolved<string> {
    match w
    case NotExist => NotExist
    case Failed => Failed
    case Found(target) => Found(Render(target))
  }

  /** Links lead to entries that are not links, on the way there either. */
  ghost predicate ValidTree(tree: Tree) {
    && (forall at :: at in tree ==> AreNames(at))
    && (forall at :: at in tree && tree[at].Link? ==>
          AreNames(tree[at].target) && Walk(tree, tree[at].target) == Found(tree[at].target))
  }

  function AnswersOf(tree: Tree): FileSystem {
    p => if IsAbs(p) then Rendered(Walk(tree, Components(p))) else Failed
  }

  lemma WalkMore(tree: Tree, names: Names, name: string)
    ensures var w := Walk(tree, names);
            Walk(tree, names + [name]) == if w.Found? then Step(tree, w.target, name) else w
  {
    assert (names + [name])[..|names|] == names;
  }

  /** What a walk finds is found by itself: following symlinks twice is following them once. */
  lemma {:induction false} WalkTwice(tree: Tree, names: Names)
    requires ValidTree(tree) && AreNames(names) && Walk(tree, names).Found?
    ensures var target := Walk(tree, names).target;
            AreNames(target) && Walk(tree, target) == Found(target)
    decreases |names|
  {
    if names != [] {
      var init, name := names[..|names| - 1], names[|names| - 1];
      assert names == init + [name];
      WalkTwice(tree, init);
      var dir := Walk(tree, init).target;
      WalkMore(tree, dir, name);
    }
  }

  /** So every file system with symlinks answers coherently. */
  lemma TreeCoherent(tree: Tree)
    requires ValidTree(tree)
    ensures Rooted(AnswersOf(tree)) && Coherent(AnswersOf(tree))
  {
    hide Components, Render, JoinPath, Walk, ValidTree;
    var fs := AnswersOf(tree);
    RootAnswer(tree);
    forall p, name | IsAbs(p) && p == Clean(p) && IsName(name) && fs(p).Found? && IsAbs(fs(p).target)
      ensures fs(JoinPath(p, name)) == fs(JoinPath(fs(p).target, name))
    {
      var names := Components(p);
      ComponentsAreNames(p);
      WalkTwice(tree, names);
      var target := Walk(tree, names).target;
      EntryAnswer(tree, names, name);
      EntryAnswer(tree, target, name);
    }
  }

  lemma RootAnswer(tree: Tree)
    ensures AnswersOf(tree)("/") == Found("/")
  {
    ComponentsOfRender([]);
    assert Render([]) == "/";
  }

  lemma EntryAnswer(tree: Tree, names: Names, name: string)
    requires AreNames(names) && IsName(name)
    ensures JoinPath(Render(names), name) == Render(names + [name])
    ensures var w := Walk(tree, names);
            AnswersOf(tree)(JoinPath(Render(names), name)) ==
              Rendered(if w.Found? then Step(tree, w.target, name) else w)
  {
    hide Components, Render, JoinPath, Walk, Step;
    JoinName(names, name);
    ComponentsOfRender(names + [name]);
    WalkMore(tree, names, name);
  }

  /** How many names of a path resolve before the first that does not. */
  function Depth(tree: Tree, names: Names): (k: nat)
    ensures k <= |names|
    decreases |names|
  {
    if names == [] then 0 else
      var k := Depth(tree, names[..|names| - 1]);
      if k == |names| - 1 && Walk(tree, names).Found? then |names| else k
  }

  lemma {:induction false} DepthMeaning(tree: Tree, names: Names)
    ensures var k := Depth(tree, names);
            && (forall j :: 0 <= j <= k ==> Walk(tree, names[..j]).Found?)
            && (k < |names| ==> !Walk(tree, names[..k + 1]).Found?)
    decreases |names|
  {
    assert names[..|names|] == names;
    if names != [] {
      var init := names[..|names| - 1];
      DepthMeaning(tree, init);
      assert forall j :: 0 <= j <= |init| ==> init[..j] == names[..j];
    }
  }

  /**
   * On every file system with symlinks the loop gives the entry that the longest existing part of the path leads to,
   * followed by the names that do not exist, and fails exactly when the first of those names is not just missing.
   */
  lemma ResolveTree(tree: Tree, path: string)
    requires IsAbs(path) && ValidTree(tree)
    ensures Rooted(AnswersOf(tree))
    ensures var names, r := Components(path), Resolve(Always(AnswersOf(tree)), path);
            var k := Depth(tree, names);
            && Walk(tree, names[..k]).Found?
            && (r.None? <==> k < |names| && Walk(tree, names[..k + 1]).Failed?)
            && (r.Some? ==> Components(r.value) == Walk(tree, names[..k]).target + names[k..])
  {
    hide Components, Walk, Depth, ValidTree, Resolve;
    var fs, names := AnswersOf(tree), Components(path);
    var k := Depth(tree, names);
    TreeCoherent(tree);
    DepthMeaning(tree, names);
    ComponentsAreNames(path);
    forall j | 0 <= j <= |names| ensures Components(Render(names[..j])) == names[..j] {
      ComponentsOfRender(names[..j]);
    }
    assert ExistsUpTo(fs, names, k);
    ResolveExisting(fs, path, k);
    WalkTwice(tree, names[..k]);
    ComponentsOfRender(Walk(tree, names[..k]).target);
  }
}
